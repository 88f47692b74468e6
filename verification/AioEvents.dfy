/** What the events an aio context gives say of the requests they are for, over every run. */
module AioEvents {
  import opened Aio
  import opened Basics

  /** Request n was accepted, in the first i steps, by a submit with this address. */
  ghost predicate Asked(ss: seq<State>, run: seq<Step>, i: nat, n: nat, ucb: nat)
    requires i <= |run| < |ss|
  {
    exists j :: 0 <= j < i && run[j] == Submit(ucb) && ss[j].accepted == n && ss[j].live < ss[j].max
  }

  /** The worker had request n, at one of the first i steps, and finished it with this result. */
  ghost predicate Given(ss: seq<State>, run: seq<Step>, i: nat, n: nat, res: int)
    requires i <= |run| < |ss|
  {
    exists j :: 0 <= j < i && run[j] == Finish(res) && ss[j].running.Some? && ss[j].running.value.num == n
  }

  /** Every request in the context has the address it was submitted with. */
  ghost predicate Addresses(ss: seq<State>, run: seq<Step>, i: nat)
    requires i <= |run| < |ss|
  {
    var s := ss[i];
    forall r :: r in s.queue || r in With(s.running) || r in s.ready ==> Asked(ss, run, i, r.num, r.ucb)
  }

  /** Every result is the one its request was finished with. */
  ghost predicate Results(ss: seq<State>, run: seq<Step>, i: nat)
    requires i <= |run| < |ss|
  {
    forall n :: n in ss[i].given ==> Given(ss, run, i, n, ss[i].given[n])
  }

  /** The event is of request n. */
  ghost predicate Tells(ss: seq<State>, run: seq<Step>, i: nat, n: nat, e: Event)
    requires i <= |run| < |ss|
  {
    Asked(ss, run, i, n, e.obj) && n in ss[i].given && e.res == ss[i].given[n]
  }

  /** Every event told so far is of the request reaped then. */
  ghost predicate Told(ss: seq<State>, run: seq<Step>, i: nat)
    requires i <= |run| < |ss|
  {
    && |ss[i].events| == |ss[i].reaped|
    && forall a :: 0 <= a < |ss[i].events| ==> Tells(ss, run, i, ss[i].reaped[a], ss[i].events[a])
  }

  /** What has a result has been reaped or is ready. */
  ghost predicate Numbered(s: State) {
    forall n :: n in s.given <==> n in s.reaped || n in Nums(s.ready)
  }

  ghost predicate True(ss: seq<State>, run: seq<Step>, i: nat)
    requires i <= |run| < |ss|
  {
    Addresses(ss, run, i) && Results(ss, run, i) && Told(ss, run, i) && Numbered(ss[i])
  }

  lemma AskedStill(ss: seq<State>, run: seq<Step>, i: nat, n: nat, ucb: nat)
    requires i < |run| < |ss| && Asked(ss, run, i, n, ucb)
    ensures Asked(ss, run, i + 1, n, ucb)
  {
  }

  lemma GivenStill(ss: seq<State>, run: seq<Step>, i: nat, n: nat, res: int)
    requires i < |run| < |ss| && Given(ss, run, i, n, res)
    ensures Given(ss, run, i + 1, n, res)
  {
  }

  /** Where a request in the context after a step comes from. */
  lemma Origin(s: State, s': State, a: Step, r: Req)
    requires Next(s, s', a) && (r in s'.queue || r in With(s'.running) || r in s'.ready)
    ensures || r in s.queue || r in With(s.running) || r in s.ready
            || (a == Submit(r.ucb) && s.live < s.max && r.num == s.accepted)
  {
    if a.Cancel? && s' != s {
      var i :| FirstAt(s.queue, a.ucb, i) && Cancels(s, s', i);
    }
  }

  lemma {:induction false} AlwaysTrue(ss: seq<State>, run: seq<Step>, i: nat)
    requires Run(ss, run) && i < |ss|
    ensures True(ss, run, i)
  {
    if i > 0 {
      hide Next, True, Inv;
      AlwaysTrue(ss, run, i - 1);
      Always(ss, run, i - 1);
      TrueNext(ss, run, i - 1);
    }
  }

  lemma TrueNext(ss: seq<State>, run: seq<Step>, i: nat)
    requires i < |run| < |ss| && Next(ss[i], ss[i + 1], run[i]) && Inv(ss[i]) && True(ss, run, i)
    ensures True(ss, run, i + 1)
  {
    hide Next, Inv, Addresses, Results, Told, Numbered;
    AddressesNext(ss, run, i);
    GivenNext(ss[i], ss[i + 1], run[i]);
    ResultsNext(ss, run, i);
    EventsNext(ss[i], ss[i + 1], run[i]);
    ToldNext(ss, run, i);
  }

  lemma AddressesNext(ss: seq<State>, run: seq<Step>, i: nat)
    requires i < |run| < |ss| && Next(ss[i], ss[i + 1], run[i]) && Addresses(ss, run, i)
    ensures Addresses(ss, run, i + 1)
  {
    hide Next;
    var s, s', a := ss[i], ss[i + 1], run[i];
    forall r | r in s'.queue || r in With(s'.running) || r in s'.ready
      ensures Asked(ss, run, i + 1, r.num, r.ucb)
    {
      Origin(s, s', a, r);
      if r in s.queue || r in With(s.running) || r in s.ready {
        AskedStill(ss, run, i, r.num, r.ucb);
      }
    }
  }

  /** Only a finish gives a result, and to a request that had none. */
  lemma GivenNext(s: State, s': State, a: Step)
    requires Inv(s) && Next(s, s', a) && Numbered(s)
    ensures Numbered(s')
    ensures if a.Finish? then
              && s.running.Some? && s.running.value.num !in s.given && s'.given == s.given[s.running.value.num := a.res]
            else s'.given == s.given
  {
    hide Numbered;
    if a.Finish? {
      hide Inv;
      FinishNumbers(s, a.res);
    } else if a.Reap? {
      hide Inv;
      ReapNumbers(s);
    } else {
      hide Inv, Next;
      SameResults(s, s', a);
      SameNumbers(s, s');
    }
  }

  lemma FinishNumbers(s: State, res: int)
    requires Inv(s) && s.running.Some? && Numbered(s)
    ensures Numbered(Finished(s, res)) && s.running.value.num !in s.given
  {
    RunningApart(s);
    hide Inv;
    assert Nums(s.ready + [s.running.value]) == Nums(s.ready) + [s.running.value.num];
  }

  lemma ReapNumbers(s: State)
    requires s.ready != [] && s.live > 0 && Numbered(s)
    ensures Numbered(Reaped(s))
  {
    assert Nums(s.ready) == [s.ready[0].num] + Nums(s.ready[1..]);
  }

  lemma SameNumbers(s: State, s': State)
    requires Numbered(s) && s'.given == s.given && s'.reaped == s.reaped && s'.ready == s.ready
    ensures Numbered(s')
  {
  }

  lemma SameResults(s: State, s': State, a: Step)
    requires Next(s, s', a) && !a.Finish? && !a.Reap?
    ensures s'.given == s.given && s'.reaped == s.reaped && s'.ready == s.ready
  {
  }

  lemma ResultsNext(ss: seq<State>, run: seq<Step>, i: nat)
    requires i < |run| < |ss| && Results(ss, run, i)
    requires var s, s', a := ss[i], ss[i + 1], run[i];
             if a.Finish? then s.running.Some? && s'.given == s.given[s.running.value.num := a.res]
             else s'.given == s.given
    ensures Results(ss, run, i + 1)
  {
    var s, s', a := ss[i], ss[i + 1], run[i];
    forall n | n in s'.given
      ensures Given(ss, run, i + 1, n, s'.given[n])
    {
      if !(a.Finish? && n == s.running.value.num) {
        GivenStill(ss, run, i, n, s.given[n]);
      }
    }
  }

  /** Only a reap tells an event, of the request it takes. */
  lemma EventsNext(s: State, s': State, a: Step)
    requires Next(s, s', a) && Numbered(s)
    ensures if a.Reap? then
              && s.ready != [] && s.ready[0].num in s.given
              && s'.events == s.events + [Event(s.ready[0].ucb, s.given[s.ready[0].num])]
              && s'.reaped == s.reaped + [s.ready[0].num]
            else s'.events == s.events && s'.reaped == s.reaped
  {
    if a.Reap? {
      assert Nums(s.ready)[0] == s.ready[0].num;
    }
  }

  lemma ToldNext(ss: seq<State>, run: seq<Step>, i: nat)
    requires i < |run| < |ss| && Addresses(ss, run, i) && Told(ss, run, i)
    requires forall n :: n in ss[i].given ==> n in ss[i + 1].given && ss[i + 1].given[n] == ss[i].given[n]
    requires var s, s', a := ss[i], ss[i + 1], run[i];
             if a.Reap? then
               && s.ready != [] && s.ready[0].num in s.given
               && s'.events == s.events + [Event(s.ready[0].ucb, s.given[s.ready[0].num])]
               && s'.reaped == s.reaped + [s.ready[0].num]
             else s'.events == s.events && s'.reaped == s.reaped
    ensures Told(ss, run, i + 1)
  {
    hide Asked;
    var s, s', a := ss[i], ss[i + 1], run[i];
    forall k | 0 <= k < |s'.events|
      ensures Tells(ss, run, i + 1, s'.reaped[k], s'.events[k])
    {
      if k < |s.events| {
        assert Tells(ss, run, i, s.reaped[k], s.events[k]);
      } else {
        assert s.ready[0] in s.ready;
      }
      AskedStill(ss, run, i, s'.reaped[k], s'.events[k].obj);
    }
  }

  /** In every run, the event told of a reaped request has the address it was submitted with and the result it was
      finished with, and it was finished once. */
  lemma EventsTrue(ss: seq<State>, run: seq<Step>, i: nat, a: nat)
    requires Run(ss, run) && i < |ss| && a < |ss[i].events|
    ensures a < |ss[i].reaped| == |ss[i].events|
    ensures Asked(ss, run, i, ss[i].reaped[a], ss[i].events[a].obj)
    ensures Given(ss, run, i, ss[i].reaped[a], ss[i].events[a].res)
    ensures forall res :: Given(ss, run, i, ss[i].reaped[a], res) ==> res == ss[i].events[a].res
  {
    AlwaysTrue(ss, run, i);
    hide Next, Inv, Addresses, Numbered;
    var n := ss[i].reaped[a];
    assert Tells(ss, run, i, n, ss[i].events[a]);
    forall res | Given(ss, run, i, n, res)
      ensures res == ss[i].given[n]
    {
      var j :| 0 <= j < i && run[j] == Finish(res) && ss[j].running.Some? && ss[j].running.value.num == n;
      ResultLasts(ss, run, j, i);
    }
  }

  /** A result once given is the request's for good. */
  lemma {:induction false} ResultLasts(ss: seq<State>, run: seq<Step>, j: nat, i: nat)
    requires Run(ss, run) && j < i < |ss| && run[j].Finish? && ss[j].running.Some?
    ensures var n := ss[j].running.value.num; n in ss[i].given && ss[i].given[n] == run[j].res
    decreases i
  {
    hide Next, Addresses, Results, Told, Numbered, Inv;
    if i == j + 1 {
      GivenNow(ss[j], ss[i], run[j]);
    } else {
      ResultLasts(ss, run, j, i - 1);
      Always(ss, run, i - 1);
      AlwaysTrue(ss, run, i - 1);
      GivenKept(ss, run, i - 1, ss[j].running.value.num);
    }
  }

  lemma GivenNow(s: State, s': State, a: Step)
    requires Next(s, s', a) && a.Finish? && s.running.Some?
    ensures s.running.value.num in s'.given && s'.given[s.running.value.num] == a.res
  {
  }

  lemma GivenKept(ss: seq<State>, run: seq<Step>, i: nat, n: nat)
    requires i < |run| < |ss| && Next(ss[i], ss[i + 1], run[i]) && Inv(ss[i]) && Numbered(ss[i]) && n in ss[i].given
    ensures n in ss[i + 1].given && ss[i + 1].given[n] == ss[i].given[n]
  {
    hide Next, Inv, Numbered;
    GivenNext(ss[i], ss[i + 1], run[i]);
  }

  /** A request that has just been queued is there to be cancelled by its address. */
  lemma SubmittedFound(s: State, s': State, ucb: nat)
    requires Next(s, s', Submit(ucb)) && s.live < s.max && !s.loose
    ensures exists i :: FirstAt(s'.queue, ucb, i)
    ensures (forall r :: r in s.queue ==> r.ucb != ucb) ==>
              FirstAt(s'.queue, ucb, |s.queue|) && s'.queue[|s.queue|].num == s.accepted
  {
    var q := s'.queue;
    assert q[|s.queue|].ucb == ucb;
    var i: nat := 0;
    while q[i].ucb != ucb
      invariant i <= |s.queue| && forall j :: 0 <= j < i ==> q[j].ucb != ucb
      decreases |q| - i
    {
      i := i + 1;
    }
    assert FirstAt(q, ucb, i);
    if forall r :: r in s.queue ==> r.ucb != ucb {
      assert forall j :: 0 <= j < |s.queue| ==> q[j] in s.queue;
    }
  }
}
