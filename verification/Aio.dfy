/** An aio context as a protocol: submitters, one worker, reapers and cancellers, each
    taking the context's lock for one step at a time.
 */
module Aio {
  import opened Basics

  /** A request: the order it was accepted in, and the address the guest knows it by. */
  datatype Req = Req(num: nat, ucb: nat)

  /** What a reaper is told: which request, by the address the guest knows it by, and its result. */
  datatype Event = Event(obj: nat, res: int)

  /** `loose` says that the tail is no longer the queue's last request.  `running` is with the
      worker; `accepted` counts the requests taken so far, numbered from 0; `lost` are those that
      were linked behind a loose tail and are on no list; `given` is the result of each request
      that has been finished, and `events` what has been told of those reaped. */
  datatype State = State(max: nat, live: nat, queue: seq<Req>, loose: bool, running: Option<Req>, ready: seq<Req>,
                         stopping: bool, accepted: nat, cancelled: set<nat>, reaped: seq<nat>, lost: set<nat>,
                         given: map<nat, int>, events: seq<Event>)

  function Init(max: nat): State {
    State(max, 0, [], false, None, [], false, 0, {}, [], {}, map[], [])
  }

  datatype Step =
    | Submit(ucb: nat)
    | Take
    | Finish(res: int)
    | Reap
    | Cancel(ucb: nat)
    | Stop

  /** The first request in the queue that the guest knows as ucb. */
  ghost predicate FirstAt(q: seq<Req>, ucb: nat, i: nat) {
    i < |q| && q[i].ucb == ucb && forall j :: 0 <= j < i ==> q[j].ucb != ucb
  }

  function Submitted(s: State, ucb: nat): State {
    if s.live >= s.max then s
    else if s.loose then s.(live := s.live + 1, accepted := s.accepted + 1, lost := s.lost + {s.accepted})
    else s.(live := s.live + 1, queue := s.queue + [Req(s.accepted, ucb)], accepted := s.accepted + 1)
  }

  function Taken(s: State): State
    requires s.queue != []
  {
    s.(queue := s.queue[1..], running := Some(s.queue[0]), loose := s.loose && |s.queue| > 1)
  }

  function Finished(s: State, res: int): State
    requires s.running.Some?
  {
    s.(running := None, ready := s.ready + [s.running.value], given := s.given[s.running.value.num := res])
  }

  function ResultOf(s: State, num: nat): int {
    if num in s.given then s.given[num] else 0
  }

  function Reaped(s: State): State
    requires s.ready != [] && s.live > 0
  {
    s.(live := s.live - 1, ready := s.ready[1..], reaped := s.reaped + [s.ready[0].num],
       events := s.events + [Event(s.ready[0].ucb, ResultOf(s, s.ready[0].num))])
  }

  ghost predicate Next(s: State, s': State, a: Step) {
    match a
    case Submit(ucb) => s' == Submitted(s, ucb)
    case Take => s.queue != [] && s.running.None? && !s.stopping && s' == Taken(s)
    case Finish(res) => s.running.Some? && s' == Finished(s, res)
    case Reap => s.ready != [] && s.live > 0 && s' == Reaped(s)
    case Cancel(ucb) =>
      if exists i :: FirstAt(s.queue, ucb, i) then
        exists i :: FirstAt(s.queue, ucb, i) && Cancels(s, s', i)
      else s' == s
    case Stop => s' == s.(stopping := true)
  }

  /** Request i leaves the queue.  The tail is cleared with the queue; else, if the request was
      the last, it is left behind. */
  function Cancelled(s: State, i: nat): State
    requires i < |s.queue| && s.live > 0
  {
    s.(live := s.live - 1, queue := s.queue[..i] + s.queue[i + 1..], cancelled := s.cancelled + {s.queue[i].num},
       loose := |s.queue| > 1 && (s.loose || i == |s.queue| - 1))
  }

  ghost predicate Cancels(s: State, s': State, i: nat)
    requires i < |s.queue|
  {
    s.live > 0 && s' == Cancelled(s, i)
  }

  function Nums(rs: seq<Req>): (ns: seq<nat>)
    ensures |ns| == |rs| && forall i :: 0 <= i < |rs| ==> ns[i] == rs[i].num
  {
    seq(|rs|, i requires 0 <= i < |rs| => rs[i].num)
  }

  function With(r: Option<Req>): seq<Req> {
    if r.Some? then [r.value] else []
  }

  /** The requests accepted and not cancelled, in the order they were submitted. */
  ghost function Surviving(accepted: nat, cancelled: set<nat>): seq<nat> {
    if accepted == 0 then []
    else Surviving(accepted - 1, cancelled) + if accepted - 1 in cancelled then [] else [accepted - 1]
  }

  /** What has been reaped, is ready, running and queued is, in this order, everything that was
      accepted and neither cancelled nor lost; the last three, and what is lost, count as live. */
  ghost predicate Inv(s: State) {
    && s.reaped + Nums(s.ready + With(s.running) + s.queue) == Surviving(s.accepted, s.cancelled + s.lost)
    && (forall k :: k in s.cancelled + s.lost ==> k < s.accepted)
    && s.cancelled !! s.lost
    && s.live == |s.queue| + |With(s.running)| + |s.ready| + |s.lost| <= s.max
    && (s.loose ==> s.queue != [])
  }

  lemma {:induction false} SurvivorsRise(n: nat, c: set<nat>)
    ensures forall i :: 0 <= i < |Surviving(n, c)| ==> Surviving(n, c)[i] < n && Surviving(n, c)[i] !in c
    ensures forall i, j :: 0 <= i < j < |Surviving(n, c)| ==> Surviving(n, c)[i] < Surviving(n, c)[j]
  {
    if n > 0 {
      SurvivorsRise(n - 1, c);
    }
  }

  /** Every request not cancelled is among them. */
  lemma {:induction false} SurvivorsAll(n: nat, c: set<nat>, k: nat)
    requires k < n && k !in c
    ensures k in Surviving(n, c)
  {
    if k < n - 1 {
      SurvivorsAll(n - 1, c, k);
    }
  }

  lemma {:induction false} CancelledLater(n: nat, c: set<nat>, k: nat)
    requires k >= n
    ensures Surviving(n, c + {k}) == Surviving(n, c)
  {
    if n > 0 {
      CancelledLater(n - 1, c, k);
    }
  }

  lemma LastSurvives(n: nat, c: set<nat>)
    requires n > 0 && n - 1 !in c
    ensures Surviving(n, c) == Surviving(n - 1, c) + [n - 1]
  {
  }

  /** Cancelling one more takes it, and it alone, out. */
  lemma {:induction false} OneFewer(n: nat, c: set<nat>, a: seq<nat>, k: nat, b: seq<nat>)
    requires Surviving(n, c) == a + [k] + b
    ensures Surviving(n, c + {k}) == a + b
    decreases n
  {
    SurvivorsRise(n, c);
    var all := Surviving(n, c);
    assert all[|a|] == k;
    if n - 1 in c {
      OneFewer(n - 1, c, a, k, b);
    } else if b == [] {
      assert all[..|a|] == a == Surviving(n - 1, c);
      CancelledLater(n - 1, c, k);
    } else {
      var b' := b[..|b| - 1];
      assert all[..|all| - 1] == a + [k] + b' == Surviving(n - 1, c);
      OneFewer(n - 1, c, a, k, b');
      assert all[|all| - 1] == n - 1 && k < n - 1;
      hide Surviving;
      assert b == b' + [n - 1];
      LastSurvives(n, c + {k});
      assert a + b' + [n - 1] == a + b;
    }
  }

  lemma NextKeeps(s: State, s': State, a: Step)
    requires Inv(s) && Next(s, s', a)
    ensures Inv(s')
  {
    match a
    case Submit(ucb) => SubmitKeeps(s, s', ucb);
    case Take => assert s.ready + [] + s.queue == s.ready + [s.queue[0]] + s.queue[1..];
    case Finish(_) => assert s.ready + [s.running.value] + s.queue == (s.ready + [s.running.value]) + [] + s.queue;
    case Reap => ReapKeeps(s, s');
    case Cancel(ucb) =>
      if s' != s {
        var i :| FirstAt(s.queue, ucb, i) && Cancels(s, s', i);
        CancelKeeps(s, s', i);
      }
    case Stop =>
  }

  lemma SubmitKeeps(s: State, s': State, ucb: nat)
    requires Inv(s) && Next(s, s', Submit(ucb))
    ensures Inv(s')
  {
    hide Inv;
    if s.live < s.max {
      if s.loose {
        StrandKeeps(s, ucb);
      } else {
        AppendKeeps(s, ucb);
      }
    }
  }

  lemma StrandKeeps(s: State, ucb: nat)
    requires Inv(s) && s.live < s.max && s.loose
    ensures Inv(Submitted(s, ucb))
  {
    hide Surviving, Nums, With;
    var c, s' := s.cancelled + s.lost, Submitted(s, ucb);
    SurvivingNext(s.accepted, c, c + {s.accepted});
    assert s'.cancelled + s'.lost == c + {s.accepted};
  }

  lemma AppendKeeps(s: State, ucb: nat)
    requires Inv(s) && s.live < s.max && !s.loose
    ensures Inv(Submitted(s, ucb))
  {
    hide Surviving, Nums, With;
    var c, r, before := s.cancelled + s.lost, Req(s.accepted, ucb), s.ready + With(s.running) + s.queue;
    SurvivingNext(s.accepted, c, c + {s.accepted});
    NumsSplit(before, r, []);
    assert s.ready + With(s.running) + (s.queue + [r]) == before + [r] + [];
    Appended(s.reaped, Nums(before), Nums([]), s.accepted);
  }

  lemma Appended(a: seq<nat>, b: seq<nat>, e: seq<nat>, k: nat)
    requires e == []
    ensures a + (b + [k] + e) == a + b + [k]
  {
  }

  /** One more request accepted, and one more accepted and set aside at once. */
  lemma SurvivingNext(n: nat, c: set<nat>, c': set<nat>)
    requires n !in c && c' == c + {n}
    ensures Surviving(n + 1, c) == Surviving(n, c) + [n] && Surviving(n + 1, c') == Surviving(n, c)
  {
    CancelledLater(n, c, n);
  }

  lemma ReapKeeps(s: State, s': State)
    requires Inv(s) && Next(s, s', Reap)
    ensures Inv(s')
  {
    hide Surviving;
    var rest := s'.ready + With(s'.running) + s'.queue;
    assert s.ready + With(s.running) + s.queue == [s.ready[0]] + rest;
    assert Nums([s.ready[0]] + rest) == [s.ready[0].num] + Nums(rest);
    assert s.reaped + ([s.ready[0].num] + Nums(rest)) == s'.reaped + Nums(rest);
  }

  lemma CancelKeeps(s: State, s': State, i: nat)
    requires Inv(s) && i < |s.queue| && Cancels(s, s', i)
    ensures Inv(s')
  {
    hide Surviving, Nums;
    CancelOrder(s, i);
    assert s'.cancelled + s'.lost == s.cancelled + s.lost + {s.queue[i].num};
  }

  lemma CancelOrder(s: State, i: nat)
    requires Inv(s) && i < |s.queue|
    ensures var c, k := s.cancelled + s.lost, s.queue[i].num;
            && k < s.accepted && k !in c
            && s.reaped + Nums(s.ready + With(s.running) + (s.queue[..i] + s.queue[i + 1..])) ==
              Surviving(s.accepted, c + {k})
  {
    hide Surviving, Nums;
    var front, back, k := s.ready + With(s.running) + s.queue[..i], s.queue[i + 1..], s.queue[i].num;
    var c := s.cancelled + s.lost;
    Around(s.ready + With(s.running), s.queue, i);
    NumsSplit(front, s.queue[i], back);
    Regroup(s.reaped, Nums(front), k, Nums(back));
    SurvivorsRise(s.accepted, c);
    assert Surviving(s.accepted, c)[|s.reaped + Nums(front)|] == k;
    OneFewer(s.accepted, c, s.reaped + Nums(front), k, Nums(back));
  }

  /** A queue, taken apart at its i-th request. */
  lemma Around(a: seq<Req>, q: seq<Req>, i: nat)
    requires i < |q|
    ensures a + q == a + q[..i] + [q[i]] + q[i + 1..] && a + (q[..i] + q[i + 1..]) == a + q[..i] + q[i + 1..]
  {
    assert q == q[..i] + [q[i]] + q[i + 1..];
  }

  lemma Regroup(a: seq<nat>, b: seq<nat>, k: nat, e: seq<nat>)
    ensures a + (b + [k] + e) == a + b + [k] + e && a + (b + e) == a + b + e
  {
  }

  lemma NumsSplit(a: seq<Req>, r: Req, b: seq<Req>)
    ensures Nums(a + [r] + b) == Nums(a) + [r.num] + Nums(b)
    ensures Nums(a + b) == Nums(a) + Nums(b)
  {
  }

  /** The request that is running is none of those reaped or ready. */
  lemma RunningApart(s: State)
    requires Inv(s) && s.running.Some?
    ensures s.running.value.num !in s.reaped && s.running.value.num !in Nums(s.ready)
  {
    hide Surviving, Nums;
    SurvivorsRise(s.accepted, s.cancelled + s.lost);
    NumsSplit(s.ready, s.running.value, s.queue);
    OneOfRising(s.reaped, Nums(s.ready), s.running.value.num, Nums(s.queue));
  }

  lemma OneOfRising(a: seq<nat>, b: seq<nat>, k: nat, c: seq<nat>)
    requires var all := a + (b + [k] + c); forall i, j :: 0 <= i < j < |all| ==> all[i] < all[j]
    ensures k !in a && k !in b
  {
    var all := a + (b + [k] + c);
    var n := |a| + |b|;
    assert all[n] == k;
    forall i | 0 <= i < |a|
      ensures a[i] != k
    {
      assert all[i] == a[i] && all[i] < all[n];
    }
    forall i | 0 <= i < |b|
      ensures b[i] != k
    {
      assert all[|a| + i] == b[i] && all[|a| + i] < all[n];
    }
  }

  // ---- every run ----

  ghost predicate Run(ss: seq<State>, run: seq<Step>) {
    && |ss| == |run| + 1 && ss[0] == Init(ss[0].max)
    && forall i :: 0 <= i < |run| ==> Next(ss[i], ss[i + 1], run[i])
  }

  lemma {:induction false} Always(ss: seq<State>, run: seq<Step>, i: nat)
    requires Run(ss, run) && i < |ss|
    ensures Inv(ss[i])
  {
    hide Next;
    if i > 0 {
      Always(ss, run, i - 1);
      NextKeeps(ss[i - 1], ss[i], run[i - 1]);
    }
  }

  /** The step accepts a request while the tail is loose. */
  ghost predicate Strands(s: State, a: Step) {
    a.Submit? && s.live < s.max && s.loose
  }

  /** No request has been submitted behind a loose tail in the first i steps. */
  ghost predicate Unstranded(ss: seq<State>, run: seq<Step>, i: nat)
    requires i <= |run| < |ss|
  {
    forall j :: 0 <= j < i ==> !Strands(ss[j], run[j])
  }

  lemma {:induction false} LostExactly(ss: seq<State>, run: seq<Step>, i: nat)
    requires Run(ss, run) && i < |ss|
    ensures ss[i].lost == {} <==> Unstranded(ss, run, i)
  {
    hide Inv, Next, Strands;
    if i > 0 {
      LostExactly(ss, run, i - 1);
      LostStep(ss[i - 1], ss[i], run[i - 1]);
    }
  }

  lemma LostStep(s: State, s': State, a: Step)
    requires Next(s, s', a)
    ensures s'.lost == if Strands(s, a) then s.lost + {s.accepted} else s.lost
  {
  }

  /** In every interleaving no more than max are live; and what is live is what is queued, running or
      ready exactly if no request was submitted behind a loose tail. */
  lemma Conserved(ss: seq<State>, run: seq<Step>, i: nat)
    requires Run(ss, run) && i < |ss|
    ensures ss[i].live <= ss[i].max
    ensures ss[i].live == |ss[i].queue| + |With(ss[i].running)| + |ss[i].ready| <==> Unstranded(ss, run, i)
  {
    hide Next, Unstranded;
    Always(ss, run, i);
    LostExactly(ss, run, i);
    assert |ss[i].lost| == 0 <==> ss[i].lost == {};
  }

  /** Requests are reaped in the order they were submitted, none twice, none that was cancelled,
      and none is passed over: an earlier one was reaped before, cancelled, or lost. */
  lemma ReapedInOrder(ss: seq<State>, run: seq<Step>, i: nat)
    requires Run(ss, run) && i < |ss|
    ensures var s := ss[i];
            && (forall a, b :: 0 <= a < b < |s.reaped| ==> s.reaped[a] < s.reaped[b])
            && (forall a :: 0 <= a < |s.reaped| ==> s.reaped[a] < s.accepted && s.reaped[a] !in s.cancelled)
            && (forall a, k: nat :: 0 <= a < |s.reaped| && k < s.reaped[a] ==>
                  k in s.reaped || k in s.cancelled + s.lost)
  {
    hide Next;
    var s := ss[i];
    var c := s.cancelled + s.lost;
    Always(ss, run, i);
    SurvivorsRise(s.accepted, c);
    var all := Surviving(s.accepted, c);
    assert forall a :: 0 <= a < |s.reaped| ==> all[a] == s.reaped[a];
    forall a, k: nat | 0 <= a < |s.reaped| && k < s.reaped[a]
      ensures k in s.reaped || k in c
    {
      if k !in c {
        SurvivorsAll(s.accepted, c, k);
        var j :| 0 <= j < |all| && all[j] == k;
        assert j < a;
        assert s.reaped[j] == k;
      }
    }
  }

  /** Request k was reaped or cancelled, or is still in the context. */
  ghost predicate Kept(s: State, k: nat) {
    k in s.cancelled || k in s.reaped || k in Nums(s.ready + With(s.running) + s.queue)
  }

  /** Every accepted request is, exactly if none was submitted behind a loose tail. */
  lemma NothingLost(ss: seq<State>, run: seq<Step>, i: nat)
    requires Run(ss, run) && i < |ss|
    ensures (forall k: nat :: k < ss[i].accepted ==> Kept(ss[i], k)) <==> Unstranded(ss, run, i)
  {
    hide Next, Unstranded;
    var s := ss[i];
    var c := s.cancelled + s.lost;
    Always(ss, run, i);
    LostExactly(ss, run, i);
    SurvivorsRise(s.accepted, c);
    var all := Surviving(s.accepted, c);
    forall k: nat | k < s.accepted
      ensures Kept(s, k) <==> k !in s.lost
    {
      if k !in c {
        SurvivorsAll(s.accepted, c, k);
      } else if k in s.lost {
        LostIsNowhere(s, k);
      }
    }
    if s.lost != {} {
      var k :| k in s.lost;
      assert k < s.accepted && !Kept(s, k);
    }
  }

  lemma LostIsNowhere(s: State, k: nat)
    requires Inv(s) && k in s.lost
    ensures !Kept(s, k)
  {
    var c := s.cancelled + s.lost;
    SurvivorsRise(s.accepted, c);
    var all := Surviving(s.accepted, c);
    var rest := Nums(s.ready + With(s.running) + s.queue);
    assert k !in all;
    assert forall j :: 0 <= j < |s.reaped| ==> all[j] == s.reaped[j];
    assert forall j :: 0 <= j < |rest| ==> all[|s.reaped| + j] == rest[j];
  }

  /** Two requests, the second cancelled, and a third, which is accepted and lost. */
  lemma ThirdIsLost() returns (ss: seq<State>, run: seq<Step>)
    ensures Run(ss, run) && ss[|run|].accepted == 3 && ss[|run|].live == 2 && !Kept(ss[|run|], 2)
  {
    var s0 := Init(4);
    var s1 := s0.(live := 1, queue := [Req(0, 10)], accepted := 1);
    var s2 := s1.(live := 2, queue := [Req(0, 10), Req(1, 20)], accepted := 2);
    var s3 := s2.(live := 1, queue := [Req(0, 10)], cancelled := {1}, loose := true);
    var s4 := s3.(live := 2, accepted := 3, lost := {2});
    ss, run := [s0, s1, s2, s3, s4], [Submit(10), Submit(20), Cancel(20), Submit(30)];
    assert Next(s0, s1, run[0]) && Next(s1, s2, run[1]) && Next(s3, s4, run[3]);
    assert FirstAt(s2.queue, 20, 1) && s2.queue[..1] + s2.queue[2..] == [Req(0, 10)];
    assert Cancels(s2, s3, 1);
    assert Next(s2, s3, run[2]);
  }
}
