/** An aio context in memory: two linked lists with tail pointers, changed under its lock. */
module AioContext {
  import opened Aio
  import opened AioEvents
  import opened Basics

  class Node {
    ghost const num: nat
    const ucb: nat
    var res: int
    var done: bool
    var next: Node?

    constructor (ghost num: nat, ucb: nat)
      ensures this.num == num && this.ucb == ucb && next == null && !done
    {
      this.num := num;
      this.ucb, res, done, next := ucb, 0, false, null;
    }
  }

  ghost function ReqOf(n: Node): Req {
    Req(n.num, n.ucb)
  }

  ghost function Reqs(ns: seq<Node>): (rs: seq<Req>)
    ensures |rs| == |ns| && forall i :: 0 <= i < |ns| ==> rs[i] == ReqOf(ns[i])
  {
    seq(|ns|, i requires 0 <= i < |ns| => ReqOf(ns[i]))
  }

  /** Each of these requests has its result in it. */
  ghost predicate HaveResults(ns: seq<Node>, all: set<Node>, given: map<nat, int>)
    reads all`res, all`done
  {
    forall n :: n in ns ==> n in all && n.done && n.num in given && n.res == given[n.num]
  }

  // ---- lists, as the links between requests ----

  type Links = map<Node, Node?>

  ghost function Snap(all: set<Node>): Links
    reads all`next
  {
    map n | n in all :: n.next
  }

  ghost function Succ(ns: seq<Node>, i: nat): Node?
    requires i < |ns|
  {
    if i + 1 < |ns| then ns[i + 1] else null
  }

  /** Following the links from head gives exactly ns. */
  ghost predicate Spells(head: Node?, ns: seq<Node>, m: Links) {
    && head == (if ns == [] then null else ns[0])
    && (forall i :: 0 <= i < |ns| ==> ns[i] in m && m[ns[i]] == Succ(ns, i))
  }

  ghost predicate Distinct(ns: seq<Node>) {
    forall i, j :: 0 <= i < j < |ns| ==> ns[i] != ns[j]
  }

  ghost function Last(ns: seq<Node>): Node? {
    if ns == [] then null else ns[|ns| - 1]
  }

  /** No request is in two places. */
  ghost predicate Apart(qs: seq<Node>, rs: seq<Node>, running: Option<Node>) {
    && Distinct(qs) && Distinct(rs)
    && (forall n :: n in qs ==> n !in rs)
    && (running.Some? ==> running.value !in qs && running.value !in rs)
  }

  /** The queue's tail: its last request, or when it is loose a request that is nowhere. */
  ghost predicate Tail(tail: Node?, qs: seq<Node>, rs: seq<Node>, running: Option<Node>, loose: bool, m: Links) {
    if loose then
      && qs != [] && tail != null && tail in m && tail !in qs && tail !in rs
      && (running.Some? ==> running.value != tail)
    else tail == Last(qs)
  }

  /** The two lists, each with its tail, and the request that is running. */
  ghost predicate Linked(queue: Node?, queueTail: Node?, ready: Node?, readyTail: Node?,
                         qs: seq<Node>, rs: seq<Node>, running: Option<Node>, loose: bool, m: Links) {
    && Apart(qs, rs, running)
    && Spells(queue, qs, m) && Tail(queueTail, qs, rs, running, loose, m)
    && Spells(ready, rs, m) && readyTail == Last(rs)
    && (running.Some? ==> running.value in m && m[running.value] == null)
  }

  /** A link that changes elsewhere. */
  lemma Elsewhere(head: Node?, ns: seq<Node>, m: Links, n: Node, v: Node?)
    requires Spells(head, ns, m) && n !in ns
    ensures Spells(head, ns, m[n := v])
  {
  }

  /** The links once n follows the tail, if there is one. */
  ghost function After(m: Links, tail: Node?, n: Node): Links {
    if tail != null then m[tail := n][n := null] else m[n := null]
  }

  lemma SpellsMore(head: Node?, ns: seq<Node>, m: Links, n: Node)
    requires Spells(head, ns, m) && Distinct(ns) && n !in ns
    ensures Spells(if ns == [] then n else head, ns + [n], After(m, Last(ns), n)) && Distinct(ns + [n])
  {
  }

  lemma SpellsFewer(head: Node?, ns: seq<Node>, m: Links)
    requires Spells(head, ns, m) && Distinct(ns) && ns != []
    ensures Spells(m[ns[0]], ns[1..], m) && Distinct(ns[1..]) && ns[0] !in ns[1..]
    ensures Last(ns[1..]) == if m[ns[0]] == null then null else Last(ns)
    ensures forall n :: n in ns[1..] ==> n in ns
  {
    var tl := ns[1..];
    assert forall i :: 0 <= i < |tl| ==> tl[i] == ns[i + 1];
    assert m[ns[0]] == Succ(ns, 0);
    assert forall i :: 0 <= i < |tl| ==> m[tl[i]] == Succ(ns, i + 1) && Succ(tl, i) == Succ(ns, i + 1);
  }

  lemma Queued(q: Node?, qt: Node?, r: Node?, rt: Node?, qs: seq<Node>, rs: seq<Node>, run: Option<Node>, m: Links,
               n: Node)
    requires Linked(q, qt, r, rt, qs, rs, run, false, m) && n !in m
    ensures Linked(if qt == null then n else q, n, r, rt, qs + [n], rs, run, false, After(m, qt, n))
  {
    hide Distinct;
    assert n !in qs && n !in rs;
    SpellsMore(q, qs, m, n);
    if qt != null {
      Elsewhere(r, rs, m, qt, n);
      Elsewhere(r, rs, m[qt := n], n, null);
    } else {
      Elsewhere(r, rs, m, n, null);
    }
  }

  /** A request linked behind a loose tail is on no list, and is the tail now. */
  lemma Stranded(q: Node?, qt: Node?, r: Node?, rt: Node?, qs: seq<Node>, rs: seq<Node>, run: Option<Node>, m: Links,
                 n: Node)
    requires Linked(q, qt, r, rt, qs, rs, run, true, m) && n !in m
    ensures qt != null && q != null && n !in qs && n !in rs
    ensures Linked(q, n, r, rt, qs, rs, run, true, After(m, qt, n))
  {
    hide Distinct;
    assert n !in qs && n !in rs;
    Elsewhere(q, qs, m, qt, n);
    Elsewhere(q, qs, m[qt := n], n, null);
    Elsewhere(r, rs, m, qt, n);
    Elsewhere(r, rs, m[qt := n], n, null);
  }

  lemma Dequeued(q: Node?, qt: Node?, r: Node?, rt: Node?, qs: seq<Node>, rs: seq<Node>, loose: bool, m: Links)
    requires Linked(q, qt, r, rt, qs, rs, None, loose, m) && q != null
    ensures qs != [] && q == qs[0] && q in m
    ensures Linked(m[q], if m[q] == null then null else qt, r, rt, qs[1..], rs, Some(q), loose && |qs| > 1,
                   m[q := null])
  {
    hide Distinct;
    SpellsFewer(q, qs, m);
    Elsewhere(m[q], qs[1..], m, q, null);
    Elsewhere(r, rs, m, q, null);
    assert m[q] == Succ(qs, 0);
  }

  lemma Readied(q: Node?, qt: Node?, r: Node?, rt: Node?, qs: seq<Node>, rs: seq<Node>, n: Node, loose: bool, m: Links)
    requires Linked(q, qt, r, rt, qs, rs, Some(n), loose, m)
    ensures Linked(q, qt, if rt == null then n else r, n, qs, rs + [n], None, loose, After(m, rt, n))
  {
    hide Distinct;
    SpellsMore(r, rs, m, n);
    if rt != null {
      Elsewhere(q, qs, m, rt, n);
      Elsewhere(q, qs, m[rt := n], n, null);
    } else {
      Elsewhere(q, qs, m, n, null);
    }
  }

  lemma Unreadied(q: Node?, qt: Node?, r: Node?, rt: Node?, qs: seq<Node>, rs: seq<Node>, run: Option<Node>,
                  loose: bool, m: Links)
    requires Linked(q, qt, r, rt, qs, rs, run, loose, m) && r != null
    ensures rs != [] && r == rs[0] && r in m
    ensures Linked(q, qt, m[r], if m[r] == null then null else rt, qs, rs[1..], run, loose, m)
  {
    hide Distinct;
    SpellsFewer(r, rs, m);
  }

  /** The queue without its request i. */
  ghost function Without(qs: seq<Node>, i: nat): seq<Node>
    requires i < |qs|
  {
    qs[..i] + qs[i + 1..]
  }

  lemma SpellsWithout(q: Node?, qs: seq<Node>, m: Links, i: nat)
    requires Spells(q, qs, m) && Distinct(qs) && i < |qs|
    ensures var m' := if i == 0 then m else m[qs[i - 1] := m[qs[i]]];
            Spells(if i == 0 then m[qs[0]] else q, Without(qs, i), m') && Distinct(Without(qs, i))
  {
    var rest, m' := Without(qs, i), if i == 0 then m else m[qs[i - 1] := m[qs[i]]];
    hide Distinct, Succ;
    forall j | 0 <= j < |rest|
      ensures rest[j] in m' && m'[rest[j]] == Succ(rest, j)
    {
      WithoutAt(q, qs, m, i, j);
    }
    assert m[qs[0]] == Succ(qs, 0) by { SuccIs(q, qs, m, 0); }
    FirstWithout(qs, i);
  }

  lemma WithoutAt(q: Node?, qs: seq<Node>, m: Links, i: nat, j: nat)
    requires Spells(q, qs, m) && Distinct(qs) && i < |qs| && j < |qs| - 1
    ensures var m' := if i == 0 then m else m[qs[i - 1] := m[qs[i]]];
            Without(qs, i)[j] in m' && m'[Without(qs, i)[j]] == Succ(Without(qs, i), j)
  {
    var k := if j < i then j else j + 1;
    assert m[qs[k]] == Succ(qs, k) && m[qs[i]] == Succ(qs, i);
    assert i > 0 && j != i - 1 ==> qs[k] != qs[i - 1];
  }

  lemma SuccIs(q: Node?, qs: seq<Node>, m: Links, k: nat)
    requires Spells(q, qs, m) && k < |qs|
    ensures qs[k] in m && m[qs[k]] == Succ(qs, k)
  {
  }

  lemma FirstWithout(qs: seq<Node>, i: nat)
    requires i < |qs|
    ensures (if i == 0 then Succ(qs, 0) else qs[0]) == if Without(qs, i) == [] then null else Without(qs, i)[0]
    ensures Distinct(qs) ==> Distinct(Without(qs, i))
  {
  }

  /** Taking request i out of the queue leaves both lists right.  The tail is left loose exactly if the
      request was the last of several, or the tail was loose and the queue is not empty now. */
  lemma Unlinked(q: Node?, qt: Node?, r: Node?, rt: Node?, qs: seq<Node>, rs: seq<Node>, run: Option<Node>, loose: bool,
                 m: Links, i: nat)
    requires Linked(q, qt, r, rt, qs, rs, run, loose, m) && i < |qs|
    ensures qs[i] in m
    ensures var m' := if i == 0 then m else m[qs[i - 1] := m[qs[i]]];
            var q' := if i == 0 then m[qs[0]] else q;
            var qt' := if q' == null then null else qt;
            && Linked(q', qt', r, rt, Without(qs, i), rs, run, |qs| > 1 && (loose || i == |qs| - 1), m')
            && (qt' == Last(Without(qs, i)) <==> !(|qs| > 1 && (loose || i == |qs| - 1)))
  {
    var rest := Without(qs, i);
    SpellsWithout(q, qs, m, i);
    assert forall n :: n in rest ==> n in qs;
    if i > 0 {
      Elsewhere(r, rs, m, qs[i - 1], m[qs[i]]);
    }
    assert rest == [] <==> |qs| == 1;
    LastWithout(qs, i);
  }

  lemma LastWithout(qs: seq<Node>, i: nat)
    requires i < |qs|
    ensures Last(Without(qs, i)) == (if |qs| == 1 then null else if i == |qs| - 1 then qs[i - 1] else qs[|qs| - 1])
    ensures Distinct(qs) ==> qs[i] !in Without(qs, i)
  {
  }

  class Context {
    const max: nat
    var live: nat
    var queue: Node?
    var queueTail: Node?
    var ready: Node?
    var readyTail: Node?
    var stopping: bool

    /** The requests on each list, whether the queue's tail is loose, the request running,
        and every one there has been. */
    ghost var qs: seq<Node>
    ghost var loose: bool
    ghost var rs: seq<Node>
    ghost var running: Option<Node>
    ghost var repr: set<Node>

    /** The protocol's view of the context. */
    ghost var state: State

    ghost predicate Matches()
      reads this
    {
      && state.max == max && state.live == live && state.stopping == stopping
      && state.queue == Reqs(qs) && state.loose == loose && state.ready == Reqs(rs)
      && state.running == if running.Some? then Some(ReqOf(running.value)) else None
    }

    ghost predicate Lists()
      reads this`queue, this`queueTail, this`ready, this`readyTail, this`qs, this`rs, this`running, this`loose,
        this`repr, repr`next
    {
      Linked(queue, queueTail, ready, readyTail, qs, rs, running, loose, Snap(repr))
    }

    ghost predicate Valid()
      reads this, repr`next, repr`res, repr`done
    {
      Lists() && Matches() && Inv(state) && HaveResults(rs, repr, state.given)
    }

    constructor (max: nat)
      ensures Valid() && state == Init(max) && repr == {} && this.max == max && running == None
    {
      this.max, live, queue, queueTail, ready, readyTail, stopping := max, 0, null, null, null, null, false;
      qs, loose, rs, running, repr, state := [], false, [], None, {}, Init(max);
    }

    /** io_destroy: the worker is told to stop. */
    method Halt()
      requires Valid()
      modifies this`stopping, this`state
      ensures Valid() && Next(old(state), state, Aio.Stop)
    {
      hide Inv, Lists, HaveResults;
      NextKeeps(state, state.(stopping := true), Aio.Stop);
      stopping, state := true, state.(stopping := true);
    }

    /** A request is linked behind the tail, unless as many are live as may be. */
    method Submit(ucb: nat) returns (ok: bool)
      requires Valid()
      modifies this, repr`next
      ensures Valid() && fresh(repr - old(repr)) && running == old(running)
      ensures Next(old(state), state, Aio.Submit(ucb)) && (ok <==> old(live) < max)
    {
      hide Inv, Lists, Reqs, Next;
      SubmitStep(state, ucb);
      if live >= max {
        return false;
      }
      var r := new Node(state.accepted, ucb);
      live := live + 1;
      ReqsMore(qs, r);
      Enqueue(r);
      state := Submitted(state, ucb);
      return true;
    }

    /** The worker takes the first request off the queue. */
    method Take() returns (r: Node)
      requires Valid() && queue != null && running.None? && !stopping
      modifies this, repr`next
      ensures Valid() && repr == old(repr) && running == Some(r)
      ensures Next(old(state), state, Aio.Take)
    {
      hide Inv, Lists, Reqs, HaveResults;
      r := Dequeue();
      ReqsFewer(old(qs));
      NextKeeps(state, Taken(state), Aio.Take);
      state := Taken(state);
    }

    /** The worker puts what it has run on the ready list. */
    method Finish(r: Node, res: int)
      requires Valid() && running == Some(r)
      modifies this, r`res, r`done, repr`next
      ensures Valid() && repr == old(repr) && running == None && r.res == res && r.done
      ensures forall n :: n in repr && n != r ==> n.res == old(n.res) && n.done == old(n.done)
      ensures Next(old(state), state, Aio.Finish(res))
    {
      hide Inv, Lists, Reqs, HaveResults;
      RunsInside();
      Unfinished();
      SetResult(r, res);
      MakeReady(r);
      ReqsMore(old(rs), r);
      NextKeeps(state, Finished(state, res), Aio.Finish(res));
      state := Finished(state, res);
    }

    method SetResult(r: Node, res: int)
      requires HaveResults(rs, repr, state.given) && r in repr
      requires forall n :: n in rs ==> n != r && n.num != r.num
      modifies r`res, r`done
      ensures r.res == res && r.done && HaveResults(rs + [r], repr, state.given[r.num := res])
    {
      r.res, r.done := res, true;
    }

    /** No request that is ready has the number of the one that is running. */
    lemma Unfinished()
      requires Valid()
      ensures running.Some? ==> forall n :: n in rs ==> n != running.value && n.num != running.value.num
    {
      hide Lists;
      if running.Some? {
        RunningApart(state);
        assert forall n :: n in rs ==> exists i :: 0 <= i < |rs| && rs[i] == n && state.ready[i].num == n.num;
      }
    }

    /** A reaper takes the first request off the ready list. */
    method Reap() returns (r: Node)
      requires Valid() && ready != null
      modifies this
      ensures Valid() && repr == old(repr) && running == old(running) && state.reaped == old(state).reaped + [r.num]
      ensures state.events == old(state).events + [Event(r.ucb, r.res)]
      ensures Next(old(state), state, Aio.Reap)
    {
      hide Inv, Lists, Reqs;
      r := TakeReady();
      ReqsFewer(old(rs));
      SomeLive(state);
      NextKeeps(state, Reaped(state), Aio.Reap);
      live := live - 1;
      state := Reaped(state);
    }

    // ---- the lists ----

    /** The lists are empty exactly when the protocol's are. */
    lemma Seen()
      requires Valid()
      ensures (queue == null <==> state.queue == []) && (ready == null <==> state.ready == [])
      ensures (running.None? <==> state.running.None?) && stopping == state.stopping
    {
      hide Inv, HaveResults;
    }

    lemma RunnerInside()
      requires Valid()
      ensures running.Some? ==> running.value in repr
    {
      RunsInside();
    }

    lemma RunsInside()
      requires Lists()
      ensures running.Some? ==> running.value in repr
    {
    }

    method Enqueue(r: Node)
      requires Lists() && r !in repr && r.next == null
      modifies this`queue, this`queueTail, this`qs, this`repr, repr`next
      ensures Lists() && qs == (if loose then old(qs) else old(qs) + [r]) && repr == old(repr) + {r}
    {
      hide Linked;
      ghost var m, tail := Snap(repr), queueTail;
      TailsInside(queue, queueTail, ready, readyTail, qs, rs, running, loose, m);
      if loose {
        Stranded(queue, queueTail, ready, readyTail, qs, rs, running, m, r);
      } else {
        Queued(queue, queueTail, ready, readyTail, qs, rs, running, m, r);
      }
      if queueTail != null {
        queueTail.next := r;
      } else {
        queue := r;
      }
      queueTail := r;
      qs, repr := if loose then qs else qs + [r], repr + {r};
      assert Snap(repr) == After(m, tail, r);
    }

    method Dequeue() returns (r: Node)
      requires Lists() && queue != null && running.None?
      modifies this`queue, this`queueTail, this`qs, this`running, this`loose, repr`next
      ensures Lists() && old(qs) != [] && r == old(qs)[0] && qs == old(qs)[1..] && running == Some(r)
      ensures loose == (old(loose) && |old(qs)| > 1)
    {
      hide Linked;
      ghost var m := Snap(repr);
      Dequeued(queue, queueTail, ready, readyTail, qs, rs, loose, m);
      r := queue;
      queue := r.next;
      if queue == null {
        queueTail := null;
      }
      r.next := null;
      qs, running, loose := qs[1..], Some(r), loose && |qs| > 1;
      assert Snap(repr) == m[r := null];
    }

    method MakeReady(r: Node)
      requires Lists() && running == Some(r)
      modifies this`ready, this`readyTail, this`rs, this`running, repr`next
      ensures Lists() && rs == old(rs) + [r] && running == None
    {
      hide Linked;
      ghost var m, tail := Snap(repr), readyTail;
      TailsInside(queue, queueTail, ready, readyTail, qs, rs, running, loose, m);
      Readied(queue, queueTail, ready, readyTail, qs, rs, r, loose, m);
      if readyTail != null {
        readyTail.next := r;
      } else {
        ready := r;
      }
      readyTail := r;
      rs, running := rs + [r], None;
      assert Snap(repr) == After(m, tail, r);
    }

    method TakeReady() returns (r: Node)
      requires Lists() && ready != null
      modifies this`ready, this`readyTail, this`rs
      ensures Lists() && old(rs) != [] && r == old(rs)[0] && rs == old(rs)[1..]
    {
      hide Linked;
      ghost var m := Snap(repr);
      Unreadied(queue, queueTail, ready, readyTail, qs, rs, running, loose, m);
      r := ready;
      ready := r.next;
      if ready == null {
        readyTail := null;
      }
      rs := rs[1..];
      assert Snap(repr) == m;
    }

    /** Where the first request known as ucb is in the queue, and the one before it. */
    method Search(ucb: nat) returns (prev: Node?, cur: Node?, ghost i: nat)
      requires Lists()
      ensures i <= |qs| && (forall j :: 0 <= j < i ==> qs[j].ucb != ucb)
      ensures cur == (if i < |qs| then qs[i] else null) && prev == (if i == 0 then null else qs[i - 1])
      ensures cur != null ==> cur.ucb == ucb
    {
      prev, cur, i := null, queue, 0;
      while cur != null && cur.ucb != ucb
        invariant i <= |qs| && (forall j :: 0 <= j < i ==> qs[j].ucb != ucb)
        invariant cur == (if i < |qs| then qs[i] else null) && prev == (if i == 0 then null else qs[i - 1])
        decreases |qs| - i
      {
        assert Snap(repr)[qs[i]] == Succ(qs, i);
        prev, cur, i := cur, cur.next, i + 1;
      }
    }

    /** A request the worker has not started is taken out of the queue.  That leaves the tail loose
        exactly if the request was the last of several or, if the tail was loose, until the queue is empty. */
    method Cancel(ucb: nat) returns (found: Node?, ghost i: nat)
      requires Valid()
      modifies this, repr`next
      ensures Valid() && repr == old(repr) && running == old(running) && Next(old(state), state, Aio.Cancel(ucb))
      ensures found == null ==> state == old(state) && forall j :: 0 <= j < |qs| ==> qs[j].ucb != ucb
      ensures found != null ==> FirstAt(old(state).queue, ucb, i) && found == old(qs)[i] && qs == Without(old(qs), i)
      ensures found != null ==> (queueTail != Last(qs) <==> |old(qs)| > 1 && (old(loose) || i == |old(qs)| - 1))
    {
      hide Inv, Lists, Without, Reqs, Next, HaveResults;
      var prev, cur;
      prev, cur, i := Search(ucb);
      CancelStep(state, ucb, i);
      if cur == null {
        return null, i;
      }
      found := cur;
      CutOut(prev, cur, i, ucb);
    }

    method CutOut(prev: Node?, cur: Node, ghost i: nat, ghost ucb: nat)
      requires Valid() && i < |qs| && cur == qs[i] && prev == if i == 0 then null else qs[i - 1]
      requires state.live > 0 && FirstAt(state.queue, ucb, i) && Inv(Cancelled(state, i))
      modifies this, repr`next
      ensures Valid() && repr == old(repr) && running == old(running) && state == Cancelled(old(state), i)
      ensures qs == Without(old(qs), i)
      ensures queueTail != Last(qs) <==> |old(qs)| > 1 && (old(loose) || i == |old(qs)| - 1)
    {
      hide Inv, Lists, Without, Reqs, Next, HaveResults;
      ReqsWithout(qs, i);
      Remove(prev, cur, i);
      live := live - 1;
      state := Cancelled(state, i);
    }

    method Remove(prev: Node?, cur: Node, ghost i: nat)
      requires Lists() && i < |qs| && cur == qs[i] && prev == if i == 0 then null else qs[i - 1]
      modifies this`queue, this`queueTail, this`qs, this`loose, repr`next
      ensures Lists() && qs == Without(old(qs), i) && (loose <==> |old(qs)| > 1 && (old(loose) || i == |old(qs)| - 1))
      ensures queueTail != Last(qs) <==> loose
    {
      hide Linked, Without;
      ghost var m := Snap(repr);
      Unlinked(queue, queueTail, ready, readyTail, qs, rs, running, loose, m, i);
      InQueue(queue, queueTail, ready, readyTail, qs, rs, running, loose, m, i);
      Unlink(prev, cur);
      assert Snap(repr) == if i == 0 then m else m[qs[i - 1] := m[qs[i]]];
      loose := |qs| > 1 && (loose || i == |qs| - 1);
      qs := Without(qs, i);
    }

    /** The pointer to cur now points past it.  The tail is only ever cleared. */
    method Unlink(prev: Node?, cur: Node)
      modifies this`queue, this`queueTail
      modifies (if prev != null then {prev} else {})`next
      ensures queue == (if prev == null then old(cur.next) else old(queue))
      ensures prev != null ==> prev.next == old(cur.next)
      ensures queueTail == if queue == null then null else old(queueTail)
    {
      if prev == null {
        queue := cur.next;
      } else {
        prev.next := cur.next;
      }
      if queueTail == cur {
        queueTail := if queue == null then null else queueTail;
      }
      if queue == null {
        queueTail := null;
      }
    }
  }

  lemma ReqsMore(ns: seq<Node>, n: Node)
    ensures Reqs(ns + [n]) == Reqs(ns) + [ReqOf(n)]
  {
  }

  lemma ReqsFewer(ns: seq<Node>)
    requires ns != []
    ensures Reqs(ns[1..]) == Reqs(ns)[1..] && Reqs(ns)[0] == ReqOf(ns[0])
  {
  }

  lemma ReqsWithout(ns: seq<Node>, i: nat)
    requires i < |ns|
    ensures Reqs(Without(ns, i)) == Reqs(ns)[..i] + Reqs(ns)[i + 1..]
  {
  }

  lemma InQueue(q: Node?, qt: Node?, r: Node?, rt: Node?, qs: seq<Node>, rs: seq<Node>, run: Option<Node>, loose: bool,
                m: Links, i: nat)
    requires Linked(q, qt, r, rt, qs, rs, run, loose, m) && i < |qs|
    ensures qs[i] in m && (i > 0 ==> qs[i - 1] in m && qs[i - 1] != qs[i])
  {
  }

  /** The tails and the running request are requests there are; the running one ends no list. */
  lemma TailsInside(q: Node?, qt: Node?, r: Node?, rt: Node?, qs: seq<Node>, rs: seq<Node>, run: Option<Node>,
                    loose: bool, m: Links)
    requires Linked(q, qt, r, rt, qs, rs, run, loose, m)
    ensures qt != null ==> qt in m
    ensures rt != null ==> rt in m
    ensures run.Some? ==> run.value in m && m[run.value] == null && run.value != rt
  {
  }

  lemma SubmitStep(s: State, ucb: nat)
    requires Inv(s)
    ensures Next(s, Submitted(s, ucb), Submit(ucb)) && Inv(Submitted(s, ucb))
  {
    NextKeeps(s, Submitted(s, ucb), Submit(ucb));
  }

  lemma CancelStep(s: State, ucb: nat, i: nat)
    requires Inv(s) && i <= |s.queue| && (forall j :: 0 <= j < i ==> s.queue[j].ucb != ucb)
    requires i < |s.queue| ==> s.queue[i].ucb == ucb
    ensures i == |s.queue| ==> Next(s, s, Cancel(ucb))
    ensures i < |s.queue| ==>
              && s.live > 0 && FirstAt(s.queue, ucb, i)
              && Next(s, Cancelled(s, i), Cancel(ucb)) && Inv(Cancelled(s, i))
  {
    if i < |s.queue| {
      SomeLive(s);
      assert FirstAt(s.queue, ucb, i) && Cancels(s, Cancelled(s, i), i);
      CancelKeeps(s, Cancelled(s, i), i);
    }
  }

  lemma SomeLive(s: State)
    requires Inv(s) && (s.ready != [] || s.queue != [])
    ensures s.live > 0
  {
  }

  // ---- every run of a context is a run of the protocol ----

  /** What a thread of the guest, or the worker, tries to do next. */
  datatype Op =
    | TrySubmit(ucb: nat)
    | TryTake
    | TryFinish(res: int)
    | TryReap
    | TryCancel(ucb: nat)
    | TryStop

  /** The step an attempt comes to: none if there is nothing to take, finish or reap. */
  ghost function StepFor(s: State, op: Op): Option<Step> {
    match op
    case TrySubmit(ucb) => Some(Submit(ucb))
    case TryTake => if s.queue != [] && s.running.None? && !s.stopping then Some(Take) else None
    case TryFinish(res) => if s.running.Some? then Some(Finish(res)) else None
    case TryReap => if s.ready != [] then Some(Reap) else None
    case TryCancel(ucb) => Some(Cancel(ucb))
    case TryStop => Some(Stop)
  }

  /** One section under the lock, and the event it gives if it reaps. */
  method Perform(c: Context, current: Option<Node>, op: Op)
    returns (current': Option<Node>, event: Option<Event>, ghost a: Option<Step>)
    requires c.Valid() && c.running == current
    modifies c, c.repr
    ensures c.Valid() && fresh(c.repr - old(c.repr)) && c.running == current' && a == StepFor(old(c.state), op)
    ensures if a.Some? then Next(old(c.state), c.state, a.value) else c.state == old(c.state)
    ensures c.state.events == old(c.state).events + if event.Some? then [event.value] else []
  {
    hide Context.Valid, Next, FirstAt;
    c.Seen();
    current', event, a := current, None, None;
    match op {
      case TrySubmit(ucb) =>
        var _ := c.Submit(ucb);
        a := Some(Submit(ucb));
      case TryTake =>
        if c.queue != null && current.None? && !c.stopping {
          var r := c.Take();
          current', a := Some(r), Some(Take);
        }
      case TryFinish(res) =>
        if current.Some? {
          c.RunnerInside();
          c.Finish(current.value, res);
          current', a := None, Some(Finish(res));
        }
      case TryReap =>
        if c.ready != null {
          var r := c.Reap();
          event, a := Some(Event(r.ucb, r.res)), Some(Reap);
        }
      case TryCancel(ucb) =>
        var _, _ := c.Cancel(ucb);
        a := Some(Cancel(ucb));
      case TryStop =>
        c.Halt();
        a := Some(Stop);
    }
    EventsOnly(old(c.state), c.state, a, event);
  }

  /** run is the steps that these attempts, in this order, come to, and ss the states between them. */
  ghost predicate Does(ops: seq<Op>, ss: seq<State>, run: seq<Step>)
    decreases |ops|
  {
    && |ss| == |run| + 1
    && if ops == [] then run == []
       else
         var n, op := |ops| - 1, ops[|ops| - 1];
         || (StepFor(ss[|run|], op).None? && Does(ops[..n], ss, run))
         || (&& run != [] && StepFor(ss[|run| - 1], op) == Some(run[|run| - 1])
             && Does(ops[..n], ss[..|run|], run[..|run| - 1]))
  }

  /** Whatever is tried, in whatever order, on a new context, it does; its states are those of a run, and the events it
      gives are that run's. */
  method Drive(max: nat, ops: seq<Op>)
    returns (c: Context, events: seq<Event>, ghost ss: seq<State>, ghost run: seq<Step>)
    ensures fresh(c) && c.Valid() && c.max == max
    ensures Run(ss, run) && ss[0] == Init(max) && Does(ops, ss, run) && ss[|run|] == c.state && events == c.state.events
    ensures |events| == |c.state.reaped| && Truthful(ss, run, c.state.reaped, events)
  {
    hide Context.Valid, Next;
    c := new Context(max);
    ss, run, events := [c.state], [], [];
    var current: Option<Node> := None;
    var i := 0;
    while i < |ops|
      invariant 0 <= i <= |ops| && c.Valid() && fresh(c.repr) && c.max == max
      invariant c.running == current
      invariant Run(ss, run) && ss[0] == Init(max) && ss[|run|] == c.state && events == c.state.events
      invariant Does(ops[..i], ss, run)
    {
      ghost var a;
      var event;
      current, event, a := Perform(c, current, ops[i]);
      events := events + if event.Some? then [event.value] else [];
      assert ops[..i + 1][..i] == ops[..i];
      if a.Some? {
        RunMore(ss, run, c.state, a.value);
        assert (ss + [c.state])[..|run| + 1] == ss && (run + [a.value])[..|run|] == run;
        ss, run := ss + [c.state], run + [a.value];
      }
      i := i + 1;
    }
    assert ops[..i] == ops;
    AllTruthful(ss, run);
  }

  /** Each event has the address its request was submitted with, and the result it was finished with. */
  ghost predicate Truthful(ss: seq<State>, run: seq<Step>, reaped: seq<nat>, events: seq<Event>)
    requires |ss| == |run| + 1 && |events| == |reaped|
  {
    forall a :: 0 <= a < |events| ==>
      Asked(ss, run, |run|, reaped[a], events[a].obj) && Given(ss, run, |run|, reaped[a], events[a].res)
  }

  lemma AllTruthful(ss: seq<State>, run: seq<Step>)
    requires Run(ss, run)
    ensures var s := ss[|run|]; |s.events| == |s.reaped| && Truthful(ss, run, s.reaped, s.events)
  {
    hide Asked, Given, Next;
    var s := ss[|run|];
    AlwaysTrue(ss, run, |run|);
    forall a | 0 <= a < |s.events|
      ensures Asked(ss, run, |run|, s.reaped[a], s.events[a].obj) && Given(ss, run, |run|, s.reaped[a], s.events[a].res)
    {
      EventsTrue(ss, run, |run|, a);
    }
  }

  lemma EventsOnly(s: State, s': State, a: Option<Step>, event: Option<Event>)
    requires if a.Some? then Next(s, s', a.value) else s' == s
    requires event.Some? ==> s'.events == s.events + [event.value]
    requires event.Some? <==> a == Some(Reap)
    ensures s'.events == s.events + if event.Some? then [event.value] else []
  {
    assert s.events + [] == s.events;
  }

  lemma RunMore(ss: seq<State>, run: seq<Step>, s: State, a: Step)
    requires Run(ss, run) && Next(ss[|run|], s, a)
    ensures Run(ss + [s], run + [a])
  {
    hide Next;
    var ss', run' := ss + [s], run + [a];
    forall i | 0 <= i < |run'|
      ensures Next(ss'[i], ss'[i + 1], run'[i])
    {
      if i < |run| {
        assert Next(ss[i], ss[i + 1], run[i]);
      }
    }
  }
}
