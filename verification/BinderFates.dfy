/** What becomes of every message: it waits, or has been collected once, withdrawn once, or gone
    with its slot, and never two of these.
 */
module BinderFates {
  import opened BinderRegistry
  import opened BinderSystem
  import Calls = BinderCalls

  /** The event takes a message out of the registry. */
  predicate Counted(e: Event) {
    e.Collected? || e.Withdrawn?
  }

  ghost predicate Waits(q: seq<Msg>, n: nat) {
    exists k :: 0 <= k < |q| && q[k].used && q[k].num == n
  }

  ghost predicate Logged(log: seq<Event>, n: nat) {
    exists i :: 0 <= i < |log| && Counted(log[i]) && log[i].msg.num == n
  }

  /** Events that count have numbers of their own. */
  ghost predicate Single(log: seq<Event>) {
    forall i, j :: 0 <= i < j < |log| && Counted(log[i]) && Counted(log[j]) ==> log[i].msg.num != log[j].msg.num
  }

  /** What is logged has been posted and no longer waits. */
  ghost predicate Over(q: seq<Msg>, log: seq<Event>, dropped: set<nat>, next: nat) {
    && (forall i :: 0 <= i < |log| && Counted(log[i]) ==> log[i].msg.num < next && log[i].msg.num !in dropped)
    && (forall i :: 0 <= i < |log| && Counted(log[i]) ==> !Waits(q, log[i].msg.num))
    && (forall n :: n in dropped ==> n < next && !Waits(q, n))
  }

  /** Every number given out so far is accounted for. */
  ghost predicate Covered(q: seq<Msg>, log: seq<Event>, dropped: set<nat>, next: nat) {
    forall n: nat :: 0 < n < next ==> Waits(q, n) || Logged(log, n) || n in dropped
  }

  ghost predicate FatesOf(q: seq<Msg>, past: History, next: nat) {
    && next > 0 && Single(past.log) && Over(q, past.log, past.dropped, next) && Covered(q, past.log, past.dropped, next)
  }

  ghost predicate Fates(s: Sys) {
    FatesOf(s.reg.q, s.past, s.reg.nextSeq)
  }

  /** A message taken out of place k is logged. */
  lemma Moves(q: seq<Msg>, q': seq<Msg>, log: seq<Event>, dropped: set<nat>, next: nat, k: nat, e: Event)
    requires k < |q| && q[k].used && q' == q[k := q[k].(used := false)] && Counted(e) && e.msg == q[k]
    requires forall a, b :: 0 <= a < b < |q| && q[a].used && q[b].used ==> q[a].num != q[b].num
    requires q[k].num < next && Single(log) && Over(q, log, dropped, next) && Covered(q, log, dropped, next)
    ensures Single(log + [e]) && Over(q', log + [e], dropped, next) && Covered(q', log + [e], dropped, next)
  {
    var n, log' := q[k].num, log + [e];
    assert Waits(q, n);
    assert log'[|log|] == e && Logged(log', n);
    assert forall i :: 0 <= i < |log| ==> log'[i] == log[i];
    forall x: nat
      ensures Waits(q', x) <==> Waits(q, x) && x != n
      ensures Logged(log, x) ==> Logged(log', x)
    {
      if Waits(q, x) && x != n {
        var j :| 0 <= j < |q| && q[j].used && q[j].num == x;
        assert q'[j] == q[j];
      }
      if Waits(q', x) {
        var j :| 0 <= j < |q'| && q'[j].used && q'[j].num == x;
        assert q[j].used && (j < k || k < j);
      }
      if Logged(log, x) {
        var j :| 0 <= j < |log| && Counted(log[j]) && log[j].msg.num == x;
        assert log'[j] == log[j];
      }
    }
  }

  /** A message posted under the next number. */
  lemma Arrives(q: seq<Msg>, q': seq<Msg>, past: History, next: nat, k: nat)
    requires k < |q| == |q'| && !q[k].used && q' == q[k := q'[k]] && q'[k].used && q'[k].num == next
             && FatesOf(q, past, next)
    requires forall j :: 0 <= j < |q| && q[j].used ==> q[j].num < next
    ensures FatesOf(q', past, next + 1)
  {
    forall x: nat
      ensures Waits(q', x) <==> Waits(q, x) || x == next
    {
      if Waits(q, x) {
        var j :| 0 <= j < |q| && q[j].used && q[j].num == x;
        assert q'[j] == q[j];
      }
      assert q'[k].num == next;
    }
  }

  /** Messages that go with their slot. */
  lemma Vanish(q: seq<Msg>, q': seq<Msg>, past: History, next: nat, gone: set<nat>)
    requires FatesOf(q, past, next) && |q'| == |q|
    requires forall a, b :: 0 <= a < b < |q| && q[a].used && q[b].used ==> q[a].num != q[b].num
    requires forall j :: 0 <= j < |q| && q[j].used ==> q[j].num < next
    requires forall k :: 0 <= k < |q| && q'[k].used ==> q'[k] == q[k]
    requires forall n :: n in gone <==> exists k :: 0 <= k < |q| && q[k].used && !q'[k].used && q[k].num == n
    ensures FatesOf(q', past.(dropped := past.dropped + gone), next)
  {
    forall x: nat
      ensures Waits(q', x) <==> Waits(q, x) && x !in gone
      ensures x in gone ==> Waits(q, x)
    {
      if Waits(q, x) && x !in gone {
        var j :| 0 <= j < |q| && q[j].used && q[j].num == x;
        assert q'[j].used;
      }
      if Waits(q', x) {
        var j :| 0 <= j < |q'| && q'[j].used && q'[j].num == x;
        assert q[j].used && q[j].num == x;
      }
    }
  }

  /** Events that do not count change nothing. */
  lemma Unrelated(log: seq<Event>, e: Event)
    requires !Counted(e)
    ensures Single(log) ==> Single(log + [e])
    ensures forall n: nat :: Logged(log + [e], n) <==> Logged(log, n)
    ensures forall i :: 0 <= i < |log + [e]| && Counted((log + [e])[i]) ==> i < |log| && (log + [e])[i] == log[i]
  {
    var log' := log + [e];
    forall n: nat
      ensures Logged(log', n) <==> Logged(log, n)
    {
      if Logged(log, n) {
        var j :| 0 <= j < |log| && Counted(log[j]) && log[j].msg.num == n;
        assert log'[j] == log[j];
      }
    }
  }

  /** The past of a step that takes no message out. */
  lemma Bystander(s: Sys, s': Sys, a: Step)
    requires Fates(s) && Next(s, s', a) && !(a.Register? || a.Post? || a.Collect? || a.Withdraw?)
    ensures s'.reg.q == s.reg.q && s'.reg.nextSeq == s.reg.nextSeq && s'.past.dropped == s.past.dropped
    ensures s'.past.log == s.past.log || (exists e :: !Counted(e) && s'.past.log == s.past.log + [e])
  {
    hide Fates, Next;
    Section(s, s', a);
    Untouched(s, s', a);
    if a.Reply? || a.ReplyLost? {
      NewEvent(s, s', a);
    }
  }

  lemma FatesKept(s: Sys, s': Sys, a: Step)
    requires Inv(s.reg) && Fates(s) && Next(s, s', a)
    ensures Fates(s')
  {
    hide Inv, Next;
    if a.Register? {
      RegisterKeeps(s, s', a);
    } else if a.Post? {
      PostKeeps(s, s', a);
    } else if a.Collect? {
      CollectKeeps(s, s', a);
    } else if a.Withdraw? {
      WithdrawKeeps(s, s', a);
    } else {
      Bystander(s, s', a);
      if s'.past.log != s.past.log {
        var e :| !Counted(e) && s'.past.log == s.past.log + [e];
        Unrelated(s.past.log, e);
      }
    }
  }

  lemma RegisterKeeps(s: Sys, s': Sys, a: Step)
    requires Inv(s.reg) && Fates(s) && Next(s, s', a) && a.Register?
    ensures Fates(s')
  {
    hide IdsDistinct, OneManager, FatesOf, Available;
    Vanish(s.reg.q, s'.reg.q, s.past, s.reg.nextSeq, NumbersIn(s.reg, a.slot));
  }

  lemma PostKeeps(s: Sys, s': Sys, a: Step)
    requires Inv(s.reg) && Fates(s) && Next(s, s', a) && a.Post?
    ensures Fates(s')
  {
    hide IdsDistinct, OneManager;
    Arrives(s.reg.q, s'.reg.q, s.past, s.reg.nextSeq, a.k);
  }

  lemma CollectKeeps(s: Sys, s': Sys, a: Step)
    requires Inv(s.reg) && Fates(s) && Next(s, s', a) && a.Collect?
    ensures Fates(s')
  {
    hide IdsDistinct, OneManager, Calls.Notes;
    var e := s'.past.log[|s.past.log|];
    Moves(s.reg.q, s'.reg.q, s.past.log, s.past.dropped, s.reg.nextSeq, a.k, e);
  }

  lemma WithdrawKeeps(s: Sys, s': Sys, a: Step)
    requires Inv(s.reg) && Fates(s) && Next(s, s', a) && a.Withdraw?
    ensures Fates(s')
  {
    hide IdsDistinct, OneManager;
    var k := PhaseOf(s, a.t).k;
    if s.reg.q[k].used && !s'.reg.q[k].used {
      var e := s'.past.log[|s.past.log|];
      Moves(s.reg.q, s'.reg.q, s.past.log, s.past.dropped, s.reg.nextSeq, k, e);
    } else {
      assert s.past.log + [] == s.past.log;
      if s'.reg.q != s.reg.q {
        SameWaits(s.reg.q, s'.reg.q, k);
      }
    }
  }

  /** Clearing a place that is free already. */
  lemma SameWaits(q: seq<Msg>, q': seq<Msg>, k: nat)
    requires k < |q| && !q[k].used && q' == q[k := q[k].(used := false)]
    ensures q' == q
  {
  }

  // ---- withdrawals ----

  /** The number a sender that has posted may still withdraw, and the place it left it in. */
  predicate Sent(p: Phase) {
    p.Posted? || p.Refused? || p.Crowded?
  }

  /** A message that waits is where its sender left it. */
  ghost predicate Owned(s: Sys) {
    forall t :: t in s.ph && Sent(s.ph[t]) ==>
      && 0 < s.ph[t].num < s.reg.nextSeq
      && forall k: nat :: k < |s.reg.q| && s.reg.q[k].used && s.reg.q[k].num == s.ph[t].num ==> k == s.ph[t].k
  }

  /** Who has sent, and what. */
  lemma SentBefore(s: Sys, s': Sys, a: Step, t: Thread)
    requires Next(s, s', a) && t in s'.ph && Sent(s'.ph[t])
    ensures if a.Post? && a.t == t then s'.ph[t].num == s.reg.nextSeq && s'.ph[t].k == a.k
            else t in s.ph && Sent(s.ph[t]) && s'.ph[t].num == s.ph[t].num && s'.ph[t].k == s.ph[t].k
  {
    hide Next;
    Untouched(s, s', a);
    if !Unmoving(a) && a.t == t {
      JustSent(s, s', a);
    }
  }

  lemma JustSent(s: Sys, s': Sys, a: Step)
    requires Next(s, s', a) && (a.Post? || a.Wake?) && a.t in s'.ph && Sent(s'.ph[a.t])
    ensures a.Post? ==> s'.ph[a.t].num == s.reg.nextSeq && s'.ph[a.t].k == a.k
    ensures a.Wake? ==>
              a.t in s.ph && Sent(s.ph[a.t]) && s'.ph[a.t].num == s.ph[a.t].num && s'.ph[a.t].k == s.ph[a.t].k
  {
    hide Posts;
  }

  lemma OwnedKept(s: Sys, s': Sys, a: Step)
    requires Inv(s.reg) && Fates(s) && Owned(s) && Next(s, s', a)
    ensures Owned(s')
  {
    hide Inv, Next;
    QueueSize(s, s', a);
    RegistryKept(s, s', a);
    Section(s, s', a);
    forall t | t in s'.ph && Sent(s'.ph[t])
      ensures 0 < s'.ph[t].num < s'.reg.nextSeq
      ensures forall k: nat :: k < |s'.reg.q| && s'.reg.q[k].used && s'.reg.q[k].num == s'.ph[t].num ==> k == s'.ph[t].k
    {
      SentBefore(s, s', a, t);
      if a.Post? {
        PlaceChange(s, s', a, a.k);
      }
      forall k: nat | k < |s'.reg.q| && s'.reg.q[k].used && s'.reg.q[k].num == s'.ph[t].num
        ensures k == s'.ph[t].k
      {
        PlaceChange(s, s', a, k);
        if s'.reg.q[k] == s.reg.q[k] {
          BelowNext(s.reg, k);
        }
      }
    }
  }

  lemma BelowNext(r: Reg, k: nat)
    requires Inv(r) && k < |r.q| && r.q[k].used
    ensures r.q[k].num < r.nextSeq
  {
    hide IdsDistinct, OneManager;
  }

  /** A withdrawal takes out the sender's own message exactly if that still waits; otherwise the
      place has been used again, and whatever is there goes. */
  lemma TakesBack(s: Sys, s': Sys, t: Thread, dead: set<int>)
    requires Owned(s) && Next(s, s', Withdraw(t, dead)) && s'.past.log != s.past.log
    ensures |s'.past.log| == |s.past.log| + 1
    ensures var e := s'.past.log[|s.past.log|];
            && e.Withdrawn? && e.t == t && e.own == PhaseOf(s, t).num
            && (e.msg.num == e.own <==> Waits(s.reg.q, e.own))
  {
    var p := PhaseOf(s, t);
    assert s.past.log + [] == s.past.log;
    if Waits(s.reg.q, p.num) {
      var k :| 0 <= k < |s.reg.q| && s.reg.q[k].used && s.reg.q[k].num == p.num;
      assert k == p.k;
    }
  }
}
