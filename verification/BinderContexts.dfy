/** Contexts are apart: a descriptor keeps the context its endpoint was opened in, and no call leaves it. */
module BinderContexts {
  import opened BinderRegistry
  import opened BinderSystem
  import opened BinderRuns
  import opened BinderWake
  import Calls = BinderCalls
  import Fate = BinderFates
  import Replies = BinderReplies
  import Delivery = BinderDelivery

  /** Wherever endpoint id is live it is in context ctx. */
  ghost predicate Within(r: Reg, id: nat, ctx: string) {
    forall i: nat :: Has(r, i, id) ==> r.ep[i].ctx == ctx
  }

  ghost predicate InContext(s: Sys) {
    && (forall d :: d in s.opens ==> Within(s.reg, s.opens[d].id, s.opens[d].ctx))
    && (forall id :: id in s.fifos.unmade ==> Within(s.reg, id, s.fifos.unmade[id].ctx))
  }

  lemma ContextOf(s: Sys, s': Sys, a: Step, i: nat)
    requires Inv(s.reg) && Next(s, s', a) && i < |s.reg.ep|
    ensures |s'.reg.ep| == |s.reg.ep|
    ensures a.Register? && a.slot == i ==> s'.reg.ep[i].id == s.reg.nextId && s'.reg.ep[i].ctx == a.ctx
    ensures !(a.Register? && a.slot == i) ==>
              && s'.reg.ep[i].id == s.reg.ep[i].id && (s'.reg.ep[i].used ==> s.reg.ep[i].used)
              && s'.reg.ep[i].ctx == s.reg.ep[i].ctx
  {
    hide NumbersDistinct, OneManager, IdsDistinct, Next;
    Section(s, s', a);
  }

  /** An endpoint that had been given out stays in its context. */
  lemma WithinStill(s: Sys, s': Sys, a: Step, id: nat, ctx: string)
    requires Inv(s.reg) && Next(s, s', a) && id < s.reg.nextId && Within(s.reg, id, ctx)
    ensures Within(s'.reg, id, ctx)
  {
    hide Inv, Next;
    EpCount(s, s', a);
    forall i: nat | Has(s'.reg, i, id)
      ensures s'.reg.ep[i].ctx == ctx
    {
      ContextOf(s, s', a, i);
      assert Has(s.reg, i, id);
    }
  }

  /** Where a descriptor's endpoint and context come from. */
  lemma OpenFrom(s: Sys, s': Sys, a: Step, d: nat)
    requires Next(s, s', a) && d in s'.opens
    ensures var o := s'.opens[d];
            || (d in s.opens && s.opens[d] == o.(tab := s.opens[d].tab))
            || (a.MakeFifo? && a.id in s.fifos.unmade && o.id == a.id && s.fifos.unmade[a.id] == Birth(o.proc, o.ctx))
            || (a.Adopt? && Has(s.reg, a.slot, a.id) && o.id == a.id && o.proc == a.proc
                && o.ctx == s.reg.ep[a.slot].ctx)
            || (a.AdoptGone? && !Live(s.reg, a.id) && o.id == a.id)
    ensures a.Adopt? || a.AdoptGone? ==> a.id in s.fifos.bytes
  {
    hide Next;
    Untouched(s, s', a);
    if a.MakeFifo? || a.Adopt? || a.AdoptGone? {
      OpenNew(s, s', a, d);
    } else if a.GiveUpFd? || a.Exit? {
      OpenLeft(s, s', a, d);
    } else if a.Reply? || a.ReplyLost? || a.Collect? {
      OpenSame(s, s', a, d);
    }
  }

  lemma OpenNew(s: Sys, s': Sys, a: Step, d: nat)
    requires Next(s, s', a) && d in s'.opens && (a.MakeFifo? || a.Adopt? || a.AdoptGone?)
    ensures var o := s'.opens[d];
            || (d in s.opens && s.opens[d] == o)
            || (a.MakeFifo? && a.id in s.fifos.unmade && o.id == a.id && s.fifos.unmade[a.id] == Birth(o.proc, o.ctx))
            || (a.Adopt? && Has(s.reg, a.slot, a.id) && o.id == a.id && o.proc == a.proc
                && o.ctx == s.reg.ep[a.slot].ctx)
            || (a.AdoptGone? && !Live(s.reg, a.id) && o.id == a.id)
    ensures a.Adopt? || a.AdoptGone? ==> a.id in s.fifos.bytes
  {
    hide Adopts, Live;
  }

  lemma OpenLeft(s: Sys, s': Sys, a: Step, d: nat)
    requires Next(s, s', a) && d in s'.opens && (a.GiveUpFd? || a.Exit?)
    ensures d in s.opens && s.opens[d] == s'.opens[d]
  {
  }

  lemma OpenSame(s: Sys, s': Sys, a: Step, d: nat)
    requires Next(s, s', a) && d in s'.opens && (a.Reply? || a.ReplyLost? || a.Collect?)
    ensures d in s.opens && s.opens[d] == s'.opens[d].(tab := s.opens[d].tab)
  {
    hide Collects, Live, Calls.Notes, Calls.Taken, Calls.Owes, Debtor, Target;
  }

  /** Where a fifo still to be made comes from. */
  lemma UnmadeFrom(s: Sys, s': Sys, a: Step, id: nat)
    requires Next(s, s', a) && id in s'.fifos.unmade
    ensures || (id in s.fifos.unmade && s.fifos.unmade[id] == s'.fifos.unmade[id])
            || (a.Register? && id == s.reg.nextId && s'.fifos.unmade[id] == Birth(a.proc, a.ctx))
  {
    hide Next;
    Untouched(s, s', a);
    if a.Register? || a.MakeFifo? || a.LastClosed? {
      UnmadeNew(s, s', a, id);
    } else {
      FifosFilled(s, s', a);
    }
  }

  lemma UnmadeNew(s: Sys, s': Sys, a: Step, id: nat)
    requires Next(s, s', a) && id in s'.fifos.unmade && (a.Register? || a.MakeFifo? || a.LastClosed?)
    ensures || (id in s.fifos.unmade && s.fifos.unmade[id] == s'.fifos.unmade[id])
            || (a.Register? && id == s.reg.nextId && s'.fifos.unmade[id] == Birth(a.proc, a.ctx))
  {
    hide Opens, NumbersIn;
  }

  lemma OpenWithin(s: Sys, s': Sys, a: Step, d: nat)
    requires Inv(s.reg) && Sane(s) && InContext(s) && Next(s, s', a) && d in s'.opens
    ensures Within(s'.reg, s'.opens[d].id, s'.opens[d].ctx)
  {
    hide Inv, Next;
    var o := s'.opens[d];
    OpenFrom(s, s', a, d);
    assert o.id < s.reg.nextId by {
      assert a.MakeFifo? || a.Adopt? || a.AdoptGone? ==> (Watched(s.fifos, a.id) || d in s.opens);
    }
    if a.Adopt? && Has(s.reg, a.slot, a.id) {
      AloneIn(s.reg, a.slot);
    }
    WithinStill(s, s', a, o.id, o.ctx);
  }

  lemma AloneIn(r: Reg, i: nat)
    requires Inv(r) && i < |r.ep| && r.ep[i].used
    ensures Within(r, r.ep[i].id, r.ep[i].ctx)
  {
    hide NumbersDistinct, OneManager;
  }

  lemma UnmadeWithin(s: Sys, s': Sys, a: Step, id: nat)
    requires Inv(s.reg) && Sane(s) && InContext(s) && Next(s, s', a) && id in s'.fifos.unmade
    ensures Within(s'.reg, id, s'.fifos.unmade[id].ctx)
  {
    hide Inv, Next;
    UnmadeFrom(s, s', a, id);
    if id in s.fifos.unmade && s.fifos.unmade[id] == s'.fifos.unmade[id] {
      assert Watched(s.fifos, id);
      WithinStill(s, s', a, id, s.fifos.unmade[id].ctx);
    } else {
      EpCount(s, s', a);
      forall i: nat | Has(s'.reg, i, id)
        ensures s'.reg.ep[i].ctx == a.ctx
      {
        ContextOf(s, s', a, i);
        GivenOut(s.reg, i);
      }
    }
  }

  lemma {:induction false} AlwaysInContext(ss: seq<Sys>, run: seq<Step>, i: nat)
    requires Run(ss, run) && i < |ss|
    ensures InContext(ss[i])
  {
    hide Next, Within, Inv, Fate.Fates, Fate.Owned, Sane, Awake, Replies.Routed, Delivery.Placed, Delivery.Traced;
    if i > 0 {
      hide Init;
      AlwaysInContext(ss, run, i - 1);
      AlwaysGood(ss, run, i - 1);
      forall d | d in ss[i].opens
        ensures Within(ss[i].reg, ss[i].opens[d].id, ss[i].opens[d].ctx)
      {
        OpenWithin(ss[i - 1], ss[i], run[i - 1], d);
      }
      forall id | id in ss[i].fifos.unmade
        ensures Within(ss[i].reg, id, ss[i].fifos.unmade[id].ctx)
      {
        UnmadeWithin(ss[i - 1], ss[i], run[i - 1], id);
      }
    }
  }

  /** Slot s has the manager of its context, and no other slot has. */
  ghost predicate SoleManager(r: Reg, s: nat) {
    && s < |r.ep| && r.ep[s].isMgr
    && forall j :: 0 <= j < |r.ep| && r.ep[j].used && r.ep[j].isMgr && r.ep[j].ctx == r.ep[s].ctx ==> j == s
  }

  /** In every run, a call is looked up in the context of the endpoint it comes from: whoever it is to is there, and is
      the manager of that context if the call is on handle 0. */
  lemma CallsStayInContext(ss: seq<Sys>, run: seq<Step>, i: nat, k: nat)
    requires Run(ss, run) && i < |run| && run[i].Look? && run[i].d in ss[i].opens
    requires k < |ss[i].reg.ep| && ss[i].reg.ep[k].used && ss[i].reg.ep[k].id == ss[i].opens[run[i].d].id
    ensures run[i].slot < |ss[i].reg.ep| && ss[i].reg.ep[run[i].slot].used
    ensures ss[i].reg.ep[run[i].slot].ctx == ss[i].reg.ep[k].ctx
    ensures run[i].handle == 0 ==> SoleManager(ss[i].reg, run[i].slot)
  {
    hide Next, Init, IdsDistinct, NumbersDistinct;
    AlwaysInContext(ss, run, i);
    AlwaysDistinct(ss, run, i);
    assert Has(ss[i].reg, k, ss[i].opens[run[i].d].id);
    LookedUp(ss[i], ss[i + 1], run[i]);
  }

  lemma LookedUp(s: Sys, s': Sys, a: Step)
    requires Next(s, s', a) && a.Look?
    ensures a.d in s.opens && a.slot < |s.reg.ep| && s.reg.ep[a.slot].used
    ensures s.reg.ep[a.slot].ctx == s.opens[a.d].ctx && (a.handle == 0 ==> s.reg.ep[a.slot].isMgr)
  {
  }
}
