/** An endpoint's count of references, against the descriptors that are held on it. */
module BinderRefs {
  import opened BinderRegistry
  import opened BinderSystem
  import opened BinderWake
  import opened BinderReplies
  import opened BinderRuns
  import Calls = BinderCalls

  ghost function OpenOn(opens: map<nat, Open>, id: nat): set<nat> {
    set d | d in opens && opens[d].id == id
  }

  /** The threads that have given up a descriptor of the endpoint and have not yet told the registry. */
  ghost function ClosingOn(ph: map<Thread, Phase>, id: nat): set<Thread> {
    set t | t in ph && ph[t] == Closing(id)
  }

  /** How many descriptors of the endpoint there are, with the one that is being made and those being closed. */
  ghost function Holders(s: Sys, id: nat): nat {
    |OpenOn(s.opens, id)| + |ClosingOn(s.ph, id)| + if id in s.fifos.unmade then 1 else 0
  }

  lemma OneOpenMore(opens: map<nat, Open>, d: nat, o: Open, id: nat)
    requires d !in opens
    ensures |OpenOn(opens[d := o], id)| == |OpenOn(opens, id)| + if o.id == id then 1 else 0
  {
    assert OpenOn(opens[d := o], id) == OpenOn(opens, id) + if o.id == id then {d} else {};
  }

  lemma OneOpenFewer(opens: map<nat, Open>, d: nat, id: nat)
    requires d in opens
    ensures |OpenOn(opens - {d}, id)| == |OpenOn(opens, id)| - if opens[d].id == id then 1 else 0
  {
    assert OpenOn(opens, id) == OpenOn(opens - {d}, id) + if opens[d].id == id then {d} else {};
  }

  lemma OneMoves(ph: map<Thread, Phase>, t: Thread, p: Phase, id: nat)
    ensures |ClosingOn(ph[t := p], id)| + (if t in ph && ph[t] == Closing(id) then 1 else 0) ==
              |ClosingOn(ph, id)| + if p == Closing(id) then 1 else 0
  {
    ButOne(ph, t, id);
    ButOne(ph[t := p], t, id);
    assert ClosingOn(ph[t := p], id) - {t} == ClosingOn(ph, id) - {t};
  }

  lemma ButOne(ph: map<Thread, Phase>, t: Thread, id: nat)
    ensures |ClosingOn(ph, id)| == |ClosingOn(ph, id) - {t}| + if t in ph && ph[t] == Closing(id) then 1 else 0
  {
    var all := ClosingOn(ph, id);
    if t in all {
      assert all == (all - {t}) + {t};
    } else {
      assert all == all - {t};
    }
  }

  ghost predicate Covers(e: Ep, n: nat) {
    e.used ==> n <= e.refs
  }

  ghost predicate Matches(e: Ep, n: nat) {
    e.used ==> n == e.refs > 0
  }

  /** Nothing held is uncounted. */
  ghost predicate Counted(s: Sys) {
    && (forall i :: 0 <= i < |s.reg.ep| ==> Covers(s.reg.ep[i], Holders(s, s.reg.ep[i].id)))
    && (forall t :: t in s.ph && s.ph[t].Closing? ==> s.ph[t].id < s.reg.nextId)
  }

  /** And nothing counted is not held. */
  ghost predicate Exact(s: Sys) {
    forall i :: 0 <= i < |s.reg.ep| ==> Matches(s.reg.ep[i], Holders(s, s.reg.ep[i].id))
  }

  /** A process dies, with its descriptors or in the middle of an open. */
  predicate Death(s: Sys, a: Step) {
    a.Exit? || (a.LastClosed? && a.id in s.fifos.unmade)
  }

  /** Whom a step makes a holder, or no longer one: the change in the holders of endpoint id. */
  ghost function Change(s: Sys, a: Step, id: nat): int {
    if a.Register? && id == s.reg.nextId then 1
    else if (a.Adopt? || a.AdoptGone?) && id == a.id then 1
    else if (a.Close? || a.CloseGone?) && PhaseOf(s, a.t) == Closing(id) then -1
    else 0
  }

  lemma HoldersChange(s: Sys, s': Sys, a: Step, id: nat)
    requires Inv(s.reg) && Sane(s) && Routed(s) && Counted(s) && Next(s, s', a)
    ensures Holders(s', id) <= Holders(s, id) + Change(s, a, id)
    ensures !Death(s, a) ==> Holders(s', id) == Holders(s, id) + Change(s, a, id)
  {
    hide Next, Inv, Routed, Counted, Sane;
    Untouched(s, s', a);
    if a.Register? {
      RegisterHolders(s, s', a, id);
    } else if a.MakeFifo? || a.Adopt? || a.AdoptGone? {
      MakingHolders(s, s', a, id);
    } else if a.GiveUpFd? {
      GivingHolders(s, s', a, id);
    } else if a.Close? || a.CloseGone? {
      ClosingHolders(s, s', a, id);
    } else if a.LastClosed? || a.Exit? {
      DyingHolders(s, s', a, id);
    } else {
      OtherHolders(s, s', a, id);
    }
  }

  lemma RegisterHolders(s: Sys, s': Sys, a: Step, id: nat)
    requires Sane(s) && Next(s, s', a) && a.Register?
    ensures Holders(s', id) == Holders(s, id) + Change(s, a, id)
  {
    hide Opens, NumbersIn, OpenOn, ClosingOn;
    assert !Watched(s.fifos, s.reg.nextId);
  }

  lemma MakingHolders(s: Sys, s': Sys, a: Step, id: nat)
    requires Routed(s) && Sane(s) && Next(s, s', a) && (a.MakeFifo? || a.Adopt? || a.AdoptGone?)
    ensures Holders(s', id) == Holders(s, id) + Change(s, a, id)
  {
    hide Adopts, Live, Within, Agrees, Calls.Proper, Has, OpenOn, ClosingOn, NewTab;
    assert s.made !in s.opens;
    OneOpenMore(s.opens, s.made, s'.opens[s.made], id);
  }

  lemma GivingHolders(s: Sys, s': Sys, a: Step, id: nat)
    requires Next(s, s', a) && a.GiveUpFd?
    ensures Holders(s', id) == Holders(s, id)
  {
    hide OpenOn, ClosingOn;
    OneOpenFewer(s.opens, a.d, id);
    OneMoves(s.ph, a.t, Closing(s.opens[a.d].id), id);
  }

  lemma ClosingHolders(s: Sys, s': Sys, a: Step, id: nat)
    requires Next(s, s', a) && (a.Close? || a.CloseGone?)
    ensures Holders(s', id) == Holders(s, id) + Change(s, a, id)
  {
    hide Closes, Live, Has, OpenOn, ClosingOn;
    OneMoves(s.ph, a.t, Idle, id);
  }

  lemma DyingHolders(s: Sys, s': Sys, a: Step, id: nat)
    requires Next(s, s', a) && (a.LastClosed? || a.Exit?)
    ensures Holders(s', id) <= Holders(s, id)
    ensures !Death(s, a) ==> Holders(s', id) == Holders(s, id)
  {
    hide ClosingOn;
    if a.Exit? {
      assert OpenOn(s'.opens, id) <= OpenOn(s.opens, id);
      Smaller(OpenOn(s'.opens, id), OpenOn(s.opens, id));
    } else {
      hide OpenOn;
    }
  }

  lemma Smaller(a: set<nat>, b: set<nat>)
    requires a <= b
    ensures |a| <= |b|
  {
    assert b == a + (b - a);
  }

  lemma OtherHolders(s: Sys, s': Sys, a: Step, id: nat)
    requires Next(s, s', a)
    requires !(a.Register? || a.MakeFifo? || a.Adopt? || a.AdoptGone? || a.GiveUpFd? || a.Close? || a.CloseGone?)
    requires !(a.LastClosed? || a.Exit?)
    ensures Holders(s', id) == Holders(s, id)
  {
    hide Next, ClosingOn;
    Untouched(s, s', a);
    FifosFilled(s, s', a);
    assert OpenOn(s'.opens, id) == OpenOn(s.opens, id) by {
      if a.Reply? || a.ReplyLost? || a.Collect? {
        SameOpens(s, s', a);
      }
    }
    if !Unmoving(a) {
      OneMoves(s.ph, a.t, s'.ph[a.t], id);
    }
  }

  lemma SameOpens(s: Sys, s': Sys, a: Step)
    requires Next(s, s', a) && (a.Reply? || a.ReplyLost? || a.Collect?)
    ensures forall d :: d in s'.opens <==> d in s.opens
    ensures forall d :: d in s.opens ==> s'.opens[d].id == s.opens[d].id
  {
    hide Collects, Live, Calls.Notes, Calls.Taken, Calls.Owes, Debtor, Target;
  }

  /** What each step does to the references of slot i. */
  lemma RefsChange(s: Sys, s': Sys, a: Step, i: nat)
    requires Inv(s.reg) && Next(s, s', a) && i < |s.reg.ep|
    ensures |s'.reg.ep| == |s.reg.ep|
    ensures a.Register? && a.slot == i ==> s'.reg.ep[i].id == s.reg.nextId && s'.reg.ep[i].refs == 1
    ensures !(a.Register? && a.slot == i) ==>
              && s'.reg.ep[i].id == s.reg.ep[i].id && (s'.reg.ep[i].used ==> s.reg.ep[i].used)
              && s'.reg.ep[i].refs == if a.Adopt? && a.slot == i then s.reg.ep[i].refs + 1
                                      else if a.Close? && a.slot == i && s.reg.ep[i].refs > 0 then s.reg.ep[i].refs - 1
                                      else s.reg.ep[i].refs
    ensures a.Close? && a.slot == i ==> (s'.reg.ep[i].used <==> s'.reg.ep[i].refs > 0)
  {
    hide NumbersDistinct, OneManager, IdsDistinct, Next;
    Section(s, s', a);
  }

  /** A live endpoint that is adopted, or closed, is in the slot the step names. */
  lemma NamedSlot(s: Sys, s': Sys, a: Step, i: nat)
    requires Inv(s.reg) && Next(s, s', a) && i < |s.reg.ep| && s.reg.ep[i].used
    ensures a.Adopt? ==> (a.slot == i <==> a.id == s.reg.ep[i].id)
    ensures a.AdoptGone? ==> a.id != s.reg.ep[i].id
    ensures a.Close? ==> PhaseOf(s, a.t).Closing? && (a.slot == i <==> PhaseOf(s, a.t).id == s.reg.ep[i].id)
    ensures a.CloseGone? ==> PhaseOf(s, a.t).Closing? && PhaseOf(s, a.t).id != s.reg.ep[i].id
  {
    hide NumbersDistinct, OneManager, Adopts, Closes;
    if !(a.Adopt? || a.AdoptGone? || a.Close? || a.CloseGone?) {
      hide Next;
    }
  }

  lemma NoHolders(s: Sys, id: nat)
    requires Sane(s) && Counted(s) && id >= s.reg.nextId
    ensures Holders(s, id) == 0
  {
    assert id in s.fifos.unmade ==> Watched(s.fifos, id);
    assert OpenOn(s.opens, id) == {} && ClosingOn(s.ph, id) == {};
  }

  lemma CountedKept(s: Sys, s': Sys, a: Step)
    requires Inv(s.reg) && Sane(s) && Routed(s) && Counted(s) && Next(s, s', a)
    ensures Counted(s')
    ensures Exact(s) && !Death(s, a) ==> Exact(s')
  {
    hide Next, Inv, Sane, Routed, Holders;
    RegistryKept(s, s', a);
    EpCount(s, s', a);
    ClosingIds(s, s', a);
    forall i: nat | i < |s'.reg.ep|
      ensures Covers(s'.reg.ep[i], Holders(s', s'.reg.ep[i].id))
      ensures Exact(s) && !Death(s, a) ==> Matches(s'.reg.ep[i], Holders(s', s'.reg.ep[i].id))
    {
      SlotCounted(s, s', a, i);
    }
  }

  lemma SlotCounted(s: Sys, s': Sys, a: Step, i: nat)
    requires Inv(s.reg) && Sane(s) && Routed(s) && Counted(s) && Next(s, s', a) && i < |s.reg.ep| == |s'.reg.ep|
    ensures Covers(s'.reg.ep[i], Holders(s', s'.reg.ep[i].id))
    ensures Exact(s) && !Death(s, a) ==> Matches(s'.reg.ep[i], Holders(s', s'.reg.ep[i].id))
  {
    hide Next, Inv, Sane, Routed, Holders;
    RefsChange(s, s', a, i);
    var id := s'.reg.ep[i].id;
    HoldersChange(s, s', a, id);
    assert Covers(s.reg.ep[i], Holders(s, s.reg.ep[i].id));
    if a.Register? && a.slot == i {
      NoHolders(s, id);
    } else if s'.reg.ep[i].used {
      GivenOut(s.reg, i);
      NamedSlot(s, s', a, i);
      assert Exact(s) ==> Matches(s.reg.ep[i], Holders(s, id));
      if a.Close? && a.slot == i {
        OneCloses(s, a.t, id);
      }
    }
  }

  lemma OneCloses(s: Sys, t: Thread, id: nat)
    requires PhaseOf(s, t) == Closing(id)
    ensures Holders(s, id) >= 1
  {
    assert t in ClosingOn(s.ph, id);
  }

  lemma ClosingIds(s: Sys, s': Sys, a: Step)
    requires Inv(s.reg) && Sane(s) && Counted(s) && Next(s, s', a)
    ensures forall t :: t in s'.ph && s'.ph[t].Closing? ==> s'.ph[t].id < s'.reg.nextId
  {
    hide Next, Inv, Holders;
    RegistryKept(s, s', a);
    Untouched(s, s', a);
    if a.GiveUpFd? {
      GivenUp(s, s', a);
    }
  }

  lemma GivenUp(s: Sys, s': Sys, a: Step)
    requires Sane(s) && Next(s, s', a) && a.GiveUpFd?
    ensures a.t in s'.ph && s'.ph[a.t].Closing? && s'.ph[a.t].id < s.reg.nextId
  {
    assert Made(s, s.opens[a.d].id);
  }

  // ---- every run ----

  lemma {:induction false} AlwaysCounted(ss: seq<Sys>, run: seq<Step>, i: nat)
    requires Run(ss, run) && i < |ss|
    ensures Counted(ss[i])
    ensures (forall j :: 0 <= j < i ==> !Death(ss[j], run[j])) ==> Exact(ss[i])
  {
    hide Next, Death, Good;
    if i > 0 {
      hide Counted, Exact, Init;
      AlwaysCounted(ss, run, i - 1);
      AlwaysGood(ss, run, i - 1);
      StepCounted(ss[i - 1], ss[i], run[i - 1]);
    }
  }

  lemma StepCounted(s: Sys, s': Sys, a: Step)
    requires Good(s) && Counted(s) && Next(s, s', a)
    ensures Counted(s')
    ensures Exact(s) && !Death(s, a) ==> Exact(s')
  {
    hide Next, Counted, Exact, Inv, Sane, Routed;
    CountedKept(s, s', a);
  }

  /** In every run, a close that ends an endpoint is its last: no descriptor of it is left.  And where no process has
      died, it ends it exactly then. */
  lemma LastCloseEnds(ss: seq<Sys>, run: seq<Step>, i: nat, t: Thread, slot: nat)
    requires Run(ss, run) && i < |run| && run[i] == Close(t, slot) && slot < |ss[i].reg.ep| == |ss[i + 1].reg.ep|
    ensures var id := ss[i].reg.ep[slot].id;
            && (!ss[i + 1].reg.ep[slot].used ==> Holders(ss[i + 1], id) == 0)
            && ((forall j :: 0 <= j < i ==> !Death(ss[j], run[j])) ==>
                  (!ss[i + 1].reg.ep[slot].used <==> Holders(ss[i + 1], id) == 0))
  {
    AlwaysCounted(ss, run, i);
    AlwaysGood(ss, run, i);
    CloseEnds(ss[i], ss[i + 1], t, slot);
  }

  lemma CloseEnds(s: Sys, s': Sys, t: Thread, slot: nat)
    requires Good(s) && Counted(s) && Next(s, s', Close(t, slot)) && slot < |s.reg.ep| == |s'.reg.ep|
    ensures !s'.reg.ep[slot].used ==> Holders(s', s.reg.ep[slot].id) == 0
    ensures Exact(s) ==> (!s'.reg.ep[slot].used <==> Holders(s', s.reg.ep[slot].id) == 0)
  {
    var id := s.reg.ep[slot].id;
    WasUsed(s, s', t, slot);
    hide Next, Inv, Sane, Routed, Holders, Awake;
    RefsChange(s, s', Close(t, slot), slot);
    HoldersChange(s, s', Close(t, slot), id);
    assert Covers(s.reg.ep[slot], Holders(s, id));
    assert Exact(s) ==> Matches(s.reg.ep[slot], Holders(s, id));
    OneCloses(s, t, id);
  }

  lemma WasUsed(s: Sys, s': Sys, t: Thread, slot: nat)
    requires Next(s, s', Close(t, slot)) && slot < |s.reg.ep|
    ensures s.reg.ep[slot].used && PhaseOf(s, t) == Closing(s.reg.ep[slot].id)
  {
  }

  /** While somebody holds a descriptor of an endpoint, no close takes it away. */
  lemma HeldOutlivesCloses(ss: seq<Sys>, run: seq<Step>, i: nat, t: Thread, slot: nat, d: nat)
    requires Run(ss, run) && i < |run| && run[i] == Close(t, slot) && slot < |ss[i].reg.ep| == |ss[i + 1].reg.ep|
    requires d in ss[i + 1].opens && ss[i + 1].opens[d].id == ss[i].reg.ep[slot].id
    ensures ss[i + 1].reg.ep[slot].used
  {
    hide Next, Init;
    LastCloseEnds(ss, run, i, t, slot);
    assert d in OpenOn(ss[i + 1].opens, ss[i].reg.ep[slot].id);
  }
}
