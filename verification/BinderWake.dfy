/** No wakeup is lost: whatever waits for an endpoint will be looked for. */
module BinderWake {
  import opened BinderRegistry
  import opened BinderSystem
  import Calls = BinderCalls

  /** Between draining the fifo of endpoint id and putting a byte back. */
  predicate Mid(p: Phase, id: nat) {
    (p.Draining? || p.Checking? || p.Poking?) && p.id == id
  }

  /** Between leaving a message at place k and waking endpoint id, or finding that nobody
      yet has its fifo open. */
  predicate Sending(p: Phase, id: nat, k: nat) {
    (p.Posted? || p.Refused?) && p.k == k && p.id == id
  }

  ghost predicate SomeReader(ph: map<Thread, Phase>, id: nat) {
    exists t :: t in ph && Mid(ph[t], id)
  }

  ghost predicate SomeSender(ph: map<Thread, Phase>, id: nat, k: nat) {
    exists t :: t in ph && Sending(ph[t], id, k)
  }

  /** The message at place k will be looked for. */
  ghost predicate Expected(s: Sys, id: nat, k: nat) {
    (id in s.fifos.bytes && s.fifos.bytes[id] > 0) || SomeReader(s.ph, id) || SomeSender(s.ph, id, k)
  }

  ghost predicate Watched(f: Fifos, id: nat) {
    id in f.bytes || id in f.unmade
  }

  ghost predicate Awake(s: Sys) {
    forall id: nat, k: nat :: WaitingAt(s.reg, id, k) && Watched(s.fifos, id) ==> Expected(s, id, k)
  }

  predicate Reader(p: Phase) {
    p.Reading? || p.Draining? || p.Checking? || p.Poking?
  }

  /** An endpoint that has been given out and has its fifo. */
  ghost predicate Made(s: Sys, id: nat) {
    id < s.reg.nextId && id !in s.fifos.unmade
  }

  /** Fifos belong to endpoints that have been given out; opens and readers have theirs. */
  ghost predicate Sane(s: Sys) {
    && s.fifos.cap > 0
    && (forall id: nat :: Watched(s.fifos, id) ==> id < s.reg.nextId)
    && (forall id :: id in s.fifos.unmade ==> id !in s.fifos.bytes)
    && (forall d :: d in s.opens ==> Made(s, s.opens[d].id))
    && (forall t :: t in s.ph && Reader(s.ph[t]) ==> Made(s, s.ph[t].id))
  }

  // ---- fifos, opens and readers ----

  lemma FifosChange(s: Sys, s': Sys, a: Step)
    requires Sane(s) && Next(s, s', a)
    ensures s'.fifos.cap == s.fifos.cap
    ensures a.Register? ==> s'.reg.nextId == s.reg.nextId + 1
    ensures forall id: nat :: Watched(s'.fifos, id) ==> Watched(s.fifos, id) || (a.Register? && id == s.reg.nextId)
    ensures forall id: nat :: id in s'.fifos.unmade ==>
              id !in s'.fifos.bytes && (id in s.fifos.unmade || (a.Register? && id == s.reg.nextId))
  {
    hide Next;
    if a.Register? || a.MakeFifo? || a.LastClosed? {
      FifosMade(s, s', a);
    } else {
      FifosFilled(s, s', a);
    }
  }

  lemma FifosMade(s: Sys, s': Sys, a: Step)
    requires Sane(s) && Next(s, s', a) && (a.Register? || a.MakeFifo? || a.LastClosed?)
    ensures s'.fifos.cap == s.fifos.cap
    ensures a.Register? ==> s'.reg.nextId == s.reg.nextId + 1
    ensures forall id: nat :: Watched(s'.fifos, id) ==> Watched(s.fifos, id) || (a.Register? && id == s.reg.nextId)
    ensures forall id: nat :: id in s'.fifos.unmade ==>
              id !in s'.fifos.bytes && (id in s.fifos.unmade || (a.Register? && id == s.reg.nextId))
  {
    hide NumbersIn, Emptied, FirstFree, Available;
    assert !Watched(s.fifos, s.reg.nextId);
  }

  /** Every other step adds or takes bytes and nothing else. */
  lemma FifosFilled(s: Sys, s': Sys, a: Step)
    requires Next(s, s', a) && !(a.Register? || a.MakeFifo? || a.LastClosed?)
    ensures s'.fifos.cap == s.fifos.cap && s'.fifos.unmade == s.fifos.unmade
    ensures s'.fifos.bytes.Keys == s.fifos.bytes.Keys
  {
    hide Next;
    Untouched(s, s', a);
    if a.Wake? || a.Drain? || a.Poke? || a.Nudge? {
      BytesChange(s, s', a);
    }
  }

  lemma BytesChange(s: Sys, s': Sys, a: Step)
    requires Next(s, s', a) && (a.Wake? || a.Drain? || a.Poke? || a.Nudge?)
    ensures s'.fifos.cap == s.fifos.cap && s'.fifos.unmade == s.fifos.unmade
    ensures s'.fifos.bytes.Keys == s.fifos.bytes.Keys
  {
  }

  /** The endpoint of an open was that of one before, or has just been given its fifo. */
  lemma OpenBefore(s: Sys, s': Sys, a: Step, d: nat)
    requires Sane(s) && Next(s, s', a) && d in s'.opens
    ensures Made(s, s'.opens[d].id)
            || (a.MakeFifo? && s'.opens[d].id == a.id && a.id !in s'.fifos.unmade && Watched(s.fifos, a.id))
  {
    hide Next;
    Untouched(s, s', a);
    if a.MakeFifo? || a.Adopt? || a.AdoptGone? {
      OpenMade(s, s', a, d);
    } else if a.GiveUpFd? || a.Exit? || a.Reply? || a.ReplyLost? || a.Collect? {
      OpenKept(s, s', a, d);
    }
  }

  lemma OpenMade(s: Sys, s': Sys, a: Step, d: nat)
    requires Sane(s) && Next(s, s', a) && d in s'.opens && (a.MakeFifo? || a.Adopt? || a.AdoptGone?)
    ensures Made(s, s'.opens[d].id)
            || (a.MakeFifo? && s'.opens[d].id == a.id && a.id !in s'.fifos.unmade && Watched(s.fifos, a.id))
  {
    hide Adopts, Live;
    assert Watched(s.fifos, a.id);
  }

  lemma OpenKept(s: Sys, s': Sys, a: Step, d: nat)
    requires Next(s, s', a) && d in s'.opens && (a.GiveUpFd? || a.Exit? || a.Reply? || a.ReplyLost? || a.Collect?)
    ensures d in s.opens && s'.opens[d].id == s.opens[d].id
  {
    hide Collects, Live, Calls.Notes, Calls.Taken, Calls.Owes, Debtor, Target;
  }

  lemma ReaderBefore(s: Sys, s': Sys, a: Step, t: Thread)
    requires Sane(s) && Next(s, s', a) && t in s'.ph && Reader(s'.ph[t])
    ensures Made(s, s'.ph[t].id)
  {
    hide Next;
    Untouched(s, s', a);
    if !Unmoving(a) && a.t == t {
      GoesOnReading(s, s', a);
    }
  }

  lemma GoesOnReading(s: Sys, s': Sys, a: Step)
    requires Sane(s) && Next(s, s', a) && (a.Read? || a.Collect? || a.StartDrain? || a.Drained? || a.Rearm?)
    ensures a.t in s'.ph && Reader(s'.ph[a.t]) && Made(s, s'.ph[a.t].id)
  {
  }

  lemma SaneKept(s: Sys, s': Sys, a: Step)
    requires Inv(s.reg) && Sane(s) && Next(s, s', a)
    ensures Sane(s')
  {
    hide Inv, Next;
    RegistryKept(s, s', a);
    FifosChange(s, s', a);
    forall d | d in s'.opens
      ensures Made(s', s'.opens[d].id)
    {
      OpenBefore(s, s', a, d);
    }
    forall t | t in s'.ph && Reader(s'.ph[t])
      ensures Made(s', s'.ph[t].id)
    {
      ReaderBefore(s, s', a, t);
    }
  }

  // ---- what is expected stays expected ----

  /** A thread that was neither reader nor sender here, or still is, changes nothing. */
  lemma Others(s: Sys, t: Thread, p: Phase, id: nat, k: nat)
    ensures SomeReader(s.ph, id) && (Mid(PhaseOf(s, t), id) ==> Mid(p, id)) ==> SomeReader(s.ph[t := p], id)
    ensures SomeSender(s.ph, id, k) && (Sending(PhaseOf(s, t), id, k) ==> Sending(p, id, k)) ==>
              SomeSender(s.ph[t := p], id, k)
    ensures Mid(p, id) ==> SomeReader(s.ph[t := p], id)
    ensures Sending(p, id, k) ==> SomeSender(s.ph[t := p], id, k)
  {
    var ph := s.ph[t := p];
    if SomeReader(s.ph, id) && (Mid(PhaseOf(s, t), id) ==> Mid(p, id)) {
      var u :| u in s.ph && Mid(s.ph[u], id);
      assert u in ph && Mid(ph[u], id);
    }
    if SomeSender(s.ph, id, k) && (Sending(PhaseOf(s, t), id, k) ==> Sending(p, id, k)) {
      var u :| u in s.ph && Sending(s.ph[u], id, k);
      assert u in ph && Sending(ph[u], id, k);
    }
    assert t in ph && ph[t] == p;
  }

  /** A thread that moves without ceasing to be reader or sender here leaves k expected. */
  lemma Moved(s: Sys, s': Sys, t: Thread, id: nat, k: nat)
    requires t in s'.ph && s'.ph == s.ph[t := s'.ph[t]] && s'.fifos == s.fifos && Expected(s, id, k)
    requires Mid(PhaseOf(s, t), id) ==> Mid(s'.ph[t], id)
    requires Sending(PhaseOf(s, t), id, k) ==> Sending(s'.ph[t], id, k)
    ensures Expected(s', id, k)
  {
    hide SomeReader, SomeSender;
    Others(s, t, s'.ph[t], id, k);
  }

  /** A sender that withdraws leaves nothing of its own behind. */
  lemma WithdrawnGone(s: Sys, s': Sys, t: Thread, dead: set<int>, id: nat, k: nat)
    requires Next(s, s', Withdraw(t, dead)) && WaitingAt(s'.reg, id, k)
    ensures !Sending(PhaseOf(s, t), id, k)
  {
  }

  /** A step that moves a thread moves that one only, and no reader or sender but at rest or withdrawal. */
  lemma SomebodyMoves(s: Sys, s': Sys, a: Step)
    requires Next(s, s', a)
    requires a.GiveUpFd? || a.Close? || a.CloseGone? || a.Look? || a.Reply? || a.Post? || a.GiveUp? || a.Withdraw? ||
             a.Read? || a.Collect? || a.StartDrain? || a.Drained? || a.Rearm? || a.Rest?
    ensures a.t in s'.ph && s'.ph == s.ph[a.t := s'.ph[a.t]] && s'.fifos == s.fifos
    ensures forall id: nat :: Mid(PhaseOf(s, a.t), id) ==> Mid(s'.ph[a.t], id) || (a.Rest? && !Waiting(s.reg, id))
    ensures forall id: nat, k: nat :: Sending(PhaseOf(s, a.t), id, k) ==> a.Withdraw?
  {
    hide Next;
    Untouched(s, s', a);
    if a.Drained? || a.Rearm? || a.Rest? {
      StaysMid(s, s', a);
    }
  }

  lemma StaysMid(s: Sys, s': Sys, a: Step)
    requires Next(s, s', a) && (a.Drained? || a.Rearm? || a.Rest?)
    ensures a.t in s'.ph
    ensures forall id: nat :: Mid(PhaseOf(s, a.t), id) ==> Mid(s'.ph[a.t], id) || (a.Rest? && !Waiting(s.reg, id))
  {
    hide Waiting;
  }

  lemma ExpectedMoving(s: Sys, s': Sys, a: Step, id: nat, k: nat)
    requires Next(s, s', a) && WaitingAt(s.reg, id, k) && WaitingAt(s'.reg, id, k) && Expected(s, id, k)
    requires a.GiveUpFd? || a.Close? || a.CloseGone? || a.Look? || a.Reply? || a.Post? || a.GiveUp? || a.Withdraw? ||
             a.Read? || a.Collect? || a.StartDrain? || a.Drained? || a.Rearm? || a.Rest?
    ensures Expected(s', id, k)
  {
    hide SomeReader, SomeSender, Next, WaitingAt;
    SomebodyMoves(s, s', a);
    assert Waiting(s.reg, id);
    if a.Withdraw? {
      WithdrawnGone(s, s', a.t, a.dead, id, k);
    }
    Moved(s, s', a.t, id, k);
  }

  /** The steps that change a fifo. */
  lemma ExpectedFifo(s: Sys, s': Sys, a: Step, id: nat, k: nat)
    requires Sane(s) && Next(s, s', a) && Watched(s.fifos, id) && Watched(s'.fifos, id) && Expected(s, id, k)
    requires a.Drain? || a.Poke? || a.Wake?
    ensures Expected(s', id, k)
  {
    hide SomeReader, SomeSender, Waiting;
    match a
    case Drain(t, n) => DrainExpected(s, s', t, n, id, k);
    case Poke(t) => PokeExpected(s, s', t, id, k);
    case Wake(t) => WakeExpected(s, s', t, id, k);
  }

  lemma DrainExpected(s: Sys, s': Sys, t: Thread, n: nat, id: nat, k: nat)
    requires Next(s, s', Drain(t, n)) && Expected(s, id, k)
    ensures Expected(s', id, k)
  {
    hide SomeReader, SomeSender;
    Others(s, t, PhaseOf(s, t), id, k);
    assert s.ph[t := PhaseOf(s, t)] == s.ph;
  }

  lemma PokeExpected(s: Sys, s': Sys, t: Thread, id: nat, k: nat)
    requires Sane(s) && Next(s, s', Poke(t)) && Watched(s.fifos, id) && Expected(s, id, k)
    ensures Expected(s', id, k)
  {
    hide SomeReader, SomeSender;
    Others(s, t, Idle, id, k);
  }

  lemma WakeExpected(s: Sys, s': Sys, t: Thread, id: nat, k: nat)
    requires Sane(s) && Next(s, s', Wake(t)) && Expected(s, id, k)
    ensures Expected(s', id, k)
  {
    hide SomeReader, SomeSender;
    Others(s, t, s'.ph[t], id, k);
  }

  lemma ExpectedKept(s: Sys, s': Sys, a: Step, id: nat, k: nat)
    requires Sane(s) && Next(s, s', a) && WaitingAt(s.reg, id, k) && WaitingAt(s'.reg, id, k)
    requires Watched(s.fifos, id) && Watched(s'.fifos, id) && Expected(s, id, k)
    ensures Expected(s', id, k)
  {
    if a.Drain? || a.Poke? || a.Wake? {
      hide Next;
      ExpectedFifo(s, s', a, id, k);
    } else if a.GiveUpFd? || a.Close? || a.CloseGone? || a.Look? || a.Reply? || a.Post? || a.GiveUp? || a.Withdraw? ||
              a.Read? || a.Collect? || a.StartDrain? || a.Drained? || a.Rearm? || a.Rest? {
      hide Next;
      ExpectedMoving(s, s', a, id, k);
    } else {
      ExpectedStill(s, s', a, id, k);
    }
  }

  /** The steps that move nobody: a fifo made is empty as it was, or is gone. */
  lemma ExpectedStill(s: Sys, s': Sys, a: Step, id: nat, k: nat)
    requires Sane(s) && Next(s, s', a) && Watched(s.fifos, id) && Watched(s'.fifos, id) && Expected(s, id, k)
    requires a.Register? || a.MakeFifo? || a.Adopt? || a.AdoptGone? || a.LastClosed? || a.Exit? || a.Drop?
             || a.Manage? || a.ReplyLost? || a.Export? || a.Nudge?
    ensures Expected(s', id, k)
  {
    hide Next, SomeReader, SomeSender;
    NobodyMoves(s, s', a);
  }

  lemma NobodyMoves(s: Sys, s': Sys, a: Step)
    requires Next(s, s', a)
    requires a.Register? || a.MakeFifo? || a.Adopt? || a.AdoptGone? || a.LastClosed? || a.Exit? || a.Drop?
             || a.Manage? || a.ReplyLost? || a.Export? || a.Nudge?
    ensures s'.ph == s.ph && s'.fifos.cap == s.fifos.cap
    ensures forall id :: id in s.fifos.bytes && id in s'.fifos.bytes && !a.MakeFifo? ==>
              s'.fifos.bytes[id] >= s.fifos.bytes[id]
    ensures forall id :: id in s.fifos.bytes && id !in s.fifos.unmade && id in s'.fifos.bytes ==>
              s'.fifos.bytes[id] >= s.fifos.bytes[id]
    ensures forall id :: id in s.fifos.bytes && id !in s.fifos.unmade && id !in s'.fifos.bytes ==>
              !Watched(s'.fifos, id)
  {
    hide Next;
    Untouched(s, s', a);
    if a.Register? || a.MakeFifo? || a.LastClosed? || a.Nudge? {
      BytesKept(s, s', a);
    }
  }

  lemma BytesKept(s: Sys, s': Sys, a: Step)
    requires Next(s, s', a) && (a.Register? || a.MakeFifo? || a.LastClosed? || a.Nudge?)
    ensures s'.fifos.cap == s.fifos.cap
    ensures forall id :: id in s.fifos.bytes && id in s'.fifos.bytes && !a.MakeFifo? ==>
              s'.fifos.bytes[id] >= s.fifos.bytes[id]
    ensures forall id :: id in s.fifos.bytes && id !in s.fifos.unmade && id in s'.fifos.bytes ==>
              s'.fifos.bytes[id] >= s.fifos.bytes[id]
    ensures forall id :: id in s.fifos.bytes && id !in s.fifos.unmade && id !in s'.fifos.bytes ==>
              !Watched(s'.fifos, id)
  {
    hide Opens, NumbersIn;
  }

  lemma AwakeKept(s: Sys, s': Sys, a: Step)
    requires Inv(s.reg) && Sane(s) && Awake(s) && Next(s, s', a)
    ensures Awake(s')
  {
    hide Inv, Sane, Next, Expected, WaitingAt, Watched;
    forall id: nat, k: nat | WaitingAt(s'.reg, id, k) && Watched(s'.fifos, id)
      ensures Expected(s', id, k)
    {
      if a.Post? && a.k == k {
        JustPosted(s, s', a.t, k, id);
      } else {
        StillWaiting(s, s', a, id, k);
        FifosChange(s, s', a);
        ExpectedKept(s, s', a, id, k);
      }
    }
  }

  lemma JustPosted(s: Sys, s': Sys, t: Thread, k: nat, id: nat)
    requires Next(s, s', Post(t, k)) && WaitingAt(s'.reg, id, k)
    ensures Expected(s', id, k)
  {
    Others(s, t, s'.ph[t], id, k);
  }
}
