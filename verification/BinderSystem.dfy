/** Every process and thread that uses binder at once: the registry changed one locked section at
    a time, a wake fifo for each endpoint, every open of the device, and where each thread has got to.
 */
module BinderSystem {
  import opened BinderRegistry
  import Calls = BinderCalls
  import Nodes = BinderNodes

  type Owed = Calls.Owed

  /** A thread: the process it is in, and its port name, which only that process gives a meaning. */
  datatype Thread = Thread(proc: nat, port: nat)

  /** Where a thread is between two of its steps. */
  datatype Phase =
    | Idle
    | Found(slot: nat, draft: Msg)              // an endpoint looked up, the lock not yet taken
    | Posted(k: nat, id: nat, num: nat)         // a message left at place k, its endpoint not yet woken
    | Refused(k: nat, id: nat, num: nat)        // nobody had the fifo open: to be withdrawn
    | Crowded(k: nat, id: nat, num: nat)        // the fifo was full: to be withdrawn
    | Reading(d: nat, id: nat, got: bool)       // in a read, collecting; got: something has been
    | Draining(id: nat)
    | Checking(id: nat)                         // drained, not yet looked at the queue again
    | Poking(id: nat)
    | Closing(id: nat)                          // a descriptor given up, the registry not yet told

  /** One open of the device by a process: the endpoint it is an open of, and its own table of calls. */
  datatype Open = Open(id: nat, proc: nat, ctx: string, tab: Calls.Tab)

  datatype Event =
    | Collected(d: nat, ep: nat, t: Thread, msg: Msg, target: (nat, nat))
    | Answered(d: nat, t: Thread, to: Owed)
    | Withdrawn(t: Thread, msg: Msg, own: nat)  // own: the number the thread itself had posted

  /** What has been opened for whom, with the fifo still to be made. */
  datatype Birth = Birth(proc: nat, ctx: string)

  /** The wake bytes of each endpoint somebody holds open, and the endpoints whose fifo is unmade. */
  datatype Fifos = Fifos(cap: nat, bytes: map<nat, nat>, unmade: map<nat, Birth>)

  /** What has happened.  `dropped` are the messages that went with their slot, `stray` those left in a
      slot that had changed hands since it was looked up, and `users` the threads that have called
      from an endpoint or read it. */
  datatype History = History(log: seq<Event>, dropped: set<nat>, stray: set<nat>, users: set<(nat, Thread)>)

  /** `opens` are the descriptors, numbered in the order they were made. */
  datatype Sys = Sys(reg: Reg, nodes: seq<Nodes.Node>, fifos: Fifos, opens: map<nat, Open>, made: nat,
                     ph: map<Thread, Phase>, past: History)

  function PhaseOf(s: Sys, t: Thread): Phase {
    if t in s.ph then s.ph[t] else Idle
  }

  function NewTab(): Calls.Tab {
    Calls.Tab(seq(Calls.MAX_CALLS, _ => Calls.FREE), map[], 0)
  }

  // ---- steps ----

  datatype Step =
    | Register(proc: nat, slot: nat, ctx: string, dead: set<int>)
    | MakeFifo(id: nat)
    | Adopt(proc: nat, id: nat, slot: nat)
    | AdoptGone(proc: nat, id: nat)
    | GiveUpFd(t: Thread, d: nat)
    | Close(t: Thread, slot: nat)
    | CloseGone(t: Thread)
    | LastClosed(id: nat)
    | Exit(proc: nat)
    | Drop(slot: nat)
    | Manage(d: nat, slot: nat)
    | Look(t: Thread, d: nat, handle: nat, cookie: nat, total: nat, oneWay: bool, slot: nat)
    | Reply(t: Thread, d: nat, total: nat, slot: nat)
    | ReplyLost(t: Thread, d: nat)
    | Export(t: Thread, ptr: nat, cookie: nat, h: nat)
    | Post(t: Thread, k: nat)
    | GiveUp(t: Thread)
    | Wake(t: Thread)
    | Withdraw(t: Thread, dead: set<int>)
    | Read(t: Thread, d: nat)
    | Collect(t: Thread, k: nat)
    | StartDrain(t: Thread)
    | Drain(t: Thread, n: nat)
    | Drained(t: Thread)
    | Rearm(t: Thread)
    | Rest(t: Thread)
    | Poke(t: Thread)
    | Nudge(id: nat)                            // a command queued for the endpoint's own reader

  /** Thread t goes on to p. */
  function At(s: Sys, t: Thread, p: Phase): Sys {
    s.(ph := s.ph[t := p])
  }

  /** One more byte, if the fifo is open and has room. */
  function Poked(f: Fifos, id: nat): Fifos {
    if id in f.bytes && f.bytes[id] < f.cap then f.(bytes := f.bytes[id := f.bytes[id] + 1]) else f
  }

  ghost predicate Live(r: Reg, id: nat) {
    exists i :: 0 <= i < |r.ep| && r.ep[i].used && r.ep[i].id == id
  }

  /** Slot i has the live endpoint id. */
  predicate Has(r: Reg, i: nat, id: nat) {
    i < |r.ep| && r.ep[i].used && r.ep[i].id == id
  }

  /** Thread t uses descriptor d, which its process has open. */
  predicate Uses(s: Sys, t: Thread, d: nat) {
    d in s.opens && s.opens[d].proc == t.proc && t.port != 0
  }

  /** The numbers of the messages in slot i. */
  ghost function NumbersIn(r: Reg, i: nat): set<nat> {
    set k: nat | k < |r.q| && SlotOf(k) == i && r.q[k].used :: r.q[k].num
  }

  /** A new descriptor of process proc on endpoint id. */
  function WithOpen(s: Sys, id: nat, proc: nat, ctx: string): Sys {
    s.(opens := s.opens[s.made := Open(id, proc, ctx, NewTab())], made := s.made + 1)
  }

  /** What a reply by thread t on descriptor d is owed to: its innermost call, or the endpoint
      itself when it is answering none. */
  ghost function Debtor(s: Sys, d: nat, t: Thread): Owed
    requires d in s.opens
  {
    var own := Calls.Owes(s.opens[d].tab, t.port);
    if own == [] then Calls.Owed(s.opens[d].id, 0, t.proc) else own[|own| - 1]
  }

  /** Its call is answered, whether or not the reply can be sent. */
  ghost function Answer(s: Sys, d: nat, t: Thread): Sys
    requires d in s.opens
  {
    s.(opens := s.opens[d := s.opens[d].(tab := Calls.Taken(s.opens[d].tab, t.port))],
       past := s.past.(log := s.past.log + [Answered(d, t, Debtor(s, d, t))]))
  }

  ghost function CallFrom(s: Sys, t: Thread, d: nat, handle: nat, cookie: nat, total: nat, oneWay: bool, want: nat): Msg
    requires d in s.opens
  {
    Msg(false, false, 0, s.opens[d].id, handle, cookie, if oneWay then 0 else t.port, oneWay, total, want, t.proc)
  }

  ghost function ReplyTo(s: Sys, d: nat, to: Owed, total: nat): Msg
    requires d in s.opens
  {
    Msg(false, true, 0, s.opens[d].id, 0, 0, to.tid, false, total, to.ep, to.proc)
  }

  function Used(s: Sys, t: Thread, id: nat): Sys {
    s.(past := s.past.(users := s.past.users + {(id, t)}))
  }

  /** A message is waiting for endpoint id at place k. */
  ghost predicate WaitingAt(r: Reg, id: nat, k: nat) {
    k < |r.q| && r.q[k].used && Has(r, SlotOf(k), id)
  }

  ghost predicate Waiting(r: Reg, id: nat) {
    exists k: nat :: WaitingAt(r, id, k)
  }

  ghost predicate PostNext(s: Sys, s': Sys, t: Thread, k: nat) {
    && PhaseOf(s, t).Found? && SlotOf(k) == PhaseOf(s, t).slot < |s.reg.ep|
    && Posts(s.reg, s'.reg, k, PhaseOf(s, t).draft)
    && var id, n := s.reg.ep[SlotOf(k)].id, s.reg.nextSeq;
    && var stray := if id == PhaseOf(s, t).draft.want then s.past.stray else s.past.stray + {n};
    s' == At(s, t, Posted(k, id, n)).(reg := s'.reg, past := s.past.(stray := stray))
  }

  ghost predicate WakeNext(s: Sys, s': Sys, t: Thread) {
    && PhaseOf(s, t).Posted?
    && var Posted(k, id, n) := PhaseOf(s, t);
    if id !in s.fifos.bytes then s' == At(s, t, Refused(k, id, n))
    else if s.fifos.bytes[id] >= s.fifos.cap then s' == At(s, t, Crowded(k, id, n))
    else s' == At(s, t, Idle).(fifos := Poked(s.fifos, id))
  }

  /** A sender takes its place back, with whatever message is in it. */
  ghost predicate WithdrawNext(s: Sys, s': Sys, t: Thread, dead: set<int>) {
    && (PhaseOf(s, t).Refused? || PhaseOf(s, t).Crowded?)
    && var p := PhaseOf(s, t);
    && Withdraws(s.reg, s'.reg, p.k, p.id, dead)
    && s' == At(s, t, Idle).(reg := s'.reg, past := s.past.(log := s.past.log +
               if s.reg.q[p.k].used && !s'.reg.q[p.k].used then [Withdrawn(t, s.reg.q[p.k], p.num)] else []))
  }

  /** One message taken.  A call that is owed an answer is noted in the descriptor's table. */
  ghost predicate CollectNext(s: Sys, s': Sys, t: Thread, k: nat) {
    && PhaseOf(s, t).Reading? && Uses(s, t, PhaseOf(s, t).d) && PhaseOf(s, t).d in s'.opens
    && var Reading(d, id, _) := PhaseOf(s, t);
    && Collects(s.reg, s'.reg, k, id, t.port)
    && var m := s.reg.q[k];
    && (if m.isReply || m.oneWay then s'.opens[d].tab == s.opens[d].tab
        else Calls.Notes(s.opens[d].tab, s'.opens[d].tab, t.port, Calls.Owed(m.senderEp, m.replyTid, m.proc)))
    && s' == At(s, t, Reading(d, id, true)).(
               reg := s'.reg, opens := s.opens[d := s.opens[d].(tab := s'.opens[d].tab)],
               past := s.past.(log := s.past.log + [Collected(d, id, t, m, Target(s.nodes, m.target, m.cookie))]))
  }

  /** s' follows s by the step a. */
  ghost predicate Next(s: Sys, s': Sys, a: Step) {
    match a
    case Register(proc, slot, ctx, dead) =>
      && Opens(s.reg, s'.reg, slot, proc, ctx, dead)
      && s' == s.(reg := s'.reg, fifos := s.fifos.(unmade := s.fifos.unmade[s.reg.nextId := Birth(proc, ctx)]),
                  past := s.past.(dropped := s.past.dropped + NumbersIn(s.reg, slot)))
    case MakeFifo(id) =>
      && id in s.fifos.unmade
      && s' == WithOpen(s, id, s.fifos.unmade[id].proc, s.fifos.unmade[id].ctx).(
                 fifos := Fifos(s.fifos.cap, s.fifos.bytes[id := 0], s.fifos.unmade - {id}))
    case Adopt(proc, id, slot) =>
      && id in s.fifos.bytes && Has(s.reg, slot, id) && Adopts(s.reg, s'.reg, slot)
      && s' == WithOpen(s, id, proc, s.reg.ep[slot].ctx).(reg := s'.reg)
    case AdoptGone(proc, id) => id in s.fifos.bytes && !Live(s.reg, id) && s' == WithOpen(s, id, proc, "")
    case GiveUpFd(t, d) =>
      && PhaseOf(s, t) == Idle && Uses(s, t, d)
      && s' == At(s, t, Closing(s.opens[d].id)).(opens := s.opens - {d})
    case Close(t, slot) =>
      && PhaseOf(s, t).Closing? && Has(s.reg, slot, PhaseOf(s, t).id)
      && Closes(s.reg, s'.reg, slot) && s' == At(s, t, Idle).(reg := s'.reg)
    case CloseGone(t) => PhaseOf(s, t).Closing? && !Live(s.reg, PhaseOf(s, t).id) && s' == At(s, t, Idle)
    case LastClosed(id) =>
      && (forall d :: d in s.opens ==> s.opens[d].id != id)
      && s' == s.(fifos := Fifos(s.fifos.cap, s.fifos.bytes - {id}, s.fifos.unmade - {id}))
    case Exit(proc) => s' == s.(opens := map d | d in s.opens && s.opens[d].proc != proc :: s.opens[d])
    case Drop(slot) => Drops(s.reg, s'.reg, slot) && s' == s.(reg := s'.reg)
    case Manage(d, slot) =>
      && d in s.opens && Has(s.reg, slot, s.opens[d].id) && s.reg.ep[slot].ctx == s.opens[d].ctx
      && Manages(s.reg, s'.reg, slot) && s' == s.(reg := s'.reg)
    case Look(t, d, handle, cookie, total, oneWay, slot) =>
      && PhaseOf(s, t) == Idle && Uses(s, t, d) && Reaches(s.reg, s.nodes, handle, s.opens[d].ctx, slot)
      && s' == Used(At(s, t, Found(slot, CallFrom(s, t, d, handle, cookie, total, oneWay, s.reg.ep[slot].id))), t,
                    s.opens[d].id)
    case Reply(t, d, total, slot) =>
      && PhaseOf(s, t) == Idle && Uses(s, t, d) && Has(s.reg, slot, Debtor(s, d, t).ep)
      && s' == At(Answer(s, d, t), t, Found(slot, ReplyTo(s, d, Debtor(s, d, t), total)))
    case ReplyLost(t, d) =>
      && PhaseOf(s, t) == Idle && Uses(s, t, d) && !Live(s.reg, Debtor(s, d, t).ep)
      && s' == Answer(s, d, t)
    case Export(t, ptr, cookie, h) =>
      && PhaseOf(s, t).Found?
      && Nodes.Registered(s.nodes, PhaseOf(s, t).draft.senderEp, ptr, cookie, s'.nodes, h)
      && s' == s.(nodes := s'.nodes)
    case Post(t, k) => PostNext(s, s', t, k)
    case GiveUp(t) => (PhaseOf(s, t).Found? || PhaseOf(s, t).Reading?) && s' == At(s, t, Idle)
    case Wake(t) => WakeNext(s, s', t)
    case Withdraw(t, dead) => WithdrawNext(s, s', t, dead)
    case Read(t, d) =>
      && PhaseOf(s, t) == Idle && Uses(s, t, d)
      && s' == Used(At(s, t, Reading(d, s.opens[d].id, false)), t, s.opens[d].id)
    case Collect(t, k) => CollectNext(s, s', t, k)
    case StartDrain(t) => PhaseOf(s, t).Reading? && s' == At(s, t, Draining(PhaseOf(s, t).id))
    case Drain(t, n) =>
      && PhaseOf(s, t).Draining?
      && var id := PhaseOf(s, t).id;
      && id in s.fifos.bytes && 0 < n <= 64 && n <= s.fifos.bytes[id]
      && s' == s.(fifos := s.fifos.(bytes := s.fifos.bytes[id := s.fifos.bytes[id] - n]))
    case Drained(t) =>
      && PhaseOf(s, t).Draining?
      && (PhaseOf(s, t).id in s.fifos.bytes ==> s.fifos.bytes[PhaseOf(s, t).id] == 0)
      && s' == At(s, t, Checking(PhaseOf(s, t).id))
    case Rearm(t) => PhaseOf(s, t).Checking? && s' == At(s, t, Poking(PhaseOf(s, t).id))
    case Rest(t) => PhaseOf(s, t).Checking? && !Waiting(s.reg, PhaseOf(s, t).id) && s' == At(s, t, Idle)
    case Poke(t) => PhaseOf(s, t).Poking? && s' == At(s, t, Idle).(fifos := Poked(s.fifos, PhaseOf(s, t).id))
    case Nudge(id) => s' == s.(fifos := Poked(s.fifos, id))
  }

  // ---- what a step changes ----

  /** The section each step runs on the registry, if it runs one. */
  lemma Section(s: Sys, s': Sys, a: Step)
    requires Next(s, s', a)
    ensures a.Register? ==> Opens(s.reg, s'.reg, a.slot, a.proc, a.ctx, a.dead)
    ensures a.Adopt? ==> Adopts(s.reg, s'.reg, a.slot)
    ensures a.Close? ==> Closes(s.reg, s'.reg, a.slot)
    ensures a.Drop? ==> Drops(s.reg, s'.reg, a.slot)
    ensures a.Manage? ==> Manages(s.reg, s'.reg, a.slot)
    ensures a.Post? ==> PhaseOf(s, a.t).Found? && Posts(s.reg, s'.reg, a.k, PhaseOf(s, a.t).draft)
    ensures a.Withdraw? ==> (PhaseOf(s, a.t).Refused? || PhaseOf(s, a.t).Crowded?)
    ensures a.Withdraw? ==> Withdraws(s.reg, s'.reg, PhaseOf(s, a.t).k, PhaseOf(s, a.t).id, a.dead)
    ensures a.Collect? ==> PhaseOf(s, a.t).Reading? && Collects(s.reg, s'.reg, a.k, PhaseOf(s, a.t).id, a.t.port)
    ensures !(a.Register? || a.Adopt? || a.Close? || a.Drop? || a.Manage? || a.Post? || a.Withdraw? || a.Collect?) ==>
              s'.reg == s.reg
  {
    hide Opens, Adopts, Closes, Drops, Manages, Posts, Withdraws, Collects, Calls.Notes, Calls.Taken, Calls.Owes,
         NumbersIn, Live, Waiting, Reaches;
  }

  lemma RegistryKept(s: Sys, s': Sys, a: Step)
    requires Inv(s.reg) && Next(s, s', a)
    ensures Inv(s'.reg) && s.reg.nextId <= s'.reg.nextId && s.reg.nextSeq <= s'.reg.nextSeq
  {
    hide Inv, Next;
    Section(s, s', a);
    match a
    case Register(proc, slot, ctx, dead) => OpensKeeps(s.reg, s'.reg, slot, proc, ctx, dead);
    case Adopt(proc, id, slot) => AltersKeeps(s.reg, s'.reg, slot, s'.reg.ep[slot]);
    case Close(t, slot) => AltersKeeps(s.reg, s'.reg, slot, s'.reg.ep[slot]);
    case Drop(slot) => AltersKeeps(s.reg, s'.reg, slot, s'.reg.ep[slot]);
    case Manage(d, slot) => AltersKeeps(s.reg, s'.reg, slot, s'.reg.ep[slot]);
    case Post(t, k) => PostsKeeps(s.reg, s'.reg, k, PhaseOf(s, t).draft);
    case Withdraw(t, dead) => WithdrawsKeeps(s.reg, s'.reg, PhaseOf(s, t).k, PhaseOf(s, t).id, dead);
    case Collect(t, k) => ClearsKeeps(s.reg, s'.reg, k);
    case _ =>
  }

  /** An endpoint's slot changes only to the same endpoint, to nothing, or to a new one. */
  lemma SlotChange(s: Sys, s': Sys, a: Step, i: nat)
    requires Inv(s.reg) && Next(s, s', a) && i < |s.reg.ep|
    ensures |s'.reg.ep| == |s.reg.ep| == MAX_EP
    ensures !(a.Register? && a.slot == i) ==>
              s'.reg.ep[i].id == s.reg.ep[i].id && (s'.reg.ep[i].used ==> s.reg.ep[i].used)
    ensures a.Register? && a.slot == i ==> s'.reg.ep[i].id == s.reg.nextId
  {
    hide NumbersDistinct, OneManager, IdsDistinct, Next;
    Section(s, s', a);
  }

  lemma EpCount(s: Sys, s': Sys, a: Step)
    requires Inv(s.reg) && Next(s, s', a)
    ensures |s'.reg.ep| == |s.reg.ep| == MAX_EP
  {
    hide NumbersDistinct, OneManager, IdsDistinct;
    SlotChange(s, s', a, 0);
  }

  /** An id that has been given out and is not in use never comes into use again. */
  lemma NoReturn(s: Sys, s': Sys, a: Step, id: nat)
    requires Inv(s.reg) && Next(s, s', a) && id < s.reg.nextId && !Live(s.reg, id)
    ensures !Live(s'.reg, id)
  {
    hide Next, Inv;
    EpCount(s, s', a);
    forall i: nat | i < |s.reg.ep|
      ensures s'.reg.ep[i].used && s'.reg.ep[i].id == id ==> s.reg.ep[i].used && s.reg.ep[i].id == id
    {
      SlotChange(s, s', a, i);
    }
  }

  /** The message that step a takes out of place k, if it does. */
  ghost predicate Takes(s: Sys, s': Sys, a: Step, k: nat) {
    || (a.Register? && a.slot == SlotOf(k))
    || (a.Collect? && a.k == k)
    || (a.Withdraw? && (PhaseOf(s, a.t).Refused? || PhaseOf(s, a.t).Crowded?) && PhaseOf(s, a.t).k == k &&
        Has(s.reg, SlotOf(k), PhaseOf(s, a.t).id))
  }

  /** A place changes by a post, or by being emptied. */
  lemma PlaceChange(s: Sys, s': Sys, a: Step, k: nat)
    requires Inv(s.reg) && Next(s, s', a) && k < |s.reg.q|
    ensures |s'.reg.q| == |s.reg.q|
    ensures if a.Post? && a.k == k then
              !s.reg.q[k].used && s'.reg.q[k] == PhaseOf(s, a.t).draft.(used := true, num := s.reg.nextSeq)
                && s'.reg.nextSeq == s.reg.nextSeq + 1
            else if Takes(s, s', a, k) then !s'.reg.q[k].used
            else s'.reg.q[k] == s.reg.q[k]
    ensures !a.Post? ==> s'.reg.nextSeq == s.reg.nextSeq
  {
    hide IdsDistinct, OneManager, NumbersDistinct, Next;
    Section(s, s', a);
  }

  /** What is waiting after a step was waiting before it, or has just been posted. */
  lemma StillWaiting(s: Sys, s': Sys, a: Step, id: nat, k: nat)
    requires Inv(s.reg) && Next(s, s', a) && WaitingAt(s'.reg, id, k) && !(a.Post? && a.k == k)
    ensures WaitingAt(s.reg, id, k) && s'.reg.q[k] == s.reg.q[k] && id < s.reg.nextId
  {
    hide Next, Inv;
    EpCount(s, s', a);
    QueueSize(s, s', a);
    PlaceChange(s, s', a, k);
    SlotChange(s, s', a, SlotOf(k));
    GivenOut(s.reg, SlotOf(k));
  }

  lemma QueueSize(s: Sys, s': Sys, a: Step)
    requires Inv(s.reg) && Next(s, s', a)
    ensures |s'.reg.q| == |s.reg.q| == MAX_EP * MSG_MAX
  {
    hide Next, IdsDistinct, OneManager, NumbersDistinct;
    RegistryKept(s, s', a);
  }

  lemma GivenOut(r: Reg, i: nat)
    requires Inv(r) && i < |r.ep|
    ensures r.ep[i].id < r.nextId
  {
    hide NumbersDistinct, OneManager;
  }

  /** The thread that takes step a. */
  ghost predicate Acts(a: Step, t: Thread) {
    || ((a.GiveUpFd? || a.Look? || a.Reply? || a.Read?) && a.t == t)
    || ((a.Close? || a.CloseGone? || a.Post? || a.GiveUp? || a.Wake? || a.Withdraw?) && a.t == t)
    || ((a.Collect? || a.StartDrain? || a.Drained? || a.Rearm? || a.Rest? || a.Poke?) && a.t == t)
  }

  /** The step moves no thread. */
  predicate Unmoving(a: Step) {
    || a.Register? || a.MakeFifo? || a.Adopt? || a.AdoptGone? || a.LastClosed? || a.Exit? || a.Drop?
    || a.Manage? || a.ReplyLost? || a.Export? || a.Drain? || a.Nudge?
  }

  /** Where step a can leave the thread that takes it. */
  predicate GoesTo(a: Step, p: Phase) {
    && (p.Found? <==> a.Look? || a.Reply?) && (p.Posted? <==> a.Post?) && (p.Refused? || p.Crowded? ==> a.Wake?)
    && (p.Reading? <==> a.Read? || a.Collect?) && (p.Draining? <==> a.StartDrain?) && (p.Checking? <==> a.Drained?)
    && (p.Poking? <==> a.Rearm?) && (p.Closing? <==> a.GiveUpFd?)
  }

  /** Where step a finds the thread that takes it. */
  predicate ComesFrom(a: Step, p: Phase) {
    && (a.GiveUpFd? || a.Look? || a.Reply? || a.Read? ==> p == Idle) && (a.Close? || a.CloseGone? ==> p.Closing?)
    && (a.Post? ==> p.Found?) && (a.GiveUp? ==> p.Found? || p.Reading?) && (a.Wake? ==> p.Posted?)
    && (a.Withdraw? ==> p.Refused? || p.Crowded?) && (a.StartDrain? || a.Collect? ==> p.Reading?)
      && (a.Drained? ==> p.Draining?)
    && (a.Rearm? || a.Rest? ==> p.Checking?) && (a.Poke? ==> p.Poking?)
  }

  /** What each kind of step leaves as it was. */
  ghost predicate Spares(s: Sys, s': Sys, a: Step) {
    && (Unmoving(a) ==> s'.ph == s.ph)
    && (!Unmoving(a) ==>
          && Acts(a, a.t) && a.t in s'.ph && s'.ph == s.ph[a.t := s'.ph[a.t]]
          && ComesFrom(a, PhaseOf(s, a.t)) && GoesTo(a, s'.ph[a.t]))
    && (!(a.Register? || a.MakeFifo? || a.LastClosed? || a.Wake? || a.Drain? || a.Poke? || a.Nudge?) ==>
          s'.fifos == s.fifos)
    && (!(a.MakeFifo? || a.Adopt? || a.AdoptGone? || a.GiveUpFd? || a.Exit? || a.Reply? || a.ReplyLost?
          || a.Collect?) ==>
          s'.opens == s.opens)
    && (!(a.MakeFifo? || a.Adopt? || a.AdoptGone?) ==> s'.made == s.made)
    && (!a.Export? ==> s'.nodes == s.nodes)
    && (!(a.Collect? || a.Reply? || a.ReplyLost? || a.Withdraw?) ==> s'.past.log == s.past.log)
    && (!a.Register? ==> s'.past.dropped == s.past.dropped)
    && (!a.Post? ==> s'.past.stray == s.past.stray)
    && (!(a.Look? || a.Read?) ==> s'.past.users == s.past.users)
  }

  lemma Untouched(s: Sys, s': Sys, a: Step)
    requires Next(s, s', a)
    ensures Spares(s, s', a)
  {
    hide Next, Spares;
    if Unmoving(a) {
      if a.Register? || a.MakeFifo? || a.Adopt? || a.AdoptGone? || a.LastClosed? || a.Exit? {
        OpeningSpares(s, s', a);
      } else {
        StillSpares(s, s', a);
      }
    } else if a.StartDrain? || a.Drained? || a.Rearm? || a.Rest? || a.Poke? {
      DrainingSpares(s, s', a);
    } else if a.Read? || a.GiveUp? || a.GiveUpFd? || a.Close? || a.CloseGone? {
      ClosingSpares(s, s', a);
    } else if a.Look? || a.Reply? {
      CallingSpares(s, s', a);
    } else if a.Collect? {
      CollectSpares(s, s', a);
    } else {
      SendingSpares(s, s', a);
    }
  }

  lemma OpeningSpares(s: Sys, s': Sys, a: Step)
    requires Next(s, s', a) && (a.Register? || a.MakeFifo? || a.Adopt? || a.AdoptGone? || a.LastClosed? || a.Exit?)
    ensures Spares(s, s', a)
  {
    hide Opens, Adopts, Live, NumbersIn;
  }

  lemma StillSpares(s: Sys, s': Sys, a: Step)
    requires Next(s, s', a)
    requires a.Drop? || a.Manage? || a.ReplyLost? || a.Export? || a.Drain? || a.Nudge?
    ensures Spares(s, s', a)
  {
    hide Drops, Manages, Live, Calls.Taken, Calls.Owes, Debtor, Nodes.Registered;
  }

  lemma DrainingSpares(s: Sys, s': Sys, a: Step)
    requires Next(s, s', a) && (a.StartDrain? || a.Drained? || a.Rearm? || a.Rest? || a.Poke?)
    ensures Spares(s, s', a)
  {
    hide Waiting;
  }

  lemma ClosingSpares(s: Sys, s': Sys, a: Step)
    requires Next(s, s', a) && (a.Read? || a.GiveUp? || a.GiveUpFd? || a.Close? || a.CloseGone?)
    ensures Spares(s, s', a)
  {
    hide Closes, Live;
  }

  lemma CallingSpares(s: Sys, s': Sys, a: Step)
    requires Next(s, s', a) && (a.Look? || a.Reply?)
    ensures Spares(s, s', a)
  {
    hide Reaches, Calls.Taken, Calls.Owes, Debtor, ReplyTo, CallFrom;
  }

  lemma CollectSpares(s: Sys, s': Sys, a: Step)
    requires Next(s, s', a) && a.Collect?
    ensures Spares(s, s', a)
  {
    hide Collects, Calls.Notes, Target;
  }

  lemma SendingSpares(s: Sys, s': Sys, a: Step)
    requires Next(s, s', a) && (a.Post? || a.Wake? || a.Withdraw?)
    ensures Spares(s, s', a)
  {
    hide Posts, Withdraws;
  }

  /** Only the thread that acts goes on. */
  lemma PhaseChange(s: Sys, s': Sys, a: Step, t: Thread)
    requires Next(s, s', a) && !Acts(a, t)
    ensures PhaseOf(s', t) == PhaseOf(s, t) && (t in s'.ph <==> t in s.ph)
  {
    hide Next;
    Untouched(s, s', a);
  }

  /** The past only grows, by at most one event. */
  lemma PastGrows(s: Sys, s': Sys, a: Step)
    requires Next(s, s', a)
    ensures s.past.users <= s'.past.users
    ensures s'.past.log == s.past.log
            || (|s'.past.log| == |s.past.log| + 1 && s'.past.log[..|s.past.log|] == s.past.log)
    ensures !(a.Collect? || a.Reply? || a.ReplyLost? || a.Withdraw?) ==> s'.past.log == s.past.log
  {
    hide Next;
    Untouched(s, s', a);
    if a.Look? || a.Read? {
      MoreUsers(s, s', a);
    } else if a.Collect? || a.Reply? || a.ReplyLost? || a.Withdraw? {
      NewEvent(s, s', a);
    }
  }

  lemma MoreUsers(s: Sys, s': Sys, a: Step)
    requires Next(s, s', a) && (a.Look? || a.Read?)
    ensures s.past.users <= s'.past.users
  {
    hide Reaches, CallFrom;
  }

  /** The event that a step leaves. */
  lemma NewEvent(s: Sys, s': Sys, a: Step)
    requires Next(s, s', a) && (a.Collect? || a.Reply? || a.ReplyLost? || a.Withdraw?)
    ensures s'.past.log == s.past.log || (exists e :: EventOf(s, a, e) && s'.past.log == s.past.log + [e])
  {
    hide Collects, Withdraws, Calls.Notes, Calls.Taken, Calls.Owes, Live, Debtor, Target, ReplyTo;
    assert s.past.log + [] == s.past.log;
    if |s'.past.log| > |s.past.log| {
      assert EventOf(s, a, s'.past.log[|s.past.log|]);
    }
  }

  ghost predicate EventOf(s: Sys, a: Step, e: Event) {
    && (a.Collect? ==>
          && e.Collected? && PhaseOf(s, a.t).Reading? && Uses(s, a.t, PhaseOf(s, a.t).d)
          && e.d == PhaseOf(s, a.t).d && e.t == a.t)
    && (a.Reply? || a.ReplyLost? ==> e.Answered? && Uses(s, a.t, a.d) && e.d == a.d && e.t == a.t)
    && (a.Withdraw? ==> e.Withdrawn?)
  }
}
