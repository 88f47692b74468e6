/** Four runs that end where a reader of the protocol would not expect: a sender withdraws somebody else's
    message, a call reaches a stranger, a reply is collected in another process, and a reply goes to the
    wrong caller.  In all of them every process keeps its lock, and the fifos hold whatever they may hold.
 */
module BinderCases {
  import opened BinderRegistry
  import opened BinderSystem
  import opened BinderReplies
  import opened BinderRuns
  import opened BinderLock
  import Calls = BinderCalls
  import Nodes = BinderNodes

  /** Some run in which every process keeps its lock ends in s. */
  ghost predicate Reached(s: Sys) {
    exists ss: seq<Sys>, run: seq<Step> :: Exclusive(ss, run) && ss[|run|] == s
  }

  lemma Onward(s: Sys, s': Sys, a: Step)
    requires Reached(s) && Next(s, s', a) && Allowed(s, a)
    ensures Reached(s')
  {
    hide Next, Init, Allowed;
    var ss: seq<Sys>, run: seq<Step> :| Exclusive(ss, run) && ss[|run|] == s;
    var more, longer := ss + [s'], run + [a];
    assert forall i :: 0 <= i < |longer| ==> Next(more[i], more[i + 1], longer[i]) && Allowed(more[i], longer[i]);
    assert Exclusive(more, longer);
  }

  // ---- the state of a run with three endpoint slots and the first place of two of them in use ----

  const NO_EP := Ep(false, 0, 0, 0, false, "")

  function Board(e0: Ep, e1: Ep, e2: Ep): seq<Ep> {
    seq(MAX_EP, i => if i == 0 then e0 else if i == 1 then e1 else if i == 2 then e2 else NO_EP)
  }

  function Queue(m0: Msg, m32: Msg): seq<Msg> {
    seq(MAX_EP * MSG_MAX, k => if k == 0 then m0 else if k == 32 then m32 else NO_MESSAGE)
  }

  lemma Boards(e0: Ep, e1: Ep, e2: Ep, e: Ep)
    ensures Board(e0, e1, e2)[0 := e] == Board(e, e1, e2) && Board(e0, e1, e2)[1 := e] == Board(e0, e, e2)
    ensures Board(e0, e1, e2)[2 := e] == Board(e0, e1, e)
  {
  }

  lemma Queues(m0: Msg, m32: Msg, m: Msg)
    ensures Queue(m0, m32)[0 := m] == Queue(m, m32) && Queue(m0, m32)[32 := m] == Queue(m0, m)
  {
  }

  /** The registry of such a state. */
  ghost predicate Shows(s: Sys, e0: Ep, e1: Ep, e2: Ep, m0: Msg, m32: Msg) {
    s.reg.ep == Board(e0, e1, e2) && s.reg.q == Queue(m0, m32)
  }

  /** No thread is doing anything. */
  ghost predicate Resting(s: Sys) {
    forall u :: u in s.ph ==> s.ph[u] == Idle
  }

  function NewEp(s: Sys, proc: nat): Ep {
    Ep(true, s.reg.nextId, 1, proc, false, "binder")
  }

  lemma Begins(cap: nat) returns (s: Sys)
    requires cap > 0
    ensures Reached(s) && Shows(s, NO_EP, NO_EP, NO_EP, NO_MESSAGE, NO_MESSAGE)
    ensures s == Sys(Reg(s.reg.ep, s.reg.q, 1, 1), seq(Nodes.MAX_NODES, _ => Nodes.Free), Fifos(cap, map[], map[]),
                     map[], 0, map[], History([], {}, {}, {}))
  {
    s := Sys(Reg(Board(NO_EP, NO_EP, NO_EP), Queue(NO_MESSAGE, NO_MESSAGE), 1, 1),
             seq(Nodes.MAX_NODES, _ => Nodes.Free), Fifos(cap, map[], map[]), map[], 0, map[], History([], {}, {}, {}));
    var ss, run: seq<Step> := [s], [];
    assert Exclusive(ss, run) && ss[|run|] == s;
  }

  // ---- one step after another ----

  /** An endpoint in the first free slot, and its fifo. */
  lemma Joins(s: Sys, proc: nat, slot: nat, e0: Ep, e1: Ep, e2: Ep, m0: Msg, m32: Msg) returns (s': Sys)
    requires Reached(s) && Shows(s, e0, e1, e2, m0, m32) && s.fifos.unmade == map[] && Unheld(s, proc)
    requires slot <= 2 && FirstFree(Board(e0, e1, e2), slot) && !m32.used && (slot == 0 ==> !m0.used)
    ensures Reached(s')
    ensures s' == s.(reg := s.reg.(ep := s.reg.ep[slot := NewEp(s, proc)], nextId := s.reg.nextId + 1),
                     fifos := s.fifos.(bytes := s.fifos.bytes[s.reg.nextId := 0]),
                     opens := s.opens[s.made := Open(s.reg.nextId, proc, "binder", NewTab())], made := s.made + 1)
  {
    hide Reached, Unheld;
    var id := s.reg.nextId;
    var mid := s.(reg := s.reg.(ep := s.reg.ep[slot := NewEp(s, proc)], nextId := id + 1),
                  fifos := s.fifos.(unmade := map[id := Birth(proc, "binder")]));
    EmptySlot(s.reg, slot, m0, m32);
    assert !AllUsed(s.reg.ep);
    assert Next(s, mid, Register(proc, slot, "binder", {}));
    Onward(s, mid, Register(proc, slot, "binder", {}));
    s' := WithOpen(mid, id, proc, "binder").(fifos := Fifos(s.fifos.cap, s.fifos.bytes[id := 0], map[]));
    assert mid.fifos.unmade - {id} == map[];
    assert Next(mid, s', MakeFifo(id));
    assert Unheld(mid, proc) by { SamePhases(s, mid, proc); }
    Onward(mid, s', MakeFifo(id));
  }

  lemma SamePhases(s: Sys, s': Sys, proc: nat)
    requires s'.ph == s.ph && Unheld(s, proc)
    ensures Unheld(s', proc)
  {
  }

  lemma EmptySlot(r: Reg, slot: nat, m0: Msg, m32: Msg)
    requires r.q == Queue(m0, m32) && !m32.used && (slot == 0 ==> !m0.used)
    ensures NumbersIn(r, slot) == {} && Emptied(r.q, r.q, slot)
  {
    assert forall k: nat :: k < |r.q| && SlotOf(k) == slot ==> !r.q[k].used;
  }

  lemma BecomesManager(s: Sys, d: nat, e: Ep) returns (s': Sys)
    requires Reached(s) && s.reg.ep == Board(e, NO_EP, NO_EP) && e.used && d in s.opens && s.opens[d].id == e.id
    requires e.ctx == s.opens[d].ctx && Unheld(s, s.opens[d].proc)
    ensures Reached(s') && s' == s.(reg := s.reg.(ep := Board(e.(isMgr := true), NO_EP, NO_EP)))
  {
    hide Reached;
    Boards(e, NO_EP, NO_EP, e.(isMgr := true));
    s' := s.(reg := s.reg.(ep := s.reg.ep[0 := e.(isMgr := true)]));
    assert Next(s, s', Manage(d, 0));
    Onward(s, s', Manage(d, 0));
  }

  lemma Looks(s: Sys, t: Thread, d: nat, handle: nat, oneWay: bool, slot: nat) returns (s': Sys)
    requires Reached(s) && PhaseOf(s, t) == Idle && Uses(s, t, d) && Free(s, t.proc, t)
    requires Reaches(s.reg, s.nodes, handle, s.opens[d].ctx, slot)
    ensures Reached(s')
    ensures s' == Used(At(s, t, Found(slot, CallFrom(s, t, d, handle, 0, 0, oneWay, s.reg.ep[slot].id))), t,
                       s.opens[d].id)
  {
    hide Reached, CallFrom, Free;
    s' := Used(At(s, t, Found(slot, CallFrom(s, t, d, handle, 0, 0, oneWay, s.reg.ep[slot].id))), t, s.opens[d].id);
    Onward(s, s', Look(t, d, handle, 0, 0, oneWay, slot));
  }

  /** The message that is posted for a draft. */
  function Numbered(s: Sys, draft: Msg): Msg {
    draft.(used := true, num := s.reg.nextSeq)
  }

  lemma Leaves(s: Sys, t: Thread, k: nat) returns (s': Sys)
    requires Reached(s) && PhaseOf(s, t).Found? && SlotOf(k) == PhaseOf(s, t).slot < |s.reg.ep| && Free(s, t.proc, t)
    requires k < |s.reg.q| && !s.reg.q[k].used && SlotOf(k) * MSG_MAX == k
    ensures Reached(s')
    ensures var p, id, n := PhaseOf(s, t), s.reg.ep[SlotOf(k)].id, s.reg.nextSeq;
            s' == At(s, t, Posted(k, id, n)).(
                    reg := s.reg.(q := s.reg.q[k := Numbered(s, p.draft)], nextSeq := n + 1),
                    past := s.past.(stray := if id == p.draft.want then s.past.stray else s.past.stray + {n}))
  {
    hide Reached, Free;
    var p, id, n := PhaseOf(s, t), s.reg.ep[SlotOf(k)].id, s.reg.nextSeq;
    s' := At(s, t, Posted(k, id, n)).(
            reg := s.reg.(q := s.reg.q[k := Numbered(s, p.draft)], nextSeq := n + 1),
            past := s.past.(stray := if id == p.draft.want then s.past.stray else s.past.stray + {n}));
    Onward(s, s', Post(t, k));
  }

  lemma Wakes(s: Sys, t: Thread) returns (s': Sys)
    requires Reached(s) && PhaseOf(s, t).Posted? && PhaseOf(s, t).id in s.fifos.bytes && Free(s, t.proc, t)
    ensures Reached(s')
    ensures var p := PhaseOf(s, t);
            s' == if s.fifos.bytes[p.id] >= s.fifos.cap then At(s, t, Crowded(p.k, p.id, p.num))
                  else At(s, t, Idle).(fifos := Poked(s.fifos, p.id))
  {
    hide Reached, Free;
    var p := PhaseOf(s, t);
    s' := if s.fifos.bytes[p.id] >= s.fifos.cap then At(s, t, Crowded(p.k, p.id, p.num))
          else At(s, t, Idle).(fifos := Poked(s.fifos, p.id));
    Onward(s, s', Wake(t));
  }

  lemma Reads(s: Sys, t: Thread, d: nat) returns (s': Sys)
    requires Reached(s) && PhaseOf(s, t) == Idle && Uses(s, t, d) && Free(s, t.proc, t)
    ensures Reached(s') && s' == Used(At(s, t, Reading(d, s.opens[d].id, false)), t, s.opens[d].id)
  {
    hide Reached, Free;
    s' := Used(At(s, t, Reading(d, s.opens[d].id, false)), t, s.opens[d].id);
    Onward(s, s', Read(t, d));
  }

  /** A reply or a one-way call is collected. */
  lemma Gets(s: Sys, t: Thread, k: nat) returns (s': Sys)
    requires Reached(s) && PhaseOf(s, t).Reading? && Uses(s, t, PhaseOf(s, t).d) && Free(s, t.proc, t)
    requires k < |s.reg.q| && Has(s.reg, SlotOf(k), PhaseOf(s, t).id) && Eligible(s.reg.q[k], t.port)
    requires s.reg.q[k].isReply || s.reg.q[k].oneWay
    ensures Reached(s')
    ensures var p, m := PhaseOf(s, t), s.reg.q[k];
            s' == At(s, t, p.(got := true)).(
                    reg := s.reg.(q := s.reg.q[k := m.(used := false)]),
                    past := s.past.(log := s.past.log
                                    + [Collected(p.d, p.id, t, m, Target(s.nodes, m.target, m.cookie))]))
  {
    hide Reached, Target, Free;
    var p, m := PhaseOf(s, t), s.reg.q[k];
    s' := At(s, t, p.(got := true)).(
            reg := s.reg.(q := s.reg.q[k := m.(used := false)]),
            past := s.past.(log := s.past.log + [Collected(p.d, p.id, t, m, Target(s.nodes, m.target, m.cookie))]));
    assert s.opens[p.d := s.opens[p.d].(tab := s.opens[p.d].tab)] == s.opens;
    assert Next(s, s', Collect(t, k));
    Onward(s, s', Collect(t, k));
  }

  /** The fifo is read until it is empty. */
  lemma {:induction false} Drains(s: Sys, t: Thread) returns (s': Sys)
    requires Reached(s) && PhaseOf(s, t).Draining? && PhaseOf(s, t).id in s.fifos.bytes && Free(s, t.proc, t)
    ensures Reached(s') && s' == s.(fifos := s.fifos.(bytes := s.fifos.bytes[PhaseOf(s, t).id := 0]))
    decreases s.fifos.bytes[PhaseOf(s, t).id]
  {
    hide Reached;
    var id := PhaseOf(s, t).id;
    var n := s.fifos.bytes[id];
    if n == 0 {
      s' := s;
      assert s.fifos.bytes[id := 0] == s.fifos.bytes;
    } else {
      var take := if n < 64 then n else 64;
      var mid := s.(fifos := s.fifos.(bytes := s.fifos.bytes[id := n - take]));
      assert Next(s, mid, Drain(t, take));
      Onward(s, mid, Drain(t, take));
      s' := Drains(mid, t);
      assert mid.fifos.bytes[id := 0] == s.fifos.bytes[id := 0];
    }
  }

  /** A read that leaves nothing waiting comes to its end. */
  lemma Finishes(s: Sys, t: Thread) returns (s': Sys)
    requires Reached(s) && PhaseOf(s, t).Reading? && PhaseOf(s, t).id in s.fifos.bytes && Free(s, t.proc, t)
    requires !Waiting(s.reg, PhaseOf(s, t).id)
    ensures Reached(s')
    ensures s' == At(s, t, Idle).(fifos := s.fifos.(bytes := s.fifos.bytes[PhaseOf(s, t).id := 0]))
  {
    hide Reached, Waiting;
    var id := PhaseOf(s, t).id;
    var s1 := At(s, t, Draining(id));
    Onward(s, s1, StartDrain(t));
    var s2 := Drains(s1, t);
    var s3 := At(s2, t, Checking(id));
    Onward(s2, s3, Drained(t));
    s' := At(s3, t, Idle);
    Onward(s3, s', Rest(t));
    assert s'.ph == s.ph[t := Idle];
  }

  /** Nothing waits for the endpoint of slot 0. */
  lemma NothingWaits(s: Sys, e0: Ep, e1: Ep, e2: Ep, m0: Msg, m32: Msg)
    requires Shows(s, e0, e1, e2, m0, m32) && !m0.used && (e1.used ==> e1.id != e0.id)
    ensures !Waiting(s.reg, e0.id)
  {
    forall k: nat
      ensures !WaitingAt(s.reg, e0.id, k)
    {
    }
  }

  const MANAGER := Ep(true, 1, 1, 1, true, "binder")
  const OPEN_0 := Open(1, 1, "binder", NewTab())

  /** Process 1 has opened the device, as descriptor 0, and is its context's manager. */
  ghost predicate Managed(s: Sys, cap: nat) {
    && Shows(s, MANAGER, NO_EP, NO_EP, NO_MESSAGE, NO_MESSAGE)
    && s == Sys(Reg(s.reg.ep, s.reg.q, 2, 1), seq(Nodes.MAX_NODES, _ => Nodes.Free), Fifos(cap, map[1 := 0], map[]),
                map[0 := OPEN_0], 1, map[], History([], {}, {}, {}))
  }

  lemma ManagerFirst(cap: nat) returns (s: Sys)
    requires cap > 0
    ensures Reached(s) && Managed(s, cap)
  {
    hide Reached;
    var s0 := Begins(cap);
    Boards(NO_EP, NO_EP, NO_EP, NewEp(s0, 1));
    var s1 := Joins(s0, 1, 0, NO_EP, NO_EP, NO_EP, NO_MESSAGE, NO_MESSAGE);
    s := BecomesManager(s1, 0, NewEp(s0, 1));
    assert s.fifos.bytes == map[1 := 0] && s.opens == map[0 := OPEN_0];
  }

  const CLIENT := Ep(true, 2, 1, 2, false, "binder")
  const OPEN_1 := Open(2, 2, "binder", NewTab())

  /** Process 2 too has opened the device, as descriptor 1. */
  ghost predicate Joined(s: Sys, cap: nat) {
    && Shows(s, MANAGER, CLIENT, NO_EP, NO_MESSAGE, NO_MESSAGE)
    && s == Sys(Reg(s.reg.ep, s.reg.q, 3, 1), seq(Nodes.MAX_NODES, _ => Nodes.Free),
                Fifos(cap, map[1 := 0, 2 := 0], map[]), map[0 := OPEN_0, 1 := OPEN_1], 2, map[],
                  History([], {}, {}, {}))
  }

  lemma ClientSecond(cap: nat) returns (s: Sys)
    requires cap > 0
    ensures Reached(s) && Joined(s, cap)
  {
    hide Reached;
    s := ManagerFirst(cap);
    Boards(MANAGER, NO_EP, NO_EP, CLIENT);
    s := Joins(s, 2, 1, MANAGER, NO_EP, NO_EP, NO_MESSAGE, NO_MESSAGE);
  }

  // ---- a sender withdraws somebody else's message ----

  /** Commands queued for the manager's own reader fill its fifo. */
  lemma {:induction false} Fills(s: Sys, n: nat) returns (s': Sys)
    requires Reached(s) && 1 in s.fifos.bytes && s.fifos.bytes[1] + n == s.fifos.cap
    ensures Reached(s') && s' == s.(fifos := s.fifos.(bytes := s.fifos.bytes[1 := s.fifos.cap]))
    decreases n
  {
    hide Reached;
    if n == 0 {
      s' := s;
      assert s.fifos.bytes[1 := s.fifos.cap] == s.fifos.bytes;
    } else {
      var mid := s.(fifos := Poked(s.fifos, 1));
      Onward(s, mid, Nudge(1));
      s' := Fills(mid, n - 1);
      assert mid.fifos.bytes[1 := s.fifos.cap] == s.fifos.bytes[1 := s.fifos.cap];
    }
  }

  const OTHER := Ep(true, 3, 1, 3, false, "binder")
  const OPEN_2 := Open(3, 3, "binder", NewTab())

  /** Three processes, each with an endpoint, and a manager whose fifo is full. */
  ghost predicate FullFifo(s: Sys, cap: nat) {
    && Shows(s, MANAGER, CLIENT, OTHER, NO_MESSAGE, NO_MESSAGE) && s.nodes == seq(Nodes.MAX_NODES, _ => Nodes.Free)
    && s.fifos == Fifos(cap, map[1 := cap, 2 := 0, 3 := 0], map[])
    && s.opens == map[0 := OPEN_0, 1 := OPEN_1, 2 := OPEN_2] && s.ph == map[] && s.reg.nextSeq == 1 && s.past.log == []
  }

  lemma ThreeOpen(cap: nat) returns (s: Sys)
    requires cap > 0
    ensures Reached(s) && FullFifo(s, cap)
  {
    hide Reached;
    s := ClientSecond(cap);
    Boards(MANAGER, CLIENT, NO_EP, OTHER);
    s := Joins(s, 3, 2, MANAGER, CLIENT, NO_EP, NO_MESSAGE, NO_MESSAGE);
    s := Fills(s, cap);
  }

  /** A one-way call on handle 0 from descriptor d, left at place 0. */
  lemma Sends(s: Sys, t: Thread, d: nat, e1: Ep, e2: Ep, m0: Msg) returns (s': Sys, m: Msg)
    requires Reached(s) && Shows(s, MANAGER, e1, e2, m0, NO_MESSAGE) && !m0.used && PhaseOf(s, t) == Idle
    requires Uses(s, t, d) && s.opens[d].ctx == "binder" && Free(s, t.proc, t)
    ensures Reached(s') && Shows(s', MANAGER, e1, e2, m, NO_MESSAGE)
    ensures m == Msg(true, false, s.reg.nextSeq, s.opens[d].id, 0, 0, 0, true, 0, 1, t.proc)
    ensures s' == s.(reg := s.reg.(q := s'.reg.q, nextSeq := s.reg.nextSeq + 1),
                     ph := s.ph[t := Posted(0, 1, s.reg.nextSeq)],
                     past := s.past.(users := s.past.users + {(s.opens[d].id, t)}))
  {
    hide Reached;
    m := Msg(true, false, s.reg.nextSeq, s.opens[d].id, 0, 0, 0, true, 0, 1, t.proc);
    var mid := Looks(s, t, d, 0, true, 0);
    Queues(m0, NO_MESSAGE, m);
    s' := Leaves(mid, t, 0);
    assert s'.ph == s.ph[t := Posted(0, 1, s.reg.nextSeq)];
  }

  /** Process 2's message, for which there was no room in the fifo, has been collected before process 2 could take
      it back. */
  ghost predicate TakenFirst(s: Sys, m: Msg) {
    && Shows(s, MANAGER, CLIENT, OTHER, m, NO_MESSAGE) && !m.used
    && s.opens == map[0 := OPEN_0, 1 := OPEN_1, 2 := OPEN_2] && s.reg.nextSeq == 2
    && |s.past.log| == 1 && s.past.log[0].Collected? && s.past.log[0].msg.num == 1
    && s.ph == map[Thread(2, 7) := Crowded(0, 1, 1), Thread(1, 8) := Idle]
  }

  lemma TakesFirst(cap: nat) returns (s: Sys, m: Msg)
    requires cap > 0
    ensures Reached(s) && TakenFirst(s, m)
  {
    hide Reached;
    var sender, reader := Thread(2, 7), Thread(1, 8);
    s := ThreeOpen(cap);
    s, m := Sends(s, sender, 1, CLIENT, OTHER, NO_MESSAGE);
    s := Wakes(s, sender);
    s := Reads(s, reader, 0);
    Queues(m, NO_MESSAGE, m.(used := false));
    s := Gets(s, reader, 0);
    m := m.(used := false);
    NothingWaits(s, MANAGER, CLIENT, OTHER, m, NO_MESSAGE);
    s := Finishes(s, reader);
  }

  /** Process 2, whose message 1 has been collected, takes out message 2, which process 3 has just left. */
  lemma WithdrawsAnothers(cap: nat) returns (s: Sys)
    requires cap > 0
    ensures Reached(s) && |s.past.log| == 2 && PhaseOf(s, Thread(3, 9)) == Posted(0, 1, 2)
    ensures var e := s.past.log[1];
            && e.Withdrawn? && e.t == Thread(2, 7) && e.own == 1 && e.msg.num == 2 && e.msg.proc == 3
            && s.past.log[0].Collected? && s.past.log[0].msg.num == 1
  {
    hide Reached;
    var s0, m0 := TakesFirst(cap);
    var sender, other := Thread(2, 7), Thread(3, 9);
    var s1, m := Sends(s0, other, 2, CLIENT, OTHER, m0);
    s := At(s1, sender, Idle).(reg := s1.reg.(q := s1.reg.q[0 := m.(used := false)]),
                               past := s1.past.(log := s1.past.log + [Withdrawn(sender, m, 1)]));
    assert s1.reg.ep[0 := MANAGER] == s1.reg.ep;
    assert Next(s1, s, Withdraw(sender, {}));
    Onward(s1, s, Withdraw(sender, {}));
  }

  // ---- a call reaches a stranger ----

  /** The object 100, under cookie 200, of endpoint 2 has handle 1. */
  function OneNode(): seq<Nodes.Node> {
    seq(Nodes.MAX_NODES, h => if h == 1 then Nodes.Node(2, 100, 200) else Nodes.Free)
  }

  lemma Exports(s: Sys, t: Thread) returns (s': Sys)
    requires Reached(s) && PhaseOf(s, t).Found? && PhaseOf(s, t).draft.senderEp == 2 && Free(s, t.proc, t)
    requires s.nodes == seq(Nodes.MAX_NODES, _ => Nodes.Free)
    ensures Reached(s') && s' == s.(nodes := OneNode())
  {
    hide Reached, Free;
    s' := s.(nodes := OneNode());
    assert s'.nodes == s.nodes[1 := Nodes.Node(2, 100, 200)];
    assert Next(s, s', Export(t, 100, 200, 1));
    Onward(s, s', Export(t, 100, 200, 1));
  }

  /** Process 2 has sent its object to the manager, which has collected it and so knows handle 1. */
  ghost predicate Announced(s: Sys, m: Msg, cap: nat) {
    && Shows(s, MANAGER, CLIENT, NO_EP, m, NO_MESSAGE) && !m.used && s.nodes == OneNode() && s.reg.nextId == 3
    && s.fifos == Fifos(cap, map[1 := 0, 2 := 0], map[]) && s.opens == map[0 := OPEN_0, 1 := OPEN_1] && s.made == 2
    && |s.past.log| == 1 && s.ph == map[Thread(2, 5) := Idle, Thread(1, 7) := Idle]
  }

  lemma Announces(cap: nat) returns (s: Sys, m: Msg)
    requires cap > 0
    ensures Reached(s) && Announced(s, m, cap)
  {
    hide Reached;
    var reader := Thread(1, 7);
    s, m := Announcing(cap);
    s := Reads(s, reader, 0);
    Queues(m, NO_MESSAGE, m.(used := false));
    s := Gets(s, reader, 0);
    m := m.(used := false);
    NothingWaits(s, MANAGER, CLIENT, NO_EP, m, NO_MESSAGE);
    s := Finishes(s, reader);
    assert s.fifos.bytes == map[1 := 0, 2 := 0];
  }

  lemma Announcing(cap: nat) returns (s: Sys, m: Msg)
    requires cap > 0
    ensures Reached(s) && Shows(s, MANAGER, CLIENT, NO_EP, m, NO_MESSAGE) && s.nodes == OneNode()
    ensures m.used && m.oneWay && !m.isReply && s.reg.nextId == 3 && s.made == 2 && s.past.log == []
    ensures s.fifos == Fifos(cap, map[1 := 1, 2 := 0], map[]) && s.opens == map[0 := OPEN_0, 1 := OPEN_1]
    ensures s.ph == map[Thread(2, 5) := Idle]
  {
    hide Reached;
    var service := Thread(2, 5);
    s := ClientSecond(cap);
    s := Looks(s, service, 1, 0, true, 0);
    s := Exports(s, service);
    m := Numbered(s, PhaseOf(s, service).draft);
    Queues(NO_MESSAGE, NO_MESSAGE, m);
    s := Leaves(s, service, 0);
    s := Wakes(s, service);
  }

  const CLOSED := CLIENT.(refs := 0, used := false)

  /** Endpoint 2 is closed by its one descriptor, and nobody has its fifo any more. */
  lemma ServiceCloses(s: Sys, t: Thread, m0: Msg, cap: nat) returns (s': Sys)
    requires Reached(s) && Shows(s, MANAGER, CLIENT, NO_EP, m0, NO_MESSAGE) && PhaseOf(s, t) == Idle
    requires t.proc == 2 && t.port != 0 && Free(s, 2, t)
    requires s.opens == map[0 := OPEN_0, 1 := OPEN_1] && s.fifos == Fifos(cap, map[1 := 0, 2 := 0], map[])
    ensures Reached(s') && Shows(s', MANAGER, CLOSED, NO_EP, m0, NO_MESSAGE)
    ensures s' == s.(reg := s.reg.(ep := s'.reg.ep), opens := map[0 := OPEN_0], fifos := Fifos(cap, map[1 := 0], map[]),
                     ph := s.ph[t := Idle])
  {
    hide Reached, Free;
    var s1 := At(s, t, Closing(2)).(opens := map[0 := OPEN_0]);
    assert s.opens - {1} == s1.opens;
    assert Next(s, s1, GiveUpFd(t, 1));
    Onward(s, s1, GiveUpFd(t, 1));
    Boards(MANAGER, CLIENT, NO_EP, CLOSED);
    var s2 := At(s1, t, Idle).(reg := s.reg.(ep := s.reg.ep[1 := CLOSED]));
    assert Next(s1, s2, Close(t, 1));
    Onward(s1, s2, Close(t, 1));
    s' := s2.(fifos := Fifos(cap, map[1 := 0], map[]));
    assert s2.fifos.bytes - {2} == map[1 := 0] && s2.fifos.unmade - {2} == map[];
    assert Next(s2, s', LastClosed(2));
    Onward(s2, s', LastClosed(2));
    assert s'.ph == s.ph[t := Idle];
  }

  /** Process 1 looks up handle 1, the object's process closes endpoint 2 and process 3 takes over the slot: the call
      is collected by endpoint 3, with the pointer and cookie of endpoint 2's object. */
  lemma Astray(cap: nat) returns (s: Sys)
    requires cap > 0
    ensures Reached(s) && |s.past.log| == 2 && s.past.stray != {}
    ensures var e := s.past.log[1];
            && e.Collected? && e.msg.target == 1 && Nodes.Backed(s.nodes, 1)
            && e.ep == 3 && e.t.proc == 3 && s.nodes[1].owner == e.msg.want == 2 && e.target == (100, 200)
  {
    hide Reached;
    var m0: Msg;
    s, m0 := Announces(cap);
    var caller, other := Thread(1, 8), Thread(3, 6);
    s := Looks(s, caller, 0, 1, true, 1);
    s := ServiceCloses(s, Thread(2, 5), m0, cap);
    Boards(MANAGER, CLOSED, NO_EP, NewEp(s, 3));
    s := Joins(s, 3, 1, MANAGER, CLOSED, NO_EP, m0, NO_MESSAGE);
    var m := Numbered(s, PhaseOf(s, caller).draft);
    Queues(m0, NO_MESSAGE, m);
    s := Leaves(s, caller, 32);
    s := Wakes(s, caller);
    s := Reads(s, other, 2);
    s := Gets(s, other, 32);
  }

  // ---- a call is answered ----

  /** A call is collected on descriptor 0, and recorded if its table has room. */
  lemma GetsCall(s: Sys, t: Thread, k: nat) returns (s': Sys)
    requires Reached(s) && PhaseOf(s, t).Reading? && Uses(s, t, 0) && PhaseOf(s, t).d == 0 && Within(s.past.log, 0)
    requires Free(s, t.proc, t)
    requires k < |s.reg.q| && Has(s.reg, SlotOf(k), PhaseOf(s, t).id) && Eligible(s.reg.q[k], t.port)
    requires !s.reg.q[k].isReply && !s.reg.q[k].oneWay
    ensures Reached(s') && 0 in s'.opens
    ensures var p, m := PhaseOf(s, t), s.reg.q[k];
            && Calls.Owes(s'.opens[0].tab, t.port) == Calls.Owes(s.opens[0].tab, t.port) +
                 (if Outstanding(s.past.log, 0) < Calls.MAX_CALLS then [OwedBy(m)] else [])
            && s' == At(s, t, p.(got := true)).(
                       reg := s.reg.(q := s.reg.q[k := m.(used := false)]),
                       opens := s.opens[0 := s.opens[0].(tab := s'.opens[0].tab)],
                       past := s.past.(log := s.past.log
                                       + [Collected(0, p.id, t, m, Target(s.nodes, m.target, m.cookie))]))
  {
    hide Target, Calls.Owes, Calls.Notes, Outstanding, Within, Routed, Free, Reached;
    var p, m := PhaseOf(s, t), s.reg.q[k];
    var tab := Calls.CanNote(s.opens[0].tab, t.port, OwedBy(m));
    s' := At(s, t, p.(got := true)).(
            reg := s.reg.(q := s.reg.q[k := m.(used := false)]), opens := s.opens[0 := s.opens[0].(tab := tab)],
            past := s.past.(log := s.past.log + [Collected(0, p.id, t, m, Target(s.nodes, m.target, m.cookie))]));
    assert Next(s, s', Collect(t, k));
    hide Next;
    Onward(s, s', Collect(t, k));
    IsRouted(s);
    RecordedExactly(s, s', t, k);
  }

  lemma IsRouted(s: Sys)
    requires Reached(s)
    ensures Routed(s)
  {
    hide Next, Init, Routed, Allowed;
    var ss: seq<Sys>, run: seq<Step> :| Exclusive(ss, run) && ss[|run|] == s;
    AlwaysGood(ss, run, |run|);
  }

  /** Thread t answers, on descriptor 0, the last of the calls it has recorded. */
  lemma Answers(s: Sys, t: Thread, o: Owed, slot: nat) returns (s': Sys)
    requires Reached(s) && PhaseOf(s, t) == Idle && Uses(s, t, 0) && Free(s, t.proc, t) && Has(s.reg, slot, o.ep)
    requires var own := Calls.Owes(s.opens[0].tab, t.port); own != [] && own[|own| - 1] == o
    ensures Reached(s') && 0 in s'.opens && s'.past.users == s.past.users && s'.past.stray == s.past.stray
    ensures s' == s.(opens := s.opens[0 := s'.opens[0]], past := s'.past,
                     ph := s.ph[t := Found(slot,
                                           Msg(false, true, 0, s.opens[0].id, 0, 0, o.tid, false, 0, o.ep, o.proc))])
    ensures s'.past.log == s.past.log + [Answered(0, t, o)] && s'.opens[0].id == s.opens[0].id
  {
    hide Reached, Calls.Owes, Calls.Taken, Free;
    assert Debtor(s, 0, t) == o;
    s' := At(Answer(s, 0, t), t, Found(slot, ReplyTo(s, 0, o, 0)));
    assert Next(s, s', Reply(t, 0, 0, slot));
    Onward(s, s', Reply(t, 0, 0, slot));
  }

  /** A two-way call by thread t on descriptor d, left at place 0 and announced; then thread 8 of process 1 reads
      it, on descriptor 0, and comes to the end of its read. */
  lemma Serves(s: Sys, t: Thread, d: nat, e0: Ep, e1: Ep, m0: Msg) returns (s': Sys, m: Msg)
    requires Reached(s) && Shows(s, e0, e1, NO_EP, m0, NO_MESSAGE) && !m0.used && Resting(s) && t != Thread(1, 8)
    requires e0.used && e0.isMgr && e0.ctx == "binder" && e0.id == 1 && (e1.used ==> e1.id != 1)
    requires Uses(s, t, d) && s.opens[d].ctx == "binder" && Uses(s, Thread(1, 8), 0) && s.opens[0].id == 1
    requires 1 in s.fifos.bytes && s.fifos.bytes[1] == 0 < s.fifos.cap && Within(s.past.log, 0)
    ensures Reached(s') && Shows(s', e0, e1, NO_EP, m, NO_MESSAGE) && !m.used && Resting(s') && 0 in s'.opens
    ensures var o := Calls.Owed(s.opens[d].id, t.port, t.proc);
            && |s'.past.log| == |s.past.log| + 1 && s'.past.log[..|s.past.log|] == s.past.log
            && OwedCall(s'.past.log[|s.past.log|], 0) && s'.past.log[|s.past.log|].t == Thread(1, 8)
            && OwedBy(s'.past.log[|s.past.log|].msg) == o
            && Calls.Owes(s'.opens[0].tab, 8) == Calls.Owes(s.opens[0].tab, 8) +
                 (if Outstanding(s.past.log, 0) < Calls.MAX_CALLS then [o] else [])
    ensures s'.fifos == s.fifos && s'.opens == s.opens[0 := s.opens[0].(tab := s'.opens[0].tab)] && s'.nodes == s.nodes
    ensures s'.past.stray == s.past.stray && s'.made == s.made && s'.reg.nextId == s.reg.nextId
  {
    hide Reached, Calls.Owes, Outstanding, Within;
    var server := Thread(1, 8);
    var s1, call := Asks(s, t, d, e0, e1, m0);
    var s2 := Reads(s1, server, 0);
    var s3 := GetsCall(s2, server, 0);
    m := call.(used := false);
    Queues(call, NO_MESSAGE, m);
    NothingWaits(s3, e0, e1, NO_EP, m, NO_MESSAGE);
    s' := Finishes(s3, server);
    assert s'.fifos.bytes == s.fifos.bytes;
  }

  lemma Asks(s: Sys, t: Thread, d: nat, e0: Ep, e1: Ep, m0: Msg) returns (s': Sys, m: Msg)
    requires Reached(s) && Shows(s, e0, e1, NO_EP, m0, NO_MESSAGE) && !m0.used && Resting(s)
    requires e0.used && e0.isMgr && e0.ctx == "binder" && e0.id == 1
    requires Uses(s, t, d) && s.opens[d].ctx == "binder"
    requires 1 in s.fifos.bytes && s.fifos.bytes[1] == 0 < s.fifos.cap
    ensures Reached(s') && Shows(s', e0, e1, NO_EP, m, NO_MESSAGE) && Resting(s')
    ensures m == Msg(true, false, s.reg.nextSeq, s.opens[d].id, 0, 0, t.port, false, 0, 1, t.proc)
    ensures s' == s.(reg := s.reg.(q := s'.reg.q, nextSeq := s.reg.nextSeq + 1), ph := s.ph[t := Idle],
                     fifos := s.fifos.(bytes := s.fifos.bytes[1 := 1]),
                     past := s.past.(users := s.past.users + {(s.opens[d].id, t)}))
  {
    hide Reached;
    m := Msg(true, false, s.reg.nextSeq, s.opens[d].id, 0, 0, t.port, false, 0, 1, t.proc);
    var s1 := Looks(s, t, d, 0, false, 0);
    Queues(m0, NO_MESSAGE, m);
    var s2 := Leaves(s1, t, 0);
    s' := Wakes(s2, t);
    assert s'.ph == s.ph[t := Idle];
  }

  // ---- a reply is collected in another process ----

  const SHARED := MANAGER.(refs := 2)

  /** A descriptor of process 2 on the manager's endpoint. */
  lemma Inherits(s: Sys, cap: nat) returns (s': Sys)
    requires Reached(s) && Managed(s, cap)
    ensures Reached(s')
    ensures s' == s.(reg := s.reg.(ep := Board(SHARED, NO_EP, NO_EP)),
                     opens := s.opens[1 := Open(1, 2, "binder", NewTab())], made := 2)
  {
    hide Reached;
    Boards(MANAGER, NO_EP, NO_EP, SHARED);
    s' := WithOpen(s, 1, 2, "binder").(reg := s.reg.(ep := s.reg.ep[0 := SHARED]));
    assert Next(s, s', Adopt(2, 1, 0));
    Onward(s, s', Adopt(2, 1, 0));
  }

  /** Endpoint 1 is held by processes 1 and 2, each of which has a thread that calls its port 7.  The reply to
      process 1's is collected by process 2's, and no slot has changed hands. */
  lemma WrongProcess(cap: nat) returns (s: Sys)
    requires cap > 0
    ensures Reached(s) && |s.past.log| == 3 && s.past.stray == {}
    ensures var e := s.past.log[2];
            e.Collected? && e.msg.isReply && e.msg.replyTid == 7 && e.msg.proc == 1 && e.t == Thread(2, 7)
  {
    hide Reached;
    var caller, server, other := Thread(1, 7), Thread(1, 8), Thread(2, 7);
    s := ManagerFirst(cap);
    s := Inherits(s, cap);
    assert Calls.Owes(NewTab(), 8) == [];
    var m0: Msg;
    s, m0 := Serves(s, caller, 0, SHARED, NO_EP, NO_MESSAGE);
    hide Calls.Owes, Outstanding;
    s := Answers(s, server, Calls.Owed(1, 7, 1), 0);
    Queues(m0, NO_MESSAGE, Numbered(s, PhaseOf(s, server).draft));
    s := Leaves(s, server, 0);
    s := Wakes(s, server);
    s := Reads(s, other, 1);
    s := Gets(s, other, 0);
  }

  // ---- a reply goes to the wrong caller ----

  /** The first n callers: threads 100, 101, ... of process 2, calling from endpoint 2. */
  function Callers(n: nat): seq<Owed> {
    seq(n, i requires 0 <= i < n => Calls.Owed(2, 100 + i, 2))
  }

  /** Thread 8 of process 1 has collected n calls, each from another thread of process 2, in as many reads, and
      answered none. */
  ghost predicate Backlog(s: Sys, n: nat, m: Msg, cap: nat) {
    && Shows(s, MANAGER, CLIENT, NO_EP, m, NO_MESSAGE) && !m.used && Resting(s)
    && s.fifos == Fifos(cap, map[1 := 0, 2 := 0], map[])
    && 0 in s.opens && s.opens == map[0 := OPEN_0.(tab := s.opens[0].tab), 1 := OPEN_1]
    && Calls.Owes(s.opens[0].tab, 8) == Callers(if n <= 64 then n else 64)
    && Unanswered(s.past.log, 0, 8) == Callers(n) && Outstanding(s.past.log, 0) == n
    && (n <= 64 ==> Within(s.past.log, 0))
  }

  /** The log after one more call. */
  lemma OneMoreCaller(log: seq<Event>, n: nat, e: Event)
    requires Unanswered(log, 0, 8) == Callers(n) && Outstanding(log, 0) == n && (n <= 64 ==> Within(log, 0)) && n <= 64
    requires OwedCall(e, 0) && e.t.port == 8 && OwedBy(e.msg) == Calls.Owed(2, 100 + n, 2)
    ensures Unanswered(log + [e], 0, 8) == Callers(n + 1) && Outstanding(log + [e], 0) == n + 1
    ensures n + 1 <= 64 ==> Within(log + [e], 0)
  {
    hide Unanswered, Outstanding;
    OneMore(log, e, 0, 8);
    MoreCallers(n);
    forall j: nat | j <= |log|
      ensures (log + [e])[..j] == log[..j]
    {
    }
    assert (log + [e])[..|log| + 1] == log + [e];
  }

  lemma MoreCallers(n: nat)
    ensures Callers(n) + [Calls.Owed(2, 100 + n, 2)] == Callers(n + 1)
  {
  }

  lemma OneMoreCall(s: Sys, n: nat, m: Msg, cap: nat) returns (s': Sys, m': Msg)
    requires Reached(s) && Backlog(s, n, m, cap) && n <= 64 && cap > 0
    ensures Reached(s') && Backlog(s', n + 1, m', cap)
  {
    hide Reached, Calls.Owes, Unanswered, Outstanding, Within, Callers;
    s', m' := Serves(s, Thread(2, 100 + n), 1, MANAGER, CLIENT, m);
    var log := s.past.log;
    assert s'.past.log == log + [s'.past.log[|log|]];
    OneMoreCaller(log, n, s'.past.log[|log|]);
    assert n < 64 ==> Callers(n) + [Calls.Owed(2, 100 + n, 2)] == Callers(n + 1) by { MoreCallers(n); }
    assert n == 64 ==> Callers(64) + [] == Callers(64);
  }

  lemma {:induction false} Backlogs(n: nat, cap: nat) returns (s: Sys, m: Msg)
    requires n <= 65 && cap > 0
    ensures Reached(s) && Backlog(s, n, m, cap)
  {
    if n == 0 {
      hide Reached;
      s := ClientSecond(cap);
      m := NO_MESSAGE;
    } else {
      hide Reached, Backlog;
      s, m := Backlogs(n - 1, cap);
      s, m := OneMoreCall(s, n - 1, m, cap);
    }
  }

  /** Of 65 calls collected and not answered the last is not recorded: the reply to it goes to the thread
      that made the one before. */
  lemma SixtyFifth(cap: nat) returns (s: Sys)
    requires cap > 0
    ensures Reached(s) && s.past.log != []
    ensures var n := |s.past.log| - 1;
            var own, p := Unanswered(s.past.log[..n], 0, 8), PhaseOf(s, Thread(1, 8));
            && s.past.log[n].Answered? && s.past.log[n].d == 0 && s.past.log[n].t == Thread(1, 8)
            && |own| == 65 && own[64].tid == 164 && p.Found? && p.draft.isReply && p.draft.replyTid == 163
  {
    hide Reached, Calls.Owes, Outstanding, Unanswered, Within;
    var s0, m := Backlogs(65, cap);
    s := Answers(s0, Thread(1, 8), Calls.Owed(2, 163, 2), 1);
    assert s.past.log[..|s.past.log| - 1] == s0.past.log;
  }
}
