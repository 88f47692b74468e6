/** What holds in every state of every run of the binder engine. */
module BinderRuns {
  import opened BinderRegistry
  import opened BinderSystem
  import opened BinderWake
  import opened BinderFates
  import opened BinderReplies
  import opened BinderDelivery
  import Calls = BinderCalls
  import Nodes = BinderNodes

  /** Nothing registered, nobody doing anything. */
  ghost predicate Init(s: Sys) {
    && Shaped(s.reg) && s.reg.nextId == 1 && s.reg.nextSeq == 1
    && (forall i :: 0 <= i < |s.reg.ep| ==> !s.reg.ep[i].used && s.reg.ep[i].id == 0)
    && (forall k :: 0 <= k < |s.reg.q| ==> !s.reg.q[k].used)
    && |s.nodes| == Nodes.MAX_NODES && (forall h :: 0 <= h < |s.nodes| ==> s.nodes[h].Free?)
    && s.fifos.cap > 0 && s.fifos.bytes == map[] && s.fifos.unmade == map[]
    && s.opens == map[] && s.made == 0 && s.ph == map[] && s.past == History([], {}, {}, {})
  }

  /** ss are the states of a run and run the steps between them. */
  ghost predicate Run(ss: seq<Sys>, run: seq<Step>) {
    && |ss| == |run| + 1 && Init(ss[0])
    && forall i :: 0 <= i < |run| ==> Next(ss[i], ss[i + 1], run[i])
  }

  ghost predicate Good(s: Sys) {
    && Inv(s.reg) && Fates(s) && Owned(s) && Sane(s) && Awake(s) && Routed(s) && Placed(s) && Traced(s)
  }

  lemma InitIsGood(s: Sys)
    requires Init(s)
    ensures Good(s)
  {
    hide Unanswered, Outstanding, Calls.Proper, Calls.Owes;
  }

  lemma GoodKept(s: Sys, s': Sys, a: Step)
    requires Good(s) && Next(s, s', a)
    ensures Good(s')
  {
    hide Next, Inv, Fates, Owned, Sane, Awake, Routed, Placed, Traced;
    RegistryKept(s, s', a);
    FatesKept(s, s', a);
    OwnedKept(s, s', a);
    SaneKept(s, s', a);
    AwakeKept(s, s', a);
    RoutedKept(s, s', a);
    PlacedKept(s, s', a);
    TracedKept(s, s', a);
  }

  lemma {:induction false} AlwaysGood(ss: seq<Sys>, run: seq<Step>, i: nat)
    requires Run(ss, run) && i < |ss|
    ensures Good(ss[i])
  {
    hide Next, Good, Init;
    if i == 0 {
      InitIsGood(ss[0]);
    } else {
      AlwaysGood(ss, run, i - 1);
      GoodKept(ss[i - 1], ss[i], run[i - 1]);
    }
  }

  // ---- names ----

  /** Live endpoints never share an id, nor two managers a context, nor two waiting messages a number. */
  lemma AlwaysDistinct(ss: seq<Sys>, run: seq<Step>, i: nat)
    requires Run(ss, run) && i < |ss|
    ensures IdsDistinct(ss[i].reg) && OneManager(ss[i].reg) && NumbersDistinct(ss[i].reg)
  {
    AlwaysGood(ss, run, i);
    hide Next, Init, Fates, Owned, Sane, Awake, Routed, Placed, Traced;
  }

  /** Once an endpoint's id has gone out of use it is never used again. */
  lemma {:induction false} NeverReused(ss: seq<Sys>, run: seq<Step>, i: nat, j: nat, id: nat)
    requires Run(ss, run) && i <= j < |ss| && id < ss[i].reg.nextId && !Live(ss[i].reg, id)
    ensures !Live(ss[j].reg, id) && ss[i].reg.nextId <= ss[j].reg.nextId
    decreases j
  {
    hide Next, Init, Live, Inv, Fates, Owned, Sane, Awake, Routed, Placed, Traced;
    if i < j {
      NeverReused(ss, run, i, j - 1, id);
      AlwaysGood(ss, run, j - 1);
      RegistryKept(ss[j - 1], ss[j], run[j - 1]);
      NoReturn(ss[j - 1], ss[j], run[j - 1], id);
    }
  }

  /** A handle names the same object, under the same cookie, ever after, and no object has two. */
  lemma {:induction false} HandlesLast(ss: seq<Sys>, run: seq<Step>, i: nat, j: nat)
    requires Run(ss, run) && i <= j < |ss|
    ensures Nodes.Valid(ss[j].nodes) && Nodes.Grows(ss[i].nodes, ss[j].nodes)
    decreases j
  {
    hide Next, Init, Inv, Fates, Owned, Sane, Awake, Routed, Placed, Nodes.Valid, Told, Delivered, OwesUsers;
    AlwaysGood(ss, run, j);
    if i < j {
      HandlesLast(ss, run, i, j - 1);
      NodesGrow(ss[j - 1], ss[j], run[j - 1]);
    }
  }

  // ---- messages ----

  /** Every message posted is waiting, has been collected or withdrawn once, or went with its slot, and
      only one of these. */
  lemma EveryFate(ss: seq<Sys>, run: seq<Step>, i: nat, n: nat)
    requires Run(ss, run) && i < |ss| && 0 < n < ss[i].reg.nextSeq
    ensures Waits(ss[i].reg.q, n) || Logged(ss[i].past.log, n) || n in ss[i].past.dropped
    ensures !(Waits(ss[i].reg.q, n) && Logged(ss[i].past.log, n)) && !(Waits(ss[i].reg.q, n) && n in ss[i].past.dropped)
    ensures !(Logged(ss[i].past.log, n) && n in ss[i].past.dropped)
    ensures Single(ss[i].past.log)
  {
    AlwaysGood(ss, run, i);
    hide Next, Init, Inv, Owned, Sane, Awake, Routed, Placed, Traced;
  }

  /** No message is collected twice. */
  lemma CollectedOnce(ss: seq<Sys>, run: seq<Step>, i: nat)
    requires Run(ss, run) && i < |ss|
    ensures var log := ss[i].past.log;
            forall a, b :: 0 <= a < b < |log| && log[a].Collected? && log[b].Collected? ==>
              log[a].msg.num != log[b].msg.num
  {
    AlwaysGood(ss, run, i);
    hide Next, Init, Inv, Owned, Sane, Awake, Routed, Placed, Traced, Over, Covered;
  }

  /** A sender that withdraws takes out its own message exactly if that is still waiting. */
  lemma WithdrawsOwn(ss: seq<Sys>, run: seq<Step>, i: nat, t: Thread, dead: set<int>)
    requires Run(ss, run) && i < |run| && run[i] == Withdraw(t, dead) && ss[i + 1].past.log != ss[i].past.log
    ensures |ss[i + 1].past.log| == |ss[i].past.log| + 1
    ensures var e := ss[i + 1].past.log[|ss[i].past.log|];
            e.Withdrawn? && e.own == PhaseOf(ss[i], t).num && (e.msg.num == e.own <==> Waits(ss[i].reg.q, e.own))
  {
    hide Next, Init, Inv, Owned, Fates, Sane, Awake, Routed, Placed, Traced;
    AlwaysGood(ss, run, i);
    TakesBack(ss[i], ss[i + 1], t, dead);
  }

  /** While somebody has an endpoint's fifo open, a message waiting for it means a byte in the fifo, a sender
      still on its way to wake it or to take the message back, or a reader about to look again. */
  lemma NoLostWakeup(ss: seq<Sys>, run: seq<Step>, i: nat, id: nat)
    requires Run(ss, run) && i < |ss| && Waiting(ss[i].reg, id) && id in ss[i].fifos.bytes
    ensures ss[i].fifos.bytes[id] > 0 || SomeReader(ss[i].ph, id) || exists k: nat :: SomeSender(ss[i].ph, id, k)
  {
    AlwaysGood(ss, run, i);
    hide Next, Init, Inv, Fates, Owned, Sane, Routed, Placed, Traced;
    var s := ss[i];
    var k: nat :| WaitingAt(s.reg, id, k);
    assert Watched(s.fifos, id) && Expected(s, id, k);
  }

  // ---- where they go ----

  /** A collected message reached the endpoint its sender looked up, exactly if that endpoint still
      had the slot when the message was posted. */
  lemma ReachesWhoWasMeant(ss: seq<Sys>, run: seq<Step>, i: nat, a: nat)
    requires Run(ss, run) && i < |ss| && a < |ss[i].past.log| && ss[i].past.log[a].Collected?
    ensures ss[i].past.log[a].ep == ss[i].past.log[a].msg.want <==> ss[i].past.log[a].msg.num !in ss[i].past.stray
  {
    AlwaysGood(ss, run, i);
    hide Next, Init, Inv, Fates, Owned, Sane, Awake, Routed, Traced;
    assert InPlace(ss[i].past.log[a], ss[i].past.stray);
  }

  /** The step posts into a slot that no longer has the endpoint that was looked up. */
  ghost predicate ChangedHands(s: Sys, a: Step) {
    && a.Post? && PhaseOf(s, a.t).Found? && SlotOf(a.k) < |s.reg.ep|
    && s.reg.ep[SlotOf(a.k)].id != PhaseOf(s, a.t).draft.want
  }

  /** `stray` is exactly the messages posted so. */
  lemma {:induction false} StrayMeans(ss: seq<Sys>, run: seq<Step>, i: nat, n: nat)
    requires Run(ss, run) && i < |ss|
    ensures n in ss[i].past.stray <==> exists j :: 0 <= j < i && ChangedHands(ss[j], run[j]) && ss[j].reg.nextSeq == n
  {
    hide Next, ChangedHands;
    if i > 0 {
      StrayMeans(ss, run, i - 1, n);
      StrayStep(ss[i - 1], ss[i], run[i - 1], n);
    }
  }

  lemma StrayStep(s: Sys, s': Sys, a: Step, n: nat)
    requires Next(s, s', a)
    ensures n in s'.past.stray <==> n in s.past.stray || (ChangedHands(s, a) && s.reg.nextSeq == n)
  {
    Untouched(s, s', a);
    if !a.Post? {
      hide Next;
    }
  }

  /** A call on a handle is delivered with the pointer and first cookie of the object the handle names, and
      to that object's owner exactly if the slot had not changed hands when it was posted. */
  lemma CallReachesObject(ss: seq<Sys>, run: seq<Step>, i: nat, a: nat)
    requires Run(ss, run) && i < |ss| && a < |ss[i].past.log| && ss[i].past.log[a].Collected?
    requires !ss[i].past.log[a].msg.isReply && ss[i].past.log[a].msg.target != 0
    ensures var e, t := ss[i].past.log[a], ss[i].nodes;
            && Nodes.Backed(t, e.msg.target) && e.target == (t[e.msg.target].ptr, t[e.msg.target].cookie)
            && (e.ep == t[e.msg.target].owner <==> e.msg.num !in ss[i].past.stray)
  {
    AlwaysGood(ss, run, i);
    hide Next, Init, Inv, Fates, Owned, Sane, Awake, Routed;
    assert InPlace(ss[i].past.log[a], ss[i].past.stray);
    assert Delivered(ss[i].nodes, ss[i].past.users, ss[i].past.log[a]);
  }

  // ---- replies ----

  /** In every run, a reply goes to the endpoint and thread of the latest unanswered call its thread collected
      on that descriptor, as long as no more than 64 calls on it were ever unanswered at once. */
  lemma RepliesGoBack(ss: seq<Sys>, run: seq<Step>, i: nat, t: Thread, d: nat, total: nat, slot: nat)
    requires Run(ss, run) && i < |run| && run[i] == Reply(t, d, total, slot) && Within(ss[i].past.log, d)
    ensures var own := Unanswered(ss[i].past.log, d, t.port);
            var p := PhaseOf(ss[i + 1], t);
            own != [] ==>
              && p.Found? && p.draft.want == own[|own| - 1].ep && p.draft.replyTid == own[|own| - 1].tid
              && p.draft.proc == own[|own| - 1].proc && Unanswered(ss[i + 1].past.log, d, t.port) == own[..|own| - 1]
  {
    AlwaysGood(ss, run, i);
    hide Init, Next, Inv, Fates, Owned, Sane, Awake, Routed, Placed, Traced, Unanswered, Within;
    if Unanswered(ss[i].past.log, d, t.port) != [] {
      ReplyGoesBack(ss[i], ss[i + 1], t, d, total, slot);
    }
  }

  /** Thread u is in a read of endpoint id, through a descriptor of its process. */
  ghost predicate Listens(s: Sys, u: Thread, id: nat) {
    PhaseOf(s, u).Reading? && PhaseOf(s, u).id == id && Uses(s, u, PhaseOf(s, u).d)
  }

  /** No thread but `owed` is reading endpoint id under its port name. */
  ghost predicate NoNamesake(s: Sys, id: nat, owed: Thread) {
    forall u :: Listens(s, u, id) && u.port == owed.port ==> u == owed
  }

  /** The thread a reply is owed to. */
  function OwedThread(m: Msg): Thread {
    Thread(m.proc, m.replyTid)
  }

  /** In every state of every run, a reply that waits can be collected by none but the thread it is owed to,
      if and only if no other thread is reading the endpoint under that thread's port name. */
  lemma OnlyOwedCollects(ss: seq<Sys>, run: seq<Step>, i: nat, id: nat, k: nat)
    requires Run(ss, run) && i < |ss| && WaitingAt(ss[i].reg, id, k)
    requires ss[i].reg.q[k].isReply && ss[i].reg.q[k].replyTid != 0
    ensures var s, owed := ss[i], OwedThread(ss[i].reg.q[k]);
            (forall u, s' :: Next(s, s', Collect(u, k)) ==> u == owed) <==> NoNamesake(s, id, owed)
  {
    hide Next, Listens;
    var s, owed := ss[i], OwedThread(ss[i].reg.q[k]);
    forall u
      ensures (exists s' :: Next(s, s', Collect(u, k))) <==> Listens(s, u, id) && u.port == owed.port
    {
      CollectsExactly(s, u, id, k);
    }
  }

  /** Who may collect a waiting message: any thread that is reading the endpoint, if it is a call or a reply owed to
      nobody in particular, and otherwise one of the port name it is owed to. */
  lemma CollectsExactly(s: Sys, u: Thread, id: nat, k: nat)
    requires WaitingAt(s.reg, id, k)
    ensures var m := s.reg.q[k];
            (exists s' :: Next(s, s', Collect(u, k))) <==>
              Listens(s, u, id) && (!m.isReply || m.replyTid == 0 || m.replyTid == u.port)
  {
    hide Target, Calls.Notes;
    var m := s.reg.q[k];
    if Listens(s, u, id) && (!m.isReply || m.replyTid == 0 || m.replyTid == u.port) {
      var d := PhaseOf(s, u).d;
      var tab := s.opens[d].tab;
      if !m.isReply && !m.oneWay {
        tab := Calls.CanNote(tab, u.port, OwedBy(m));
      }
      var s' := At(s, u, Reading(d, id, true)).(
                  reg := s.reg.(q := s.reg.q[k := m.(used := false)]), opens := s.opens[d := s.opens[d].(tab := tab)],
                  past := s.past.(log := s.past.log + [Collected(d, id, u, m, Target(s.nodes, m.target, m.cookie))]));
      assert Next(s, s', Collect(u, k));
    }
  }

  /** In every state of every run, whatever waits for an endpoint and is not owed to one thread can be collected by
      every thread that is reading it. */
  lemma AnyReaderCollects(ss: seq<Sys>, run: seq<Step>, i: nat, id: nat, k: nat, u: Thread)
    requires Run(ss, run) && i < |ss| && WaitingAt(ss[i].reg, id, k) && Listens(ss[i], u, id)
    requires !ss[i].reg.q[k].isReply || ss[i].reg.q[k].replyTid == 0
    ensures exists s' :: Next(ss[i], s', Collect(u, k))
  {
    hide Next, Listens;
    CollectsExactly(ss[i], u, id, k);
  }

  /** No two threads that have used endpoint id have one port name. */
  ghost predicate OwnPorts(users: Users, id: nat) {
    forall t: Thread, u: Thread :: (id, t) in users && (id, u) in users && t.port == u.port ==> t == u
  }

  /** Which is so wherever ports are not shared among those that have used the endpoint, for a reply whose
      slot had not changed hands. */
  lemma OwnPortsSuffice(ss: seq<Sys>, run: seq<Step>, i: nat, id: nat, k: nat)
    requires Run(ss, run) && i < |ss| && WaitingAt(ss[i].reg, id, k)
    requires ss[i].reg.q[k].isReply && ss[i].reg.q[k].replyTid != 0
    requires OwnPorts(ss[i].past.users, id) && ss[i].reg.q[k].num !in ss[i].past.stray
    ensures NoNamesake(ss[i], id, OwedThread(ss[i].reg.q[k]))
  {
    AlwaysGood(ss, run, i);
    hide Next, Init, Inv, Fates, Owned, Sane, Awake, Routed;
    var s := ss[i];
    assert Told(s.nodes, s.past.users, s.reg.q[k]) && s.reg.q[k].want == id;
  }

  /** A reply owed to a thread has been collected under its port name, and by that thread itself where ports
      are not shared and the slot had not changed hands. */
  lemma OwedThreadCollects(ss: seq<Sys>, run: seq<Step>, i: nat, a: nat)
    requires Run(ss, run) && i < |ss| && a < |ss[i].past.log| && ss[i].past.log[a].Collected?
    requires ss[i].past.log[a].msg.isReply && ss[i].past.log[a].msg.replyTid != 0
    ensures var e := ss[i].past.log[a];
            && e.t.port == e.msg.replyTid
            && (OwnPorts(ss[i].past.users, e.ep) && e.msg.num !in ss[i].past.stray ==> e.t == OwedThread(e.msg))
  {
    AlwaysGood(ss, run, i);
    hide Next, Init, Inv, Fates, Owned, Sane, Awake, Routed;
    var e := ss[i].past.log[a];
    assert InPlace(e, ss[i].past.stray);
    assert Delivered(ss[i].nodes, ss[i].past.users, e);
  }
}
