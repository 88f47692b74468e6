/** Who a message comes from, what it is for, and where it ends up. */
module BinderDelivery {
  import opened BinderRegistry
  import opened BinderSystem
  import opened BinderReplies
  import opened BinderFates
  import Calls = BinderCalls
  import Nodes = BinderNodes

  // ---- where a message ends up ----

  /** A message waits at, or was collected by, an endpoint other than the one looked up
      exactly if the slot had changed hands when it was posted. */
  ghost predicate Placed(s: Sys) {
    && (forall n :: n in s.past.stray ==> n < s.reg.nextSeq)
    && (forall id: nat, k: nat :: WaitingAt(s.reg, id, k) ==>
          (s.reg.q[k].num in s.past.stray <==> s.reg.q[k].want != id))
    && (forall i :: 0 <= i < |s.past.log| && s.past.log[i].Collected? ==> InPlace(s.past.log[i], s.past.stray))
  }

  ghost predicate InPlace(e: Event, stray: set<nat>)
    requires e.Collected?
  {
    e.msg.num in stray <==> e.msg.want != e.ep
  }

  lemma StrayGrows(s: Sys, s': Sys, a: Step)
    requires Next(s, s', a)
    ensures s.past.stray <= s'.past.stray <= s.past.stray + {s.reg.nextSeq}
    ensures s'.past.stray != s.past.stray ==> s'.reg.nextSeq == s.reg.nextSeq + 1
  {
    Untouched(s, s', a);
    if !a.Post? {
      hide Next;
    }
  }

  lemma PlacedPost(s: Sys, s': Sys, t: Thread, k: nat, id: nat)
    requires Placed(s) && Next(s, s', Post(t, k)) && WaitingAt(s'.reg, id, k)
    ensures s'.reg.q[k].num in s'.past.stray <==> s'.reg.q[k].want != id
  {
  }

  lemma PlacedAt(s: Sys, s': Sys, a: Step, id: nat, k: nat)
    requires Inv(s.reg) && Placed(s) && Next(s, s', a) && WaitingAt(s'.reg, id, k)
    ensures s'.reg.q[k].num in s'.past.stray <==> s'.reg.q[k].want != id
  {
    hide Inv, Next;
    if a.Post? && a.k == k {
      PlacedPost(s, s', a.t, k, id);
    } else {
      StrayGrows(s, s', a);
      StillWaiting(s, s', a, id, k);
      BelowNext(s.reg, k);
    }
  }

  /** The event a collection leaves. */
  lemma CollectedEvent(s: Sys, s': Sys, a: Step, i: nat)
    requires Next(s, s', a) && i < |s'.past.log| && s'.past.log[i].Collected?
    ensures i < |s.past.log| ==> s'.past.log[i] == s.past.log[i]
    ensures i >= |s.past.log| ==>
              && a.Collect? && PhaseOf(s, a.t).Reading?
              && var m := if a.k < |s.reg.q| then s.reg.q[a.k] else NO_MESSAGE;
              && Collects(s.reg, s'.reg, a.k, PhaseOf(s, a.t).id, a.t.port)
              && s'.past.log[i] == Collected(PhaseOf(s, a.t).d, PhaseOf(s, a.t).id, a.t, m,
                                             Target(s.nodes, m.target, m.cookie))
  {
    PastGrows(s, s', a);
    if a.Collect? {
      hide Collects, Calls.Notes, Target;
    } else {
      hide Next;
      if a.Reply? || a.ReplyLost? || a.Withdraw? {
        NewEvent(s, s', a);
      }
    }
  }

  lemma PlacedKept(s: Sys, s': Sys, a: Step)
    requires Inv(s.reg) && Fates(s) && Placed(s) && Next(s, s', a)
    ensures Placed(s')
  {
    hide Inv, Next;
    RegistryKept(s, s', a);
    StrayGrows(s, s', a);
    forall id: nat, k: nat | WaitingAt(s'.reg, id, k)
      ensures s'.reg.q[k].num in s'.past.stray <==> s'.reg.q[k].want != id
    {
      PlacedAt(s, s', a, id, k);
    }
    forall i | 0 <= i < |s'.past.log| && s'.past.log[i].Collected?
      ensures InPlace(s'.past.log[i], s'.past.stray)
    {
      PlacedEvent(s, s', a, i);
    }
  }

  lemma PlacedEvent(s: Sys, s': Sys, a: Step, i: nat)
    requires Inv(s.reg) && Fates(s) && Placed(s) && Next(s, s', a) && i < |s'.past.log| && s'.past.log[i].Collected?
    ensures InPlace(s'.past.log[i], s'.past.stray)
  {
    hide Inv, Next;
    CollectedEvent(s, s', a, i);
    StrayGrows(s, s', a);
    if i < |s.past.log| {
      LoggedBelow(s, i);
    } else {
      var e := s'.past.log[i];
      assert WaitingAt(s.reg, e.ep, a.k);
      BelowNext(s.reg, a.k);
    }
  }

  lemma LoggedBelow(s: Sys, i: nat)
    requires Fates(s) && i < |s.past.log| && s.past.log[i].Collected?
    ensures s.past.log[i].msg.num < s.reg.nextSeq
  {
    assert Counted(s.past.log[i]);
  }

  // ---- who a message comes from and what it is for ----

  type Users = set<(nat, Thread)>

  /** The thread that is owed o's reply has called from the endpoint it is owed at. */
  ghost predicate OwedUser(users: Users, o: Owed) {
    o.tid != 0 ==> (o.ep, Thread(o.proc, o.tid)) in users
  }

  /** A call on a handle is for the endpoint that owns what the handle names, and says who called; a
      reply is for a thread that has called. */
  ghost predicate Told(nodes: seq<Nodes.Node>, users: Users, m: Msg) {
    if m.isReply then m.target == 0 && OwedUser(users, Calls.Owed(m.want, m.replyTid, m.proc))
    else
      && OwedUser(users, OwedBy(m))
      && (m.target != 0 ==> Nodes.Backed(nodes, m.target) && m.want == nodes[m.target].owner)
  }

  lemma ToldStill(nodes: seq<Nodes.Node>, nodes': seq<Nodes.Node>, users: Users, users': Users, m: Msg, m': Msg)
    requires Told(nodes, users, m) && Nodes.Grows(nodes, nodes') && users <= users'
             && m' == m.(used := m'.used, num := m'.num)
    ensures Told(nodes', users', m')
  {
  }

  /** What was delivered with a call on a handle is the object the handle names, to the thread that
      may take it. */
  ghost predicate Delivered(nodes: seq<Nodes.Node>, users: Users, e: Event)
    requires e.Collected?
  {
    && Told(nodes, users, e.msg) && (e.ep, e.t) in users
    && (e.msg.isReply && e.msg.replyTid != 0 ==> e.t.port == e.msg.replyTid)
    && (!e.msg.isReply && e.msg.target != 0 ==>
          Nodes.Backed(nodes, e.msg.target) && e.target == (nodes[e.msg.target].ptr, nodes[e.msg.target].cookie))
  }

  ghost predicate OwesUsers(users: Users, t: Calls.Tab) {
    forall port: nat, i: nat :: port != 0 && i < |Calls.Owes(t, port)| ==> OwedUser(users, Calls.Owes(t, port)[i])
  }

  ghost predicate Traced(s: Sys) {
    && Nodes.Valid(s.nodes)
    && (forall t :: t in s.ph && s.ph[t].Found? ==> Told(s.nodes, s.past.users, s.ph[t].draft))
    && (forall t :: t in s.ph && s.ph[t].Reading? ==> (s.ph[t].id, t) in s.past.users)
    && (forall k :: 0 <= k < |s.reg.q| && s.reg.q[k].used ==> Told(s.nodes, s.past.users, s.reg.q[k]))
    && (forall i :: 0 <= i < |s.past.log| && s.past.log[i].Collected? ==>
          Delivered(s.nodes, s.past.users, s.past.log[i]))
    && (forall d :: d in s.opens ==> OwesUsers(s.past.users, s.opens[d].tab))
  }

  /** The table of objects only grows. */
  lemma NodesGrow(s: Sys, s': Sys, a: Step)
    requires Nodes.Valid(s.nodes) && Next(s, s', a)
    ensures Nodes.Valid(s'.nodes) && Nodes.Grows(s.nodes, s'.nodes)
  {
    hide Nodes.Valid, Nodes.Registered;
    Untouched(s, s', a);
    if !a.Export? {
      hide Next;
    } else {
      Nodes.RegisteredKeeps(s.nodes, PhaseOf(s, a.t).draft.senderEp, a.ptr, a.cookie, s'.nodes, a.h);
    }
  }

  lemma DraftTold(s: Sys, s': Sys, a: Step, t: Thread)
    requires Traced(s) && Next(s, s', a) && t in s'.ph && s'.ph[t].Found?
    ensures Told(s'.nodes, s'.past.users, s'.ph[t].draft)
  {
    hide Traced, Next, Told;
    if Acts(a, t) {
      NewDraft(s, s', a, t);
    } else {
      OldDraft(s, s', a, t);
    }
  }

  lemma OldDraft(s: Sys, s': Sys, a: Step, t: Thread)
    requires Traced(s) && Next(s, s', a) && t in s'.ph && s'.ph[t].Found? && !Acts(a, t)
    ensures Told(s'.nodes, s'.past.users, s'.ph[t].draft)
  {
    hide Next, Told, Delivered, OwesUsers;
    PhaseChange(s, s', a, t);
    NodesGrow(s, s', a);
    PastGrows(s, s', a);
    ToldStill(s.nodes, s'.nodes, s.past.users, s'.past.users, s.ph[t].draft, s'.ph[t].draft);
  }

  lemma NewDraft(s: Sys, s': Sys, a: Step, t: Thread)
    requires Traced(s) && Next(s, s', a) && t in s'.ph && s'.ph[t].Found? && Acts(a, t)
    ensures Told(s'.nodes, s'.past.users, s'.ph[t].draft)
  {
    hide Next, Told, Traced;
    Untouched(s, s', a);
    FreshDraft(s, s', a);
  }

  lemma FreshDraft(s: Sys, s': Sys, a: Step)
    requires Traced(s) && Next(s, s', a) && (a.Look? || a.Reply?)
    ensures a.t in s'.ph && s'.ph[a.t].Found? && Told(s'.nodes, s'.past.users, s'.ph[a.t].draft)
  {
    hide Calls.Taken, Calls.Owes, Delivered;
    if a.Reply? {
      hide Traced;
      DebtorUser(s, a.d, a.t);
    }
  }

  lemma DebtorUser(s: Sys, d: nat, t: Thread)
    requires Traced(s) && d in s.opens && t.port != 0
    ensures OwedUser(s.past.users, Debtor(s, d, t))
  {
    hide Told, Delivered, Calls.Owes;
    assert OwesUsers(s.past.users, s.opens[d].tab);
  }

  lemma ReaderUser(s: Sys, s': Sys, a: Step, t: Thread)
    requires Traced(s) && Next(s, s', a) && t in s'.ph && s'.ph[t].Reading?
    ensures (s'.ph[t].id, t) in s'.past.users
  {
    hide Next, Told, Delivered, OwesUsers;
    PastGrows(s, s', a);
    Untouched(s, s', a);
    if a.Read? {
      StartsReading(s, s', a);
    } else if a.Collect? {
      KeepsReading(s, s', a);
    }
  }

  lemma KeepsReading(s: Sys, s': Sys, a: Step)
    requires Next(s, s', a) && a.Collect?
    ensures a.t in s'.ph && s'.ph[a.t].Reading? && PhaseOf(s, a.t).Reading? && s'.ph[a.t].id == PhaseOf(s, a.t).id
  {
    hide Collects, Calls.Notes, Target;
  }

  lemma StartsReading(s: Sys, s': Sys, a: Step)
    requires Next(s, s', a) && a.Read?
    ensures a.t in s'.ph && s'.ph[a.t].Reading? && (s'.ph[a.t].id, a.t) in s'.past.users
  {
  }

  lemma PlaceTold(s: Sys, s': Sys, a: Step, k: nat)
    requires Inv(s.reg) && Traced(s) && Next(s, s', a) && k < |s.reg.q| && k < |s'.reg.q| && s'.reg.q[k].used
    ensures Told(s'.nodes, s'.past.users, s'.reg.q[k])
  {
    hide Inv, Next, Told, Delivered, OwesUsers;
    PlaceChange(s, s', a, k);
    NodesGrow(s, s', a);
    PastGrows(s, s', a);
    if a.Post? && a.k == k {
      Section(s, s', a);
      ToldStill(s.nodes, s'.nodes, s.past.users, s'.past.users, PhaseOf(s, a.t).draft, s'.reg.q[k]);
    } else {
      ToldStill(s.nodes, s'.nodes, s.past.users, s'.past.users, s.reg.q[k], s'.reg.q[k]);
    }
  }

  lemma EventDelivered(s: Sys, s': Sys, a: Step, i: nat)
    requires Traced(s) && Next(s, s', a) && i < |s'.past.log| && s'.past.log[i].Collected?
    ensures Delivered(s'.nodes, s'.past.users, s'.past.log[i])
  {
    hide Next, OwesUsers;
    CollectedEvent(s, s', a, i);
    NodesGrow(s, s', a);
    PastGrows(s, s', a);
    if i < |s.past.log| {
      assert Delivered(s.nodes, s.past.users, s.past.log[i]);
    } else {
      assert Told(s.nodes, s.past.users, s.reg.q[a.k]);
      assert (PhaseOf(s, a.t).id, a.t) in s.past.users;
    }
  }

  lemma TabUsers(s: Sys, s': Sys, a: Step, d: nat)
    requires Routed(s) && Traced(s) && Next(s, s', a) && d in s'.opens
    ensures OwesUsers(s'.past.users, s'.opens[d].tab)
  {
    hide Next, Told, Delivered, Calls.Owes, Calls.Notes, Calls.Taken, Calls.Proper, Agrees, Within;
    TabsChange(s, s', a, d);
    PastGrows(s, s', a);
    if d in s.opens {
      var t, t' := s.opens[d].tab, s'.opens[d].tab;
      assert OwesUsers(s.past.users, t);
      if (a.Reply? || a.ReplyLost?) && a.d == d {
        Calls.TakenKeeps(t, a.t.port);
      } else if a.Collect? && PhaseOf(s, a.t).Reading? && PhaseOf(s, a.t).d == d {
        NotedUser(s, s', a);
        var e := s'.past.log[|s.past.log|];
        if OwedCall(e, d) {
          Calls.NotesKeeps(t, t', a.t.port, OwedBy(e.msg));
        }
      }
    } else {
      NothingOwed();
    }
  }

  lemma NotedUser(s: Sys, s': Sys, a: Step)
    requires Traced(s) && Next(s, s', a) && a.Collect?
    ensures |s'.past.log| > |s.past.log| && s'.past.log[|s.past.log|].Collected?
    ensures var m := s'.past.log[|s.past.log|].msg; !m.isReply ==> OwedUser(s'.past.users, OwedBy(m))
  {
    hide OwesUsers, Delivered, Calls.Notes;
    assert Told(s.nodes, s.past.users, s.reg.q[a.k]);
  }

  lemma NothingOwed()
    ensures forall port: nat :: Calls.Owes(NewTab(), port) == []
  {
  }

  lemma TracedKept(s: Sys, s': Sys, a: Step)
    requires Inv(s.reg) && Routed(s) && Traced(s) && Next(s, s', a)
    ensures Traced(s')
  {
    NodesGrow(s, s', a);
    QueueSize(s, s', a);
    hide Inv, Next, Told, Delivered, OwesUsers, Routed, Nodes.Valid;
    forall t | t in s'.ph && s'.ph[t].Found?
      ensures Told(s'.nodes, s'.past.users, s'.ph[t].draft)
    {
      DraftTold(s, s', a, t);
    }
    forall t | t in s'.ph && s'.ph[t].Reading?
      ensures (s'.ph[t].id, t) in s'.past.users
    {
      ReaderUser(s, s', a, t);
    }
    forall k | 0 <= k < |s'.reg.q| && s'.reg.q[k].used
      ensures Told(s'.nodes, s'.past.users, s'.reg.q[k])
    {
      PlaceTold(s, s', a, k);
    }
    forall i | 0 <= i < |s'.past.log| && s'.past.log[i].Collected?
      ensures Delivered(s'.nodes, s'.past.users, s'.past.log[i])
    {
      EventDelivered(s, s', a, i);
    }
    forall d | d in s'.opens
      ensures OwesUsers(s'.past.users, s'.opens[d].tab)
    {
      TabUsers(s, s', a, d);
    }
  }
}
