/** Where messages come from: whatever waits or has been delivered is, field by field, the call or the reply that
    some thread made.
 */
module BinderSent {
  import opened BinderRegistry
  import opened BinderSystem
  import opened BinderReplies
  import opened BinderDelivery
  import opened BinderRuns
  import Fate = BinderFates
  import Waking = BinderWake
  import Calls = BinderCalls
  import Nodes = BinderNodes

  /** m is the call that step a made in state s: on its handle and from the endpoint of its descriptor, to an endpoint
      of the same context, which is the manager for handle 0 and otherwise the owner of the object. */
  ghost predicate Called(s: Sys, a: Step, m: Msg) {
    && a.Look? && a.d in s.opens && s.opens[a.d].proc == a.t.proc && a.slot < |s.reg.ep|
    && !m.isReply && m.target == a.handle && m.cookie == a.cookie && m.total == a.total && m.oneWay == a.oneWay
    && m.senderEp == s.opens[a.d].id && m.proc == a.t.proc && m.replyTid == (if a.oneWay then 0 else a.t.port)
    && s.reg.ep[a.slot].used && s.reg.ep[a.slot].ctx == s.opens[a.d].ctx && m.want == s.reg.ep[a.slot].id
    && (a.handle == 0 ==> s.reg.ep[a.slot].isMgr)
    && (a.handle != 0 ==> a.handle < |s.nodes| && s.nodes[a.handle].Node? && s.nodes[a.handle].owner == m.want)
  }

  /** m is the reply that step a made in state s: to the latest call its thread had collected and not answered, or to
      its own endpoint when there was none. */
  ghost predicate Replied(s: Sys, a: Step, m: Msg) {
    && a.Reply? && a.d in s.opens && s.opens[a.d].proc == a.t.proc
    && m.isReply && !m.oneWay && m.total == a.total && m.senderEp == s.opens[a.d].id
    && (Within(s.past.log, a.d) ==>
          var own := Unanswered(s.past.log, a.d, a.t.port);
          if own == [] then m.want == s.opens[a.d].id && m.replyTid == 0
          else m.want == own[|own| - 1].ep && m.replyTid == own[|own| - 1].tid && m.proc == own[|own| - 1].proc)
  }

  /** Some step of the run before state i made m. */
  ghost predicate Sent(ss: seq<Sys>, run: seq<Step>, i: nat, m: Msg)
    requires |ss| == |run| + 1 && i < |ss|
  {
    exists j :: 0 <= j < i && (Called(ss[j], run[j], m) || Replied(ss[j], run[j], m))
  }

  /** The call's object and cookie, if it is on a handle; for the manager, the cookie the caller gave. */
  ghost predicate Aimed(nodes: seq<Nodes.Node>, e: Event)
    requires e.Collected?
  {
    && (e.msg.target == 0 ==> e.target == (0, e.msg.cookie))
    && (e.msg.target != 0 && !e.msg.isReply ==>
          && e.msg.target < |nodes| && nodes[e.msg.target].Node?
          && e.target == (nodes[e.msg.target].ptr, nodes[e.msg.target].cookie))
  }

  ghost predicate DraftsSent(ss: seq<Sys>, run: seq<Step>, i: nat)
    requires |ss| == |run| + 1 && i < |ss|
  {
    forall t :: PhaseOf(ss[i], t).Found? ==> Sent(ss, run, i, PhaseOf(ss[i], t).draft)
  }

  ghost predicate PlacesSent(ss: seq<Sys>, run: seq<Step>, i: nat)
    requires |ss| == |run| + 1 && i < |ss|
  {
    forall k :: 0 <= k < |ss[i].reg.q| && ss[i].reg.q[k].used ==> Sent(ss, run, i, ss[i].reg.q[k])
  }

  ghost predicate EventsSent(ss: seq<Sys>, run: seq<Step>, i: nat)
    requires |ss| == |run| + 1 && i < |ss|
  {
    forall a :: 0 <= a < |ss[i].past.log| && ss[i].past.log[a].Collected? ==> Sent(ss, run, i, ss[i].past.log[a].msg)
  }

  lemma SentStill(ss: seq<Sys>, run: seq<Step>, i: nat, m: Msg, m': Msg)
    requires |ss| == |run| + 1 && i < |run| && Sent(ss, run, i, m) && m' == m.(used := m'.used, num := m'.num)
    ensures Sent(ss, run, i + 1, m')
  {
    hide Unanswered, Within;
    var j :| 0 <= j < i && (Called(ss[j], run[j], m) || Replied(ss[j], run[j], m));
    assert Called(ss[j], run[j], m') || Replied(ss[j], run[j], m');
  }

  lemma JustCalled(s: Sys, s': Sys, a: Step)
    requires Next(s, s', a) && a.Look?
    ensures PhaseOf(s', a.t).Found? && Called(s, a, PhaseOf(s', a.t).draft)
  {
  }

  lemma JustReplied(s: Sys, s': Sys, a: Step)
    requires Routed(s) && Next(s, s', a) && a.Reply?
    ensures PhaseOf(s', a.t).Found? && Replied(s, a, PhaseOf(s', a.t).draft)
  {
    hide Unanswered, Outstanding, Within, Calls.Proper, Calls.Owes, Calls.Taken;
    if Within(s.past.log, a.d) {
      assert Agrees(s.opens[a.d].tab, s.past.log, a.d);
    }
  }

  lemma DraftSent(ss: seq<Sys>, run: seq<Step>, i: nat, t: Thread)
    requires Run(ss, run) && i < |run| && DraftsSent(ss, run, i) && PhaseOf(ss[i + 1], t).Found?
    ensures Sent(ss, run, i + 1, PhaseOf(ss[i + 1], t).draft)
  {
    hide Next, Init, Called, Replied, Inv, Fate.Fates, Fate.Owned, Waking.Sane, Waking.Awake, Routed, Placed, Traced;
    var s, s', a := ss[i], ss[i + 1], run[i];
    Untouched(s, s', a);
    if !Acts(a, t) {
      PhaseChange(s, s', a, t);
      var m := PhaseOf(s, t).draft;
      hide Sent;
      SentStill(ss, run, i, m, m);
    } else {
      assert a.Look? || a.Reply?;
      if a.Look? {
        JustCalled(s, s', a);
      } else {
        AlwaysGood(ss, run, i);
        JustReplied(s, s', a);
      }
    }
  }

  lemma PlaceSent(ss: seq<Sys>, run: seq<Step>, i: nat, k: nat)
    requires Run(ss, run) && i < |run| && DraftsSent(ss, run, i) && PlacesSent(ss, run, i)
    requires k < |ss[i + 1].reg.q| && ss[i + 1].reg.q[k].used
    ensures Sent(ss, run, i + 1, ss[i + 1].reg.q[k])
  {
    hide Next, Init, Sent, Inv, Fate.Fates, Fate.Owned, Waking.Sane, Waking.Awake, Routed, Placed, Traced;
    var s, s', a := ss[i], ss[i + 1], run[i];
    AlwaysGood(ss, run, i);
    QueueSize(s, s', a);
    PlaceChange(s, s', a, k);
    if a.Post? && a.k == k {
      Untouched(s, s', a);
      SentStill(ss, run, i, PhaseOf(s, a.t).draft, s'.reg.q[k]);
    } else {
      SentStill(ss, run, i, s.reg.q[k], s'.reg.q[k]);
    }
  }

  lemma EventSent(ss: seq<Sys>, run: seq<Step>, i: nat, e: nat)
    requires Run(ss, run) && i < |run| && PlacesSent(ss, run, i) && EventsSent(ss, run, i)
    requires e < |ss[i + 1].past.log| && ss[i + 1].past.log[e].Collected?
    ensures Sent(ss, run, i + 1, ss[i + 1].past.log[e].msg)
  {
    hide Next, Init, Sent, Target;
    var s, s', a := ss[i], ss[i + 1], run[i];
    CollectedEvent(s, s', a, e);
    var m := s'.past.log[e].msg;
    SentStill(ss, run, i, m, m);
  }

  lemma {:induction false} AllSent(ss: seq<Sys>, run: seq<Step>, i: nat)
    requires Run(ss, run) && i < |ss|
    ensures DraftsSent(ss, run, i) && PlacesSent(ss, run, i) && EventsSent(ss, run, i)
  {
    hide Next, Sent;
    if i > 0 {
      hide Init;
      AllSent(ss, run, i - 1);
      forall t | PhaseOf(ss[i], t).Found?
        ensures Sent(ss, run, i, PhaseOf(ss[i], t).draft)
      {
        DraftSent(ss, run, i - 1, t);
      }
      forall k | 0 <= k < |ss[i].reg.q| && ss[i].reg.q[k].used
        ensures Sent(ss, run, i, ss[i].reg.q[k])
      {
        PlaceSent(ss, run, i - 1, k);
      }
      forall e | 0 <= e < |ss[i].past.log| && ss[i].past.log[e].Collected?
        ensures Sent(ss, run, i, ss[i].past.log[e].msg)
      {
        EventSent(ss, run, i - 1, e);
      }
    }
  }

  lemma {:induction false} ManagerCookie(ss: seq<Sys>, run: seq<Step>, i: nat, e: nat)
    requires Run(ss, run) && i < |ss| && e < |ss[i].past.log| && ss[i].past.log[e].Collected?
    ensures ss[i].past.log[e].msg.target == 0 ==> ss[i].past.log[e].target == (0, ss[i].past.log[e].msg.cookie)
    decreases i
  {
    hide Next;
    if i > 0 {
      hide Init;
      CollectedEvent(ss[i - 1], ss[i], run[i - 1], e);
      if e < |ss[i - 1].past.log| {
        ManagerCookie(ss, run, i - 1, e);
      }
    }
  }

  /** In every run, every message delivered was sent: it is a call or a reply that some thread made before, whole and
      unchanged, and a call comes with the object its handle names. */
  lemma DeliveredWasSent(ss: seq<Sys>, run: seq<Step>, i: nat, e: nat)
    requires Run(ss, run) && i < |ss| && e < |ss[i].past.log| && ss[i].past.log[e].Collected?
    ensures exists j :: 0 <= j < i && (Called(ss[j], run[j], ss[i].past.log[e].msg)
                                       || Replied(ss[j], run[j], ss[i].past.log[e].msg))
    ensures Aimed(ss[i].nodes, ss[i].past.log[e])
  {
    hide Next, Init, Called, Replied;
    AllSent(ss, run, i);
    assert Sent(ss, run, i, ss[i].past.log[e].msg);
    ManagerCookie(ss, run, i, e);
    if ss[i].past.log[e].msg.target != 0 && !ss[i].past.log[e].msg.isReply {
      CallReachesObject(ss, run, i, e);
    }
  }
}
