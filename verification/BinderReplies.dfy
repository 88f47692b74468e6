/** Where replies go: the 64-slot table of each open of the device against the calls its
    threads have collected and not answered.
 */
module BinderReplies {
  import opened BinderRegistry
  import opened BinderSystem
  import Calls = BinderCalls

  /** The event is a call that is owed an answer, collected on descriptor d. */
  predicate OwedCall(e: Event, d: nat) {
    e.Collected? && e.d == d && !e.msg.isReply && !e.msg.oneWay
  }

  function OwedBy(m: Msg): Owed {
    Calls.Owed(m.senderEp, m.replyTid, m.proc)
  }

  function Popped(own: seq<Owed>): seq<Owed> {
    if own == [] then [] else own[..|own| - 1]
  }

  /** What one event does to the calls a thread of descriptor d is to answer. */
  ghost function After(own: seq<Owed>, e: Event, d: nat, port: nat): seq<Owed> {
    if OwedCall(e, d) && e.t.port == port then own + [OwedBy(e.msg)]
    else if e.Answered? && e.d == d && e.t.port == port then Popped(own)
    else own
  }

  /** The calls that thread of descriptor d has collected and not answered, the latest last. */
  ghost function Unanswered(log: seq<Event>, d: nat, port: nat): seq<Owed> {
    if log == [] then [] else After(Unanswered(log[..|log| - 1], d, port), log[|log| - 1], d, port)
  }

  /** How many calls all threads of descriptor d have left unanswered. */
  ghost function Outstanding(log: seq<Event>, d: nat): nat {
    if log == [] then 0
    else
      var n, e := Outstanding(log[..|log| - 1], d), log[|log| - 1];
      if OwedCall(e, d) then n + 1
      else if e.Answered? && e.d == d && Unanswered(log[..|log| - 1], d, e.t.port) != [] && n > 0 then n - 1
      else n
  }

  /** They were never more than the table holds. */
  ghost predicate Within(log: seq<Event>, d: nat) {
    forall n: nat :: n <= |log| ==> Outstanding(log[..n], d) <= Calls.MAX_CALLS
  }

  lemma OneMore(log: seq<Event>, e: Event, d: nat, port: nat)
    ensures Unanswered(log + [e], d, port) == After(Unanswered(log, d, port), e, d, port)
    ensures Outstanding(log + [e], d) ==
              if OwedCall(e, d) then Outstanding(log, d) + 1
              else if e.Answered? && e.d == d && Unanswered(log, d, e.t.port) != []
                && Outstanding(log, d) > 0 then Outstanding(log, d) - 1
              else Outstanding(log, d)
  {
    assert (log + [e])[..|log|] == log;
  }

  lemma WithinBefore(log: seq<Event>, e: Event, d: nat)
    requires Within(log + [e], d)
    ensures Within(log, d) && Outstanding(log, d) <= Calls.MAX_CALLS && Outstanding(log + [e], d) <= Calls.MAX_CALLS
  {
    var log' := log + [e];
    forall n: nat | n <= |log|
      ensures Outstanding(log[..n], d) <= Calls.MAX_CALLS
    {
      assert log'[..n] == log[..n];
    }
    assert log'[..|log'|] == log' && log[..|log|] == log;
  }

  /** Nothing has happened on descriptor d. */
  ghost predicate Quiet(log: seq<Event>, d: nat) {
    forall i :: 0 <= i < |log| ==> log[i].Withdrawn? || log[i].d != d
  }

  lemma {:induction false} QuietOwesNothing(log: seq<Event>, d: nat, port: nat)
    requires Quiet(log, d)
    ensures Unanswered(log, d, port) == [] && Outstanding(log, d) == 0
  {
    if log != [] {
      QuietOwesNothing(log[..|log| - 1], d, port);
    }
  }

  // ---- the tables ----

  /** Table t says what the log says. */
  ghost predicate Agrees(t: Calls.Tab, log: seq<Event>, d: nat) {
    && (forall port: nat :: port != 0 ==> Calls.Owes(t, port) == Unanswered(log, d, port))
    && |Calls.Used(t.cs)| == Outstanding(log, d)
  }

  /** Every table is in order, and agrees with the log while the calls it was to hold were no more
      than it holds. */
  ghost predicate Routed(s: Sys) {
    && (forall d :: d in s.opens ==> d < s.made && Calls.Proper(s.opens[d].tab))
    && (forall d :: d in s.opens && Within(s.past.log, d) ==> Agrees(s.opens[d].tab, s.past.log, d))
    && (forall i :: 0 <= i < |s.past.log| && !s.past.log[i].Withdrawn? ==>
          s.past.log[i].d < s.made && s.past.log[i].t.port != 0)
  }

  /** The log has one more event. */
  ghost predicate Grown(log: seq<Event>, log': seq<Event>) {
    |log'| == |log| + 1 && log' == log + [log'[|log|]]
  }

  /** What a step does to a table. */
  ghost predicate TabStep(s: Sys, a: Step, d: nat, t: Calls.Tab, t': Calls.Tab, log: seq<Event>, log': seq<Event>) {
    if (a.Reply? || a.ReplyLost?) && a.d == d then
      && t' == Calls.Taken(t, a.t.port) && a.t.port != 0
      && Grown(log, log') && var e := log'[|log|]; e.Answered? && e.d == d && e.t == a.t
    else if a.Collect? && PhaseOf(s, a.t).Reading? && PhaseOf(s, a.t).d == d then
      && a.t.port != 0
      && Grown(log, log') && log'[|log|].Collected? && log'[|log|].d == d && log'[|log|].t == a.t
      && if OwedCall(log'[|log|], d) then Calls.Notes(t, t', a.t.port, OwedBy(log'[|log|].msg)) else t' == t
    else
      && t' == t
      && (log' == log || (Grown(log, log') && var e := log'[|log|]; e.Withdrawn? || e.d != d))
  }

  lemma TabsChange(s: Sys, s': Sys, a: Step, d: nat)
    requires Next(s, s', a) && d in s'.opens && s.made !in s.opens
    ensures d in s.opens ==> TabStep(s, a, d, s.opens[d].tab, s'.opens[d].tab, s.past.log, s'.past.log)
    ensures d !in s.opens ==>
              d == s.made && s'.made == s.made + 1 && s'.opens[d].tab == NewTab() && s'.past.log == s.past.log
  {
    hide Next, Calls.Notes, Calls.Taken, Calls.Owes;
    Untouched(s, s', a);
    if a.Reply? || a.ReplyLost? {
      AnswerTabs(s, s', a, d);
    } else if a.Collect? {
      CollectTabs(s, s', a, d);
    } else if a.Withdraw? {
      NewEvent(s, s', a);
    } else if a.MakeFifo? || a.Adopt? || a.AdoptGone? || a.GiveUpFd? || a.Exit? {
      OpensTabs(s, s', a, d);
    }
  }

  lemma OpensTabs(s: Sys, s': Sys, a: Step, d: nat)
    requires Next(s, s', a) && d in s'.opens && s.made !in s.opens
    requires a.MakeFifo? || a.Adopt? || a.AdoptGone? || a.GiveUpFd? || a.Exit?
    ensures d in s.opens ==> s'.opens[d].tab == s.opens[d].tab
    ensures d !in s.opens ==> d == s.made && s'.made == s.made + 1 && s'.opens[d].tab == NewTab()
  {
    hide Adopts, Live;
  }

  lemma AnswerTabs(s: Sys, s': Sys, a: Step, d: nat)
    requires Next(s, s', a) && d in s'.opens && (a.Reply? || a.ReplyLost?)
    ensures d in s.opens && TabStep(s, a, d, s.opens[d].tab, s'.opens[d].tab, s.past.log, s'.past.log)
  {
    hide Live, Calls.Taken, Calls.Owes, Debtor;
    assert Grown(s.past.log, s'.past.log);
  }

  lemma CollectTabs(s: Sys, s': Sys, a: Step, d: nat)
    requires Next(s, s', a) && d in s'.opens && a.Collect?
    ensures d in s.opens && TabStep(s, a, d, s.opens[d].tab, s'.opens[d].tab, s.past.log, s'.past.log)
  {
    hide Calls.Notes, Collects;
    assert Grown(s.past.log, s'.past.log);
  }

  lemma TabKept(s: Sys, a: Step, d: nat, t: Calls.Tab, t': Calls.Tab, log: seq<Event>, log': seq<Event>)
    requires Calls.Proper(t) && (Within(log, d) ==> Agrees(t, log, d)) && TabStep(s, a, d, t, t', log, log')
    ensures Calls.Proper(t') && (Within(log', d) ==> Agrees(t', log', d))
  {
    hide Calls.Proper, Calls.Owes, Calls.Notes, Calls.Taken, Calls.Used, Within, Unanswered, Outstanding, Agrees;
    if (a.Reply? || a.ReplyLost?) && a.d == d {
      AnswerAgrees(t, a.t, log, d, log'[|log|].to);
    } else if a.Collect? && PhaseOf(s, a.t).Reading? && PhaseOf(s, a.t).d == d {
      CollectAgrees(t, t', log, d, log'[|log|]);
    } else if log' != log {
      ElsewhereAgrees(t, log, d, log'[|log|]);
    }
  }

  lemma AnswerAgrees(t: Calls.Tab, who: Thread, log: seq<Event>, d: nat, to: Owed)
    requires Calls.Proper(t) && (Within(log, d) ==> Agrees(t, log, d)) && who.port != 0
    ensures var t', log' := Calls.Taken(t, who.port), log + [Answered(d, who, to)];
            Calls.Proper(t') && (Within(log', d) ==> Agrees(t', log', d))
  {
    hide Calls.Proper, Calls.Owes, Calls.Taken, Calls.Used, Within, Unanswered, Outstanding;
    var t', e := Calls.Taken(t, who.port), Answered(d, who, to);
    Calls.TakenKeeps(t, who.port);
    Calls.TakeCounts(t, who.port);
    if Within(log + [e], d) {
      WithinBefore(log, e, d);
      forall port: nat | port != 0
        ensures Calls.Owes(t', port) == Unanswered(log + [e], d, port)
      {
        OneMore(log, e, d, port);
      }
      OneMore(log, e, d, who.port);
    }
  }

  lemma CollectAgrees(t: Calls.Tab, t': Calls.Tab, log: seq<Event>, d: nat, e: Event)
    requires Calls.Proper(t) && (Within(log, d) ==> Agrees(t, log, d)) && e.Collected? && e.d == d && e.t.port != 0
    requires if OwedCall(e, d) then Calls.Notes(t, t', e.t.port, OwedBy(e.msg)) else t' == t
    ensures Calls.Proper(t') && (Within(log + [e], d) ==> Agrees(t', log + [e], d))
  {
    hide Calls.Proper, Calls.Owes, Calls.Notes, Calls.Used, Within, Unanswered, Outstanding;
    if OwedCall(e, d) {
      Calls.NotesKeeps(t, t', e.t.port, OwedBy(e.msg));
    }
    if Within(log + [e], d) {
      WithinBefore(log, e, d);
      OneMore(log, e, d, e.t.port);
      if OwedCall(e, d) {
        Calls.NoteCounts(t, t', e.t.port, OwedBy(e.msg));
      }
      forall port: nat | port != 0
        ensures Calls.Owes(t', port) == Unanswered(log + [e], d, port)
      {
        OneMore(log, e, d, port);
      }
    }
  }

  lemma ElsewhereAgrees(t: Calls.Tab, log: seq<Event>, d: nat, e: Event)
    requires (Within(log, d) ==> Agrees(t, log, d)) && (e.Withdrawn? || e.d != d)
    ensures Within(log + [e], d) ==> Agrees(t, log + [e], d)
  {
    hide Calls.Owes, Calls.Used, Within, Unanswered, Outstanding;
    if Within(log + [e], d) {
      WithinBefore(log, e, d);
      OneMore(log, e, d, 0);
      forall port: nat
        ensures Unanswered(log + [e], d, port) == Unanswered(log, d, port)
      {
        OneMore(log, e, d, port);
      }
    }
  }

  lemma NewTabAgrees(log: seq<Event>, d: nat)
    requires Quiet(log, d)
    ensures Calls.Proper(NewTab()) && Agrees(NewTab(), log, d)
  {
    hide Unanswered, Outstanding, Quiet;
    assert Calls.Used(NewTab().cs) == {};
    QuietOwesNothing(log, d, 0);
    forall port: nat
      ensures Calls.Owes(NewTab(), port) == [] == Unanswered(log, d, port)
    {
      QuietOwesNothing(log, d, port);
    }
  }

  lemma RoutedKept(s: Sys, s': Sys, a: Step)
    requires Routed(s) && Next(s, s', a)
    ensures Routed(s')
  {
    hide Next, Agrees, Calls.Proper, TabStep, Within;
    EventsNamed(s, s', a);
    forall d | d in s'.opens
      ensures d < s'.made && Calls.Proper(s'.opens[d].tab)
      ensures Within(s'.past.log, d) ==> Agrees(s'.opens[d].tab, s'.past.log, d)
    {
      TabsChange(s, s', a, d);
      if d in s.opens {
        TabKept(s, a, d, s.opens[d].tab, s'.opens[d].tab, s.past.log, s'.past.log);
      } else {
        NewTabAgrees(s.past.log, d);
      }
    }
  }

  lemma EventsNamed(s: Sys, s': Sys, a: Step)
    requires Routed(s) && Next(s, s', a)
    ensures s'.made >= s.made
    ensures forall i :: 0 <= i < |s'.past.log| && !s'.past.log[i].Withdrawn? ==>
              s'.past.log[i].d < s.made && s'.past.log[i].t.port != 0
  {
    hide Next, Within, Agrees, Calls.Proper;
    Untouched(s, s', a);
    if a.Collect? || a.Reply? || a.ReplyLost? || a.Withdraw? {
      NewEvent(s, s', a);
    } else if a.MakeFifo? || a.Adopt? || a.AdoptGone? {
      MoreMade(s, s', a);
    }
  }

  lemma MoreMade(s: Sys, s': Sys, a: Step)
    requires Next(s, s', a) && (a.MakeFifo? || a.Adopt? || a.AdoptGone?)
    ensures s'.made == s.made + 1
  {
    hide Adopts, Live;
  }

  /** A reply goes to the endpoint and thread of the latest call its thread has left unanswered on that
      descriptor, answers that call and no other, and touches no other thread's. */
  lemma ReplyGoesBack(s: Sys, s': Sys, t: Thread, d: nat, total: nat, slot: nat)
    requires Routed(s) && Next(s, s', Reply(t, d, total, slot)) && Within(s.past.log, d)
             && Unanswered(s.past.log, d, t.port) != []
    ensures var own := Unanswered(s.past.log, d, t.port);
            var p, to := PhaseOf(s', t), own[|own| - 1];
            && p.Found? && p.draft.isReply && Has(s.reg, p.slot, to.ep)
            && p.draft.want == to.ep && p.draft.replyTid == to.tid && p.draft.proc == to.proc
            && Unanswered(s'.past.log, d, t.port) == own[..|own| - 1]
    ensures forall e: nat, u: nat :: (e, u) != (d, t.port) ==>
              Unanswered(s'.past.log, e, u) == Unanswered(s.past.log, e, u)
  {
    hide Unanswered, Outstanding, Within, Calls.Proper, Calls.Owes, Calls.Taken;
    assert Agrees(s.opens[d].tab, s.past.log, d);
    var v := Answered(d, t, Debtor(s, d, t));
    OneMore(s.past.log, v, d, t.port);
    forall e: nat, u: nat | (e, u) != (d, t.port)
      ensures Unanswered(s'.past.log, e, u) == Unanswered(s.past.log, e, u)
    {
      OneMore(s.past.log, v, e, u);
    }
  }

  /** A call is recorded exactly if fewer calls than the table holds are outstanding. */
  lemma RecordedExactly(s: Sys, s': Sys, t: Thread, k: nat)
    requires Routed(s) && Next(s, s', Collect(t, k)) && !s.reg.q[k].isReply && !s.reg.q[k].oneWay
    requires var d := PhaseOf(s, t).d; Within(s.past.log, d)
    ensures var d := PhaseOf(s, t).d;
            Calls.Owes(s'.opens[d].tab, t.port) ==
              Calls.Owes(s.opens[d].tab, t.port)
                + if Outstanding(s.past.log, d) < Calls.MAX_CALLS then [OwedBy(s.reg.q[k])] else []
  {
    hide Unanswered, Outstanding, Within, Calls.Owes, Calls.Notes, Calls.Used;
    var d := PhaseOf(s, t).d;
    var tab := s.opens[d].tab;
    assert Agrees(tab, s.past.log, d);
    Calls.NotesKeeps(tab, s'.opens[d].tab, t.port, OwedBy(s.reg.q[k]));
    Calls.FullExactly(tab);
  }
}
