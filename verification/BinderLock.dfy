/** What the lock a process keeps over its opens of the device forbids. */
module BinderLock {
  import opened BinderRegistry
  import opened BinderSystem
  import opened BinderRuns

  /** A thread here is inside an ioctl that has not let go of its process's lock.  A read lets go of it to wait,
      and only while it has nothing to hand over. */
  predicate Holds(p: Phase) {
    || p.Found? || p.Posted? || p.Refused? || p.Crowded?
    || (p.Reading? && p.got) || p.Draining? || p.Checking? || p.Poking?
  }

  /** No thread of process proc holds its lock, but perhaps t. */
  ghost predicate Free(s: Sys, proc: nat, t: Thread) {
    forall u :: u in s.ph && u.proc == proc && u != t ==> !Holds(s.ph[u])
  }

  /** No thread of process proc holds its lock. */
  ghost predicate Unheld(s: Sys, proc: nat) {
    forall u :: u in s.ph && u.proc == proc ==> !Holds(s.ph[u])
  }

  /** The lock lets step a be taken.  Registering, telling the registry of a close, and what happens to a process
      or a fifo from outside need no lock.  Adopting a descriptor and poking an endpoint's own fifo are done by
      a thread that has the lock already, or takes it for that. */
  ghost predicate Allowed(s: Sys, a: Step) {
    && (a.MakeFifo? && a.id in s.fifos.unmade ==> Unheld(s, s.fifos.unmade[a.id].proc))
    && (a.Manage? && a.d in s.opens ==> Unheld(s, s.opens[a.d].proc))
    && (a.ReplyLost? || a.Export? || a.Drain? ==> Free(s, a.t.proc, a.t))
    && (!Unmoving(a) && !a.Close? && !a.CloseGone? ==> Free(s, a.t.proc, a.t))
  }

  /** A run in which every process keeps its lock. */
  ghost predicate Exclusive(ss: seq<Sys>, run: seq<Step>) {
    Run(ss, run) && forall i :: 0 <= i < |run| ==> Allowed(ss[i], run[i])
  }

  /** At most one thread of each process holds its lock. */
  ghost predicate OneEach(s: Sys) {
    forall t, u :: t in s.ph && u in s.ph && t.proc == u.proc && Holds(s.ph[t]) && Holds(s.ph[u]) ==> t == u
  }

  lemma OneEachKept(s: Sys, s': Sys, a: Step)
    requires OneEach(s) && Next(s, s', a) && Allowed(s, a)
    ensures OneEach(s')
  {
    hide Next;
    Untouched(s, s', a);
  }

  /** So no two threads of a process are ever inside it at once. */
  lemma {:induction false} OneHolder(ss: seq<Sys>, run: seq<Step>, i: nat)
    requires Exclusive(ss, run) && i < |ss|
    ensures OneEach(ss[i])
  {
    hide Next, Allowed;
    if i > 0 {
      OneHolder(ss, run, i - 1);
      OneEachKept(ss[i - 1], ss[i], run[i - 1]);
    }
  }

  /** With the lock, a waiting reply can be collected by none but the thread it is owed to, if and only if no other
      thread whose process leaves it the lock is reading the endpoint under that thread's port name. */
  lemma OnlyOwedCollectsLocked(ss: seq<Sys>, run: seq<Step>, i: nat, id: nat, k: nat)
    requires Exclusive(ss, run) && i < |ss| && WaitingAt(ss[i].reg, id, k)
    requires ss[i].reg.q[k].isReply && ss[i].reg.q[k].replyTid != 0
    ensures var s, owed := ss[i], OwedThread(ss[i].reg.q[k]);
            (forall u, s' :: Next(s, s', Collect(u, k)) && Allowed(s, Collect(u, k)) ==> u == owed) <==>
              (forall u :: Listens(s, u, id) && u.port == owed.port && Free(s, u.proc, u) ==> u == owed)
  {
    hide Next;
    var s, owed := ss[i], OwedThread(ss[i].reg.q[k]);
    forall u
      ensures Listens(s, u, id) && u.port == owed.port <==> exists s' :: Next(s, s', Collect(u, k))
    {
      CollectsExactly(s, u, id, k);
    }
  }
}
