/** The calls an endpoint is in the middle of answering: one table for all of its
    threads, in which each thread's entries are a stack.
 */
module BinderCalls {

  const MAX_CALLS := 64

  /** One slot: the answering thread (0 when free), the endpoint and thread that called, and
      when the call was noted.  `proc` is the process the calling thread is in, which the
      source does not keep. */
  datatype Call = Call(tid: nat, senderEp: nat, senderTid: nat, proc: nat, depth: nat)

  /** Who is owed a reply. */
  datatype Owed = Owed(ep: nat, tid: nat, proc: nat)

  const FREE := Call(0, 0, 0, 0, 0)

  function OwedFor(c: Call): Owed {
    Owed(c.senderEp, c.senderTid, c.proc)
  }

  /** Which slots each thread's calls are in, oldest first. */
  type Slots = map<nat, seq<nat>>

  ghost function SlotsOf(slots: Slots, t: nat): seq<nat> {
    if t in slots then slots[t] else []
  }

  /** The slots of one thread hold its calls, in the order they were noted. */
  ghost predicate InOrder(cs: seq<Call>, own: seq<nat>, t: nat, last: nat) {
    && (forall k :: 0 <= k < |own| ==> own[k] < |cs| && cs[own[k]].tid == t && cs[own[k]].depth <= last)
    && (forall k, l :: 0 <= k < l < |own| ==> cs[own[k]].depth < cs[own[l]].depth)
  }

  ghost predicate Table(cs: seq<Call>, slots: Slots, last: nat) {
    && SlotsOf(slots, 0) == []
    && (forall t :: InOrder(cs, SlotsOf(slots, t), t, last))
    && (forall i :: 0 <= i < |cs| && cs[i].tid != 0 ==> i in SlotsOf(slots, cs[i].tid))
  }

  /** The replies thread t owes, the innermost last. */
  ghost function Debts(cs: seq<Call>, own: seq<nat>): (d: seq<Owed>)
    ensures |d| == |own|
  {
    seq(|own|, k requires 0 <= k < |own| =>
      if own[k] < |cs| then OwedFor(cs[own[k]]) else Owed(0, 0, 0))
  }

  /** A slot that is not one thread's can be rewritten under it. */
  lemma OthersKeep(cs: seq<Call>, own: seq<nat>, t: nat, last: nat, i: nat, c: Call, last': nat)
    requires InOrder(cs, own, t, last) && i < |cs| && i !in own && last <= last'
    ensures InOrder(cs[i := c], own, t, last') && Debts(cs[i := c], own) == Debts(cs, own)
  {
  }

  /** What filling the free slot i leaves of thread t's earlier calls. */
  lemma PushAt(cs: seq<Call>, slots: Slots, last: nat, i: nat, c: Call, t: nat)
    requires Table(cs, slots, last) && i < |cs| && cs[i].tid == 0
    ensures var own := SlotsOf(slots, t);
            && i !in own && InOrder(cs, own, t, last) && InOrder(cs[i := c], own, t, last + 1)
            && Debts(cs[i := c], own) == Debts(cs, own)
  {
    hide InOrder, Debts;
    assert InOrder(cs, SlotsOf(slots, t), t, last);
    if t != 0 {
      SlotIsNotOthers(cs, SlotsOf(slots, t), t, last, i);
    }
    OthersKeep(cs, SlotsOf(slots, t), t, last, i, c, last + 1);
  }

  lemma PushKeeps(cs: seq<Call>, slots: Slots, last: nat, i: nat, c: Call)
    requires Table(cs, slots, last) && i < |cs| && cs[i].tid == 0 && c.tid != 0 && c.depth == last + 1
    ensures var own := SlotsOf(slots, c.tid);
            var slots' := slots[c.tid := own + [i]];
            && Table(cs[i := c], slots', last + 1)
            && Debts(cs[i := c], own + [i]) == Debts(cs, own) + [OwedFor(c)]
            && (forall t :: t != c.tid ==> Debts(cs[i := c], SlotsOf(slots', t)) == Debts(cs, SlotsOf(slots, t)))
  {
    hide InOrder, Debts;
    var own := SlotsOf(slots, c.tid);
    var slots' := slots[c.tid := own + [i]];
    PushAt(cs, slots, last, i, c, c.tid);
    Extend(cs, own, last, i, c);
    forall t: nat | t != c.tid
      ensures InOrder(cs[i := c], SlotsOf(slots', t), t, last + 1)
      ensures Debts(cs[i := c], SlotsOf(slots', t)) == Debts(cs, SlotsOf(slots, t))
    {
      PushAt(cs, slots, last, i, c, t);
      assert SlotsOf(slots', t) == SlotsOf(slots, t);
    }
    NowListed(cs, slots, last, i, c);
  }

  /** Every call, old and new, is in its thread's list. */
  lemma NowListed(cs: seq<Call>, slots: Slots, last: nat, i: nat, c: Call)
    requires Table(cs, slots, last) && i < |cs|
    ensures var slots', cs' := slots[c.tid := SlotsOf(slots, c.tid) + [i]], cs[i := c];
            forall j :: 0 <= j < |cs'| && cs'[j].tid != 0 ==> j in SlotsOf(slots', cs'[j].tid)
  {
    hide InOrder;
  }

  lemma Extend(cs: seq<Call>, own: seq<nat>, last: nat, i: nat, c: Call)
    requires InOrder(cs, own, c.tid, last) && i < |cs| && i !in own && c.depth == last + 1
    ensures InOrder(cs[i := c], own + [i], c.tid, last + 1)
    ensures Debts(cs[i := c], own + [i]) == Debts(cs, own) + [OwedFor(c)]
  {
  }

  /** The deepest call of a thread is the last in its list. */
  lemma DeepestIsLast(cs: seq<Call>, slots: Slots, last: nat, me: nat, best: nat)
    requires Table(cs, slots, last) && me != 0 && best < |cs| && cs[best].tid == me
    requires forall j :: 0 <= j < |cs| && cs[j].tid == me ==> cs[j].depth <= cs[best].depth
    ensures var own := SlotsOf(slots, me); own != [] && own[|own| - 1] == best
  {
    var own := SlotsOf(slots, me);
    assert InOrder(cs, own, me, last);
    var k :| 0 <= k < |own| && own[k] == best;
    assert forall l :: 0 <= l < |own| - 1 ==> cs[own[l]].depth < cs[own[|own| - 1]].depth;
  }

  /** What clearing the last slot of `me` leaves of thread t. */
  lemma PopAt(cs: seq<Call>, slots: Slots, last: nat, me: nat, t: nat)
    requires Table(cs, slots, last) && me != 0 && SlotsOf(slots, me) != []
    ensures var own := SlotsOf(slots, me);
            var best, rest := own[|own| - 1], SlotsOf(slots[me := own[..|own| - 1]], t);
            var cs' := if best < |cs| then cs[best := FREE] else cs;
            best < |cs| && InOrder(cs', rest, t, last) && Debts(cs', rest) == Debts(cs, rest)
  {
    hide InOrder, Debts;
    var own := SlotsOf(slots, me);
    var best, rest := own[|own| - 1], SlotsOf(slots[me := own[..|own| - 1]], t);
    assert InOrder(cs, own, me, last) && InOrder(cs, SlotsOf(slots, t), t, last);
    SlotIsOwn(cs, own, me, last, best);
    if t == me {
      Prefix(cs, own, me, last);
    } else {
      SlotIsNotOthers(cs, SlotsOf(slots, t), t, last, best);
    }
    OthersKeep(cs, rest, t, last, best, FREE, last);
  }

  lemma SlotIsOwn(cs: seq<Call>, own: seq<nat>, t: nat, last: nat, i: nat)
    requires InOrder(cs, own, t, last) && i in own
    ensures i < |cs| && cs[i].tid == t
  {
  }

  lemma SlotIsNotOthers(cs: seq<Call>, own: seq<nat>, t: nat, last: nat, i: nat)
    requires InOrder(cs, own, t, last) && i < |cs| && cs[i].tid != t
    ensures i !in own
  {
  }

  lemma PopKeeps(cs: seq<Call>, slots: Slots, last: nat, me: nat)
    requires Table(cs, slots, last) && me != 0 && SlotsOf(slots, me) != []
    ensures var own := SlotsOf(slots, me);
            var n, best := |own| - 1, own[|own| - 1];
            var slots', free := slots[me := own[..n]], FREE;
            && best < |cs| && Table(cs[best := free], slots', last)
            && Debts(cs[best := free], own[..n]) == Debts(cs, own)[..n]
            && Debts(cs, own)[n] == OwedFor(cs[best])
            && (forall t :: t != me ==> Debts(cs[best := free], SlotsOf(slots', t)) == Debts(cs, SlotsOf(slots, t)))
  {
    hide InOrder, Debts;
    var own := SlotsOf(slots, me);
    var n, best := |own| - 1, own[|own| - 1];
    var slots', free := slots[me := own[..n]], FREE;
    PopAt(cs, slots, last, me, me);
    DebtsSplit(cs, own);
    forall t: nat
      ensures InOrder(cs[best := free], SlotsOf(slots', t), t, last)
      ensures Debts(cs[best := free], SlotsOf(slots', t)) == Debts(cs, SlotsOf(slots', t))
    {
      PopAt(cs, slots, last, me, t);
    }
    StillListed(cs, slots, last, me);
    assert SlotsOf(slots', 0) == [];
    assert forall t :: t != me ==> SlotsOf(slots', t) == SlotsOf(slots, t);
  }

  /** Every other call stays in its thread's list. */
  lemma StillListed(cs: seq<Call>, slots: Slots, last: nat, me: nat)
    requires Table(cs, slots, last) && me != 0 && SlotsOf(slots, me) != []
    ensures var own := SlotsOf(slots, me);
            var n, best := |own| - 1, own[|own| - 1];
            forall j :: 0 <= j < |cs| && j != best && cs[j].tid != 0 ==> j in SlotsOf(slots[me := own[..n]], cs[j].tid)
  {
    hide InOrder;
    var own := SlotsOf(slots, me);
    var n := |own| - 1;
    forall j | 0 <= j < |cs| && j != own[n] && cs[j].tid == me
      ensures j in own[..n]
    {
      var k :| 0 <= k < |own| && own[k] == j;
      assert own[..n][k] == j;
    }
  }

  lemma DebtsSplit(cs: seq<Call>, own: seq<nat>)
    requires own != [] && own[|own| - 1] < |cs|
    ensures var n := |own| - 1;
            Debts(cs, own[..n]) == Debts(cs, own)[..n] && |Debts(cs, own)| == n + 1
            && Debts(cs, own)[n] == OwedFor(cs[own[n]])
  {
  }

  /** A thread with debts has a slot. */
  lemma DebtorHasSlot(cs: seq<Call>, slots: Slots, last: nat, me: nat)
    requires Table(cs, slots, last)
    ensures SlotsOf(slots, me) != [] ==> exists j :: 0 <= j < |cs| && cs[j].tid == me
  {
    var own := SlotsOf(slots, me);
    assert InOrder(cs, own, me, last);
    if own != [] {
      assert cs[own[0]].tid == me;
    }
  }

  lemma Prefix(cs: seq<Call>, own: seq<nat>, t: nat, last: nat)
    requires InOrder(cs, own, t, last) && own != []
    ensures InOrder(cs, own[..|own| - 1], t, last) && own[|own| - 1] !in own[..|own| - 1]
  {
    var n := |own| - 1;
    assert forall k :: 0 <= k < n ==> own[..n][k] == own[k] && cs[own[k]].depth < cs[own[n]].depth;
  }

  // ---- the two operations on the whole table ----

  /** The slots, which of them are whose, and the last depth given out. */
  datatype Tab = Tab(cs: seq<Call>, slots: Slots, last: nat)

  ghost predicate Proper(t: Tab) {
    |t.cs| == MAX_CALLS && Table(t.cs, t.slots, t.last)
  }

  /** The replies thread `me` owes, the innermost last. */
  ghost function Owes(t: Tab, me: nat): seq<Owed> {
    Debts(t.cs, SlotsOf(t.slots, me))
  }

  predicate FirstFree(cs: seq<Call>, i: nat) {
    i < |cs| && cs[i].tid == 0 && forall j :: 0 <= j < i ==> cs[j].tid != 0
  }

  predicate Full(cs: seq<Call>) {
    forall i :: 0 <= i < |cs| ==> cs[i].tid != 0
  }

  /** t' is t with one more call noted in slot i. */
  ghost predicate NotedAt(t: Tab, t': Tab, me: nat, o: Owed, i: nat) {
    && FirstFree(t.cs, i)
    && t' == Tab(t.cs[i := Call(me, o.ep, o.tid, o.proc, t.last + 1)], t.slots[me := SlotsOf(t.slots, me) + [i]],
                 t.last + 1)
  }

  /** call_note: thread `me` is now answering a call from o, if a slot is left to say so. */
  ghost predicate Notes(t: Tab, t': Tab, me: nat, o: Owed) {
    if Full(t.cs) then t' == t else exists i: nat :: NotedAt(t, t', me, o, i)
  }

  /** call_take: the innermost call of thread `me` is answered and forgotten. */
  ghost function Taken(t: Tab, me: nat): Tab {
    var own := SlotsOf(t.slots, me);
    if own == [] || own[|own| - 1] >= |t.cs| then t
    else Tab(t.cs[own[|own| - 1] := FREE], t.slots[me := own[..|own| - 1]], t.last)
  }

  /** Whatever table there is, noting a call does something to it. */
  lemma CanNote(t: Tab, me: nat, o: Owed) returns (t': Tab)
    ensures Notes(t, t', me, o)
  {
    t' := t;
    if !Full(t.cs) {
      var i: nat := 0;
      while t.cs[i].tid != 0
        invariant i < |t.cs| && forall j :: 0 <= j < i ==> t.cs[j].tid != 0
        decreases |t.cs| - i
      {
        i := i + 1;
      }
      t' := Tab(t.cs[i := Call(me, o.ep, o.tid, o.proc, t.last + 1)], t.slots[me := SlotsOf(t.slots, me) + [i]],
                t.last + 1);
      assert NotedAt(t, t', me, o, i);
    }
  }

  lemma NotesKeeps(t: Tab, t': Tab, me: nat, o: Owed)
    requires Proper(t) && me != 0 && Notes(t, t', me, o)
    ensures Proper(t')
    ensures Owes(t', me) == if Full(t.cs) then Owes(t, me) else Owes(t, me) + [o]
    ensures forall u :: u != me ==> Owes(t', u) == Owes(t, u)
  {
    hide Table, Debts;
    if !Full(t.cs) {
      var i: nat :| NotedAt(t, t', me, o, i);
      PushKeeps(t.cs, t.slots, t.last, i, Call(me, o.ep, o.tid, o.proc, t.last + 1));
    }
  }

  lemma TakenKeeps(t: Tab, me: nat)
    requires Proper(t) && me != 0
    ensures Proper(Taken(t, me))
    ensures Owes(Taken(t, me), me) == if Owes(t, me) == [] then [] else Owes(t, me)[..|Owes(t, me)| - 1]
    ensures forall u :: u != me ==> Owes(Taken(t, me), u) == Owes(t, u)
  {
    hide Table, Debts;
    if SlotsOf(t.slots, me) != [] {
      PopKeeps(t.cs, t.slots, t.last, me);
    }
  }

  // ---- how many calls there are ----

  /** The slots that are taken. */
  ghost function Used(cs: seq<Call>): set<nat> {
    set i: nat | i < |cs| && cs[i].tid != 0
  }

  /** How many replies are owed, by all threads together. */
  ghost function Total(slots: Slots): nat
    decreases |slots|
  {
    if slots == map[] then 0
    else
      var t :| t in slots;
      |slots[t]| + Total(slots - {t})
  }

  ghost function Elements(own: seq<nat>): set<nat> {
    set i | i in own
  }

  /** The slots of these threads. */
  ghost function AllSlots(slots: Slots): set<nat> {
    set t, i | t in slots && i in slots[t] :: i
  }

  lemma {:induction false} ElementsSize(own: seq<nat>)
    requires forall k, l :: 0 <= k < l < |own| ==> own[k] != own[l]
    ensures |Elements(own)| == |own|
  {
    if own != [] {
      var n := |own| - 1;
      ElementsSize(own[..n]);
      assert Elements(own) == Elements(own[..n]) + {own[n]};
    }
  }

  /** No slot is in two places. */
  ghost predicate Scattered(slots: Slots) {
    && (forall t :: t in slots ==> forall k, l :: 0 <= k < l < |slots[t]| ==> slots[t][k] != slots[t][l])
    && (forall t, u, i :: t in slots && u in slots && t != u && i in slots[t] ==> i !in slots[u])
  }

  lemma {:induction false} TotalIsSize(slots: Slots)
    requires Scattered(slots)
    ensures Total(slots) == |AllSlots(slots)|
    decreases |slots|
  {
    if slots == map[] {
      assert AllSlots(slots) == {};
    } else {
      var t :| t in slots && Total(slots) == |slots[t]| + Total(slots - {t});
      var rest := slots - {t};
      TotalIsSize(rest);
      ElementsSize(slots[t]);
      SlotsSplit(slots, t);
    }
  }

  lemma SlotsSplit(slots: Slots, t: nat)
    requires Scattered(slots) && t in slots
    ensures AllSlots(slots) == Elements(slots[t]) + AllSlots(slots - {t})
    ensures Elements(slots[t]) !! AllSlots(slots - {t})
  {
    var rest := slots - {t};
    forall i | i in AllSlots(slots)
      ensures i in Elements(slots[t]) + AllSlots(rest)
    {
      var u :| u in slots && i in slots[u];
      assert u != t ==> u in rest && i in rest[u];
    }
    forall i | i in AllSlots(rest)
      ensures i in AllSlots(slots) && i !in slots[t]
    {
      var u :| u in rest && i in rest[u];
      assert u in slots && i in slots[u] && u != t;
    }
  }

  lemma ProperScatters(t: Tab)
    requires Proper(t)
    ensures Scattered(t.slots) && AllSlots(t.slots) == Used(t.cs)
  {
    forall u | u in t.slots
      ensures InOrder(t.cs, t.slots[u], u, t.last)
    {
      assert SlotsOf(t.slots, u) == t.slots[u];
    }
    hide Debts;
    forall i | i in AllSlots(t.slots)
      ensures i in Used(t.cs)
    {
      var u :| u in t.slots && i in t.slots[u];
      assert SlotsOf(t.slots, 0) == [];
    }
    forall i | i in Used(t.cs)
      ensures i in AllSlots(t.slots)
    {
      assert i in SlotsOf(t.slots, t.cs[i].tid);
    }
  }

  /** The table is full exactly if 64 replies are owed. */
  lemma FullExactly(t: Tab)
    requires Proper(t)
    ensures Total(t.slots) == |Used(t.cs)| <= MAX_CALLS
    ensures Full(t.cs) <==> Total(t.slots) == MAX_CALLS
  {
    ProperScatters(t);
    TotalIsSize(t.slots);
    UsedSize(t.cs);
  }

  lemma UsedSize(cs: seq<Call>)
    ensures |Used(cs)| <= |cs| && (Full(cs) <==> |Used(cs)| == |cs|)
  {
    var all := Indices(|cs|);
    SubsetSize(Used(cs), all);
    if Full(cs) {
      assert Used(cs) == all;
    } else {
      var i :| 0 <= i < |cs| && cs[i].tid == 0;
      assert i in all && i !in Used(cs);
    }
  }

  ghost function Indices(n: nat): (s: set<nat>)
    ensures |s| == n && forall i: nat :: i in s <==> i < n
  {
    if n == 0 then {} else Indices(n - 1) + {n - 1}
  }

  lemma {:induction false} SubsetSize(a: set<nat>, b: set<nat>)
    requires a <= b
    ensures |a| <= |b| && (|a| == |b| ==> a == b)
    decreases |a|
  {
    if a != {} {
      var x :| x in a;
      SubsetSize(a - {x}, b - {x});
      assert a == (a - {x}) + {x} && b == (b - {x}) + {x};
    }
  }

  /** Noting takes one slot more, and taking gives one back. */
  lemma NoteCounts(t: Tab, t': Tab, me: nat, o: Owed)
    requires Proper(t) && me != 0 && Notes(t, t', me, o) && |Used(t.cs)| < MAX_CALLS
    ensures |Used(t'.cs)| == |Used(t.cs)| + 1 && !Full(t.cs)
  {
    hide Table;
    UsedSize(t.cs);
    var i: nat :| NotedAt(t, t', me, o, i);
    assert Used(t'.cs) == Used(t.cs) + {i};
  }

  lemma TakeCounts(t: Tab, me: nat)
    requires Proper(t) && me != 0
    ensures |Used(Taken(t, me).cs)| == |Used(t.cs)| - if Owes(t, me) == [] then 0 else 1
  {
    hide Debts;
    var own := SlotsOf(t.slots, me);
    if own != [] {
      var best := own[|own| - 1];
      assert InOrder(t.cs, own, me, t.last);
      assert best in Used(t.cs);
      hide Table, InOrder;
      assert Used(Taken(t, me).cs) == Used(t.cs) - {best};
    }
  }

  class Calls {
    const calls: array<Call>
    var callSeq: nat
    ghost var slots: Slots

    ghost function T(): Tab
      reads this, calls
    {
      Tab(calls[..], slots, callSeq)
    }

    ghost predicate Valid()
      reads this, calls
    {
      Proper(T())
    }

    constructor ()
      ensures Valid() && fresh(calls) && T() == Tab(seq(MAX_CALLS, _ => FREE), map[], 0)
    {
      calls := new Call[MAX_CALLS](_ => FREE);
      callSeq := 0;
      slots := map[];
      new;
      assert calls[..] == seq(MAX_CALLS, _ => FREE);
    }

    /** call_note: thread `me` now owes one more reply.  With all slots taken the debt
        is not recorded. */
    method Note(me: nat, sender: nat, senderTid: nat, proc: nat)
      requires Valid() && me != 0
      modifies this, calls
      ensures Valid() && Notes(old(T()), T(), me, Owed(sender, senderTid, proc))
      ensures Owes(T(), me) == old(Owes(T(), me)) + if old(Total(slots)) == MAX_CALLS then []
              else [Owed(sender, senderTid, proc)]
      ensures forall t :: t != me ==> Owes(T(), t) == old(Owes(T(), t))
    {
      hide Proper, Debts, Total;
      ghost var t := T();
      FullExactly(t);
      var i := 0;
      while i < calls.Length && calls[i].tid != 0
        invariant 0 <= i <= calls.Length && forall j :: 0 <= j < i ==> calls[j].tid != 0
        modifies {}
      {
        i := i + 1;
      }
      if i < calls.Length {
        callSeq := callSeq + 1;
        calls[i] := Call(me, sender, senderTid, proc, callSeq);
        slots := slots[me := SlotsOf(slots, me) + [i]];
        assert calls[..] == t.cs[i := Call(me, sender, senderTid, proc, callSeq)];
        assert NotedAt(t, T(), me, Owed(sender, senderTid, proc), i);
      }
      NotesKeeps(t, T(), me, Owed(sender, senderTid, proc));
    }

    /** call_take: the innermost call of thread `me` is answered and forgotten. */
    method Take(me: nat) returns (sender: nat, senderTid: nat, proc: nat)
      requires Valid() && me != 0
      modifies this, calls
      ensures Valid() && T() == Taken(old(T()), me)
      ensures var was := old(Owes(T(), me));
              if was == [] then sender == 0 && senderTid == 0 && Owes(T(), me) == []
              else Owed(sender, senderTid, proc) == was[|was| - 1] && Owes(T(), me) == was[..|was| - 1]
      ensures forall t :: t != me ==> Owes(T(), t) == old(Owes(T(), t))
    {
      hide Table, Debts;
      ghost var t := T();
      TakenKeeps(t, me);
      var best := Deepest(me);
      if best < 0 {
        return 0, 0, 0;
      }
      sender, senderTid, proc := calls[best].senderEp, calls[best].senderTid, calls[best].proc;
      ghost var own := SlotsOf(slots, me);
      DebtsSplit(t.cs, own);
      calls[best] := FREE;
      slots := slots[me := own[..|own| - 1]];
      assert calls[..] == t.cs[best := FREE];
    }

    method Deepest(me: nat) returns (best: int)
      requires Valid() && me != 0
      ensures best < 0 <==> SlotsOf(slots, me) == []
      ensures best >= 0 ==> best < calls.Length && best == SlotsOf(slots, me)[|SlotsOf(slots, me)| - 1]
    {
      hide Table, Debts;
      best := -1;
      var i := 0;
      while i < calls.Length
        invariant 0 <= i <= calls.Length && -1 <= best < i
        invariant best >= 0 ==> calls[best].tid == me
        invariant forall j :: 0 <= j < i && calls[j].tid == me ==> best >= 0 && calls[j].depth <= calls[best].depth
      {
        if calls[i].tid == me && (best < 0 || calls[i].depth > calls[best].depth) {
          best := i;
        }
        i := i + 1;
      }
      if best < 0 {
        DebtorHasSlot(calls[..], slots, callSeq, me);
      } else {
        DeepestIsLast(calls[..], slots, callSeq, me, best);
      }
    }
  }
}
