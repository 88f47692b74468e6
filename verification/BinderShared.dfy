/** The shared registry in place: the loops each locked section runs over it. */
module BinderShared {
  import opened BinderRegistry
  import opened BinderArena
  import opened Basics
  import Nodes = BinderNodes

  /** A pass by thread `me` over places lo..hi: what is collected, and what is left. */
  function Pass(q: seq<Msg>, lo: nat, hi: nat, me: nat): (r: (seq<Msg>, seq<Msg>))
    requires lo <= hi <= |q|
    ensures |r.1| == |q|
  {
    if lo == hi then ([], q)
    else
      var (got, left) := Pass(q, lo, hi - 1, me);
      if Eligible(left[hi - 1], me) then (got + [left[hi - 1]], left[hi - 1 := left[hi - 1].(used := false)])
      else (got, left)
  }

  /** A pass takes exactly the messages its thread may take, in the order of their places. */
  lemma {:induction false} PassExact(q: seq<Msg>, lo: nat, hi: nat, me: nat, k: nat)
    requires lo <= hi <= |q| && k < |q|
    ensures var (got, left) := Pass(q, lo, hi, me);
            && |got| <= hi - lo
            && if lo <= k < hi && q[k].used && (!q[k].isReply || q[k].replyTid == 0 || q[k].replyTid == me) then
                 q[k] in got && left[k] == q[k].(used := false)
               else left[k] == q[k]
    decreases hi - lo
  {
    if lo < hi {
      PassExact(q, lo, hi - 1, me, k);
      PassExact(q, lo, hi - 1, me, hi - 1);
    }
  }

  /** Every message of slot s has been collected, but for the replies owed to threads other than `me`; those, and
      every place of every other slot, are as they were. */
  ghost predicate Swept(was: seq<Msg>, now: seq<Msg>, s: nat, me: nat, got: seq<Msg>) {
    && |now| == |was|
    && forall k :: 0 <= k < |was| ==>
         if SlotOf(k) == s && was[k].used && !(was[k].isReply && was[k].replyTid !in {0, me}) then
           was[k] in got && now[k] == was[k].(used := false)
         else now[k] == was[k]
  }

  lemma WholePass(q: seq<Msg>, s: nat, me: nat)
    requires (s + 1) * MSG_MAX <= |q|
    ensures var (got, left) := Pass(q, s * MSG_MAX, (s + 1) * MSG_MAX, me); Swept(q, left, s, me, got)
  {
    hide Pass;
    var (got, left) := Pass(q, s * MSG_MAX, (s + 1) * MSG_MAX, me);
    forall k | 0 <= k < |q|
      ensures if SlotOf(k) == s && q[k].used && !(q[k].isReply && q[k].replyTid !in {0, me}) then
                q[k] in got && left[k] == q[k].(used := false)
              else left[k] == q[k]
    {
      PassExact(q, s * MSG_MAX, (s + 1) * MSG_MAX, me, k);
      InSlot(k, s);
    }
  }

  lemma InSlot(k: nat, s: nat)
    ensures SlotOf(k) == s <==> s * MSG_MAX <= k < (s + 1) * MSG_MAX
  {
  }

  /** got collected one at a time by thread `me` of endpoint id takes r to r'. */
  ghost predicate Collecting(r: Reg, r': Reg, id: nat, me: nat, got: seq<Msg>)
    decreases |got|
  {
    if got == [] then r' == r
    else
      var n := |got| - 1;
      exists k: nat, mid: Reg :: Collecting(r, mid, id, me, got[..n]) && Last(mid, r', k, id, me, got[n])
  }

  ghost predicate Last(mid: Reg, r': Reg, k: nat, id: nat, me: nat, m: Msg) {
    Collects(mid, r', k, id, me) && mid.q[k] == m
  }

  lemma CollectsMore(r: Reg, mid: Reg, r': Reg, k: nat, id: nat, me: nat, got: seq<Msg>, m: Msg)
    requires Collecting(r, mid, id, me, got) && Last(mid, r', k, id, me, m)
    ensures Collecting(r, r', id, me, got + [m])
  {
    hide Last;
    var more := got + [m];
    assert more[..|more| - 1] == got;
    assert Collecting(r, mid, id, me, more[..|more| - 1]) && Last(mid, r', k, id, me, more[|more| - 1]);
  }

  /** A pass is so many single collections. */
  lemma {:induction false} PassCollects(r: Reg, s: nat, hi: nat, me: nat)
    requires s < |r.ep| && r.ep[s].used && s * MSG_MAX <= hi <= (s + 1) * MSG_MAX && hi <= |r.q|
    ensures var (got, left) := Pass(r.q, s * MSG_MAX, hi, me); Collecting(r, r.(q := left), r.ep[s].id, me, got)
    decreases hi
  {
    if s * MSG_MAX < hi {
      PassCollects(r, s, hi - 1, me);
      var (got, left) := Pass(r.q, s * MSG_MAX, hi - 1, me);
      var m := left[hi - 1];
      if Eligible(m, me) {
        assert SlotOf(hi - 1) == s;
        hide Pass, Collecting;
        CollectsMore(r, r.(q := left), r.(q := left[hi - 1 := m.(used := false)]), hi - 1, r.ep[s].id, me, got, m);
      }
    }
  }

  lemma Sizes(r: Reg)
    requires Inv(r)
    ensures Shaped(r)
  {
  }

  lemma OneSlot(r: Reg, s: nat)
    requires Inv(r) && s < |r.ep| && r.ep[s].used
    ensures forall i :: 0 <= i < |r.ep| && r.ep[i].used && r.ep[i].id == r.ep[s].id ==> i == s
  {
    hide NumbersDistinct, OneManager;
  }

  /** What is asked of the arena for a message: never nothing. */
  function Want(m: Msg): (n: nat)
    ensures n > 0
  {
    if m.total > 0 then m.total else 8
  }

  /** The arena cannot take m now. */
  ghost predicate NoPlace(arena: Arena, m: Msg)
    reads arena, arena.allocs
  {
    arena.NoRoom(Align8(Want(m))) || arena.NoRecord()
  }

  /** Each message has an allocation of its own: record rec[i], at address at[i]. */
  ghost predicate Housed(arena: Arena, got: seq<Msg>, at: seq<nat>, rec: seq<nat>)
    reads arena.allocs
  {
    && |got| == |at| == |rec|
    && (forall i :: 0 <= i < |rec| ==>
          rec[i] < arena.allocs.Length
            && arena.allocs[rec[i]] == Alloc(at[i], Align8(if got[i].total > 0 then got[i].total else 8), true))
    && (forall i, j :: 0 <= i < j < |rec| ==> rec[i] != rec[j])
  }

  /** Some buffer is out that the host does not have mapped. */
  ghost predicate Unmapped(arena: Arena, host: nat -> bool)
    reads arena.allocs
  {
    exists k :: 0 <= k < arena.allocs.Length && arena.allocs[k].live && !host(arena.allocs[k].addr)
  }

  class Shared {
    const ep: array<Ep>
    const q: array<Msg>
    var nextId: nat
    var nextSeq: nat

    ghost function State(): Reg
      reads this, ep, q
    {
      Reg(ep[..], q[..], nextId, nextSeq)
    }

    ghost predicate Valid()
      reads this, ep, q
    {
      Inv(State())
    }

    constructor ()
      ensures Valid() && fresh(ep) && fresh(q) && nextId == 1 && nextSeq == 1
      ensures forall i :: 0 <= i < ep.Length ==> !ep[i].used
    {
      ep := new Ep[MAX_EP](_ => Ep(false, 0, 0, 0, false, ""));
      q := new Msg[MAX_EP * MSG_MAX](_ => NO_MESSAGE);
      nextId, nextSeq := 1, 1;
    }

    /** The slot of a live endpoint, or -1. */
    method Find(id: nat) returns (slot: int)
      requires Valid()
      ensures -1 <= slot < |State().ep|
      ensures slot >= 0 ==> State().ep[slot].used && State().ep[slot].id == id
      ensures slot < 0 ==> forall i :: 0 <= i < |State().ep| ==> !(State().ep[i].used && State().ep[i].id == id)
    {
      slot := 0;
      while slot < ep.Length
        invariant 0 <= slot <= ep.Length
        invariant forall i :: 0 <= i < slot ==> !(ep[i].used && ep[i].id == id)
      {
        if ep[slot].used && ep[slot].id == id {
          return;
        }
        slot := slot + 1;
      }
      slot := -1;
    }

    /** shm_ep_for_handle. */
    method Resolve(t: seq<Nodes.Node>, handle: nat, ctx: string) returns (slot: int)
      requires Valid()
      ensures -1 <= slot < MAX_EP
      ensures slot >= 0 ==> Reaches(State(), t, handle, ctx, slot)
      ensures slot < 0 ==> forall s: nat :: !Reaches(State(), t, handle, ctx, s)
      ensures handle == 0 ==>
                if slot >= 0 then ep[..][slot].used && ep[..][slot].isMgr && ep[..][slot].ctx == ctx
                else forall i :: 0 <= i < ep.Length ==> !(ep[i].used && ep[i].isMgr && ep[i].ctx == ctx)
      ensures handle != 0 && slot >= 0 ==>
                && handle < |t| && t[handle].Node?
                && ep[..][slot].used && ep[..][slot].ctx == ctx && ep[..][slot].id == t[handle].owner
      ensures handle != 0 && slot < 0 && handle < |t| && t[handle].Node? ==>
                forall i :: 0 <= i < ep.Length ==> !(ep[i].used && ep[i].ctx == ctx && ep[i].id == t[handle].owner)
    {
      if handle != 0 && (handle >= |t| || t[handle].Free?) {
        return -1;
      }
      slot := 0;
      while slot < ep.Length
        invariant 0 <= slot <= ep.Length
        invariant forall s: nat :: s < slot ==> !Reaches(State(), t, handle, ctx, s)
        invariant forall i :: 0 <= i < slot ==>
                    !(ep[i].used && ep[i].ctx == ctx
                      && (if handle == 0 then ep[i].isMgr else ep[i].id == t[handle].owner))
      {
        if ep[slot].used && ep[slot].ctx == ctx
          && (if handle == 0 then ep[slot].isMgr else ep[slot].id == t[handle].owner) {
          return;
        }
        slot := slot + 1;
      }
      slot := -1;
    }

    method FirstUnused() returns (slot: int)
      ensures -1 <= slot < ep.Length
      ensures slot >= 0 ==> FirstFree(ep[..], slot)
      ensures slot < 0 <==> AllUsed(ep[..])
    {
      slot := 0;
      while slot < ep.Length
        invariant 0 <= slot <= ep.Length
        invariant forall i :: 0 <= i < slot ==> ep[i].used
      {
        if !ep[slot].used {
          return;
        }
        slot := slot + 1;
      }
      slot := -1;
    }

    /** Slots of processes that are gone are freed; the first of them is returned. */
    method Reap(dead: set<int>) returns (slot: int)
      requires AllUsed(ep[..])
      modifies ep
      ensures ep[..] == Reaped(old(ep[..]), dead)
      ensures -1 <= slot < ep.Length
      ensures slot >= 0 ==> FirstFree(ep[..], slot)
      ensures slot < 0 ==> AllUsed(ep[..]) && ep[..] == old(ep[..])
    {
      slot := -1;
      ghost var was := ep[..];
      var i := 0;
      while i < ep.Length
        invariant 0 <= i <= ep.Length && -1 <= slot < i
        invariant forall j :: 0 <= j < i ==> ep[j] == Reaped(was, dead)[j]
        invariant forall j :: i <= j < ep.Length ==> ep[j] == was[j]
        invariant slot >= 0 ==> !ep[slot].used && forall j :: 0 <= j < slot ==> ep[j].used
        invariant slot < 0 ==> forall j :: 0 <= j < i ==> ep[j] == was[j]
      {
        if ep[i].pid > 0 && ep[i].pid in dead {
          ep[i] := ep[i].(used := false);
          if slot < 0 {
            slot := i;
          }
        }
        i := i + 1;
      }
    }

    /** The places of one slot are emptied. */
    method Empty(s: nat)
      requires s < MAX_EP && q.Length == MAX_EP * MSG_MAX
      modifies q
      ensures Emptied(old(q[..]), q[..], s)
    {
      ghost var was := q[..];
      var j := 0;
      while j < MSG_MAX
        invariant 0 <= j <= MSG_MAX
        invariant forall k :: 0 <= k < q.Length ==>
                    if s * MSG_MAX <= k < s * MSG_MAX + j then !q[k].used else q[k] == was[k]
      {
        q[s * MSG_MAX + j] := NO_MESSAGE;
        j := j + 1;
      }
      assert forall k :: 0 <= k < q.Length ==> (SlotOf(k) == s <==> s * MSG_MAX <= k < s * MSG_MAX + MSG_MAX);
    }

    /** An endpoint of its own for a process, or -1 when every slot belongs to a live one. */
    method Open(pid: int, ctx: string, dead: set<int>) returns (slot: int)
      requires Valid()
      modifies this, ep, q
      ensures Valid()
      ensures slot >= 0 ==> Opens(old(State()), State(), slot, pid, ctx, dead)
      ensures slot < 0 <==> forall e :: e in old(ep[..]) ==> e.used && !(e.pid > 0 && e.pid in dead)
      ensures slot < 0 ==> State() == old(State())
      ensures slot >= 0 ==>
                && slot < ep.Length && ep[slot] == Ep(true, old(nextId), 1, pid, false, ctx)
                && nextId == old(nextId) + 1 && nextSeq == old(nextSeq)
                && forall k :: 0 <= k < q.Length ==> if k / MSG_MAX == slot then !q[k].used else q[k] == old(q[k])
      ensures slot >= 0 ==>
                forall i :: 0 <= i < ep.Length && i != slot ==>
                  || ep[i] == old(ep[i])
                  || (ep[i] == old(ep[i]).(used := false) && ep[i].pid > 0 && ep[i].pid in dead
                      && forall e :: e in old(ep[..]) ==> e.used)
    {
      ghost var was := State();
      slot := FirstUnused();
      if slot < 0 {
        slot := Reap(dead);
      }
      if slot >= 0 {
        assert ep[..] == Available(was.ep, dead);
        Empty(slot);
        ep[slot] := Ep(true, nextId, 1, pid, false, ctx);
        nextId := nextId + 1;
        assert ep[..] == Available(was.ep, dead)[slot := Ep(true, was.nextId, 1, pid, false, ctx)];
        OpensKeeps(was, State(), slot, pid, ctx, dead);
      }
    }

    /** One more descriptor on an endpoint, if it is still there. */
    method Adopt(id: nat) returns (slot: int)
      requires Valid()
      modifies ep
      ensures Valid()
      ensures slot >= 0 ==> Adopts(old(State()), State(), slot) && State().ep[slot].id == id
      ensures slot >= 0 ==> ep[..] == old(ep[..])[slot := old(ep[..])[slot].(refs := old(ep[..])[slot].refs + 1)]
      ensures slot < 0 ==> State() == old(State()) && forall e :: e in ep[..] ==> !(e.used && e.id == id)
    {
      hide Inv;
      ghost var was := State();
      slot := Find(id);
      if slot >= 0 {
        Change(slot, ep[slot].(refs := ep[slot].refs + 1));
      }
    }

    /** A descriptor is closed; `last` says the endpoint went with it. */
    method Close(id: nat) returns (slot: int, last: bool)
      requires Valid()
      modifies ep
      ensures Valid()
      ensures slot >= 0 ==>
                Closes(old(State()), State(), slot) && State().ep[slot].id == id && last == !State().ep[slot].used
      ensures slot >= 0 ==>
                var e := old(ep[..])[slot];
                if e.refs > 1 then !last && ep[..] == old(ep[..])[slot := e.(refs := e.refs - 1, used := true)]
                else last && ep[..] == old(ep[..])[slot := e.(refs := 0, used := false)]
      ensures slot < 0 ==> State() == old(State()) && !last && forall e :: e in ep[..] ==> !(e.used && e.id == id)
    {
      hide Inv;
      last := false;
      slot := Find(id);
      if slot >= 0 {
        var refs := if ep[slot].refs > 0 then ep[slot].refs - 1 else 0;
        last := refs == 0;
        Change(slot, ep[slot].(refs := refs, used := refs > 0));
      }
    }

    /** One endpoint changes, and remains the endpoint it is. */
    method Change(slot: nat, e: Ep)
      requires Valid() && slot < ep.Length && e.id == ep[slot].id && e.ctx == ep[slot].ctx && (e.used ==> ep[slot].used)
      requires e.used && e.isMgr && !ep[slot].isMgr ==> forall i :: 0 <= i < ep.Length ==> !Rival(ep[i], e.id, e.ctx)
      modifies ep
      ensures Valid() && Alters(old(State()), State(), slot, e)
    {
      ghost var was := State();
      ep[slot] := e;
      assert ep[..] == was.ep[slot := e];
      AltersKeeps(was, State(), slot, e);
    }

    /** SET_CONTEXT_MGR by endpoint id of context ctx. */
    method SetManager(id: nat, ctx: string) returns (busy: bool, slot: int)
      requires Valid()
      modifies ep
      ensures Valid()
      ensures busy <==> exists i :: 0 <= i < |old(ep[..])| && Rival(old(ep[..])[i], id, ctx)
      ensures !busy && slot >= 0 ==>
                Manages(old(State()), State(), slot) && State().ep[slot].id == id && State().ep[slot].ctx == ctx
      ensures busy <==> exists e :: e in old(ep[..]) && e.used && e.isMgr && e.ctx == ctx && e.id != id
      ensures !busy && slot >= 0 ==> ep[..] == old(ep[..])[slot := old(ep[..])[slot].(isMgr := true)]
      ensures busy || slot < 0 ==> State() == old(State())
      ensures !busy && slot < 0 ==> forall e :: e in ep[..] ==> !(e.used && e.id == id && e.ctx == ctx)
    {
      hide Inv;
      slot := -1;
      busy := HasRival(id, ctx);
      if !busy {
        slot := Find(id);
        if slot >= 0 && ep[slot].ctx == ctx {
          Change(slot, ep[slot].(isMgr := true));
        } else {
          if slot >= 0 {
            OneSlot(State(), slot);
          }
          slot := -1;
        }
      }
    }

    method HasRival(id: nat, ctx: string) returns (busy: bool)
      ensures busy <==> exists i :: 0 <= i < |ep[..]| && Rival(ep[..][i], id, ctx)
    {
      var i := 0;
      while i < ep.Length
        invariant 0 <= i <= ep.Length && forall j :: 0 <= j < i ==> !Rival(ep[j], id, ctx)
      {
        if Rival(ep[i], id, ctx) {
          assert Rival(ep[..][i], id, ctx);
          return true;
        }
        i := i + 1;
      }
      return false;
    }

    /** A message is left in a slot, at the place returned, or -1 when its queue is full. */
    method Post(slot: nat, m: Msg) returns (k: int)
      requires Valid() && slot < MAX_EP
      modifies this`nextSeq, q
      ensures Valid()
      ensures k >= 0 ==> SlotOf(k) == slot && Posts(old(State()), State(), k, m)
      ensures k >= 0 ==>
                && slot * MSG_MAX <= k < (slot + 1) * MSG_MAX && k < q.Length && !old(q[..])[k].used
                && q[..] == old(q[..])[k := m.(used := true, num := old(nextSeq))] && nextSeq == old(nextSeq) + 1
      ensures k < 0 ==> State() == old(State()) && forall j :: slot * MSG_MAX <= j < (slot + 1) * MSG_MAX ==> q[j].used
    {
      ghost var was := State();
      k := slot * MSG_MAX;
      while k < slot * MSG_MAX + MSG_MAX && q[k].used
        invariant slot * MSG_MAX <= k <= slot * MSG_MAX + MSG_MAX
        invariant forall j :: slot * MSG_MAX <= j < k ==> q[j].used
        modifies {}
      {
        k := k + 1;
      }
      if k < slot * MSG_MAX + MSG_MAX {
        q[k] := m.(used := true, num := nextSeq);
        nextSeq := nextSeq + 1;
        assert q[..] == was.q[k := m.(used := true, num := was.nextSeq)];
        PostsKeeps(was, State(), k, m);
      } else {
        k := -1;
      }
    }

    /** A message that could not be announced is taken back. */
    method Withdraw(k: nat, id: nat, dead: set<int>)
      requires Valid() && k < MAX_EP * MSG_MAX
      modifies ep, q
      ensures Valid() && Withdraws(old(State()), State(), k, id, dead)
      ensures var e := old(ep[..])[k / MSG_MAX];
              if e.used && e.id == id then
                && q[..] == old(q[..])[k := old(q[..])[k].(used := false)]
                && ep[..] == old(ep[..])[k / MSG_MAX := e.(used := !(e.pid > 0 && e.pid in dead))]
              else State() == old(State())
    {
      ghost var was := State();
      var s := SlotOf(k);
      if ep[s].used && ep[s].id == id {
        q[k] := q[k].(used := false);
        ep[s] := ep[s].(used := !(ep[s].pid > 0 && ep[s].pid in dead));
        assert q[..] == was.q[k := was.q[k].(used := false)];
        assert ep[..] == was.ep[s := ep[s]];
      }
      WithdrawsKeeps(was, State(), k, id, dead);
    }

    /** Whatever has been left for endpoint id that thread `me` may take, each message in a buffer of its own
        in the arena.  A message stays only when the arena has no room for it, no record is free, or
        its buffer turns out not to be mapped, and then so do those after it. */
    method Collect(id: nat, me: nat, arena: Arena, host: nat -> bool)
      returns (got: seq<Msg>, at: seq<nat>, ghost rec: seq<nat>)
      requires Valid() && arena.Valid() && (arena.allocs as object) != q
      modifies q, arena`brk, arena.allocs
      ensures Valid() && Collecting(old(State()), State(), id, me, got)
      ensures arena.Valid() && Housed(arena, got, at, rec)
      ensures forall s: nat :: s < MAX_EP && ep[s].used && ep[s].id == id ==>
                exists hi: nat :: Stopped(old(q[..]), s, hi, me, arena, host, got)
      ensures forall s: nat :: s < MAX_EP && ep[s].used && ep[s].id == id ==>
                Swept(old(q[..]), q[..], s, me, got) || Blocked(q[..], s, me, arena, host)
    {
      hide Inv, Pass, arena.Valid;
      ghost var was := State();
      assert |was.ep| == MAX_EP && |was.q| == MAX_EP * MSG_MAX by { Sizes(was); }
      var s := Find(id);
      got, at, rec := [], [], [];
      if s >= 0 {
        ghost var hi;
        got, at, rec, hi := Sweep(s, me, arena, host);
        PassCollects(was, s, hi, me);
        OneSlot(was, s);
        if hi == (s + 1) * MSG_MAX {
          WholePass(was.q, s, me);
        }
      }
      CollectingKeeps(was, State(), id, me, got);
    }

    /** A pass over slot s got as far as hi, which is its end unless something kept it from going on. */
    ghost predicate Stopped(was: seq<Msg>, s: nat, hi: nat, me: nat, arena: Arena, host: nat -> bool, got: seq<Msg>)
      reads q, arena, arena.allocs
    {
      && s * MSG_MAX <= hi <= (s + 1) * MSG_MAX <= |was| == q.Length && (got, q[..]) == Pass(was, s * MSG_MAX, hi, me)
      && (hi < (s + 1) * MSG_MAX ==> Eligible(q[hi], me) && (NoPlace(arena, q[hi]) || Unmapped(arena, host)))
    }

    /** The pass met a message that was its thread's to take and for which the arena had no place, or none that is
        mapped. */
    ghost predicate Blocked(q: seq<Msg>, s: nat, me: nat, arena: Arena, host: nat -> bool)
      reads arena, arena.allocs
    {
      exists k: nat ::
        && s * MSG_MAX <= k < (s + 1) * MSG_MAX && k < |q| && q[k].used
        && (!q[k].isReply || q[k].replyTid == 0 || q[k].replyTid == me)
          && (NoPlace(arena, q[k]) || Unmapped(arena, host))
    }

    method Sweep(s: nat, me: nat, arena: Arena, host: nat -> bool)
      returns (got: seq<Msg>, at: seq<nat>, ghost rec: seq<nat>, ghost hi: nat)
      requires s < MAX_EP && q.Length == MAX_EP * MSG_MAX && arena.Valid() && (arena.allocs as object) != q
      modifies q, arena`brk, arena.allocs
      ensures arena.Valid() && Housed(arena, got, at, rec) && Stopped(old(q[..]), s, hi, me, arena, host, got)
    {
      hide arena.Valid;
      ghost var was := q[..];
      var i := s * MSG_MAX;
      got, at, rec := [], [], [];
      while i < (s + 1) * MSG_MAX
        invariant s * MSG_MAX <= i <= (s + 1) * MSG_MAX && arena.Valid()
        invariant (got, q[..]) == Pass(was, s * MSG_MAX, i, me) && Housed(arena, got, at, rec)
      {
        var m := q[i];
        if Eligible(m, me) {
          ghost var before, held := q[..], arena.allocs[..];
          var a := arena.Take(Want(m));
          hi := i;
          if a == 0 {
            return;
          }
          ghost var k :| 0 <= k < |held| && !held[k].live
            && arena.allocs[..] == held[k := Alloc(a, Align8(Want(m)), true)];
          assert arena.allocs[k] == arena.allocs[..][k] && forall j :: 0 <= j < |rec| ==> held[rec[j]].live;
          if !host(a) {
            return;
          }
          got, at, rec := got + [m], at + [a], rec + [k];
          q[i] := m.(used := false);
          assert q[..] == before[i := m.(used := false)];
        }
        i := i + 1;
      }
      hi := i;
    }
  }

  lemma {:induction false} CollectingKeeps(r: Reg, r': Reg, id: nat, me: nat, got: seq<Msg>)
    requires Inv(r) && Collecting(r, r', id, me, got)
    ensures Inv(r')
    decreases |got|
  {
    hide Inv;
    if got != [] {
      var n := |got| - 1;
      var k: nat, mid: Reg :| Collecting(r, mid, id, me, got[..n]) && Last(mid, r', k, id, me, got[n]);
      CollectingKeeps(r, mid, id, me, got[..n]);
      ClearsKeeps(mid, r', k);
    }
  }
}
