/** The receiver's half of a scatter-gather parcel, and what the two halves deliver. */
module BinderScatter {
  import opened Bytes
  import opened BinderParcel

  /** The offsets of the copies, with the first n replaced by their addresses. */
  ghost function Real(os: seq<Obj>, extraAt: nat, at: nat, n: nat): seq<nat> {
    seq(|os|, j requires 0 <= j < |os| => if j < n then at + Place(os, extraAt, j) else Place(os, extraAt, j))
  }

  /** Object i's address is stored in its parent's buffer. */
  ghost predicate HasSlot(os: seq<Obj>, l: Layout, i: nat)
    requires i < |os|
  {
    Embedded(os, l.dataSize, i) && Slot(os, l, i) + 8 <= l.total
  }

  ghost function Slot(os: seq<Obj>, l: Layout, i: nat): (s: nat)
    requires i < |os| && Embedded(os, l.dataSize, i)
    ensures s >= l.extraAt
  {
    Place(os, l.extraAt, os[i].parent) + os[i].parentOffset
  }

  ghost predicate InSlot(os: seq<Obj>, l: Layout, i: nat, k: int)
    requires i < |os|
  {
    HasSlot(os, l, i) && Slot(os, l, i) <= k < Slot(os, l, i) + 8
  }

  /** The staged bytes with the slots of the first n objects filled in. */
  ghost function Patched(os: seq<Obj>, l: Layout, m: seq<Byte>, at: nat, n: nat): (r: seq<Byte>)
    requires n <= |os| && |m| == l.total
    ensures |r| == |m|
  {
    if n == 0 then m
    else
      var r := Patched(os, l, m, at, n - 1);
      if HasSlot(os, l, n - 1) then Put(r, Slot(os, l, n - 1), Word(os, l, at, n - 1)) else r
  }

  /** The address of object i's copy, as it is stored. */
  ghost function Word(os: seq<Obj>, l: Layout, at: nat, i: nat): (w: seq<Byte>)
    requires i <= |os|
    ensures |w| == 8
  {
    Le(at + Place(os, l.extraAt, i), 8)
  }

  lemma PatchedNext(os: seq<Obj>, l: Layout, m: seq<Byte>, at: nat, i: nat)
    requires i < |os| && |m| == l.total
    ensures var r := Patched(os, l, m, at, i);
            Patched(os, l, m, at, i + 1) == if HasSlot(os, l, i) then Put(r, Slot(os, l, i), Word(os, l, at, i)) else r
  {
  }

  /** Bytes outside the slots are as they were staged. */
  lemma {:induction false} Unpatched(os: seq<Obj>, l: Layout, m: seq<Byte>, at: nat, n: nat, k: nat)
    requires n <= |os| && |m| == l.total && k < |m|
    requires forall i :: 0 <= i < n ==> !InSlot(os, l, i, k)
    ensures Patched(os, l, m, at, n)[k] == m[k]
  {
    if n > 0 {
      Unpatched(os, l, m, at, n - 1, k);
      assert !InSlot(os, l, n - 1, k);
    }
  }

  ghost predicate SlotsMeet(os: seq<Obj>, l: Layout, i: nat, j: nat)
    requires i < |os| && j < |os| && HasSlot(os, l, i)
  {
    HasSlot(os, l, j) && Slot(os, l, i) < Slot(os, l, j) + 8 && Slot(os, l, j) < Slot(os, l, i) + 8
  }

  /** A slot that no later one meets holds its object's address. */
  lemma {:induction false} SlotFilled(os: seq<Obj>, l: Layout, m: seq<Byte>, at: nat, n: nat, i: nat)
    requires i < n <= |os| && |m| == l.total && HasSlot(os, l, i) && at + Place(os, l.extraAt, i) < Range(8)
    requires forall j :: i < j < n ==> !SlotsMeet(os, l, i, j)
    ensures Get(Patched(os, l, m, at, n), Slot(os, l, i), 8) == at + Place(os, l.extraAt, i)
    decreases n
  {
    hide Range, Place, Patched, Put, Get;
    if i == n - 1 {
      LastSlot(os, l, m, at, i);
    } else {
      SlotFilled(os, l, m, at, n - 1, i);
      LaterSlot(os, l, m, at, n - 1, i);
    }
  }

  lemma LastSlot(os: seq<Obj>, l: Layout, m: seq<Byte>, at: nat, i: nat)
    requires i < |os| && |m| == l.total && HasSlot(os, l, i) && at + Place(os, l.extraAt, i) < Range(8)
    ensures Get(Patched(os, l, m, at, i + 1), Slot(os, l, i), 8) == at + Place(os, l.extraAt, i)
  {
    hide Range, Place, Patched, Put, Get, Slot, Embedded;
    PatchedNext(os, l, m, at, i);
    GetPut(Patched(os, l, m, at, i), Slot(os, l, i), at + Place(os, l.extraAt, i), 8);
  }

  lemma LaterSlot(os: seq<Obj>, l: Layout, m: seq<Byte>, at: nat, n: nat, i: nat)
    requires i < n < |os| && |m| == l.total && HasSlot(os, l, i) && !SlotsMeet(os, l, i, n)
    ensures Get(Patched(os, l, m, at, n + 1), Slot(os, l, i), 8) == Get(Patched(os, l, m, at, n), Slot(os, l, i), 8)
  {
    hide Place, Patched, Put, Slot, Embedded, Word;
    PatchedNext(os, l, m, at, n);
    if HasSlot(os, l, n) {
      PutElsewhere(Patched(os, l, m, at, n), Slot(os, l, n), Word(os, l, at, n), Slot(os, l, i), Slot(os, l, i) + 8);
    }
  }

  /** The first n objects of the staged parcel m have been given addresses, giving r. */
  ghost predicate Scattered(os: seq<Obj>, l: Layout, m: seq<Byte>, at: nat, r: seq<Byte>, n: nat) {
    && n <= |os| && |m| == |r| == l.total && l.extraAt <= l.total
    && OnlyPointers(os, l, m, r)
    && PointersAre(os, r, Real(os, l.extraAt, at, n))
    && r[l.extraAt..] == Patched(os, l, m, at, n)[l.extraAt..]
  }

  /** The address of a copy, stored where the parent says. */
  function StoreInParent(l: Layout, e: seq<Byte>, at: nat, o: Obj, addr: nat): (r: seq<Byte>)
    requires Laid(l, e) && o.Buf?
    ensures |r| == |e|
  {
    if !o.hasParent || o.parent >= l.n then e
    else
      var parAt := Off(e, l, o.parent);
      if parAt + RECORD > l.dataSize then e
      else
        var slot := Pointer(e, parAt) - at + o.parentOffset;
        if 0 <= slot && slot + 8 <= l.total then Put(e, slot, Le(addr, 8)) else e
  }

  /** One turn of the receiver's loop. */
  function Relocate(l: Layout, e: seq<Byte>, at: nat, i: nat): (r: seq<Byte>)
    requires Laid(l, e) && i < l.n
    ensures |r| == |e|
  {
    var o := ObjAt(e, l, i);
    if !o.Buf? then e
    else
      var addr := at + Pointer(e, o.at);
      StoreInParent(l, Put(e, o.at + 8, Le(addr, 8)), at, o, addr)
  }

  /** Object i has its address and its slot is still to be filled. */
  ghost predicate Midway(os: seq<Obj>, l: Layout, m: seq<Byte>, at: nat, e: seq<Byte>, i: nat) {
    && i < |os| && |m| == |e| == l.total && l.extraAt <= l.total
    && OnlyPointers(os, l, m, e)
    && PointersAre(os, e, Real(os, l.extraAt, at, i + 1))
    && e[l.extraAt..] == Patched(os, l, m, at, i)[l.extraAt..]
  }

  lemma TailPut(e: seq<Byte>, p: seq<Byte>, x: nat, at: nat, bytes: seq<Byte>)
    requires |e| == |p| && x <= at && at + |bytes| <= |e| && e[x..] == p[x..]
    ensures Put(e, at, bytes)[x..] == Put(p, at, bytes)[x..]
  {
    assert forall k :: x <= k < |e| ==> e[k] == e[x..][k - x] && p[k] == p[x..][k - x];
  }

  lemma FillSlot(os: seq<Obj>, l: Layout, m: seq<Byte>, at: nat, e: seq<Byte>, i: nat)
    requires Orderly(os, l.dataSize) && l.dataSize <= l.extraAt && Midway(os, l, m, at, e, i)
    ensures HasSlot(os, l, i) ==> Scattered(os, l, m, at, Put(e, Slot(os, l, i), Word(os, l, at, i)), i + 1)
    ensures !HasSlot(os, l, i) ==> Scattered(os, l, m, at, e, i + 1)
  {
    hide Orderly, OnlyPointers, PointersAre, Put, Embedded, Place, Patched, Real, Word, Slot;
    PatchedNext(os, l, m, at, i);
    if HasSlot(os, l, i) {
      var slot, bytes := Slot(os, l, i), Word(os, l, at, i);
      ExtraWrite(os, l, m, e, Real(os, l.extraAt, at, i + 1), slot, bytes);
      TailPut(e, Patched(os, l, m, at, i), l.extraAt, slot, bytes);
    }
  }

  lemma FieldDone(os: seq<Obj>, l: Layout, m: seq<Byte>, at: nat, e: seq<Byte>, i: nat)
    requires Orderly(os, l.dataSize) && l.dataSize <= l.extraAt && Scattered(os, l, m, at, e, i) && i < |os|
             && os[i].Buf?
    requires at + Place(os, l.extraAt, i) < Range(8) && os[i].at + RECORD <= |e|
    ensures Pointer(e, os[i].at) == Place(os, l.extraAt, i)
    ensures Midway(os, l, m, at, Put(e, os[i].at + 8, Word(os, l, at, i)), i)
  {
    hide Orderly, OnlyPointers, PointersAre, Put, Embedded, Range, Place, Patched, Pointer, Real;
    ReadReal(os, l.extraAt, at, e, i, i);
    FieldWrite(os, l, m, e, Real(os, l.extraAt, at, i), i, at + Place(os, l.extraAt, i));
    RealNext(os, l.extraAt, at, i);
  }

  lemma RealNext(os: seq<Obj>, extraAt: nat, at: nat, i: nat)
    requires i < |os|
    ensures |Real(os, extraAt, at, i)| == |os|
    ensures Real(os, extraAt, at, i + 1) == Real(os, extraAt, at, i)[i := at + Place(os, extraAt, i)]
  {
    hide Place;
  }

  lemma ReadReal(os: seq<Obj>, extraAt: nat, at: nat, e: seq<Byte>, n: nat, j: nat)
    requires PointersAre(os, e, Real(os, extraAt, at, n)) && j < |os| && os[j].Buf?
    ensures os[j].at + RECORD <= |e|
    ensures Pointer(e, os[j].at) == Place(os, extraAt, j) + if j < n then at else 0
  {
  }

  /** An earlier parent is found where its copy is. */
  lemma ParentRead(os: seq<Obj>, l: Layout, m: seq<Byte>, at: nat, e: seq<Byte>, i: nat)
    requires Laid(l, m) && Laid(l, e) && os == Parse(m, l) && Orderly(os, l.dataSize) && Midway(os, l, m, at, e, i)
    requires os[i].Buf? && os[i].hasParent && os[i].parent < l.n
    ensures Off(e, l, os[i].parent) == os[os[i].parent].at
    ensures Embedded(os, l.dataSize, i) ==>
              os[os[i].parent].at + RECORD <= |e|
                && Pointer(e, os[os[i].parent].at) == at + Place(os, l.extraAt, os[i].parent)
  {
    ObjKept(os, l, m, e, os[i].parent);
    assert Off(e, l, os[i].parent) == ObjAt(e, l, os[i].parent).at;
    hide ObjAt, Apart, OnlyPointers, Pointer;
    if Embedded(os, l.dataSize, i) {
      ReadReal(os, l.extraAt, at, e, i + 1, os[i].parent);
    }
  }

  /** The parent's slot is the one the parcel's objects call for. */
  lemma StoreInParentIs(os: seq<Obj>, l: Layout, m: seq<Byte>, at: nat, e: seq<Byte>, i: nat)
    requires Laid(l, m) && Laid(l, e) && os == Parse(m, l) && Orderly(os, l.dataSize) && i < l.n && os[i].Buf?
    requires Midway(os, l, m, at, e, i)
    ensures StoreInParent(l, e, at, os[i], at + Place(os, l.extraAt, i)) ==
              if HasSlot(os, l, i) then Put(e, Slot(os, l, i), Word(os, l, at, i)) else e
  {
    hide Orderly, ObjAt, Off, Put, Pointer, Midway, Parse, Place, Le;
    if os[i].hasParent && os[i].parent < l.n {
      ParentRead(os, l, m, at, e, i);
    }
  }

  lemma RelocateStep(os: seq<Obj>, l: Layout, m: seq<Byte>, at: nat, e: seq<Byte>, i: nat)
    requires Laid(l, m) && Laid(l, e) && os == Parse(m, l) && Orderly(os, l.dataSize) && i < l.n
    requires Scattered(os, l, m, at, e, i)
    requires os[i].Buf? ==> at + Place(os, l.extraAt, i) < Range(8)
    ensures Scattered(os, l, m, at, Relocate(l, e, at, i), i + 1)
  {
    hide Range, Orderly, ObjAt, Put, Pointer, Scattered, Midway, Parse, Place, Relocate, HasSlot, Slot, Word,
         StoreInParent;
    RelocateIs(os, l, m, at, e, i);
    if os[i].Buf? {
      var e1 := Put(e, os[i].at + 8, Word(os, l, at, i));
      StoreInParentIs(os, l, m, at, e1, i);
      FillSlot(os, l, m, at, e1, i);
    } else {
      NotRelocated(os, l, m, at, e, i);
    }
  }

  /** What one turn does, in terms of the objects of the parcel. */
  lemma RelocateIs(os: seq<Obj>, l: Layout, m: seq<Byte>, at: nat, e: seq<Byte>, i: nat)
    requires Laid(l, m) && Laid(l, e) && os == Parse(m, l) && Orderly(os, l.dataSize) && i < l.n
    requires Scattered(os, l, m, at, e, i)
    requires os[i].Buf? ==> at + Place(os, l.extraAt, i) < Range(8)
    ensures !os[i].Buf? ==> Relocate(l, e, at, i) == e
    ensures os[i].Buf? ==>
              && os[i].at + RECORD <= |e|
              && var e1 := Put(e, os[i].at + 8, Word(os, l, at, i));
              && Midway(os, l, m, at, e1, i)
              && Relocate(l, e, at, i) == StoreInParent(l, e1, at, os[i], at + Place(os, l.extraAt, i))
  {
    hide Range, Orderly, ObjAt, Put, Midway, Parse, Place, StoreInParent, OnlyPointers, PointersAre, Patched, Pointer,
         Le, Real;
    ObjKept(os, l, m, e, i);
    if os[i].Buf? {
      BufFits(os, l.dataSize, i);
      FieldDone(os, l, m, at, e, i);
    }
  }

  lemma NotRelocated(os: seq<Obj>, l: Layout, m: seq<Byte>, at: nat, e: seq<Byte>, i: nat)
    requires Scattered(os, l, m, at, e, i) && i < |os| && !os[i].Buf?
    ensures Scattered(os, l, m, at, e, i + 1)
  {
    hide OnlyPointers, Pointer, Place, Patched, Put;
    PatchedNext(os, l, m, at, i);
  }

  /** A staged parcel: the pointers are the offsets of copies that lie inside it. */
  ghost predicate Ready(os: seq<Obj>, l: Layout, m: seq<Byte>, at: nat) {
    && Laid(l, m) && os == Parse(m, l) && Orderly(os, l.dataSize) && at + l.total < Range(8)
    && PointersAre(os, m, Real(os, l.extraAt, at, 0))
    && forall j :: 0 <= j < |os| && os[j].Buf? ==> Place(os, l.extraAt, j) <= l.total
  }

  method ScatterOne(dst: array<Byte>, l: Layout, at: nat, i: nat)
    requires Laid(l, dst[..]) && i < l.n
    modifies dst
    ensures dst[..] == Relocate(l, old(dst[..]), at, i)
  {
    hide Put, Get, Le;
    var o := ObjAt(dst[..], l, i);
    if !o.Buf? {
      return;
    }
    var addr := at + Pointer(dst[..], o.at);
    Store(dst, o.at + 8, Le(addr, 8));
    if o.hasParent && o.parent < l.n {
      var parAt := Off(dst[..], l, o.parent);
      if parAt + RECORD <= l.dataSize {
        var slot := Pointer(dst[..], parAt) - at + o.parentOffset;
        if 0 <= slot && slot + 8 <= l.total {
          Store(dst, slot, Le(addr, 8));
        }
      }
    }
  }

  /** The receiver's half: offsets become addresses in the allocation at `at`, and each
      embedded buffer's address is stored in its parent's copy. */
  method Scatter(dst: array<Byte>, l: Layout, at: nat)
    requires Laid(l, dst[..])
    modifies dst
    ensures var m := old(dst[..]);
            Ready(Parse(m, l), l, m, at) ==> Scattered(Parse(m, l), l, m, at, dst[..], l.n)
  {
    ghost var m := dst[..];
    ghost var os := Parse(m, l);
    ghost var good := Ready(os, l, m, at);
    hide Scattered, Relocate, Parse, Ready;
    if good {
      NothingScattered(os, l, m, at);
    }
    var i := 0;
    while i < l.n
      invariant 0 <= i <= l.n && Laid(l, dst[..])
      invariant good ==> Scattered(os, l, m, at, dst[..], i)
    {
      if good {
        TurnScatters(os, l, m, at, dst[..], i);
      }
      ScatterOne(dst, l, at, i);
      i := i + 1;
    }
  }

  lemma NothingScattered(os: seq<Obj>, l: Layout, m: seq<Byte>, at: nat)
    requires Ready(os, l, m, at)
    ensures Scattered(os, l, m, at, m, 0)
  {
    hide Parse, Orderly, PointersAre;
  }

  lemma TurnScatters(os: seq<Obj>, l: Layout, m: seq<Byte>, at: nat, e: seq<Byte>, i: nat)
    requires Ready(os, l, m, at) && Laid(l, e) && i < l.n && Scattered(os, l, m, at, e, i)
    ensures Scattered(os, l, m, at, Relocate(l, e, at, i), i + 1)
  {
    hide Scattered, Relocate, Orderly, PointersAre, Range;
    RelocateStep(os, l, m, at, e, i);
  }

  // ---- both halves together ----

  /** What the receiver of parcel d finds at `at`.  Every pointer leads to a copy inside the
      allocation, the copies are disjoint and in order, a copy holds the sender's bytes outside
      the slots, and following a parent's pointer to a slot gives its child's pointer. */
  ghost predicate PointerGraph(guest: Guest, os: seq<Obj>, l: Layout, d: seq<Byte>, at: nat, r: seq<Byte>) {
    && OnlyPointers(os, l, d, r)
    && (forall i :: 0 <= i < |os| && os[i].Buf? ==> AtPlace(os, l, at, r, i))
    && (forall i :: 0 <= i < |os| && os[i].Buf? ==> Inside(os[i], l, at, r))
    && (forall i, j :: 0 <= i < j < |os| && os[i].Buf? && os[j].Buf? ==> InOrder(os[i], os[j], r))
    && (forall i, k :: 0 <= i < |os| && os[i].Buf? && 0 <= k < os[i].len ==> SameByte(guest, os, l, d, at, r, i, k))
    && (forall i :: 0 <= i < |os| && Lasting(os, l, i) ==> LeadsToChild(os, l, at, r, i))
  }

  /** Object i's pointer is the address of its copy. */
  ghost predicate AtPlace(os: seq<Obj>, l: Layout, at: nat, r: seq<Byte>, i: nat)
    requires i < |os|
  {
    os[i].at + RECORD <= |r| && Pointer(r, os[i].at) == at + Place(os, l.extraAt, i)
  }

  ghost predicate Inside(o: Obj, l: Layout, at: nat, r: seq<Byte>) {
    o.Buf? && o.at + RECORD <= |r| && at + l.extraAt <= Pointer(r, o.at) && Pointer(r, o.at) + o.len <= at + l.total
  }

  ghost predicate InOrder(a: Obj, b: Obj, r: seq<Byte>) {
    a.Buf? && a.at + RECORD <= |r| && b.at + RECORD <= |r| && Pointer(r, a.at) + a.len <= Pointer(r, b.at)
  }

  ghost predicate SameByte(guest: Guest, os: seq<Obj>, l: Layout, d: seq<Byte>, at: nat, r: seq<Byte>, i: nat, k: nat)
    requires i < |os|
  {
    && os[i].at + RECORD <= |r| == |d|
    && var p := Pointer(r, os[i].at) - at + k;
    && 0 <= p < |r|
    && ((forall c :: 0 <= c < |os| ==> !InSlot(os, l, c, p)) ==> r[p] == guest.bytes(Pointer(d, os[i].at) + k))
  }

  /** Object i has a slot and no later one is written over it. */
  ghost predicate Lasting(os: seq<Obj>, l: Layout, i: nat)
    requires i < |os|
  {
    HasSlot(os, l, i) && forall j :: i < j < |os| ==> !SlotsMeet(os, l, i, j)
  }

  ghost predicate LeadsToChild(os: seq<Obj>, l: Layout, at: nat, r: seq<Byte>, i: nat)
    requires i < |os| && HasSlot(os, l, i)
  {
    var par := os[os[i].parent];
    && par.at + RECORD <= |r| && os[i].at + RECORD <= |r|
    && var p := Pointer(r, par.at) - at + os[i].parentOffset;
    && 0 <= p && p + 8 <= |r| && Get(r, p, 8) == Pointer(r, os[i].at)
  }

  lemma ByteDelivered(guest: Guest, os: seq<Obj>, l: Layout, d: seq<Byte>, src: seq<nat>, m: seq<Byte>, at: nat,
                      r: seq<Byte>, i: nat, k: nat)
    requires Gathered(guest, os, l, d, src, m, |os|) && Scattered(os, l, m, at, r, |os|)
    requires i < |os| && os[i].Buf? && k < os[i].len
    ensures SameByte(guest, os, l, d, at, r, i, k)
  {
    hide OnlyPointers, Patched, Place;
    Sizes(os, l, d, m);
    ReadReal(os, l.extraAt, at, r, |os|, i);
    assert CopyOf(guest, os, l, src, m, i);
    var p := Place(os, l.extraAt, i) + k;
    TailAt(r, Patched(os, l, m, at, |os|), l.extraAt, p);
    assert m[p] == m[Place(os, l.extraAt, i)..Place(os, l.extraAt, i) + os[i].len][k];
    assert Pointer(d, os[i].at) == src[i] && m[p] == guest.bytes(src[i] + k);
    if forall c :: 0 <= c < |os| ==> !InSlot(os, l, c, p) {
      Unpatched(os, l, m, at, |os|, p);
    }
  }

  lemma TailAt(a: seq<Byte>, b: seq<Byte>, x: nat, p: nat)
    requires |a| == |b| && x <= p < |a| && a[x..] == b[x..]
    ensures a[p] == b[p]
  {
    assert a[p] == a[x..][p - x] && b[p] == b[x..][p - x];
  }

  lemma ChildReached(os: seq<Obj>, l: Layout, m: seq<Byte>, at: nat, r: seq<Byte>, i: nat)
    requires Scattered(os, l, m, at, r, |os|) && Orderly(os, l.dataSize) && i < |os| && Lasting(os, l, i)
    requires at + Place(os, l.extraAt, i) < Range(8)
    ensures LeadsToChild(os, l, at, r, i)
  {
    hide OnlyPointers, Patched, Place, Apart, Range;
    SlotFilled(os, l, m, at, |os|, i);
    ReadReal(os, l.extraAt, at, r, |os|, i);
    ReadReal(os, l.extraAt, at, r, |os|, os[i].parent);
    SliceBelow(Patched(os, l, m, at, |os|), r, l.extraAt, Slot(os, l, i), Slot(os, l, i) + 8);
  }

  /** Whatever the parcel, its pointer graph is delivered. */
  lemma GraphDelivered(guest: Guest, os: seq<Obj>, l: Layout, d: seq<Byte>, src: seq<nat>, m: seq<Byte>, at: nat,
                       r: seq<Byte>)
    requires Orderly(os, l.dataSize) && Gathered(guest, os, l, d, src, m, |os|) && Scattered(os, l, m, at, r, |os|)
    requires at + l.total < Range(8)
    ensures PointerGraph(guest, os, l, d, at, r)
  {
    hide Orderly, OnlyPointers, Place, Patched, Pointer, LeadsToChild, SameByte, Range;
    forall i | 0 <= i < |os| && os[i].Buf?
      ensures at + Place(os, l.extraAt, i) <= at + l.total && Inside(os[i], l, at, r) && AtPlace(os, l, at, r, i)
    {
      assert CopyOf(guest, os, l, src, m, i);
      ReadReal(os, l.extraAt, at, r, |os|, i);
    }
    forall i, j | 0 <= i < j < |os| && os[i].Buf? && os[j].Buf?
      ensures InOrder(os[i], os[j], r)
    {
      ReadReal(os, l.extraAt, at, r, |os|, i);
      ReadReal(os, l.extraAt, at, r, |os|, j);
      PlacesGrow(os, l.extraAt, i, j);
    }
    forall i, k | 0 <= i < |os| && os[i].Buf? && 0 <= k < os[i].len
      ensures SameByte(guest, os, l, d, at, r, i, k)
    {
      ByteDelivered(guest, os, l, d, src, m, at, r, i, k);
    }
    forall i | 0 <= i < |os| && Lasting(os, l, i)
      ensures LeadsToChild(os, l, at, r, i)
    {
      ChildReached(os, l, m, at, r, i);
    }
    OnlyPointersChain(os, l, d, m, r);
  }

  lemma OnlyPointersChain(os: seq<Obj>, l: Layout, d: seq<Byte>, m: seq<Byte>, r: seq<Byte>)
    requires OnlyPointers(os, l, d, m) && OnlyPointers(os, l, m, r)
    ensures OnlyPointers(os, l, d, r)
  {
    hide InField;
  }

  lemma GatheredIsReady(guest: Guest, os: seq<Obj>, l: Layout, d: seq<Byte>, src: seq<nat>, m: seq<Byte>, at: nat)
    requires Laid(l, d) && Laid(l, m) && os == Parse(d, l) && Orderly(os, l.dataSize)
             && Gathered(guest, os, l, d, src, m, |os|)
    requires at + l.total < Range(8)
    ensures Parse(m, l) == os && Ready(os, l, m, at)
  {
    hide Orderly, OnlyPointers, Place, ObjAt, PointersAre, Range;
    forall i | 0 <= i < l.n
      ensures ObjAt(m, l, i) == os[i]
    {
      ObjKept(os, l, d, m, i);
    }
    forall j | 0 <= j < |os| && os[j].Buf?
      ensures Place(os, l.extraAt, j) <= l.total
    {
      assert CopyOf(guest, os, l, src, m, j);
    }
    assert Staged(os, l.extraAt, src, |os|) == Real(os, l.extraAt, at, 0);
  }

  lemma StagedIsReady(guest: Guest, l: Layout, d: seq<Byte>, m: seq<Byte>, at: nat)
    requires Laid(l, d) && |m| == |d| && at + l.total < 0x1_0000_0000_0000_0000
    ensures var os := Parse(d, l);
            Orderly(os, l.dataSize) && Gathered(guest, os, l, d, Sources(os, d), m, |os|) ==>
              Parse(m, l) == os && Ready(os, l, m, at)
  {
    WordRange();
    hide Orderly, Gathered, Ready, Parse, Sources, Range;
    var os := Parse(d, l);
    if Orderly(os, l.dataSize) && Gathered(guest, os, l, d, Sources(os, d), m, |os|) {
      GatheredIsReady(guest, os, l, d, Sources(os, d), m, at);
    }
  }

  lemma BothHalves(guest: Guest, l: Layout, d: seq<Byte>, m: seq<Byte>, at: nat, r: seq<Byte>)
    requires Laid(l, d) && |m| == |d| && at + l.total < 0x1_0000_0000_0000_0000
    ensures var os := Parse(d, l);
            Orderly(os, l.dataSize) && Gathered(guest, os, l, d, Sources(os, d), m, |os|)
              && Scattered(os, l, m, at, r, l.n)
            ==> PointerGraph(guest, os, l, d, at, r)
  {
    WordRange();
    hide Orderly, Gathered, Scattered, PointerGraph, Parse, Sources, Range;
    var os := Parse(d, l);
    if Orderly(os, l.dataSize) && Gathered(guest, os, l, d, Sources(os, d), m, |os|)
      && Scattered(os, l, m, at, r, l.n) {
      GraphDelivered(guest, os, l, d, Sources(os, d), m, at, r);
    }
  }
}
