/** Scatter-gather parcels: memory the sender only points at travels beside the parcel,
    first with offsets in place of pointers and then, once the receiver knows where its
    copy landed, with the addresses of that copy.
 */
module BinderParcel {
  import opened Bytes
  import Basics

  const PTR := 0x70742a85
  const RECORD := 40
  const PAYLOAD := 8192

  datatype Error = None | NoMemory | Fault

  /** The sender's memory.  A mapped address stands for a contiguous region. */
  datatype Guest = Guest(bytes: nat -> Byte, mapped: nat -> bool)

  function Fetch(guest: Guest, a: nat, n: nat): (s: seq<Byte>)
    ensures |s| == n && forall k :: 0 <= k < n ==> s[k] == guest.bytes(a + k)
  {
    seq<Byte>(n, k requires 0 <= k => guest.bytes(a + k))
  }

  /** Data, then the table of offsets, then the buffers. */
  datatype Layout = Layout(dataSize: nat, n: nat, offsAt: nat, extraAt: nat, total: nat)

  ghost predicate Laid(l: Layout, d: seq<Byte>) {
    l.dataSize <= l.offsAt && l.offsAt + 8 * l.n <= l.extraAt <= l.total == |d|
  }

  /** Where the parts go. */
  function LayOut(dataSize: nat, offsetsSize: nat, buffersSize: nat): (l: Layout)
    ensures l.dataSize <= l.offsAt && l.offsAt + 8 * l.n <= l.extraAt <= l.total
    ensures l.offsAt % 8 == 0 && l.extraAt % 8 == 0
    ensures l.dataSize == dataSize && l.n == offsetsSize / 8
    ensures l.offsAt < l.dataSize + 8 && l.extraAt < l.offsAt + offsetsSize + 8 && l.total == l.extraAt + buffersSize
  {
    var offsAt := Basics.Align8(dataSize);
    var extraAt := offsAt + Basics.Align8(offsetsSize);
    Layout(dataSize, offsetsSize / 8, offsAt, extraAt, extraAt + buffersSize)
  }

  /** One entry of the table of offsets: a buffer object, or anything else. */
  datatype Obj =
    | Buf(at: nat, len: nat, hasParent: bool, parent: nat, parentOffset: nat)
    | Other(at: nat)

  function Off(d: seq<Byte>, l: Layout, i: nat): nat
    requires Laid(l, d) && i < l.n
  {
    Get(d, l.offsAt + 8 * i, 8)
  }

  /** What entry i of the table names. */
  function ObjAt(d: seq<Byte>, l: Layout, i: nat): Obj
    requires Laid(l, d) && i < l.n
  {
    var o := Off(d, l, i);
    if o + 4 > l.dataSize then Other(o)
    else if Get(d, o, 4) != PTR || o + RECORD > l.dataSize then Other(o)
    else Buf(o, Get(d, o + 16, 8), Get(d, o + 4, 4) % 2 == 1, Get(d, o + 24, 8), Get(d, o + 32, 8))
  }

  /** The forty bytes of a buffer object. */
  function BufBytes(flags: nat, ptr: nat, len: nat, parent: nat, parentOffset: nat): (s: seq<Byte>)
    ensures |s| == RECORD
  {
    Le(PTR, 4) + Le(flags, 4) + Le(ptr, 8) + Le(len, 8) + Le(parent, 8) + Le(parentOffset, 8)
  }

  /** A buffer object that the table names is read as it was written. */
  lemma BufWritten(d: seq<Byte>, l: Layout, i: nat, o: nat, flags: nat, ptr: nat, len: nat, parent: nat,
                   parentOffset: nat)
    requires Laid(l, d) && i < l.n && d[l.offsAt + 8 * i..l.offsAt + 8 * i + 8] == Le(o, 8) && o + RECORD <= l.dataSize
    requires d[o..o + RECORD] == BufBytes(flags, ptr, len, parent, parentOffset) && o < Range(8)
    requires flags < Range(4) && ptr < Range(8) && len < Range(8) && parent < Range(8) && parentOffset < Range(8)
    ensures ObjAt(d, l, i) == Buf(o, len, flags % 2 == 1, parent, parentOffset) && Pointer(d, o) == ptr
  {
    hide Range, Value, Le, BufBytes;
    BufSlices(d, o, flags, ptr, len, parent, parentOffset);
    WordRange();
    ValueOfLe(o, 8);
    ValueOfLe(PTR, 4);
    ValueOfLe(flags, 4);
    ValueOfLe(ptr, 8);
    ValueOfLe(len, 8);
    ValueOfLe(parent, 8);
    ValueOfLe(parentOffset, 8);
  }

  lemma BufSlices(d: seq<Byte>, o: nat, flags: nat, ptr: nat, len: nat, parent: nat, parentOffset: nat)
    requires o + RECORD <= |d| && d[o..o + RECORD] == BufBytes(flags, ptr, len, parent, parentOffset)
    ensures d[o..o + 4] == Le(PTR, 4) && d[o + 4..o + 8] == Le(flags, 4) && d[o + 8..o + 16] == Le(ptr, 8)
    ensures d[o + 16..o + 24] == Le(len, 8) && d[o + 24..o + 32] == Le(parent, 8)
    ensures d[o + 32..o + 40] == Le(parentOffset, 8)
  {
    hide Le;
    var s := d[o..o + RECORD];
    assert d[o..o + 4] == s[..4] && d[o + 4..o + 8] == s[4..8] && d[o + 8..o + 16] == s[8..16];
    assert d[o + 16..o + 24] == s[16..24] && d[o + 24..o + 32] == s[24..32] && d[o + 32..o + 40] == s[32..40];
  }

  ghost function Parse(d: seq<Byte>, l: Layout): (os: seq<Obj>)
    requires Laid(l, d)
    ensures |os| == l.n && forall i :: 0 <= i < l.n ==> os[i] == ObjAt(d, l, i)
  {
    seq(l.n, i requires 0 <= i < l.n => ObjAt(d, l, i))
  }

  /** How much of an object is read. */
  function Extent(o: Obj): nat {
    if o.Buf? then RECORD else 4
  }

  /** Two objects share no byte. */
  ghost predicate Apart(a: Obj, b: Obj) {
    a.at + Extent(a) <= b.at || b.at + Extent(b) <= a.at
  }

  /** The objects in the data do not overlap, and a buffer's parent is an earlier buffer. */
  ghost predicate Orderly(os: seq<Obj>, dataSize: nat) {
    && (forall i, j :: 0 <= i < j < |os| && os[i].at + 4 <= dataSize && os[j].at + 4 <= dataSize ==>
          Apart(os[i], os[j]))
    && (forall i :: 0 <= i < |os| && os[i].Buf? ==> os[i].at + RECORD <= dataSize)
    && (forall i :: 0 <= i < |os| && Embedded(os, dataSize, i) ==> os[i].parent < i && os[os[i].parent].Buf?)
  }

  /** Object i asks for its address to be stored in another object's buffer. */
  ghost predicate Embedded(os: seq<Obj>, dataSize: nat, i: nat)
    requires i < |os|
  {
    os[i].Buf? && os[i].hasParent && os[i].parent < |os| && os[os[i].parent].at + RECORD <= dataSize
  }

  /** The pointer field of a buffer object. */
  function Pointer(d: seq<Byte>, at: nat): nat
    requires at + RECORD <= |d|
  {
    Get(d, at + 8, 8)
  }

  ghost predicate InField(o: Obj, k: int) {
    o.Buf? && o.at + 8 <= k < o.at + 16
  }

  /** Below `extraAt` nothing differs but pointer fields. */
  ghost predicate OnlyPointers(os: seq<Obj>, l: Layout, d: seq<Byte>, e: seq<Byte>) {
    && |d| == |e| == l.total && l.extraAt <= l.total
    && forall k :: 0 <= k < l.extraAt && (forall j :: 0 <= j < |os| ==> !InField(os[j], k)) ==> e[k] == d[k]
  }

  /** Where the copy of object i goes. */
  ghost function Place(os: seq<Obj>, extraAt: nat, i: nat): (p: nat)
    requires i <= |os|
    ensures p >= extraAt
  {
    if i == 0 then extraAt
    else Place(os, extraAt, i - 1) + if os[i - 1].Buf? then Basics.Align8(os[i - 1].len) else 0
  }

  /** Each buffer goes at the first multiple of eight after the one before it. */
  lemma {:induction false} PlacesPacked(os: seq<Obj>, extraAt: nat, i: nat)
    requires i < |os| && extraAt % 8 == 0
    ensures Place(os, extraAt, 0) == extraAt && Place(os, extraAt, i) % 8 == 0 && Place(os, extraAt, i + 1) % 8 == 0
    ensures var step := Place(os, extraAt, i + 1) - Place(os, extraAt, i);
            if os[i].Buf? then os[i].len <= step < os[i].len + 8 else step == 0
  {
    if i > 0 {
      PlacesPacked(os, extraAt, i - 1);
    }
  }

  lemma {:induction false} PlacesGrow(os: seq<Obj>, extraAt: nat, i: nat, j: nat)
    requires i < j <= |os|
    ensures Place(os, extraAt, i) <= Place(os, extraAt, j)
    ensures os[i].Buf? ==> Place(os, extraAt, i) + os[i].len <= Place(os, extraAt, j)
    decreases j
  {
    if i < j - 1 {
      PlacesGrow(os, extraAt, i, j - 1);
    }
  }

  /** Bytes that lie in no pointer field are the same on both sides. */
  lemma RangeKept(os: seq<Obj>, l: Layout, d: seq<Byte>, e: seq<Byte>, lo: nat, hi: nat)
    requires OnlyPointers(os, l, d, e) && lo <= hi <= l.extraAt
    requires forall j, k :: 0 <= j < |os| && lo <= k < hi ==> !InField(os[j], k)
    ensures e[lo..hi] == d[lo..hi]
  {
    hide InField;
    forall k | lo <= k < hi
      ensures e[k] == d[k]
    {
    }
  }

  /** No field of another object meets the bytes of object i that are read. */
  lemma FieldsApart(os: seq<Obj>, dataSize: nat, i: nat, lo: nat, hi: nat)
    requires Orderly(os, dataSize) && i < |os| && os[i].at + 4 <= dataSize
    requires os[i].at <= lo <= hi <= os[i].at + Extent(os[i])
    requires os[i].Buf? ==> hi <= os[i].at + 8 || os[i].at + 16 <= lo
    ensures forall j, k :: 0 <= j < |os| && lo <= k < hi ==> !InField(os[j], k)
  {
    forall j, k | 0 <= j < |os| && lo <= k < hi
      ensures !InField(os[j], k)
    {
      if os[j].Buf? && j != i {
        assert Apart(os[if i < j then i else j], os[if i < j then j else i]);
      }
    }
  }

  /** Rewriting pointer fields does not change what the table of offsets names. */
  lemma ObjKept(os: seq<Obj>, l: Layout, d: seq<Byte>, e: seq<Byte>, i: nat)
    requires Laid(l, d) && Laid(l, e) && os == Parse(d, l) && Orderly(os, l.dataSize) && OnlyPointers(os, l, d, e)
             && i < l.n
    ensures ObjAt(e, l, i) == os[i]
  {
    hide OnlyPointers, Apart;
    var at := l.offsAt + 8 * i;
    OffsetsClear(os, l, i);
    RangeKept(os, l, d, e, at, at + 8);
    var o := Off(d, l, i);
    assert os[i] == ObjAt(d, l, i);
    if o + 4 <= l.dataSize {
      FieldsApart(os, l.dataSize, i, o, o + 4);
      RangeKept(os, l, d, e, o, o + 4);
      if os[i].Buf? {
        RestKept(os, l, d, e, i);
      }
    }
  }

  lemma OffsetsClear(os: seq<Obj>, l: Layout, i: nat)
    requires Orderly(os, l.dataSize) && l.dataSize <= l.offsAt
    ensures forall j, k :: 0 <= j < |os| && l.offsAt + 8 * i <= k < l.offsAt + 8 * i + 8 ==> !InField(os[j], k)
  {
    hide Apart, Embedded;
  }

  lemma RestKept(os: seq<Obj>, l: Layout, d: seq<Byte>, e: seq<Byte>, i: nat)
    requires Orderly(os, l.dataSize) && OnlyPointers(os, l, d, e) && i < |os| && os[i].Buf? && l.dataSize <= l.extraAt
    ensures os[i].at + RECORD <= l.total
    ensures var o := os[i].at; e[o + 4..o + 8] == d[o + 4..o + 8] && e[o + 16..o + 24] == d[o + 16..o + 24]
    ensures var o := os[i].at; e[o + 24..o + 32] == d[o + 24..o + 32] && e[o + 32..o + 40] == d[o + 32..o + 40]
  {
    hide OnlyPointers, Apart, InField;
    var o := os[i].at;
    assert l.extraAt <= l.total by { Sizes(os, l, d, e); }
    FieldsApart(os, l.dataSize, i, o + 4, o + 8);
    RangeKept(os, l, d, e, o + 4, o + 8);
    FieldsApart(os, l.dataSize, i, o + 16, o + 40);
    assert l.total == |d| == |e| by { Sizes(os, l, d, e); }
    RangeKept(os, l, d, e, o + 16, o + 24);
    RangeKept(os, l, d, e, o + 24, o + 32);
    RangeKept(os, l, d, e, o + 32, o + 40);
  }

  lemma Sizes(os: seq<Obj>, l: Layout, d: seq<Byte>, e: seq<Byte>)
    requires OnlyPointers(os, l, d, e)
    ensures |d| == |e| == l.total && l.extraAt <= l.total
  {
  }

  // ---- what is written, and what each write leaves alone ----

  /** The pointer fields of the buffer objects hold ps. */
  ghost predicate PointersAre(os: seq<Obj>, d: seq<Byte>, ps: seq<nat>) {
    && |ps| == |os|
    && forall j :: 0 <= j < |os| && os[j].Buf? ==> os[j].at + RECORD <= |d| && Pointer(d, os[j].at) == ps[j]
  }

  /** Writing beyond `extraAt` leaves every object as it is. */
  lemma ExtraWrite(os: seq<Obj>, l: Layout, d: seq<Byte>, e: seq<Byte>, ps: seq<nat>, p: nat, bytes: seq<Byte>)
    requires Orderly(os, l.dataSize) && l.dataSize <= l.extraAt <= p && p + |bytes| <= |e|
    requires OnlyPointers(os, l, d, e) && PointersAre(os, e, ps)
    ensures var e' := Put(e, p, bytes); OnlyPointers(os, l, d, e') && PointersAre(os, e', ps)
  {
    hide InField, Apart, Embedded;
    var e' := Put(e, p, bytes);
    forall j | 0 <= j < |os| && os[j].Buf?
      ensures Pointer(e', os[j].at) == ps[j]
    {
      PutElsewhere(e, p, bytes, os[j].at + 8, os[j].at + 16);
    }
  }

  /** Writing one pointer field changes that pointer and nothing else. */
  lemma FieldWrite(os: seq<Obj>, l: Layout, d: seq<Byte>, e: seq<Byte>, ps: seq<nat>, i: nat, v: nat)
    requires Orderly(os, l.dataSize) && l.dataSize <= l.extraAt && i < |os| && os[i].Buf? && v < Range(8)
    requires OnlyPointers(os, l, d, e) && PointersAre(os, e, ps) && os[i].at + RECORD <= |e|
    ensures var e' := Put(e, os[i].at + 8, Le(v, 8));
            && OnlyPointers(os, l, d, e') && PointersAre(os, e', ps[i := v])
            && e'[l.extraAt..] == e[l.extraAt..]
  {
    hide Orderly, OnlyPointers, PointersAre, Put, Range;
    BufFits(os, l.dataSize, i);
    Sizes(os, l, d, e);
    Masked(os, l, d, e, i, Le(v, 8));
    TailKept(e, os[i].at + 8, Le(v, 8), l.extraAt);
    PointersWrite(os, l.dataSize, e, ps, i, v);
  }

  lemma BufFits(os: seq<Obj>, dataSize: nat, i: nat)
    requires Orderly(os, dataSize) && i < |os| && os[i].Buf?
    ensures os[i].at + RECORD <= dataSize
  {
    hide Apart, Embedded;
  }

  lemma TailKept(e: seq<Byte>, at: nat, bytes: seq<Byte>, x: nat)
    requires at + |bytes| <= x <= |e|
    ensures Put(e, at, bytes)[x..] == e[x..]
  {
  }

  lemma PointersWrite(os: seq<Obj>, dataSize: nat, e: seq<Byte>, ps: seq<nat>, i: nat, v: nat)
    requires Orderly(os, dataSize) && dataSize <= |e| && i < |os| && os[i].Buf? && v < Range(8)
    requires PointersAre(os, e, ps) && os[i].at + RECORD <= |e|
    ensures PointersAre(os, Put(e, os[i].at + 8, Le(v, 8)), ps[i := v])
  {
    hide Orderly, Pointer, Range, Put;
    var e' := Put(e, os[i].at + 8, Le(v, 8));
    forall j | 0 <= j < |os| && os[j].Buf?
      ensures os[j].at + RECORD <= |e'| && Pointer(e', os[j].at) == ps[i := v][j]
    {
      OnePointer(os, dataSize, e, i, v, j);
    }
  }

  lemma Masked(os: seq<Obj>, l: Layout, d: seq<Byte>, e: seq<Byte>, i: nat, bytes: seq<Byte>)
    requires OnlyPointers(os, l, d, e) && i < |os| && os[i].Buf? && |bytes| == 8 && os[i].at + RECORD <= |e|
    ensures OnlyPointers(os, l, d, Put(e, os[i].at + 8, bytes))
  {
    assert forall k :: os[i].at + 8 <= k < os[i].at + 16 ==> InField(os[i], k);
  }

  lemma OnePointer(os: seq<Obj>, dataSize: nat, e: seq<Byte>, i: nat, v: nat, j: nat)
    requires Orderly(os, dataSize) && dataSize <= |e| && i < |os| && os[i].Buf? && j < |os| && os[j].Buf?
             && v < Range(8)
    ensures os[i].at + RECORD <= |e| && os[j].at + RECORD <= |e|
    ensures Pointer(Put(e, os[i].at + 8, Le(v, 8)), os[j].at) == if i == j then v else Pointer(e, os[j].at)
  {
    hide Embedded, Range;
    if j == i {
      GetPut(e, os[i].at + 8, v, 8);
    } else {
      assert Apart(os[if i < j then i else j], os[if i < j then j else i]);
      PutElsewhere(e, os[i].at + 8, Le(v, 8), os[j].at + 8, os[j].at + 16);
    }
  }

  // ---- the sender ----

  /** The pointers a sender wrote, with the first n replaced by offsets of the copies. */
  ghost function Staged(os: seq<Obj>, extraAt: nat, src: seq<nat>, n: nat): seq<nat>
    requires |src| == |os|
  {
    seq(|os|, j requires 0 <= j < |os| => if j < n then Place(os, extraAt, j) else src[j])
  }

  /** What object j points at has been copied to its place. */
  ghost predicate CopyOf(guest: Guest, os: seq<Obj>, l: Layout, src: seq<nat>, e: seq<Byte>, j: nat)
    requires |src| == |os| && j < |os| && os[j].Buf?
  {
    var p := Place(os, l.extraAt, j);
    p + os[j].len <= |e| && e[p..p + os[j].len] == Fetch(guest, src[j], os[j].len)
  }

  ghost predicate Copied(guest: Guest, os: seq<Obj>, l: Layout, src: seq<nat>, e: seq<Byte>, n: nat)
    requires |src| == |os| && n <= |os|
  {
    forall j :: 0 <= j < n && os[j].Buf? ==> CopyOf(guest, os, l, src, e, j)
  }

  /** The first n objects of parcel d have been gathered, giving e. */
  ghost predicate Gathered(guest: Guest, os: seq<Obj>, l: Layout, d: seq<Byte>, src: seq<nat>, e: seq<Byte>, n: nat) {
    && |src| == |os| && n <= |os| && PointersAre(os, d, src)
    && OnlyPointers(os, l, d, e)
    && PointersAre(os, e, Staged(os, l.extraAt, src, n))
    && Copied(guest, os, l, src, e, n)
  }

  lemma CopiesKept(guest: Guest, os: seq<Obj>, l: Layout, src: seq<nat>, e: seq<Byte>, i: nat)
    requires |src| == |os| && i < |os| && os[i].Buf? && Copied(guest, os, l, src, e, i)
    requires Place(os, l.extraAt, i) + os[i].len <= |e|
    ensures Copied(guest, os, l, src, Put(e, Place(os, l.extraAt, i), Fetch(guest, src[i], os[i].len)), i + 1)
  {
    var p, bytes := Place(os, l.extraAt, i), Fetch(guest, src[i], os[i].len);
    var e' := Put(e, p, bytes);
    assert CopyOf(guest, os, l, src, e', i);
    hide CopyOf;
    forall j | 0 <= j < i && os[j].Buf?
      ensures CopyOf(guest, os, l, src, e', j)
    {
      PlacesGrow(os, l.extraAt, j, i);
      CopyKept(guest, os, l, src, e, j, p, bytes);
    }
  }

  lemma CopyKept(guest: Guest, os: seq<Obj>, l: Layout, src: seq<nat>, e: seq<Byte>, j: nat, p: nat, bytes: seq<Byte>)
    requires |src| == |os| && j < |os| && os[j].Buf? && CopyOf(guest, os, l, src, e, j)
    requires Place(os, l.extraAt, j) + os[j].len <= p && p + |bytes| <= |e|
    ensures CopyOf(guest, os, l, src, Put(e, p, bytes), j)
  {
    hide Place;
    PutElsewhere(e, p, bytes, Place(os, l.extraAt, j), Place(os, l.extraAt, j) + os[j].len);
  }

  lemma CopiesBelow(guest: Guest, os: seq<Obj>, l: Layout, src: seq<nat>, e: seq<Byte>, e': seq<Byte>, n: nat)
    requires |src| == |os| && n <= |os| && Copied(guest, os, l, src, e, n)
    requires |e| == |e'| && l.extraAt <= |e| && e'[l.extraAt..] == e[l.extraAt..]
    ensures Copied(guest, os, l, src, e', n)
  {
    hide Place;
    forall j | 0 <= j < n && os[j].Buf?
      ensures CopyOf(guest, os, l, src, e', j)
    {
      assert CopyOf(guest, os, l, src, e, j);
      SliceBelow(e, e', l.extraAt, Place(os, l.extraAt, j), Place(os, l.extraAt, j) + os[j].len);
    }
  }

  lemma SliceBelow(e: seq<Byte>, e': seq<Byte>, x: nat, lo: nat, hi: nat)
    requires |e| == |e'| && x <= lo <= hi <= |e| && e'[x..] == e[x..]
    ensures e'[lo..hi] == e[lo..hi]
  {
    assert forall k :: lo <= k < hi ==> e'[k] == e'[x..][k - x] && e[k] == e[x..][k - x];
  }

  lemma GatherStep(guest: Guest, os: seq<Obj>, l: Layout, d: seq<Byte>, src: seq<nat>, e: seq<Byte>, i: nat)
    requires Orderly(os, l.dataSize) && l.dataSize <= l.extraAt && l.total < Range(8)
    requires Gathered(guest, os, l, d, src, e, i) && i < |os| && os[i].Buf?
    requires Place(os, l.extraAt, i) + os[i].len <= l.total == |e| && os[i].at + RECORD <= |e|
    ensures var p := Place(os, l.extraAt, i);
            var e1 := Put(e, p, Fetch(guest, src[i], os[i].len));
            Gathered(guest, os, l, d, src, Put(e1, os[i].at + 8, Le(p, 8)), i + 1)
  {
    hide Orderly, OnlyPointers, PointersAre, Copied;
    var p, bytes := Place(os, l.extraAt, i), Fetch(guest, src[i], os[i].len);
    var e1 := Put(e, p, bytes);
    var ps := Staged(os, l.extraAt, src, i);
    ExtraWrite(os, l, d, e, ps, p, bytes);
    CopiesKept(guest, os, l, src, e, i);
    FieldWrite(os, l, d, e1, ps, i, p);
    CopiesBelow(guest, os, l, src, e1, Put(e1, os[i].at + 8, Le(p, 8)), i + 1);
    assert Staged(os, l.extraAt, src, i + 1) == ps[i := p];
  }

  lemma GatherSkip(guest: Guest, os: seq<Obj>, l: Layout, d: seq<Byte>, src: seq<nat>, e: seq<Byte>, i: nat)
    requires Gathered(guest, os, l, d, src, e, i) && i < |os| && !os[i].Buf?
    ensures Gathered(guest, os, l, d, src, e, i + 1)
  {
    hide OnlyPointers;
  }

  /** Object j does not fit, or points at nothing. */
  ghost predicate Refused(guest: Guest, os: seq<Obj>, l: Layout, src: seq<nat>, j: nat)
    requires |src| == |os| && j < |os|
  {
    os[j].Buf? && (Place(os, l.extraAt, j) + os[j].len > l.total || !guest.mapped(src[j]))
  }

  /** Why the parcel is refused: what is wrong with the first object there is something wrong with. */
  ghost predicate Verdict(guest: Guest, os: seq<Obj>, l: Layout, src: seq<nat>, n: nat, err: Error)
    requires |src| == |os| && n <= |os|
  {
    if err == None then forall j :: 0 <= j < n ==> !Refused(guest, os, l, src, j)
    else exists j ::
           && 0 <= j < n && Refused(guest, os, l, src, j)
           && (forall k :: 0 <= k < j ==> !Refused(guest, os, l, src, k))
           && err == if Place(os, l.extraAt, j) + os[j].len > l.total then NoMemory else Fault
  }

  /** The pointers of a parcel as it stands. */
  ghost function Sources(os: seq<Obj>, d: seq<Byte>): (src: seq<nat>)
    ensures |src| == |os|
    ensures (forall j :: 0 <= j < |os| && os[j].Buf? ==> os[j].at + RECORD <= |d|) ==> PointersAre(os, d, src)
  {
    seq(|os|, j requires 0 <= j < |os| => if os[j].Buf? && os[j].at + RECORD <= |d| then Pointer(d, os[j].at) else 0)
  }

  method Store(a: array<Byte>, at: nat, bytes: seq<Byte>)
    requires at + |bytes| <= a.Length
    modifies a
    ensures a[..] == Put(old(a[..]), at, bytes)
  {
    forall k | 0 <= k < |bytes| {
      a[at + k] := bytes[k];
    }
  }

  /** One turn of the sender's loop: the verdict, the bytes, and where the next copy goes. */
  function Turn(guest: Guest, l: Layout, e: seq<Byte>, i: nat, put: nat): (r: (Error, seq<Byte>, nat))
    requires Laid(l, e) && i < l.n && put >= l.extraAt
    ensures |r.1| == |e| && r.2 >= l.extraAt
  {
    var o := ObjAt(e, l, i);
    if !o.Buf? then (None, e, put)
    else if put + o.len > l.total then (NoMemory, e, put)
    else if !guest.mapped(Pointer(e, o.at)) then (Fault, e, put)
    else (None, Put(Put(e, put, Fetch(guest, Pointer(e, o.at), o.len)), o.at + 8, Le(put, 8)),
          put + Basics.Align8(o.len))
  }

  method GatherOne(guest: Guest, data: array<Byte>, l: Layout, i: nat, put: nat) returns (err: Error, put': nat)
    requires Laid(l, data[..]) && i < l.n && put >= l.extraAt
    modifies data
    ensures (err, data[..], put') == Turn(guest, l, old(data[..]), i, put)
  {
    hide Put, Get, Le;
    var o := ObjAt(data[..], l, i);
    if !o.Buf? {
      return None, put;
    }
    if put + o.len > l.total {
      return NoMemory, put;
    }
    var from := Pointer(data[..], o.at);
    if !guest.mapped(from) {
      return Fault, put;
    }
    Store(data, put, Fetch(guest, from, o.len));
    Store(data, o.at + 8, Le(put, 8));
    return None, put + Basics.Align8(o.len);
  }

  lemma TurnKeeps(guest: Guest, os: seq<Obj>, l: Layout, d: seq<Byte>, src: seq<nat>, e: seq<Byte>, i: nat, put: nat)
    requires Laid(l, d) && Laid(l, e) && os == Parse(d, l) && Orderly(os, l.dataSize) && i < l.n && l.total < Range(8)
    requires Gathered(guest, os, l, d, src, e, i) && Verdict(guest, os, l, src, i, None)
             && put == Place(os, l.extraAt, i)
    ensures var (err, e', put') := Turn(guest, l, e, i, put);
            if err != None then Verdict(guest, os, l, src, |os|, err)
            else
              && Gathered(guest, os, l, d, src, e', i + 1) && Verdict(guest, os, l, src, i + 1, None)
              && put' == Place(os, l.extraAt, i + 1)
  {
    hide Orderly, Verdict, Refused, Put, Pointer, ObjAt, Parse;
    assert OnlyPointers(os, l, d, e);
    ObjKept(os, l, d, e, i);
    VerdictStep(guest, os, l, src, i);
    if os[i].Buf? {
      BufFits(os, l.dataSize, i);
      StillSource(os, l, e, src, i);
      if put + os[i].len <= l.total {
        hide Gathered;
        GatherStep(guest, os, l, d, src, e, i);
      }
    } else {
      hide Gathered;
      GatherSkip(guest, os, l, d, src, e, i);
    }
  }

  lemma VerdictStep(guest: Guest, os: seq<Obj>, l: Layout, src: seq<nat>, i: nat)
    requires |src| == |os| && i < |os| && Verdict(guest, os, l, src, i, None)
    ensures !os[i].Buf? ==> Verdict(guest, os, l, src, i + 1, None)
    ensures os[i].Buf? ==>
              if Place(os, l.extraAt, i) + os[i].len > l.total then Verdict(guest, os, l, src, |os|, NoMemory)
              else if !guest.mapped(src[i]) then Verdict(guest, os, l, src, |os|, Fault)
              else Verdict(guest, os, l, src, i + 1, None)
  {
    hide Place;
    var bad := Refused(guest, os, l, src, i);
  }

  lemma StillSource(os: seq<Obj>, l: Layout, e: seq<Byte>, src: seq<nat>, i: nat)
    requires |src| == |os| && i < |os| && os[i].Buf? && os[i].at + RECORD <= |e|
             && PointersAre(os, e, Staged(os, l.extraAt, src, i))
    ensures Pointer(e, os[i].at) == src[i]
  {
  }

  /** The sender's half: every buffer is copied in after the offsets and its pointer
      becomes the offset of the copy. */
  method Gather(guest: Guest, data: array<Byte>, l: Layout) returns (err: Error)
    requires Laid(l, data[..]) && l.total <= PAYLOAD
    modifies data
    ensures var d := old(data[..]);
            var os := Parse(d, l);
            Orderly(os, l.dataSize) ==>
              && Verdict(guest, os, l, Sources(os, d), |os|, err)
              && (err == None ==> Gathered(guest, os, l, d, Sources(os, d), data[..], |os|))
  {
    ghost var d := data[..];
    ghost var os := Parse(d, l);
    ghost var src := Sources(os, d);
    ghost var good := Orderly(os, l.dataSize);
    if good {
      NothingGathered(guest, os, l, d);
    }
    WordRange();
    hide Orderly, Gathered, Verdict, Parse, Sources, Turn, Range;
    err := None;
    var put, i := l.extraAt, 0;
    while i < l.n
      invariant err == None && 0 <= i <= l.n == |os| && Laid(l, data[..]) && put >= l.extraAt && |src| == |os|
      invariant good ==> put == Place(os, l.extraAt, i)
      invariant good ==> Gathered(guest, os, l, d, src, data[..], i) && Verdict(guest, os, l, src, i, None)
    {
      if good {
        TurnKeeps(guest, os, l, d, src, data[..], i, put);
      }
      err, put := GatherOne(guest, data, l, i, put);
      if err != None {
        return;
      }
      i := i + 1;
    }
  }

  lemma WordRange()
    ensures PAYLOAD < Range(8) && Range(8) == 0x1_0000_0000_0000_0000 && Range(4) == 0x1_0000_0000
  {
    assert Range(4) == 0x1_0000_0000;
  }

  lemma NothingGathered(guest: Guest, os: seq<Obj>, l: Layout, d: seq<Byte>)
    requires Laid(l, d) && os == Parse(d, l) && Orderly(os, l.dataSize)
    ensures Gathered(guest, os, l, d, Sources(os, d), d, 0) && Verdict(guest, os, l, Sources(os, d), 0, None)
  {
    hide Apart, Embedded, Pointer;
    assert Staged(os, l.extraAt, Sources(os, d), 0) == Sources(os, d);
  }
}
