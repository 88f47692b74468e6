/** A parcel all the way: its objects renamed and its buffers gathered by the sender, its copy placed in the
    receiver's arena and given its addresses there.
 */
module BinderCarriage {
  import Basics
  import opened Bytes
  import opened BinderParcel
  import opened BinderScatter
  import Raw = BinderReceived
  import Nodes = BinderNodes
  import Objects = BinderObjects
  import Arenas = BinderArena

  const FLAT := Objects.SIZE

  /** How far an entry of the table of offsets reaches: a buffer object, an object passed by reference,
      or something too near the end of the data to be either. */
  function Reach(o: Obj, dataSize: nat): nat {
    if o.Buf? then RECORD else if o.at + FLAT <= dataSize then FLAT else 4
  }

  ghost predicate Clear(a: Obj, b: Obj, dataSize: nat) {
    a.at + Reach(a, dataSize) <= b.at || b.at + Reach(b, dataSize) <= a.at
  }

  /** No two objects in the data share a byte, and parents come first. */
  ghost predicate Spread(os: seq<Obj>, dataSize: nat) {
    && Orderly(os, dataSize)
    && forall i, j :: 0 <= i < j < |os| && os[i].at + 4 <= dataSize && os[j].at + 4 <= dataSize ==>
      Clear(os[i], os[j], dataSize)
  }

  /** Entry i is an object passed by reference, or could be. */
  ghost predicate IsFlat(os: seq<Obj>, dataSize: nat, i: nat)
    requires i < |os|
  {
    !os[i].Buf? && os[i].at + FLAT <= dataSize
  }

  // ---- renaming leaves the buffers alone ----

  lemma SpreadSeparates(d: seq<Byte>, l: Layout)
    requires Laid(l, d) && Spread(Parse(d, l), l.dataSize)
    ensures Objects.Separate(Objects.Offs(d, l), l.dataSize)
  {
    hide Orderly, Off;
    var os, offs := Parse(d, l), Objects.Offs(d, l);
    assert forall i :: 0 <= i < l.n ==> os[i].at == offs[i];
    forall i, j | 0 <= i < j < l.n && offs[i] + FLAT <= l.dataSize && offs[j] + FLAT <= l.dataSize
      ensures offs[i] + FLAT <= offs[j] || offs[j] + FLAT <= offs[i]
    {
      assert Clear(os[i], os[j], l.dataSize);
    }
  }

  /** Renaming never makes a buffer object and never touches one. */
  lemma SentKind(t: seq<Nodes.Node>, from: nat, to: nat, f: Nodes.Flat, t': seq<Nodes.Node>, g: Nodes.Flat)
    requires Nodes.Sent(t, from, to, f, t', g)
    ensures f.kind == PTR ==> g == f
    ensures f.kind != PTR ==> g.kind != PTR
  {
    hide Nodes.Registered;
  }

  /** The bytes lo..hi of entry i belong to no other object. */
  lemma OwnBytes(os: seq<Obj>, offs: seq<nat>, dataSize: nat, d: seq<Byte>, e: seq<Byte>, i: nat, lo: nat, hi: nat)
    requires Spread(os, dataSize) && |offs| == |os| && (forall j :: 0 <= j < |os| ==> os[j].at == offs[j])
    requires i < |os| && os[i].Buf? && os[i].at + FLAT <= lo <= hi <= os[i].at + RECORD
             && os[i].at + RECORD <= dataSize <= |d|
    requires Objects.Frame(offs, dataSize, d, e, |offs|)
    ensures |e| == |d| && e[lo..hi] == d[lo..hi]
  {
    Objects.FrameSize(offs, dataSize, d, e, |offs|);
    hide Orderly, Objects.Frame;
    forall j, k | 0 <= j < |offs| && lo <= k < hi
      ensures !Objects.Touched(offs, dataSize, j, k)
    {
      if offs[j] + FLAT <= dataSize && j != i {
        assert Clear(os[if i < j then i else j], os[if i < j then j else i], dataSize);
      }
    }
    Objects.UntouchedSlice(offs, dataSize, d, e, |offs|, lo, hi);
  }

  /** Entry i of a renamed parcel is the buffer it was, with the same pointer, or still not a buffer. */
  lemma EntryKept(ts: seq<seq<Nodes.Node>>, from: nat, to: nat, l: Layout, d: seq<Byte>, e: seq<Byte>, i: nat)
    requires Laid(l, d) && Laid(l, e) && Spread(Parse(d, l), l.dataSize) && i < l.n
    requires Objects.Translated(ts, from, to, Objects.Offs(d, l), l.dataSize, d, e, l.n)
    ensures ObjAt(e, l, i) == ObjAt(d, l, i)
    ensures ObjAt(d, l, i).Buf? ==> Pointer(e, ObjAt(d, l, i).at) == Pointer(d, ObjAt(d, l, i).at)
  {
    hide Spread, Objects.Frame, Value, Nodes.Valid, Objects.Small, Nodes.Sent;
    var os, offs := Parse(d, l), Objects.Offs(d, l);
    Objects.OffsetKept(d, e, l, l.n, i);
    var o := offs[i];
    assert Off(e, l, i) == Off(d, l, i) == o == os[i].at;
    if o + FLAT <= l.dataSize {
      assert Objects.Passed(ts[i], ts[i + 1], from, to, o, l.dataSize, d, e);
      SentKind(ts[i], from, to, Objects.FlatAt(d, o), ts[i + 1], Objects.FlatAt(e, o));
      if os[i].Buf? {
        assert Objects.FlatAt(e, o) == Objects.FlatAt(d, o);
        OwnBytes(os, offs, l.dataSize, d, e, i, o + 24, o + 32);
        OwnBytes(os, offs, l.dataSize, d, e, i, o + 32, o + 40);
      }
    }
  }

  lemma RenamedParse(ts: seq<seq<Nodes.Node>>, from: nat, to: nat, l: Layout, d: seq<Byte>, e: seq<Byte>)
    requires Laid(l, d) && Laid(l, e) && Spread(Parse(d, l), l.dataSize)
    requires Objects.Translated(ts, from, to, Objects.Offs(d, l), l.dataSize, d, e, l.n)
    ensures Parse(e, l) == Parse(d, l)
    ensures Sources(Parse(d, l), e) == Sources(Parse(d, l), d)
  {
    hide Spread, Objects.Translated, ObjAt, Pointer, Objects.Offs;
    var os := Parse(d, l);
    forall i | 0 <= i < l.n
      ensures ObjAt(e, l, i) == os[i] && Sources(os, e)[i] == Sources(os, d)[i]
    {
      EntryKept(ts, from, to, l, d, e, i);
    }
  }

  // ---- what arrives ----

  /** The byte is in no buffer's pointer and in no object passed by reference. */
  ghost predicate Plain(os: seq<Obj>, dataSize: nat, k: nat) {
    forall i :: 0 <= i < |os| ==>
      !InField(os[i], k) && !(IsFlat(os, dataSize, i) && os[i].at <= k < os[i].at + FLAT)
  }

  /** What the receiver, endpoint `to`, finds at address `at` of a parcel d that endpoint `from` wrote. */
  ghost predicate Conveyed(guest: Guest, t: seq<Nodes.Node>, t': seq<Nodes.Node>, from: nat, to: nat, os: seq<Obj>,
                           l: Layout, d: seq<Byte>, at: nat, r: seq<Byte>) {
    && |d| == |r| == l.total && Laid(l, r) && Parse(r, l) == os
    && (forall k :: 0 <= k < l.extraAt <= l.total && Plain(os, l.dataSize, k) ==> r[k] == d[k])
    && (forall i :: 0 <= i < |os| && IsFlat(os, l.dataSize, i) ==> Raw.SameMeaning(t, t', from, to, os[i].at, d, r))
    && (forall i :: 0 <= i < |os| && os[i].Buf? ==> AtPlace(os, l, at, r, i))
    && (forall i :: 0 <= i < |os| && os[i].Buf? ==> Inside(os[i], l, at, r))
    && (forall i, j :: 0 <= i < j < |os| && os[i].Buf? && os[j].Buf? ==> InOrder(os[i], os[j], r))
    && (forall i, k :: 0 <= i < |os| && os[i].Buf? && 0 <= k < os[i].len ==> SameByte(guest, os, l, d, at, r, i, k))
    && (forall i :: 0 <= i < |os| && Lasting(os, l, i) ==> LeadsToChild(os, l, at, r, i))
  }

  /** No buffer's pointer is in an object passed by reference. */
  lemma FlatKept(os: seq<Obj>, l: Layout, e: seq<Byte>, r: seq<Byte>, i: nat)
    requires Spread(os, l.dataSize) && l.dataSize <= l.extraAt && OnlyPointers(os, l, e, r)
    requires i < |os| && IsFlat(os, l.dataSize, i)
    ensures |e| == |r| && os[i].at + FLAT <= |e| && Objects.FlatAt(r, os[i].at) == Objects.FlatAt(e, os[i].at)
  {
    hide Value;
    var o := os[i].at;
    forall j, k | 0 <= j < |os| && o <= k < o + FLAT
      ensures !InField(os[j], k)
    {
      if os[j].Buf? {
        assert Clear(os[if i < j then i else j], os[if i < j then j else i], l.dataSize);
      }
    }
    hide Spread;
    RangeKept(os, l, e, r, o, o + 4);
    RangeKept(os, l, e, r, o + 4, o + 8);
    RangeKept(os, l, e, r, o + 8, o + 16);
    RangeKept(os, l, e, r, o + 16, o + 24);
  }

  lemma MeaningArrives(ts: seq<seq<Nodes.Node>>, from: nat, to: nat, l: Layout, d: seq<Byte>, e: seq<Byte>,
                       r: seq<Byte>, i: nat)
    requires Laid(l, d) && Laid(l, e) && Spread(Parse(d, l), l.dataSize) && i < l.n
             && IsFlat(Parse(d, l), l.dataSize, i)
    requires Objects.Translated(ts, from, to, Objects.Offs(d, l), l.dataSize, d, e, l.n)
             && OnlyPointers(Parse(d, l), l, e, r)
    ensures Raw.SameMeaning(ts[0], ts[l.n], from, to, Parse(d, l)[i].at, d, r)
  {
    hide Spread, Objects.Translated, OnlyPointers, Nodes.Denote, Objects.FlatAt, Raw.ObjectAt, Off;
    var os, offs := Parse(d, l), Objects.Offs(d, l);
    assert os[i].at == offs[i];
    Objects.MessageKeeps(ts, from, to, offs, l.dataSize, d, e, l.n, i);
    FlatKept(os, l, e, r, i);
    FlatRead(d, os[i].at);
    FlatRead(r, os[i].at);
  }

  lemma FlatRead(d: seq<Byte>, o: nat)
    requires o + FLAT <= |d|
    ensures Raw.ObjectAt(d, o) == Objects.FlatAt(d, o)
  {
    hide Value;
  }

  /** An object that reads the same is the same bytes. */
  lemma FlatBytesSame(d: seq<Byte>, e: seq<Byte>, o: nat)
    requires o + FLAT <= |d| == |e| && Objects.FlatAt(d, o) == Objects.FlatAt(e, o)
    ensures forall k :: o <= k < o + FLAT ==> d[k] == e[k]
  {
    hide Value;
    ValueInjective(d[o..o + 4], e[o..o + 4]);
    ValueInjective(d[o + 4..o + 8], e[o + 4..o + 8]);
    ValueInjective(d[o + 8..o + 16], e[o + 8..o + 16]);
    ValueInjective(d[o + 16..o + 24], e[o + 16..o + 24]);
    forall k | o <= k < o + FLAT
      ensures d[k] == e[k]
    {
      if k < o + 4 {
        SliceAt(d, e, o, o + 4, k);
      } else if k < o + 8 {
        SliceAt(d, e, o + 4, o + 8, k);
      } else if k < o + 16 {
        SliceAt(d, e, o + 8, o + 16, k);
      } else {
        SliceAt(d, e, o + 16, o + 24, k);
      }
    }
  }

  lemma SliceAt(d: seq<Byte>, e: seq<Byte>, lo: nat, hi: nat, k: nat)
    requires lo <= k < hi <= |d| == |e| && d[lo..hi] == e[lo..hi]
    ensures d[k] == e[k]
  {
    assert d[k] == d[lo..hi][k - lo] && e[k] == e[lo..hi][k - lo];
  }

  /** Renaming does not touch a buffer object, though it looks at it. */
  lemma BufferUntouched(ts: seq<seq<Nodes.Node>>, from: nat, to: nat, l: Layout, d: seq<Byte>, e: seq<Byte>, i: nat)
    requires Laid(l, d) && Laid(l, e) && i < l.n && ObjAt(d, l, i).Buf?
    requires Objects.Translated(ts, from, to, Objects.Offs(d, l), l.dataSize, d, e, l.n)
    ensures var o := ObjAt(d, l, i).at; forall k :: o <= k < o + FLAT ==> k < |d| == |e| && d[k] == e[k]
  {
    hide Objects.Frame, Value, Nodes.Valid, Objects.Small, Nodes.Sent;
    var o := ObjAt(d, l, i).at;
    assert Objects.Offs(d, l)[i] == o;
    assert Objects.Passed(ts[i], ts[i + 1], from, to, o, l.dataSize, d, e);
    SentKind(ts[i], from, to, Objects.FlatAt(d, o), ts[i + 1], Objects.FlatAt(e, o));
    FlatBytesSame(d, e, o);
  }

  lemma PlainKept(ts: seq<seq<Nodes.Node>>, from: nat, to: nat, l: Layout, d: seq<Byte>, e: seq<Byte>, r: seq<Byte>,
                  k: nat)
    requires Laid(l, d) && Laid(l, e) && Objects.Translated(ts, from, to, Objects.Offs(d, l), l.dataSize, d, e, l.n)
    requires OnlyPointers(Parse(d, l), l, e, r) && k < l.extraAt && Plain(Parse(d, l), l.dataSize, k)
    ensures k < |d| == |r| && r[k] == d[k]
  {
    hide Off;
    var os, offs := Parse(d, l), Objects.Offs(d, l);
    assert forall i :: 0 <= i < l.n ==> os[i].at == offs[i];
    if i :| 0 <= i < l.n && Objects.Touched(offs, l.dataSize, i, k) {
      assert os[i].Buf?;
      BufferUntouched(ts, from, to, l, d, e, i);
    }
  }

  /** Neither half changes what the table of offsets names. */
  lemma ParseArrives(l: Layout, os: seq<Obj>, e: seq<Byte>, r: seq<Byte>)
    requires Laid(l, e) && os == Parse(e, l) && Orderly(os, l.dataSize) && OnlyPointers(os, l, e, r)
    ensures Laid(l, r) && Parse(r, l) == os
  {
    hide Orderly, ObjAt;
    Sizes(os, l, e, r);
    forall i | 0 <= i < l.n
      ensures ObjAt(r, l, i) == os[i]
    {
      ObjKept(os, l, e, r, i);
    }
  }

  lemma ByteArrives(guest: Guest, os: seq<Obj>, l: Layout, d: seq<Byte>, e: seq<Byte>, at: nat, r: seq<Byte>, i: nat,
                    k: nat)
    requires i < |os| && os[i].Buf? && SameByte(guest, os, l, e, at, r, i, k) && |d| == |e|
             && Sources(os, e) == Sources(os, d)
    ensures SameByte(guest, os, l, d, at, r, i, k)
  {
    hide InSlot, Pointer;
    assert Sources(os, e)[i] == Pointer(e, os[i].at) && Sources(os, d)[i] == Pointer(d, os[i].at);
  }

  /** Renamed, gathered and scattered, the parcel is what was sent. */
  lemma Arrives(guest: Guest, ts: seq<seq<Nodes.Node>>, from: nat, to: nat, l: Layout, d: seq<Byte>, e: seq<Byte>,
                at: nat, r: seq<Byte>)
    requires Laid(l, d) && Laid(l, e) && Spread(Parse(d, l), l.dataSize)
    requires Objects.Translated(ts, from, to, Objects.Offs(d, l), l.dataSize, d, e, l.n)
    requires PointerGraph(guest, Parse(d, l), l, e, at, r)
    ensures Conveyed(guest, ts[0], ts[l.n], from, to, Parse(d, l), l, d, at, r)
  {
    assert |ts| == l.n + 1;
    hide Spread, Objects.Translated, OnlyPointers, SameByte, Raw.SameMeaning, Plain, LeadsToChild, Inside, InOrder,
         Objects.Offs, Parse, Lasting;
    var os := Parse(d, l);
    RenamedParse(ts, from, to, l, d, e);
    forall k: nat | k < l.extraAt && Plain(os, l.dataSize, k)
      ensures |d| == |r| && r[k] == d[k]
    {
      PlainKept(ts, from, to, l, d, e, r, k);
    }
    SpreadOrderly(os, l.dataSize);
    ParseArrives(l, os, e, r);
    forall i | 0 <= i < |os| && IsFlat(os, l.dataSize, i)
      ensures Raw.SameMeaning(ts[0], ts[l.n], from, to, os[i].at, d, r)
    {
      MeaningArrives(ts, from, to, l, d, e, r, i);
    }
    forall i, k | 0 <= i < |os| && os[i].Buf? && 0 <= k < os[i].len
      ensures SameByte(guest, os, l, d, at, r, i, k)
    {
      ByteArrives(guest, os, l, d, e, at, r, i, k);
    }
  }

  // ---- the same in the bytes alone ----

  /** How entry i is read. */
  lemma EntryRead(d: seq<Byte>, l: Layout, i: nat)
    requires Laid(l, d) && i < l.n
    ensures var o, x := Raw.Entry(d, l, i), ObjAt(d, l, i);
            && x.at == o && (x.Buf? <==> Raw.IsBuffer(d, l, i))
            && (x.Buf? ==> x == Buf(o, Raw.LengthAt(d, o), Get(d, o + 4, 4) % 2 ==
                                      1, Raw.ParentAt(d, o), Raw.OffsetAt(d, o)))
  {
    hide Value;
  }

  lemma AllRead(d: seq<Byte>, l: Layout)
    requires Laid(l, d)
    ensures var os := Parse(d, l);
            forall i :: 0 <= i < l.n ==>
              && os[i].at == Raw.Entry(d, l, i) && (os[i].Buf? <==> Raw.IsBuffer(d, l, i))
              && (IsFlat(os, l.dataSize, i) <==> Raw.IsObject(d, l, i))
              && (Embedded(os, l.dataSize, i) <==> Raw.HasParent(d, l, i))
              && Reach(os[i], l.dataSize) == Raw.Width(d, l, i)
              && (os[i].Buf? ==>
                    && os[i].len == Raw.LengthAt(d, os[i].at) && os[i].parent == Raw.ParentAt(d, os[i].at)
                    && os[i].parentOffset == Raw.OffsetAt(d, os[i].at))
  {
    var os := Parse(d, l);
    hide ObjAt, Raw.Entry, Raw.LengthAt, Raw.ParentAt, Raw.OffsetAt, Get;
    forall i | 0 <= i < l.n
      ensures os[i].at == Raw.Entry(d, l, i) && (os[i].Buf? <==> Raw.IsBuffer(d, l, i))
      ensures os[i].Buf? ==>
                os[i] == Buf(Raw.Entry(d, l, i), Raw.LengthAt(d, Raw.Entry(d, l, i)),
                             Get(d, Raw.Entry(d, l, i) + 4, 4) % 2 == 1, Raw.ParentAt(d, Raw.Entry(d, l, i)),
                             Raw.OffsetAt(d, Raw.Entry(d, l, i)))
    {
      EntryRead(d, l, i);
    }
  }

  lemma WellLaidSpreads(d: seq<Byte>, l: Layout)
    requires Laid(l, d) && Raw.WellLaid(d, l)
    ensures Spread(Parse(d, l), l.dataSize)
  {
    var os := Parse(d, l);
    AllRead(d, l);
    hide Parse, Raw.Entry, Raw.Width, Raw.HasParent, Raw.IsBuffer, Raw.IsObject, Raw.ParentAt, Get;
    forall i, j | 0 <= i < j < |os| && os[i].at + 4 <= l.dataSize && os[j].at + 4 <= l.dataSize
      ensures Clear(os[i], os[j], l.dataSize)
    {
      assert Raw.Entry(d, l, i) + 4 <= l.dataSize && Raw.Entry(d, l, j) + 4 <= l.dataSize;
    }
    forall i | 0 <= i < |os| && os[i].Buf?
      ensures os[i].at + RECORD <= l.dataSize
    {
      BufferFits(d, l, i);
    }
  }

  lemma BufferFits(d: seq<Byte>, l: Layout, i: nat)
    requires Laid(l, d) && i < l.n && Raw.IsBuffer(d, l, i)
    ensures Raw.Entry(d, l, i) + RECORD <= l.dataSize
  {
  }

  /** The place a child's address belongs is the slot it is stored in. */
  lemma HolesAreSlots(os: seq<Obj>, l: Layout, d: seq<Byte>, at: nat, r: seq<Byte>, i: nat)
    requires Laid(l, d) && Laid(l, r) && os == Parse(d, l) && Spread(os, l.dataSize) && i < l.n
    requires forall j :: 0 <= j < |os| && os[j].Buf? ==> AtPlace(os, l, at, r, j)
    ensures HasSlot(os, l, i) <==> Raw.Holed(d, l, at, r, i)
    ensures HasSlot(os, l, i) ==> Slot(os, l, i) == Raw.Hole(d, l, at, r, i)
  {
    AllRead(d, l);
    hide Parse, Raw.Entry, Raw.HasParent, Place, Apart, Clear, Get, Raw.ParentAt, Raw.OffsetAt;
    if Embedded(os, l.dataSize, i) {
      var q := os[i].parent;
      assert q < i && os[q].Buf? && AtPlace(os, l, at, r, q);
      assert Raw.PointerAt(r, os[q].at) == Pointer(r, os[q].at);
    }
  }

  /** The objects os are those of the bytes d, and their slots in r are where the bytes say. */
  ghost predicate Bridge(os: seq<Obj>, l: Layout, d: seq<Byte>, at: nat, r: seq<Byte>) {
    && Laid(l, d) && Laid(l, r) && |os| == l.n
    && (forall i :: 0 <= i < l.n ==> Spans(os, l, d, i) && Slots(os, l, d, at, r, i))
  }

  ghost predicate Spans(os: seq<Obj>, l: Layout, d: seq<Byte>, i: nat)
    requires Laid(l, d) && |os| == l.n && i < l.n
  {
    && os[i].at == Raw.Entry(d, l, i) && (os[i].Buf? <==> Raw.IsBuffer(d, l, i))
    && (IsFlat(os, l.dataSize, i) <==> Raw.IsObject(d, l, i))
    && (os[i].Buf? ==> os[i].at + 40 <= l.dataSize && os[i].len == Raw.LengthAt(d, os[i].at))
  }

  ghost predicate Slots(os: seq<Obj>, l: Layout, d: seq<Byte>, at: nat, r: seq<Byte>, i: nat)
    requires Laid(l, d) && Laid(l, r) && |os| == l.n && i < l.n
  {
    && (HasSlot(os, l, i) <==> Raw.Holed(d, l, at, r, i))
    && (HasSlot(os, l, i) ==> Slot(os, l, i) == Raw.Hole(d, l, at, r, i))
  }

  lemma Bridges(os: seq<Obj>, l: Layout, d: seq<Byte>, at: nat, r: seq<Byte>)
    requires Laid(l, d) && Laid(l, r) && os == Parse(d, l) && Spread(os, l.dataSize)
    requires forall j :: 0 <= j < |os| && os[j].Buf? ==> AtPlace(os, l, at, r, j)
    ensures Bridge(os, l, d, at, r)
  {
    AllRead(d, l);
    hide Spread, Parse, Raw.Entry, Raw.Hole, Raw.Holed, HasSlot, Slot, Raw.IsObject, IsFlat, Get, Raw.LengthAt, AtPlace,
         Raw.IsBuffer, Embedded, Raw.HasParent, Reach, Raw.Width;
    forall i | 0 <= i < l.n
      ensures Spans(os, l, d, i) && Slots(os, l, d, at, r, i)
    {
      HolesAreSlots(os, l, d, at, r, i);
      if os[i].Buf? {
        BufferFits(d, l, i);
      }
    }
  }

  lemma OrdinaryIsPlain(os: seq<Obj>, l: Layout, d: seq<Byte>, at: nat, r: seq<Byte>, k: nat)
    requires Bridge(os, l, d, at, r) && Raw.Ordinary(d, l, k)
    ensures Plain(os, l.dataSize, k)
  {
    hide Slots, Raw.IsBuffer, Raw.IsObject, Raw.Entry, IsFlat;
    forall i | 0 <= i < |os|
      ensures !InField(os[i], k) && !(IsFlat(os, l.dataSize, i) && os[i].at <= k < os[i].at + FLAT)
    {
      assert Spans(os, l, d, i);
    }
  }

  lemma ByteCopied(guest: Guest, os: seq<Obj>, l: Layout, d: seq<Byte>, at: nat, r: seq<Byte>, i: nat, k: nat)
    requires Bridge(os, l, d, at, r) && i < l.n && os[i].Buf? && SameByte(guest, os, l, d, at, r, i, k)
    ensures Raw.IsBuffer(d, l, i) && Raw.Copied(guest, d, l, at, r, i, k)
  {
    hide Raw.IsBuffer, Raw.IsObject, Raw.Entry, IsFlat, HasSlot, Slot, Raw.Holed, Raw.Hole, Get;
    assert Spans(os, l, d, i);
    var p := Pointer(r, os[i].at) - at + k;
    if Raw.Unholed(d, l, at, r, p) {
      forall c | 0 <= c < |os|
        ensures !InSlot(os, l, c, p)
      {
        assert Slots(os, l, d, at, r, c);
      }
    }
  }

  lemma HoleFilled(os: seq<Obj>, l: Layout, d: seq<Byte>, at: nat, r: seq<Byte>, i: nat)
    requires Bridge(os, l, d, at, r) && i < l.n && Raw.Holed(d, l, at, r, i) && Raw.Unspoilt(d, l, at, r, i)
    requires forall j :: 0 <= j < |os| && os[j].Buf? ==> AtPlace(os, l, at, r, j)
    requires Spread(os, l.dataSize) && (Lasting(os, l, i) ==> LeadsToChild(os, l, at, r, i))
    ensures Raw.IsBuffer(d, l, i) && Get(r, Raw.Hole(d, l, at, r, i), 8) == Raw.PointerAt(r, Raw.Entry(d, l, i))
  {
    hide Raw.IsBuffer, Raw.IsObject, Raw.Entry, IsFlat, Raw.Holed, Raw.Hole, Get, Apart, Clear, Place;
    assert Spans(os, l, d, i) && Slots(os, l, d, at, r, i);
    forall j | i < j < |os|
      ensures !SlotsMeet(os, l, i, j)
    {
      assert Slots(os, l, d, at, r, j);
    }
    assert AtPlace(os, l, at, r, os[i].parent);
  }

  /** So, said of the bytes alone, the receiver finds what was sent. */
  lemma ConveyedReceived(guest: Guest, t: seq<Nodes.Node>, t': seq<Nodes.Node>, from: nat, to: nat, l: Layout,
                         d: seq<Byte>, at: nat, r: seq<Byte>)
    requires Laid(l, d) && Raw.WellLaid(d, l) && Conveyed(guest, t, t', from, to, Parse(d, l), l, d, at, r)
    ensures Raw.Received(guest, t, t', from, to, l, d, at, r)
  {
    hide Spread, Parse, Raw.Entry, Raw.WellLaid, Raw.Hole, HasSlot, Slot, IsFlat, Get, Raw.SameMeaning, Place, Plain,
         Raw.Ordinary, SameByte, Raw.Copied, Raw.Unspoilt, Lasting, LeadsToChild, Slots;
    var os := Parse(d, l);
    WellLaidSpreads(d, l);
    Bridges(os, l, d, at, r);
    forall i | 0 <= i < l.n && Raw.IsObject(d, l, i)
      ensures Raw.SameMeaning(t, t', from, to, Raw.Entry(d, l, i), d, r)
    {
      assert Spans(os, l, d, i);
    }
    forall i | 0 <= i < l.n && Raw.IsBuffer(d, l, i)
      ensures at + l.extraAt <= Raw.PointerAt(r, Raw.Entry(d, l, i)) <= at
              + l.total - Raw.LengthAt(d, Raw.Entry(d, l, i))
    {
      assert Spans(os, l, d, i) && Inside(os[i], l, at, r);
    }
    forall i, j | 0 <= i < j < l.n && Raw.IsBuffer(d, l, i) && Raw.IsBuffer(d, l, j)
      ensures Raw.PointerAt(r, Raw.Entry(d, l, i))
              + Raw.LengthAt(d, Raw.Entry(d, l, i)) <= Raw.PointerAt(r, Raw.Entry(d, l, j))
    {
      assert Spans(os, l, d, i) && Spans(os, l, d, j) && InOrder(os[i], os[j], r);
    }
    forall k | 0 <= k < l.extraAt && Raw.Ordinary(d, l, k)
      ensures r[k] == d[k]
    {
      OrdinaryIsPlain(os, l, d, at, r, k);
    }
    forall i, k | 0 <= i < l.n && Raw.IsBuffer(d, l, i) && 0 <= k < Raw.LengthAt(d, Raw.Entry(d, l, i))
      ensures Raw.Copied(guest, d, l, at, r, i, k)
    {
      assert Spans(os, l, d, i) && SameByte(guest, os, l, d, at, r, i, k);
      ByteCopied(guest, os, l, d, at, r, i, k);
    }
    forall i | 0 <= i < l.n && Raw.Holed(d, l, at, r, i) && Raw.Unspoilt(d, l, at, r, i)
      ensures Raw.IsBuffer(d, l, i) && Get(r, Raw.Hole(d, l, at, r, i), 8) == Raw.PointerAt(r, Raw.Entry(d, l, i))
    {
      HoleFilled(os, l, d, at, r, i);
    }
  }

  // ---- the two halves ----

  /** The sender's half, in a message's own record: what is refused, and why, is settled here. */
  method Stage(guest: Guest, node: array<Nodes.Node>, from: nat, to: nat, data: array<Byte>, l: Layout)
    returns (err: Error, told: seq<(nat, nat)>, ghost ts: seq<seq<Nodes.Node>>, ghost e: seq<Byte>)
    requires Nodes.Valid(node[..]) && Objects.Small(node[..]) && Laid(l, data[..])
    modifies node, data
    ensures Nodes.Valid(node[..]) && Objects.Small(node[..]) && Nodes.Grows(old(node[..]), node[..])
            && Laid(l, data[..])
    ensures l.total > PAYLOAD ==> err == NoMemory && data[..] == old(data[..]) && node[..] == old(node[..])
    ensures var d := old(data[..]);
            var os := Parse(d, l);
            l.total <= PAYLOAD && Spread(os, l.dataSize) ==>
              || (err == NoMemory && Nodes.Full(node[..]))
              || (&& Verdict(guest, os, l, Sources(os, d), |os|, err)
                  && Laid(l, e) && Objects.Translated(ts, from, to, Objects.Offs(d, l), l.dataSize, d, e, l.n)
                  && ts[0] == old(node[..]) && ts[l.n] == node[..]
                  && (err == None ==> Gathered(guest, os, l, e, Sources(os, d), data[..], |os|)))
  {
    hide Nodes.Valid, Objects.Small, Nodes.Grows, Nodes.Full, Spread, Orderly, Parse, Sources, Verdict, Gathered,
         Objects.Translated, Objects.Offs, Objects.Separate, Objects.FilledTo, Objects.Entered;
    told, ts, e := [], [], data[..];
    if l.total > PAYLOAD {
      SelfGrows(node[..]);
      return NoMemory, told, ts, e;
    }
    ghost var d := data[..];
    ghost var good := Spread(Parse(d, l), l.dataSize);
    if good {
      SpreadSeparates(d, l);
    }
    var ok;
    ghost var lo, hi;
    ok, told, ts, lo, hi := Objects.TranslateAll(node, from, to, data, l);
    e := data[..];
    if !ok {
      return NoMemory, told, ts, e;
    }
    if good {
      RenamedParse(ts, from, to, l, d, e);
      SpreadOrderly(Parse(d, l), l.dataSize);
    }
    err := Gather(guest, data, l);
  }

  lemma SelfGrows(t: seq<Nodes.Node>)
    ensures Nodes.Grows(t, t)
  {
  }

  lemma SpreadOrderly(os: seq<Obj>, dataSize: nat)
    requires Spread(os, dataSize)
    ensures Orderly(os, dataSize)
  {
  }

  /** The receiver's half: a copy of the staged bytes m in a buffer of the arena, or none if it has no room. */
  method Land(arena: Arenas.Arena, m: array<Byte>, l: Layout) returns (at: nat, dst: array<Byte>)
    requires arena.Valid() && arena.addr + arena.size < 0x1_0000_0000_0000_0000 && Laid(l, m[..])
    modifies arena`brk, arena.allocs
    ensures arena.Valid() && fresh(dst) && |dst[..]| == |m[..]|
    ensures at == 0 <==> old(arena.NoRoom(Room(l))) || old(arena.NoRecord())
    ensures at != 0 ==>
              arena.addr <= at && at + l.total <= arena.addr + arena.size && old(arena.FreeAt(at - arena.addr, Room(l)))
    ensures at != 0 && Ready(Parse(m[..], l), l, m[..], at) ==> Scattered(Parse(m[..], l), l, m[..], at, dst[..], l.n)
  {
    hide arena.Valid, Ready, Scattered, Parse;
    dst := new Byte[m.Length](i requires 0 <= i < m.Length reads m => m[i]);
    assert dst[..] == m[..];
    at := arena.Take(if l.total > 0 then l.total else 8);
    if at != 0 {
      Scatter(dst, l, at);
    }
  }

  /** The bytes of the arena that a parcel takes up. */
  function Room(l: Layout): (n: nat)
    ensures n > 0 && n >= l.total
  {
    Basics.Align8(if l.total > 0 then l.total else 8)
  }

  /** A parcel from the sender's write to the receiver's memory.  With `at` 0 it stays staged. */
  method Carry(guest: Guest, node: array<Nodes.Node>, from: nat, to: nat, data: array<Byte>, l: Layout,
               arena: Arenas.Arena)
    returns (err: Error, told: seq<(nat, nat)>, at: nat, dst: array<Byte>)
    requires Nodes.Valid(node[..]) && Objects.Small(node[..]) && Laid(l, data[..])
    requires arena.Valid() && arena.addr + arena.size < 0x1_0000_0000_0000_0000
    requires (node as object) != arena.allocs && (data as object) != arena.allocs
    modifies node, data, arena`brk, arena.allocs
    ensures Nodes.Valid(node[..]) && Nodes.Grows(old(node[..]), node[..]) && arena.Valid()
    ensures l.total > PAYLOAD ==> err == NoMemory && data[..] == old(data[..]) && node[..] == old(node[..])
    ensures var os := Parse(old(data[..]), l);
            l.total <= PAYLOAD && Spread(os, l.dataSize) ==>
              (err == NoMemory && Nodes.Full(node[..])) || Verdict(guest, os, l, Sources(os, old(data[..])), |os|, err)
    ensures err != None ==> at == 0 && arena.allocs[..] == old(arena.allocs[..])
    ensures err == None ==> (at == 0 <==> old(arena.NoRoom(Room(l))) || old(arena.NoRecord()))
    ensures var d := old(data[..]);
            err == None && at != 0 && Spread(Parse(d, l), l.dataSize) ==>
              && Conveyed(guest, old(node[..]), node[..], from, to, Parse(d, l), l, d, at, dst[..])
              && (Raw.WellLaid(d, l) ==> Raw.Received(guest, old(node[..]), node[..], from, to, l, d, at, dst[..]))
              && arena.addr <= at && at + l.total <= arena.addr + arena.size
                && old(arena.FreeAt(at - arena.addr, Room(l)))
  {
    hide arena.Valid, arena.NoRoom, arena.NoRecord, arena.FreeAt, Nodes.Valid, Objects.Small, Nodes.Grows, Nodes.Full,
         Spread, Parse, Sources, Verdict, Gathered, Scattered, Ready, Objects.Translated, Objects.Offs, Conveyed;
    ghost var d, t := data[..], node[..];
    ghost var ts, e;
    err, told, ts, e := Stage(guest, node, from, to, data, l);
    at, dst := 0, data;
    if err == None {
      ghost var m := data[..];
      at, dst := Land(arena, data, l);
      if at != 0 && Spread(Parse(d, l), l.dataSize) {
        WholeWay(guest, ts, from, to, l, d, e, m, at, dst[..]);
        if Raw.WellLaid(d, l) {
          ConveyedReceived(guest, t, node[..], from, to, l, d, at, dst[..]);
        }
      }
    }
  }

  lemma WholeWay(guest: Guest, ts: seq<seq<Nodes.Node>>, from: nat, to: nat, l: Layout, d: seq<Byte>, e: seq<Byte>,
                 m: seq<Byte>, at: nat, r: seq<Byte>)
    requires Laid(l, d) && Laid(l, e) && Laid(l, m) && at + l.total < 0x1_0000_0000_0000_0000
    requires Spread(Parse(d, l), l.dataSize)
    requires Objects.Translated(ts, from, to, Objects.Offs(d, l), l.dataSize, d, e, l.n)
    requires Gathered(guest, Parse(d, l), l, e, Sources(Parse(d, l), d), m, l.n)
    requires Ready(Parse(m, l), l, m, at) ==> Scattered(Parse(m, l), l, m, at, r, l.n)
    ensures |ts| == l.n + 1 && Conveyed(guest, ts[0], ts[l.n], from, to, Parse(d, l), l, d, at, r)
  {
    assert |ts| == l.n + 1;
    hide Spread, Orderly, Parse, Sources, Gathered, Scattered, Ready, Objects.Translated, Objects.Offs, Conveyed,
         PointerGraph;
    RenamedParse(ts, from, to, l, d, e);
    SpreadOrderly(Parse(d, l), l.dataSize);
    StagedIsReady(guest, l, e, m, at);
    BothHalves(guest, l, e, m, at, r);
    Arrives(guest, ts, from, to, l, d, e, at, r);
  }
}
