/** What the receiver of a parcel is to find, said of the bytes alone: where each field lies, and what it holds. */
module BinderReceived {
  import opened Bytes
  import opened BinderParcel
  import Nodes = BinderNodes

  /** Where entry i of the table of offsets says its object is. */
  function Entry(d: seq<Byte>, l: Layout, i: nat): nat
    requires Laid(l, d) && i < l.n
  {
    Get(d, l.offsAt + 8 * i, 8)
  }

  /** There is a buffer object there: its kind, and forty bytes of data for it. */
  predicate IsBuffer(d: seq<Byte>, l: Layout, i: nat)
    requires Laid(l, d) && i < l.n
  {
    Entry(d, l, i) + 40 <= l.dataSize && Get(d, Entry(d, l, i), 4) == 0x70742a85
  }

  /** There is an object passed by reference, or what could be one. */
  predicate IsObject(d: seq<Byte>, l: Layout, i: nat)
    requires Laid(l, d) && i < l.n
  {
    !IsBuffer(d, l, i) && Entry(d, l, i) + 24 <= l.dataSize
  }

  /** How many bytes of the data are entry i's. */
  function Width(d: seq<Byte>, l: Layout, i: nat): nat
    requires Laid(l, d) && i < l.n
  {
    if IsBuffer(d, l, i) then 40 else if IsObject(d, l, i) then 24 else 4
  }

  /** The pointer of the buffer object at o: eight bytes, after its kind and flags. */
  function PointerAt(d: seq<Byte>, o: nat): nat
    requires o + 40 <= |d|
  {
    Get(d, o + 8, 8)
  }

  /** Its length. */
  function LengthAt(d: seq<Byte>, o: nat): nat
    requires o + 40 <= |d|
  {
    Get(d, o + 16, 8)
  }

  /** The index of its parent. */
  function ParentAt(d: seq<Byte>, o: nat): nat
    requires o + 40 <= |d|
  {
    Get(d, o + 24, 8)
  }

  /** How far into its parent's buffer its address belongs. */
  function OffsetAt(d: seq<Byte>, o: nat): nat
    requires o + 40 <= |d|
  {
    Get(d, o + 32, 8)
  }

  /** Entry i is a buffer whose address belongs in its parent's: the low bit of its flags is set, and its parent is in
      the table and in the data. */
  predicate HasParent(d: seq<Byte>, l: Layout, i: nat)
    requires Laid(l, d) && i < l.n
  {
    && IsBuffer(d, l, i) && Get(d, Entry(d, l, i) + 4, 4) % 2 == 1
    && ParentAt(d, Entry(d, l, i)) < l.n && Entry(d, l, ParentAt(d, Entry(d, l, i))) + 40 <= l.dataSize
  }

  /** No two objects share a byte, and parents are buffers that come first. */
  ghost predicate WellLaid(d: seq<Byte>, l: Layout)
    requires Laid(l, d)
  {
    && (forall i, j :: 0 <= i < j < l.n && Entry(d, l, i) + 4 <= l.dataSize && Entry(d, l, j) + 4 <= l.dataSize ==>
          || Entry(d, l, i) + Width(d, l, i) <= Entry(d, l, j)
          || Entry(d, l, j) + Width(d, l, j) <= Entry(d, l, i))
    && (forall i :: 0 <= i < l.n && HasParent(d, l, i) ==>
          ParentAt(d, Entry(d, l, i)) < i && IsBuffer(d, l, ParentAt(d, Entry(d, l, i))))
  }

  /** Where, in the bytes received at address `at`, the address of buffer i belongs: as far into its parent's buffer as
      it says, and that buffer where its parent's pointer leads. */
  function Hole(d: seq<Byte>, l: Layout, at: nat, r: seq<Byte>, i: nat): int
    requires Laid(l, d) && Laid(l, r) && i < l.n && HasParent(d, l, i)
  {
    var o := Entry(d, l, i);
    PointerAt(r, Entry(d, l, ParentAt(d, o))) - at + OffsetAt(d, o)
  }

  /** There is such a place, inside what was received. */
  ghost predicate Holed(d: seq<Byte>, l: Layout, at: nat, r: seq<Byte>, i: nat)
    requires Laid(l, d) && Laid(l, r) && i < l.n
  {
    HasParent(d, l, i) && 0 <= Hole(d, l, at, r, i) && Hole(d, l, at, r, i) + 8 <= l.total
  }

  /** It lies over none that belongs to a later buffer. */
  ghost predicate Unspoilt(d: seq<Byte>, l: Layout, at: nat, r: seq<Byte>, i: nat)
    requires Laid(l, d) && Laid(l, r) && i < l.n && Holed(d, l, at, r, i)
  {
    forall j :: i < j < l.n && Holed(d, l, at, r, j) ==>
      Hole(d, l, at, r, i) + 8 <= Hole(d, l, at, r, j) || Hole(d, l, at, r, j) + 8 <= Hole(d, l, at, r, i)
  }

  /** The byte at p is in no such place. */
  ghost predicate Unholed(d: seq<Byte>, l: Layout, at: nat, r: seq<Byte>, p: int)
    requires Laid(l, d) && Laid(l, r)
  {
    forall c :: 0 <= c < l.n && Holed(d, l, at, r, c) ==> !(Hole(d, l, at, r, c) <= p < Hole(d, l, at, r, c) + 8)
  }

  /** Byte k of buffer i is the sender's, unless a child's address belongs there. */
  ghost predicate Copied(guest: Guest, d: seq<Byte>, l: Layout, at: nat, r: seq<Byte>, i: nat, k: nat)
    requires Laid(l, d) && Laid(l, r) && i < l.n && IsBuffer(d, l, i)
  {
    var o := Entry(d, l, i);
    var p := PointerAt(r, o) - at + k;
    0 <= p < |r| && (Unholed(d, l, at, r, p) ==> r[p] == guest.bytes(PointerAt(d, o) + k))
  }

  /** The byte is in no buffer's pointer and in no object passed by reference. */
  ghost predicate Ordinary(d: seq<Byte>, l: Layout, k: nat)
    requires Laid(l, d)
  {
    forall i :: 0 <= i < l.n ==>
      && !(IsBuffer(d, l, i) && Entry(d, l, i) + 8 <= k < Entry(d, l, i) + 16)
      && !(IsObject(d, l, i) && Entry(d, l, i) <= k < Entry(d, l, i) + 24)
  }

  /** The object at o: its kind, its flags, what it names and its cookie. */
  function ObjectAt(d: seq<Byte>, o: nat): Nodes.Flat
    requires o + 24 <= |d|
  {
    Nodes.Flat(Get(d, o, 4), Get(d, o + 4, 4), Get(d, o + 8, 8), Get(d, o + 16, 8))
  }

  /** The object at o means to endpoint `to` what it meant to endpoint `from`, unless it meant nothing. */
  ghost predicate SameMeaning(t: seq<Nodes.Node>, t': seq<Nodes.Node>, from: nat, to: nat, o: nat, d: seq<Byte>,
                              r: seq<Byte>) {
    && o + 24 <= |d| == |r|
    && ObjectAt(r, o).flags == ObjectAt(d, o).flags
    && var was := Nodes.Denote(t, from, ObjectAt(d, o));
    (!was.Nothing? ==> Nodes.Denote(t', to, ObjectAt(r, o)) == was)
  }

  /** Endpoint `to`, whose copy r of the parcel d is at address `at`, finds what endpoint `from` sent. */
  ghost predicate Received(guest: Guest, t: seq<Nodes.Node>, t': seq<Nodes.Node>, from: nat, to: nat, l: Layout,
                           d: seq<Byte>, at: nat, r: seq<Byte>) {
    && Laid(l, d) && Laid(l, r)
    && (forall k :: 0 <= k < l.extraAt && Ordinary(d, l, k) ==> r[k] == d[k])
    && (forall i :: 0 <= i < l.n && IsObject(d, l, i) ==> SameMeaning(t, t', from, to, Entry(d, l, i), d, r))
    && (forall i :: 0 <= i < l.n && IsBuffer(d, l, i) ==>
          at + l.extraAt <= PointerAt(r, Entry(d, l, i)) <= at + l.total - LengthAt(d, Entry(d, l, i)))
    && (forall i, j :: 0 <= i < j < l.n && IsBuffer(d, l, i) && IsBuffer(d, l, j) ==>
          PointerAt(r, Entry(d, l, i)) + LengthAt(d, Entry(d, l, i)) <= PointerAt(r, Entry(d, l, j)))
    && (forall i, k :: 0 <= i < l.n && IsBuffer(d, l, i) && 0 <= k < LengthAt(d, Entry(d, l, i)) ==>
          Copied(guest, d, l, at, r, i, k))
    && (forall i :: 0 <= i < l.n && Holed(d, l, at, r, i) && Unspoilt(d, l, at, r, i) ==>
          Get(r, Hole(d, l, at, r, i), 8) == PointerAt(r, Entry(d, l, i)))
  }
}
