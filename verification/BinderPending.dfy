/** The buffer of commands waiting to be read: a fixed array that is compacted only
    when an append would not fit, with a few pointers into its own bytes that are
    filled in when a read gives them an address.
 */
module BinderPending {
  import opened Bytes

  const CAPACITY := 65536
  const MAX_FIXUPS := 4

  /** The eight bytes at `at` are to hold the address of the byte at `to`. */
  datatype Fixup = Fixup(at: int, to: int)

  /** The pointers of which both ends are still unread. */
  ghost function Unread(fs: seq<Fixup>, pos: int): seq<Fixup> {
    if fs == [] then []
    else Unread(fs[..|fs| - 1], pos) + if fs[|fs| - 1].at >= pos && fs[|fs| - 1].to >= pos then [fs[|fs| - 1]] else []
  }

  ghost function Shifted(fs: seq<Fixup>, d: int): (r: seq<Fixup>)
    ensures |r| == |fs|
  {
    seq(|fs|, i requires 0 <= i < |fs| => Fixup(fs[i].at + d, fs[i].to + d))
  }

  /** Moving every pointer along with the bytes does not change which are unread. */
  lemma {:induction false} UnreadShifted(fs: seq<Fixup>, pos: int, d: int)
    ensures Unread(Shifted(fs, d), pos + d) == Shifted(Unread(fs, pos), d)
  {
    if fs != [] {
      var rest := fs[..|fs| - 1];
      UnreadShifted(rest, pos, d);
      assert Shifted(fs, d)[..|fs| - 1] == Shifted(rest, d);
    }
  }

  class Pending {
    const buf: array<Byte>
    var len: nat
    var off: nat
    const fixups: array<Fixup>
    var fixupN: nat

    /** Every byte ever accepted, and how many of them lie before buf[0]. */
    ghost var stream: seq<Byte>
    ghost var base: nat

    ghost predicate Valid()
      reads this, buf, fixups
    {
      && buf as object != fixups && buf.Length == CAPACITY && fixups.Length == MAX_FIXUPS && fixupN <= MAX_FIXUPS
      && off <= len <= CAPACITY
      && base + len == |stream| && stream[base..] == buf[..len]
    }

    /** How much of the stream has been read. */
    ghost function Taken(): nat
      reads this
    {
      base + off
    }

    /** The pointers, by the stream positions they name. */
    ghost function Named(): (fs: seq<Fixup>)
      requires Valid()
      reads this, buf, fixups
      ensures |fs| == fixupN
    {
      Shifted(fixups[..fixupN], base)
    }

    constructor ()
      ensures Valid() && fresh(buf) && fresh(fixups) && stream == [] && Taken() == 0 && Named() == []
    {
      buf := new Byte[CAPACITY](_ => 0);
      fixups := new Fixup[MAX_FIXUPS](_ => Fixup(0, 0));
      len, off, fixupN := 0, 0, 0;
      stream, base := [], 0;
    }

    /** Whether an append of n bytes moves the unread part to the front. */
    ghost predicate Compacts(n: nat)
      reads this
    {
      len + n > CAPACITY && off > 0
    }

    /** Drop the pointers with an end before `shift` and move the rest back by it. */
    method CompactFixups(shift: nat)
      requires fixups.Length == MAX_FIXUPS && fixupN <= MAX_FIXUPS
      modifies this`fixupN, fixups
      ensures fixupN <= MAX_FIXUPS
      ensures fixups[..fixupN] == Shifted(Unread(old(fixups[..fixupN]), shift), 0 - shift)
    {
      ghost var fs := fixups[..fixupN];
      var n, k := fixupN, 0;
      for i := 0 to n
        invariant 0 <= k <= i && k == |Unread(fs[..i], shift)|
        invariant forall j :: i <= j < n ==> fixups[j] == fs[j]
        invariant forall j :: 0 <= j < k ==> fixups[j] == Shifted(Unread(fs[..i], shift), 0 - shift)[j]
        modifies fixups
      {
        assert fs[..i + 1][..i] == fs[..i];
        if fixups[i].at >= shift && fixups[i].to >= shift {
          fixups[k] := Fixup(fixups[i].at - shift, fixups[i].to - shift);
          k := k + 1;
        }
      }
      fixupN := k;
      assert fs[..n] == fs;
    }

    method CompactBytes()
      requires Valid()
      modifies this`len, this`off, this`base, buf
      ensures Valid() && off == 0 && len == old(len) - old(off)
      ensures base == old(base) + old(off)
    {
      var shift := off;
      ghost var bytes := buf[..len];
      forall i | 0 <= i < len - shift {
        buf[i] := buf[i + shift];
      }
      len, off, base := len - shift, 0, base + shift;
      assert buf[..len] == bytes[shift..];
      assert stream[base..] == stream[base - shift..][shift..];
    }

    /** Move the unread bytes, and the pointers between them, to the front. */
    method Compact()
      requires Valid()
      modifies this, buf, fixups
      ensures Valid() && off == 0 && len == old(len) - old(off)
      ensures stream == old(stream) && Taken() == old(Taken())
      ensures Named() == Unread(old(Named()), old(Taken()))
    {
      hide Shifted, Unread;
      var shift: int := off;
      ghost var fs := fixups[..fixupN];
      UnreadShifted(fs, shift, base);
      CompactFixups(off);
      CompactBytes();
      ShiftTwice(Unread(fs, shift), 0 - shift, base);
    }
  
    /** Append a command.  It is refused exactly when the unread bytes and it do not
        fit together; otherwise it goes to the end of the stream. */
    method Queue(bytes: seq<Byte>) returns (ok: bool)
      requires Valid()
      modifies this, buf, fixups
      ensures Valid()
      ensures ok <==> |old(stream)| - old(Taken()) + |bytes| <= CAPACITY
      ensures ok <==> Fits(old(State()), |bytes|)
      ensures stream == old(stream) + if ok then bytes else []
      ensures Taken() == old(Taken())
      ensures Named() == if old(Compacts(|bytes|)) then Unread(old(Named()), old(Taken())) else old(Named())
      ensures State() == Queued(old(State()), |bytes|)
    {
      hide Unread, Shifted;
      if len + |bytes| > CAPACITY && off > 0 {
        Compact();
      }
      if len + |bytes| > CAPACITY {
        assert stream == stream + [];
        return false;
      }
      ghost var before := buf[..len];
      ghost var fs := fixups[..fixupN];
      forall i | 0 <= i < |bytes| {
        buf[len + i] := bytes[i];
      }
      assert fixups[..fixupN] == fs;
      len := len + |bytes|;
      stream := stream + bytes;
      assert buf[..len] == before + bytes;
      assert stream[base..] == before + bytes;
      return true;
    }

    /** Note a pointer, if there is a slot left for it. */
    method QueueFixup(at: nat, to: nat)
      requires Valid()
      modifies this`fixupN, fixups
      ensures Valid()
      ensures State() == Noted(old(State()), at, to)
    {
      ghost var fs := fixups[..fixupN];
      if fixupN < MAX_FIXUPS {
        fixups[fixupN] := Fixup(at, to);
        fixupN := fixupN + 1;
        assert fixups[..fixupN] == fs + [Fixup(at, to)];
      } else {
        assert old(Named()) + [] == old(Named());
      }
    }

    /** The offsets and the pointers, without the bytes. */
    ghost function State(): (m: Marks)
      requires Valid()
      reads this, buf, fixups
      ensures Proper(m)
    {
      Marks(len, off, base, Named())
    }

    /** A transaction with a security context: the command, the transaction, a place
        for a pointer, the label it is to point at.  The two offsets are noted before
        the appends that may still compact the buffer, so the bytes are queued and
        its fixup refers to them if and only if ContextFits. */
    method QueueWithContext(cmd: seq<Byte>, out: seq<Byte>, placeholder: seq<Byte>, context: seq<Byte>)
      requires Valid() && |cmd| == 4 && |out| == 64 && |placeholder| == 8 && |context| == 21
      modifies this, buf, fixups
      ensures Valid() && Taken() == old(Taken())
      ensures State() == WithContext(old(State()))
      ensures old(ContextFits(State())) <==>
                && stream == old(stream) + (cmd + out + placeholder + context)
                && Named() == Survivors(old(State()), 97) + [Fixup(|old(stream)| + 68, |old(stream)| + 76)]
    {
      hide Unread, Shifted, ContextFits, Survivors, Queued, Noted, Fits, Pending.Valid, Pending.Named;
      ghost var m, s0 := State(), stream;
      LengthIs();
      ContextPointer(m);
      AllFit(m);
      var k1 := Queue(cmd);
      var k2 := Queue(out);
      var at := len;
      var k3 := Queue(placeholder);
      var to := len;
      var k4 := Queue(context);
      QueueFixup(at, to);
      Accepted(s0, cmd, out, placeholder, context, k1, k2, k3, k4, stream);
    }

    /** Take pointer i out of the table by moving the last one into its place. */
    method DropFixup(i: nat)
      requires fixups.Length == MAX_FIXUPS && i < fixupN <= MAX_FIXUPS
      modifies this`fixupN, fixups
      ensures fixupN == old(fixupN) - 1 && forall j :: 0 <= j < i ==> fixups[j] == old(fixups[j])
      ensures old(Elements(fixups[..fixupN])) == Elements(fixups[..fixupN]) + {old(fixups[i])}
    {
      hide Elements;
      ghost var fs := fixups[..fixupN];
      fixupN := fixupN - 1;
      fixups[i] := fixups[fixupN];
      assert fixups[..fixupN] == fs[i := fs[|fs| - 1]][..|fs| - 1];
      Swapped(fs, i, fixups[..fixupN]);
    }

    /** Fill in the pointers both ends of which are in the bytes about to be read. */
    method Patch(n: nat, guest: nat, bytes: seq<Byte>) returns (dst: seq<Byte>)
      requires fixups.Length == MAX_FIXUPS && fixupN <= MAX_FIXUPS && |bytes| == n
      modifies this`fixupN, fixups
      ensures fixupN <= MAX_FIXUPS && |dst| == n
      ensures Elements(fixups[..fixupN]) == Outside(old(Elements(fixups[..fixupN])), off, n)
      ensures Patched(bytes, dst, Within(old(Elements(fixups[..fixupN])), off, n), off, guest)
    {
      hide Patched, Elements, Within, Outside, Le, Put;
      dst := bytes;
      ghost var done: set<Fixup>, all := {}, Elements(fixups[..fixupN]);
      NothingPatched(bytes, off, guest);
      var i := 0;
      while i < fixupN
        invariant i <= fixupN <= MAX_FIXUPS && |dst| == n
        invariant all == done + Elements(fixups[..fixupN])
        invariant forall f :: f in done ==> InWindow(f, off, n)
        invariant forall j :: 0 <= j < i ==> !InWindow(fixups[j], off, n)
        invariant Patched(bytes, dst, done, off, guest)
        modifies this`fixupN, fixups
        decreases fixupN - i
      {
        var f := fixups[i];
        if f.at >= off && f.at + 8 <= off + n && f.to >= off && f.to < off + n {
          PatchOne(bytes, dst, done, f, off, guest);
          dst := Put(dst, f.at - off, Le(guest + (f.to - off), 8));
          DropFixup(i);
          done := done + {f};
        } else {
          i := i + 1;
        }
      }
      AllOutside(fixups[..fixupN], done, all, off, n);
    }

    /** Advance over n bytes; a buffer read to the end starts again at the front, and
        pointers into what is gone go with it. */
    method Advance(n: nat)
      requires Valid() && off + n <= len
      modifies this`off, this`len, this`fixupN, this`base
      ensures Valid() && Taken() == old(Taken()) + n
      ensures Named() == if Taken() == |stream| then [] else old(Named())
      ensures Taken() != |stream| ==> base == old(base)
    {
      off := off + n;
      if off == len {
        base := base + len;
        off, len, fixupN := 0, 0, 0;
      }
    }

    /** The copying half of a binder read: up to `room` unread bytes go to the guest at
        address `guest`, with the pointers among them filled in; the stream goes on
        after them.  What is read in turn is what was queued in turn. */
    method Read(room: nat, guest: nat, mapped: bool) returns (fault: bool, dst: seq<Byte>)
      requires Valid()
      modifies this, fixups
      ensures Valid() && stream == old(stream)
      ensures fault <==> room > 0 && old(Taken()) < |stream| && !mapped
      ensures var n := if fault then 0 else Min(room, |stream| - old(Taken()));
              && |dst| == n && Taken() == old(Taken()) + n
              && Patched(stream[old(Taken())..old(Taken()) + n], dst, Within(old(Elements(Named())), old(Taken()), n),
                         old(Taken()), guest)
              && (n == 0 ==> Named() == old(Named()))
              && (n > 0 ==> Elements(Named()) == if Taken() == |stream| then {}
                  else Outside(old(Elements(Named())), old(Taken()), n))
      ensures Taken() != |stream| ==> base == old(base)
    {
      hide Patched, Elements, Within, Outside, Shifted;
      fault, dst := false, [];
      var have := len - off;
      ghost var t, fs, b := Taken(), fixups[..fixupN], base;
      EmptyRead(Elements(Named()), t, guest);
      assert stream[t..t + 0] == [];
      if room == 0 || have == 0 {
        return;
      }
      if !mapped {
        return true, [];
      }
      var n := Min(room, have);
      ghost var o := off;
      assert buf[off..off + n] == stream[t..t + n];
      dst := Patch(n, guest, buf[off..off + n]);
      PatchedMoved(stream[t..t + n], dst, fs, o, b, n, guest);
      OutsideMoved(fs, fixups[..fixupN], o, b, n);
      Advance(n);
      NoElements();
    }

    lemma LengthIs()
      requires Valid()
      ensures base + len == |stream|
    {
    }
  }

  /** The whole of a message is in the stream only if every part was taken. */
  lemma Accepted(s: seq<Byte>, a: seq<Byte>, b: seq<Byte>, c: seq<Byte>, d: seq<Byte>,
                 k1: bool, k2: bool, k3: bool, k4: bool, s': seq<Byte>)
    requires |a| > 0 && |b| > 0 && |c| > 0 && |d| > 0
    requires s' == s + (if k1 then a else []) + (if k2 then b else []) + (if k3 then c else []) + (if k4 then d else [])
    ensures s' == s + (a + b + c + d) <==> k1 && k2 && k3 && k4
  {
    if k1 && k2 && k3 && k4 {
      assert s + a + b + c + d == s + (a + b + c + d);
    } else {
      assert |s'| < |s| + |a| + |b| + |c| + |d|;
    }
  }

  // ----------------------------------------------------- offsets and pointers

  datatype Marks = Marks(len: nat, off: nat, base: nat, named: seq<Fixup>)

  ghost predicate Proper(m: Marks) {
    m.off <= m.len <= CAPACITY && |m.named| <= MAX_FIXUPS
  }

  ghost predicate Fits(m: Marks, n: nat)
    requires Proper(m)
  {
    m.len - m.off + n <= CAPACITY
  }

  ghost function Compacted(m: Marks): Marks
    requires Proper(m)
  {
    Marks(m.len - m.off, 0, m.base + m.off, Unread(m.named, m.base + m.off))
  }

  /** An append of n bytes. */
  ghost function Queued(m: Marks, n: nat): Marks
    requires Proper(m)
  {
    var c := if m.len + n > CAPACITY && m.off > 0 then Compacted(m) else m;
    if c.len + n > CAPACITY then c else c.(len := c.len + n)
  }

  ghost function Noted(m: Marks, at: int, to: int): Marks {
    if |m.named| < MAX_FIXUPS then m.(named := m.named + [Fixup(m.base + at, m.base + to)]) else m
  }

  lemma {:induction false} UnreadShorter(fs: seq<Fixup>, pos: int)
    ensures |Unread(fs, pos)| <= |fs|
  {
    if fs != [] {
      UnreadShorter(fs[..|fs| - 1], pos);
    }
  }

  lemma QueuedProper(m: Marks, n: nat)
    requires Proper(m)
    ensures Proper(Queued(m, n))
    ensures Fits(m, n) ==> Queued(m, n).base + Queued(m, n).len == m.base + m.len + n
    ensures Queued(m, n).base + Queued(m, n).off == m.base + m.off
  {
    UnreadShorter(m.named, m.base + m.off);
  }

  /** The pointers that are left once n more bytes have been queued. */
  ghost function Survivors(m: Marks, n: nat): seq<Fixup> {
    if m.len + n > CAPACITY && m.off > 0 then Unread(m.named, m.base + m.off) else m.named
  }

  /** When a transaction with a security context will be queued whole with its
      pointer right: there is a slot for the pointer, and the buffer either holds
      all 97 bytes as it is or is compacted before the pointer's offset is noted. */
  ghost predicate ContextFits(m: Marks)
  {
    && |Survivors(m, 97)| < MAX_FIXUPS
    && (m.len + 97 <= CAPACITY || (m.len + 68 > CAPACITY && m.len - m.off + 97 <= CAPACITY))
  }

  ghost function WithContext(m: Marks): Marks
    requires Proper(m)
  {
    QueuedProper(m, 4);
    var m1 := Queued(m, 4);
    QueuedProper(m1, 64);
    var m2 := Queued(m1, 64);
    QueuedProper(m2, 8);
    var m3 := Queued(m2, 8);
    Noted(Queued(m3, 21), m2.len, m3.len)
  }

  lemma AllFit(m: Marks)
    requires Proper(m)
    ensures QueuedProper4(m)
    ensures Fits(m, 97) <==>
              && Fits(m, 4) && Fits(Queued(m, 4), 64) && Fits(Queued(Queued(m, 4), 64), 8)
              && Fits(Queued(Queued(Queued(m, 4), 64), 8), 21)
  {
    QueuedProper(m, 4);
    var m1 := Queued(m, 4);
    QueuedProper(m1, 64);
    var m2 := Queued(m1, 64);
    QueuedProper(m2, 8);
    QueuedProper(Queued(m2, 8), 21);
  }

  ghost predicate QueuedProper4(m: Marks) {
    Proper(m) && Proper(Queued(m, 4)) && Proper(Queued(Queued(m, 4), 64)) && Proper(Queued(Queued(Queued(m, 4), 64), 8))
  }

  lemma ContextPointer(m: Marks)
    requires Proper(m)
    ensures ContextFits(m) <==>
              && Fits(m, 97)
              && WithContext(m).named == Survivors(m, 97) + [Fixup(m.base + m.len + 68, m.base + m.len + 76)]
  {
    if Fits(m, 97) {
      var at, to, last := ContextMarks(m);
      hide Queued, Survivors, WithContext, Proper;
      var kept := Survivors(m, 97);
      var right, noted := Fixup(m.base + m.len + 68, m.base + m.len + 76), Fixup(last.base + at, last.base + to);
      if |kept| < MAX_FIXUPS {
        assert (kept + [right])[|kept|] == right && (kept + [noted])[|kept|] == noted;
      }
    }
  }

  /** Where the four appends leave the two offsets and the buffer. */
  lemma ContextMarks(m: Marks) returns (at: nat, to: nat, last: Marks)
    requires Proper(m) && Fits(m, 97)
    ensures WithContext(m) == Noted(last, at, to) && last.named == Survivors(m, 97)
    ensures last.base + at == m.base + m.len + 68 <==> m.len + 97 <= CAPACITY || m.len + 68 > CAPACITY
    ensures m.len + 97 <= CAPACITY || m.len + 68 > CAPACITY ==> last.base + to == m.base + m.len + 76
  {
    QueuedProper(m, 4);
    var m1 := Queued(m, 4);
    QueuedProper(m1, 64);
    var m2 := Queued(m1, 64);
    QueuedProper(m2, 8);
    var m3 := Queued(m2, 8);
    QueuedProper(m3, 21);
    UnreadShorter(m.named, m.base + m.off);
    hide Unread;
    at, to, last := m2.len, m3.len, Queued(m3, 21);
    assert m2.base + m2.len == m.base + m.len + 68;
    assert last.base == m2.base <==> m.len + 97 <= CAPACITY || m.len + 68 > CAPACITY;
  }

  lemma ShiftTwice(fs: seq<Fixup>, d: int, e: int)
    ensures Shifted(Shifted(fs, d), e) == Shifted(fs, d + e)
  {
  }

  // ------------------------------------------------------------------- reads

  ghost function Elements(fs: seq<Fixup>): set<Fixup> {
    set i | 0 <= i < |fs| :: fs[i]
  }

  /** Both ends of a pointer are among the n bytes at off. */
  ghost predicate InWindow(f: Fixup, off: int, n: int) {
    f.at >= off && f.at + 8 <= off + n && f.to >= off && f.to < off + n
  }

  ghost function Within(fs: set<Fixup>, off: int, n: int): set<Fixup> {
    set f | f in fs && InWindow(f, off, n)
  }

  ghost function Outside(fs: set<Fixup>, off: int, n: int): set<Fixup> {
    set f | f in fs && !InWindow(f, off, n)
  }

  ghost predicate Apart(f: Fixup, g: Fixup) {
    f == g || f.at + 8 <= g.at || g.at + 8 <= f.at
  }

  ghost predicate Clear(fs: set<Fixup>, pos: int) {
    forall f :: f in fs ==> !(f.at <= pos < f.at + 8)
  }

  ghost predicate Alone(fs: set<Fixup>, f: Fixup) {
    forall g :: g in fs ==> Apart(f, g)
  }

  ghost predicate Slot(dst: seq<Byte>, f: Fixup, off: int, guest: nat)
    requires InWindow(f, off, |dst|)
  {
    dst[f.at - off..f.at - off + 8] == Le(guest + (f.to - off), 8)
  }

  /** dst is src but for the slots of the pointers fs; a slot that no other pointer's
      slot runs into holds the guest address of the byte it names. */
  ghost predicate Patched(src: seq<Byte>, dst: seq<Byte>, fs: set<Fixup>, off: int, guest: nat) {
    && |dst| == |src|
    && (forall j :: 0 <= j < |src| && Clear(fs, off + j) ==> dst[j] == src[j])
    && (forall f :: f in fs && InWindow(f, off, |src|) && Alone(fs, f) ==> Slot(dst, f, off, guest))
  }

  lemma PatchOne(src: seq<Byte>, dst: seq<Byte>, fs: set<Fixup>, f: Fixup, off: int, guest: nat)
    requires Patched(src, dst, fs, off, guest) && InWindow(f, off, |src|)
    ensures Patched(src, Put(dst, f.at - off, Le(guest + (f.to - off), 8)), fs + {f}, off, guest)
  {
    hide Le;
    var word := Le(guest + (f.to - off), 8);
    var dst' := Put(dst, f.at - off, word);
    forall j | 0 <= j < |src| && Clear(fs + {f}, off + j)
      ensures dst'[j] == src[j]
    {
      assert Clear(fs, off + j);
      assert f in fs + {f};
    }
    forall g | g in fs + {f} && InWindow(g, off, |src|) && Alone(fs + {f}, g)
      ensures Slot(dst', g, off, guest)
    {
      if g != f {
        assert Apart(g, f) && Alone(fs, g);
        PutElsewhere(dst, f.at - off, word, g.at - off, g.at - off + 8);
      }
    }
  }

  /** Overwriting one element with the last and dropping the last. */
  lemma Swapped(fs: seq<Fixup>, i: nat, fs': seq<Fixup>)
    requires i < |fs| && fs' == fs[i := fs[|fs| - 1]][..|fs| - 1]
    ensures Elements(fs) == Elements(fs') + {fs[i]}
  {
    forall f | f in Elements(fs)
      ensures f in Elements(fs') + {fs[i]}
    {
      var j :| 0 <= j < |fs| && fs[j] == f;
      if j != i && j < |fs| - 1 {
        assert fs'[j] == f;
      } else if j != i {
        assert fs'[i] == f;
      }
    }
  }

  lemma AllOutside(fs: seq<Fixup>, done: set<Fixup>, all: set<Fixup>, off: int, n: int)
    requires all == done + Elements(fs) && (forall f :: f in done ==> InWindow(f, off, n))
    requires forall j :: 0 <= j < |fs| ==> !InWindow(fs[j], off, n)
    ensures Elements(fs) == Outside(all, off, n) && done == Within(all, off, n)
  {
  }

  function Min(a: nat, b: nat): nat {
    if a < b then a else b
  }

  lemma NothingPatched(src: seq<Byte>, off: int, guest: nat)
    ensures Patched(src, src, {}, off, guest)
  {
  }

  lemma EmptyRead(fs: set<Fixup>, t: int, guest: nat)
    ensures Patched([], [], Within(fs, t, 0), t, guest)
  {
    assert Within(fs, t, 0) == {};
  }

  lemma NoElements()
    ensures Elements([]) == {}
  {
  }

  ghost function Move(f: Fixup, d: int): Fixup {
    Fixup(f.at + d, f.to + d)
  }

  ghost function MoveAll(fs: set<Fixup>, d: int): set<Fixup> {
    set f | f in fs :: Move(f, d)
  }

  lemma MovedElements(fs: seq<Fixup>, d: int)
    ensures Elements(Shifted(fs, d)) == MoveAll(Elements(fs), d)
  {
    forall f | f in Elements(Shifted(fs, d))
      ensures f in MoveAll(Elements(fs), d)
    {
      var i :| 0 <= i < |fs| && Shifted(fs, d)[i] == f;
      assert fs[i] in Elements(fs) && f == Move(fs[i], d);
    }
    forall f | f in Elements(fs)
      ensures Move(f, d) in Elements(Shifted(fs, d))
    {
      var i :| 0 <= i < |fs| && fs[i] == f;
      assert Shifted(fs, d)[i] == Move(f, d);
    }
  }

  lemma MovedWindow(fs: set<Fixup>, d: int, off: int, n: int)
    ensures Within(MoveAll(fs, d), off + d, n) == MoveAll(Within(fs, off, n), d)
    ensures Outside(MoveAll(fs, d), off + d, n) == MoveAll(Outside(fs, off, n), d)
  {
  }

  /** The same patching, told by stream positions. */
  lemma PatchedMoved(src: seq<Byte>, dst: seq<Byte>, fs: seq<Fixup>, off: int, d: int, n: int, guest: nat)
    requires |src| == n && Patched(src, dst, Within(Elements(fs), off, n), off, guest)
    ensures Patched(src, dst, Within(Elements(Shifted(fs, d)), off + d, n), off + d, guest)
  {
    hide Patched, Within, Elements, Shifted;
    MovedElements(fs, d);
    MovedWindow(Elements(fs), d, off, n);
    SameSlots(src, dst, Within(Elements(fs), off, n), off, d, guest);
  }

  lemma SlotsMoved(fs: set<Fixup>, d: int, g: Fixup, pos: int)
    ensures Clear(MoveAll(fs, d), pos + d) ==> Clear(fs, pos)
    ensures Alone(MoveAll(fs, d), Move(g, d)) ==> Alone(fs, g)
  {
    assert forall f :: f in fs ==> Move(f, d) in MoveAll(fs, d);
    assert forall f :: Apart(Move(g, d), Move(f, d)) ==> Apart(g, f);
  }

  lemma SameSlots(src: seq<Byte>, dst: seq<Byte>, fs: set<Fixup>, off: int, d: int, guest: nat)
    requires Patched(src, dst, fs, off, guest)
    ensures Patched(src, dst, MoveAll(fs, d), off + d, guest)
  {
    hide Clear, Alone, Slot;
    forall j | 0 <= j < |src| && Clear(MoveAll(fs, d), off + d + j)
      ensures dst[j] == src[j]
    {
      SlotsMoved(fs, d, Fixup(0, 0), off + j);
    }
    forall f | f in MoveAll(fs, d) && InWindow(f, off + d, |src|) && Alone(MoveAll(fs, d), f)
      ensures Slot(dst, f, off + d, guest)
    {
      var g :| g in fs && f == Move(g, d);
      SlotsMoved(fs, d, g, 0);
      SlotMoved(dst, g, off, d, guest);
    }
  }

  lemma SlotMoved(dst: seq<Byte>, g: Fixup, off: int, d: int, guest: nat)
    requires InWindow(g, off, |dst|)
    ensures Slot(dst, g, off, guest) == Slot(dst, Move(g, d), off + d, guest)
  {
    hide Le;
    var at, to := g.at - off, g.to - off;
    assert Move(g, d).at - (off + d) == at && Move(g, d).to - (off + d) == to;
  }

  lemma OutsideMoved(fs: seq<Fixup>, fs': seq<Fixup>, off: int, d: int, n: int)
    requires Elements(fs') == Outside(Elements(fs), off, n)
    ensures Elements(Shifted(fs', d)) == Outside(Elements(Shifted(fs, d)), off + d, n)
  {
    hide Outside, Elements, Shifted;
    MovedElements(fs, d);
    MovedElements(fs', d);
    MovedWindow(Elements(fs), d, off, n);
  }

  /** What a read delivers of a pointer that no other one's slot runs into: the address of its target, if it takes
      the slot and the target; otherwise what was queued in the slot, for good, because a slot once begun
      is behind every later read. */
  lemma FilledExactly(src: seq<Byte>, dst: seq<Byte>, fs: set<Fixup>, f: Fixup, off: int, guest: nat)
    requires Patched(src, dst, Within(fs, off, |src|), off, guest) && f in fs && Alone(fs, f)
    ensures if InWindow(f, off, |src|) then Slot(dst, f, off, guest)
            else forall j :: 0 <= j < |src| && f.at <= off + j < f.at + 8 ==> dst[j] == src[j]
    ensures f.at < off + |src| ==> forall off': int, n: int :: off' >= off + |src| ==> !InWindow(f, off', n)
  {
    var inside := Within(fs, off, |src|);
    if InWindow(f, off, |src|) {
      assert f in inside && Alone(inside, f);
    } else {
      forall j | 0 <= j < |src| && f.at <= off + j < f.at + 8
        ensures dst[j] == src[j]
      {
        assert forall g :: g in inside ==> g != f && Apart(f, g);
      }
    }
  }

  /** A buffer that holds everything can still lose its pointer: here the compaction
      comes with the label, after both offsets were noted. */
  lemma WrongPointer()
    ensures var m := Marks(65460, 100, 0, []);
            && Proper(m) && Fits(m, 97) && !ContextFits(m)
            && WithContext(m) == Marks(65457, 0, 100, [Fixup(65628, 65636)])
            && WithContext(m).named != [Fixup(m.base + m.len + 68, m.base + m.len + 76)]
  {
    var m := Marks(65460, 100, 0, []);
    assert Unread([], 100) == [];
    var m1 := Queued(m, 4);
    var m2 := Queued(m1, 64);
    var m3 := Queued(m2, 8);
    assert m3 == Marks(65536, 100, 0, []);
    assert Queued(m3, 21) == Marks(65457, 0, 100, []);
  }

  /** Commands of four bytes, one after another, until 65460 bytes are queued. */
  method QueueCommands(p: Pending, cmd: seq<Byte>)
    requires p.Valid() && |cmd| == 4 && p.State() == Marks(0, 0, 0, [])
    modifies p, p.buf, p.fixups
    ensures p.Valid() && p.State() == Marks(65460, 0, 0, [])
  {
    hide Pending.Valid, Pending.Named, Unread;
    var i := 0;
    while i < 16365
      invariant 0 <= i <= 16365 && p.Valid() && p.State() == Marks(4 * i, 0, 0, [])
    {
      var _ := p.Queue(cmd);
      i := i + 1;
    }
  }

  /** That buffer is one an endpoint comes to: commands are queued until it is nearly full, a read takes the first
      hundred bytes, and a transaction with a security context follows.  It is queued whole, with a pointer 100
      bytes beyond its slot and its label. */
  method LateCompaction(cmd: seq<Byte>, out: seq<Byte>, placeholder: seq<Byte>, context: seq<Byte>) returns (p: Pending)
    requires |cmd| == 4 && |out| == 64 && |placeholder| == 8 && |context| == 21
    ensures fresh(p) && p.Valid() && |p.stream| == 65460 + 97
    ensures p.Named() == [Fixup(65628, 65636)] != [Fixup(65460 + 68, 65460 + 76)]
  {
    hide Unread, WithContext, ContextFits, Survivors, Patched, Elements, Within, Outside;
    p := new Pending();
    assert p.State() == Marks(0, 0, 0, []);
    QueueCommands(p, cmd);
    p.LengthIs();
    var fault, dst := p.Read(100, 0, true);
    p.LengthIs();
    NoPointers(p.Named(), 0, 100);
    assert p.State() == Marks(65460, 100, 0, []);
    WrongPointer();
    p.QueueWithContext(cmd, out, placeholder, context);
    p.LengthIs();
  }

  lemma NoPointers(fs: seq<Fixup>, off: int, n: int)
    ensures Elements(fs) == Outside(Elements([]), off, n) ==> fs == []
  {
    assert Elements([]) == {};
    if fs != [] {
      assert fs[0] in Elements(fs);
    }
  }
}
