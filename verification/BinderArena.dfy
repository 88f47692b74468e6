/** The receiver's arena: a first-fit search from a mark that goes round, over a
    fixed table of allocation records.  Offsets are relative to the arena's start.
 */
module BinderArena {
  import opened Basics

  const MAX_ALLOCS := 128

  /** One record: where a buffer was placed, how long it is, whether it is out. */
  datatype Alloc = Alloc(addr: nat, size: nat, live: bool)

  predicate Overlap(s: int, size: int, off: int, len: int) {
    s < off + len && off < s + size
  }

  class Arena {
    var addr: nat
    var size: nat
    var brk: nat
    const allocs: array<Alloc>

    /** Live buffers lie inside the arena, on eight-byte offsets, and apart. */
    ghost predicate Valid()
      reads this, allocs
    {
      && allocs.Length == MAX_ALLOCS && brk <= size && brk % 8 == 0 && (size > 0 ==> addr > 0)
      && (forall i :: 0 <= i < allocs.Length && allocs[i].live ==>
            && addr <= allocs[i].addr && 0 < allocs[i].size && allocs[i].addr + allocs[i].size <= addr + size
            && (allocs[i].addr - addr) % 8 == 0 && allocs[i].size % 8 == 0)
      && (forall i, j :: 0 <= i < j < allocs.Length && allocs[i].live && allocs[j].live ==>
            !Overlap(allocs[i].addr, allocs[i].size, allocs[j].addr, allocs[j].size))
    }

    /** Nothing live touches the range at `off`. */
    ghost predicate FreeAt(off: int, len: int)
      reads this, allocs
    {
      forall i :: 0 <= i < allocs.Length && allocs[i].live ==> !Overlap(allocs[i].addr - addr, allocs[i].size, off, len)
    }

    /** No offset in the arena has `len` free bytes. */
    ghost predicate NoRoom(len: int)
      reads this, allocs
    {
      forall o :: 0 <= o <= size - len ==> !FreeAt(o, len)
    }

    /** Every record is in use. */
    ghost predicate NoRecord()
      reads this, allocs
    {
      forall i :: 0 <= i < allocs.Length ==> allocs[i].live
    }

    constructor ()
      ensures Valid() && fresh(allocs) && size == 0
    {
      addr, size, brk := 0, 0, 0;
      allocs := new Alloc[MAX_ALLOCS](_ => Alloc(0, 0, false));
    }

    /** Where the mark is, if the range fits between it and the end, and else the front. */
    ghost function Start(len: nat): nat
      reads this
    {
      if brk + len > size then 0 else brk
    }

    /** The range is the first that is free from there to the end, or, if none is, from the front. */
    ghost predicate NextFit(off: int, len: nat)
      reads this, allocs
    {
      && FreeAt(off, len)
      && (forall o :: (if off < Start(len) then 0 else Start(len)) <= o < off ==> !FreeAt(o, len))
      && (off < Start(len) ==> forall o :: Start(len) <= o <= size - len ==> !FreeAt(o, len))
    }

    /** The end of the furthest live buffer in the way of a range, or 0: no offset
        before it is free either. */
    method BlockedUntil(off: nat, len: nat) returns (past: nat)
      requires Valid() && len > 0
      ensures past == 0 <==> FreeAt(off, len)
      ensures past != 0 ==> past > off && past % 8 == 0 && forall o: int :: off <= o < past ==> !FreeAt(o, len)
    {
      past := 0;
      ghost var who := -1;
      var i := 0;
      while i < allocs.Length
        invariant 0 <= i <= allocs.Length
        invariant past == 0 ==> forall j :: 0 <= j < i && allocs[j].live ==>
                    !Overlap(allocs[j].addr - addr, allocs[j].size, off, len)
        invariant past != 0 ==>
                    0 <= who < i && allocs[who].live && Overlap(allocs[who].addr - addr, allocs[who].size, off, len)
        invariant past != 0 ==> past == allocs[who].addr - addr + allocs[who].size
      {
        if allocs[i].live {
          var s := allocs[i].addr - addr;
          if s < off + len && off < s + allocs[i].size {
            if s + allocs[i].size > past {
              past, who := s + allocs[i].size, i;
            }
          }
        }
        i := i + 1;
      }
    }

    /** First fit from the mark to the end and then from the front to the mark.  It
        ends, and fails only when no offset anywhere has room. */
    method Search(want: nat) returns (found: bool, off: nat)
      requires Valid() && 0 < want <= size && want % 8 == 0
      ensures found ==> off + want <= size && off % 8 == 0 && FreeAt(off, want) && NextFit(off, want)
      ensures !found <==> NoRoom(want)
    {
      var start := if brk + want > size then 0 else brk;
      off := start;
      var wrapped := false;
      while true
        invariant off <= size && off % 8 == 0
        invariant !wrapped ==> start <= off && forall o: int :: start <= o < off ==> !FreeAt(o, want)
        invariant wrapped ==> forall o: int :: start <= o <= size - want ==> !FreeAt(o, want)
        invariant wrapped ==> forall o: int :: 0 <= o < off ==> !FreeAt(o, want)
        decreases !wrapped, size - off
      {
        if off + want > size {
          if wrapped {
            return false, off;
          }
          wrapped, off := true, 0;
          continue;
        }
        if wrapped && off >= start {
          return false, off;
        }
        var past := BlockedUntil(off, want);
        if past == 0 {
          return true, off;
        }
        EndsInside(off, want, past);
        off := past;
      }
    }

    /** What blocks a range lies inside the arena. */
    lemma EndsInside(off: nat, want: nat, past: nat)
      requires Valid() && want > 0 && past > off && forall o: int :: off <= o < past ==> !FreeAt(o, want)
      ensures past <= size
    {
      assert !FreeAt(past - 1, want);
    }

    /** A record that is not in use. */
    method FreeRecord() returns (k: nat)
      requires Valid()
      ensures k <= allocs.Length && (k < allocs.Length ==> !allocs[k].live)
      ensures k == allocs.Length <==> NoRecord()
    {
      k := 0;
      while k < allocs.Length && allocs[k].live
        invariant k <= allocs.Length && forall i :: 0 <= i < k ==> allocs[i].live
      {
        k := k + 1;
      }
    }

    /** Room for a buffer of `bytes`: its address, or 0.  It is 0 exactly when nothing
        was asked for, or no offset has that much free space, or no record is free. */
    method Take(bytes: nat) returns (r: nat)
      requires Valid()
      modifies this`brk, allocs
      ensures Valid()
      ensures r == 0 <==> Align8(bytes) == 0 || old(NoRoom(Align8(bytes))) || old(NoRecord())
      ensures r == 0 ==> brk == old(brk) && allocs[..] == old(allocs[..])
      ensures r == 0 ==> Align8(bytes) == 0 || NoRoom(Align8(bytes)) || NoRecord()
      ensures r != 0 ==> addr <= r && r + Align8(bytes) <= addr + size && (r - addr) % 8 == 0
      ensures r != 0 ==> old(NextFit(r - addr, Align8(bytes))) && brk == r - addr + Align8(bytes)
      ensures r != 0 ==> exists k :: 0 <= k < allocs.Length && !old(allocs[k].live)
                           && allocs[..] == old(allocs[..])[k := Alloc(r, Align8(bytes), true)]
    {
      hide NextFit, Overlap;
      var want := Align8(bytes);
      assert want > size ==> NoRoom(want);
      if size == 0 {
        return 0;
      }
      if want == 0 || want > size {
        return 0;
      }
      var found, off := Search(want);
      if !found {
        return 0;
      }
      var k := FreeRecord();
      if k == allocs.Length {
        return 0;
      }
      r := addr + off;
      Fill(k, off, want);
    }

    /** Record k now names the free range at `off`. */
    method Fill(k: nat, off: nat, want: nat)
      requires Valid() && k < allocs.Length && !allocs[k].live && FreeAt(off, want)
      requires want > 0 && want % 8 == 0 && off % 8 == 0 && off + want <= size
      modifies this`brk, allocs
      ensures Valid() && allocs[..] == old(allocs[..])[k := Alloc(addr + off, want, true)] && brk == off + want
    {
      allocs[k] := Alloc(addr + off, want, true);
      brk := off + want;
    }

    /** Give a buffer back: true if it was out, and then exactly it is no longer. */
    method Release(a: nat) returns (ok: bool)
      requires Valid()
      modifies allocs
      ensures Valid()
      ensures ok <==> exists i :: 0 <= i < allocs.Length && old(allocs[i].live) && old(allocs[i].addr) == a
      ensures !ok ==> allocs[..] == old(allocs[..])
      ensures ok ==> exists k :: 0 <= k < allocs.Length && old(allocs[k].live) && old(allocs[k].addr) == a
                       && allocs[..] == old(allocs[..])[k := old(allocs[k]).(live := false)]
      ensures forall i :: 0 <= i < allocs.Length ==> !(allocs[i].live && allocs[i].addr == a)
    {
      var i := 0;
      while i < allocs.Length
        invariant 0 <= i <= allocs.Length && allocs[..] == old(allocs[..])
        invariant forall j :: 0 <= j < i ==> !(allocs[j].live && allocs[j].addr == a)
      {
        if allocs[i].addr == a && allocs[i].live {
          assert forall j :: 0 <= j < allocs.Length && j != i && allocs[j].live ==> allocs[j].addr != a;
          allocs[i] := allocs[i].(live := false);
          assert allocs[..] == old(allocs[..])[i := old(allocs[i]).(live := false)];
          return true;
        }
        i := i + 1;
      }
      return false;
    }

    /** Registering the arena, once. */
    method Set(a: nat, bytes: nat, mapped: bool) returns (r: ArenaError)
      requires Valid()
      modifies this`addr, this`size, this`brk, allocs
      ensures Valid()
      ensures r == (if a == 0 || bytes < 4096 then Einval else if !mapped then Efault
                    else if old(addr) != 0 then Ebusy else Ok)
      ensures r == Ok ==> addr == a && size == bytes && brk == 0
                          && forall i :: 0 <= i < allocs.Length ==> !allocs[i].live
      ensures r != Ok ==> addr == old(addr) && size == old(size) && brk == old(brk) && allocs[..] == old(allocs[..])
    {
      if a == 0 || bytes < 4096 {
        return Einval;
      }
      if !mapped {
        return Efault;
      }
      if addr != 0 {
        return Ebusy;
      }
      addr, size, brk := a, bytes, 0;
      forall i | 0 <= i < allocs.Length {
        allocs[i] := Alloc(0, 0, false);
      }
      return Ok;
    }
  }

  datatype ArenaError = Ok | Einval | Efault | Ebusy
}
