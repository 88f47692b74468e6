/** The registry in place, the hypervisor calls it makes, and what a whole run of them keeps. */
module Stage2Registry {
  import opened Stage2

  function Granules(size: nat): nat {
    size / GRANULE
  }

  // ---- one operation, and any number of them ----

  datatype Op =
    | Map(ipa: nat, size: nat, prot: Prot, h: nat)
    | Unmap(ipa: nat, size: nat)
    | BlockFor(h: nat, prot: Prot, offered: nat)
    | Ref(ipa: nat)
    | Unref(ipa: nat)
    | ClearRefs
    | Reprotect(ipa: nat, prot: Prot)
    | Reflush(ipa: nat)

  function Known(t: Tables, h: nat): bool {
    h in t.hblk && t.hblk[h] in t.s2
  }

  function Less(n: nat): nat {
    if n > 0 then n - 1 else 0
  }

  function OrRead(prot: Prot): Prot {
    if prot == {} then {R} else prot
  }

  /** The tables after an operation. */
  function After(t: Tables, op: Op): Tables {
    match op
    case Map(ipa, size, prot, h) => Record(t, ipa, Granules(size), prot, h)
    case Unmap(ipa, size) => Forget(t, ipa, Granules(size))
    case BlockFor(h, prot, ipa) =>
      if Known(t, h) then t.(s2 := t.s2[t.hblk[h] := t.s2[t.hblk[h]].(prot := t.s2[t.hblk[h]].prot + prot)])
      else Put(t, ipa, OrRead(prot), h)
    case Ref(ipa) =>
      if Base(ipa) in t.s2 then t.(s2 := t.s2[Base(ipa) := t.s2[Base(ipa)].(refs := t.s2[Base(ipa)].refs + 1)]) else t
    case Unref(ipa) =>
      if Base(ipa) in t.s2 then t.(s2 := t.s2[Base(ipa) := t.s2[Base(ipa)].(refs := Less(t.s2[Base(ipa)].refs))]) else t
    case ClearRefs => t.(s2 := map x | x in t.s2 :: t.s2[x].(refs := 0))
    case Reprotect(ipa, prot) =>
      if Base(ipa) in t.s2 then t.(s2 := t.s2[Base(ipa) := t.s2[Base(ipa)].(prot := prot)]) else t
    case Reflush(ipa) => t
  }

  /** All of the range is registered, or none of it. */
  ghost predicate AllOrNone(s2: map<nat, Ent>, ipa: nat, n: nat) {
    (forall x :: In(x, ipa, n) ==> x in s2) || (forall x :: In(x, ipa, n) ==> x !in s2)
  }

  /** What a caller must see to: a range is mapped throughout or not at all, a block is remapped
      only onto its own pages, no host page is given a second block. */
  ghost predicate Legal(t: Tables, op: Op) {
    match op
    case Map(ipa, size, prot, h) =>
      && h % GRANULE == 0 && ipa % GRANULE == 0 && size % GRANULE == 0
      && CanMap(t.s2, ipa, Granules(size), h) && KeepsPages(t.s2, ipa, Granules(size), h)
    case Unmap(ipa, size) => size % GRANULE == 0 && AllOrNone(t.s2, ipa, Granules(size))
    case BlockFor(h, prot, ipa) => h % GRANULE == 0 && ipa % GRANULE == 0 && (h !in t.hblk ==> ipa !in t.s2)
    case _ => true
  }

  /** The tables after a run. */
  function Final(t: Tables, ops: seq<Op>): Tables
    decreases |ops|
  {
    if ops == [] then t else Final(After(t, ops[0]), ops[1..])
  }

  ghost predicate LegalRun(t: Tables, ops: seq<Op>)
    decreases |ops|
  {
    ops == [] || (Legal(t, ops[0]) && LegalRun(After(t, ops[0]), ops[1..]))
  }

  lemma Single(x: int, lo: nat)
    ensures In(x, lo, 1) <==> x == lo
    ensures Granules(GRANULE) == 1
  {
  }

  /** Mapping one block again onto its own page. */
  lemma Again(t: Tables, x: nat, prot: Prot)
    requires Inverse(t) && x in t.s2
    ensures var h := t.s2[x].haddr;
            && CanMap(t.s2, x, Granules(GRANULE), h) && KeepsPages(t.s2, x, Granules(GRANULE), h)
            && Record(t, x, Granules(GRANULE), prot, h) == t.(s2 := t.s2[x := t.s2[x].(prot := prot)])
  {
    var h := t.s2[x].haddr;
    forall y: int
      ensures (In(y, x, 1) <==> y == x) && (In(y, h, 1) <==> y == h) && Granules(GRANULE) == 1
    {
      Single(y, x);
      Single(y, h);
    }
    hide In;
    assert Record(t, x, 1, prot, h) == Put(t, x, prot, h) by { OneGranule(t, x, prot, h); }
    assert t.hblk[h := x] == t.hblk;
  }

  lemma OneGranule(t: Tables, x: nat, prot: Prot, h: nat)
    ensures Granules(GRANULE) == 1 && Record(t, x, 1, prot, h) == Put(t, x, prot, h)
  {
  }

  /** Giving a host page that has no block a new one: always accepted, and the maps stay
      inverse exactly if the block was not in use. */
  lemma First(t: Tables, x: nat, h: nat)
    requires Inverse(t) && h !in t.hblk
    ensures CanMap(t.s2, x, Granules(GRANULE), h)
    ensures KeepsPages(t.s2, x, Granules(GRANULE), h) <==> x !in t.s2
  {
    forall y: int
      ensures (In(y, x, 1) <==> y == x) && (In(y, h, 1) <==> y == h) && Granules(GRANULE) == 1
    {
      Single(y, x);
      Single(y, h);
    }
    hide In;
  }

  // ---- the same in the bytes of a range ----

  /** x is the start of a granule of the size bytes at lo. */
  predicate Starts(x: nat, lo: nat, size: nat) {
    lo <= x < lo + size && (x - lo) % GRANULE == 0
  }

  /** Every granule of the size bytes at ipa is registered and indexed at its place from h, with this permission and
      the references it had; nothing else changes but what is indexed for those host pages. */
  ghost predicate Laid(t: Tables, t': Tables, ipa: nat, size: nat, prot: Prot, h: nat) {
    && (forall x :: x in t'.s2 <==> x in t.s2 || Starts(x, ipa, size))
    && (forall x :: x in t'.s2 ==>
          t'.s2[x] == if Starts(x, ipa, size) then Ent(h + x - ipa, prot, if x in t.s2 then t.s2[x].refs else 0)
                      else t.s2[x])
    && (forall k :: k in t'.hblk <==> k in t.hblk || Starts(k, h, size))
    && (forall k :: k in t'.hblk ==> t'.hblk[k] == if Starts(k, h, size) then ipa + k - h else t.hblk[k])
  }

  /** The granules of the size bytes at ipa are gone and nothing else is. */
  ghost predicate Cleared(t: Tables, t': Tables, ipa: nat, size: nat) {
    && (forall x :: x in t'.s2 <==> x in t.s2 && !Starts(x, ipa, size))
    && (forall x :: x in t'.s2 ==> t'.s2[x] == t.s2[x])
    && (forall k :: k in t'.hblk <==> k in t.hblk && !Starts(t.hblk[k], ipa, size))
    && (forall k :: k in t'.hblk ==> t'.hblk[k] == t.hblk[k])
  }

  lemma StartsIn(x: nat, lo: nat, size: nat)
    requires size % GRANULE == 0
    ensures Starts(x, lo, size) <==> In(x, lo, Granules(size))
  {
  }

  lemma RecordLays(t: Tables, ipa: nat, size: nat, prot: Prot, h: nat)
    requires size % GRANULE == 0
    ensures Laid(t, Record(t, ipa, Granules(size), prot, h), ipa, size, prot, h)
  {
    var t' := Record(t, ipa, Granules(size), prot, h);
    forall x: nat
      ensures x in t'.s2 <==> x in t.s2 || Starts(x, ipa, size)
      ensures x in t'.s2 ==>
                t'.s2[x] == if Starts(x, ipa, size) then Ent(h + x - ipa, prot, if x in t.s2 then t.s2[x].refs else 0)
                            else t.s2[x]
      ensures x in t'.hblk <==> x in t.hblk || Starts(x, h, size)
      ensures x in t'.hblk ==> t'.hblk[x] == if Starts(x, h, size) then ipa + x - h else t.hblk[x]
    {
      hide Record, In;
      Recorded(t, ipa, Granules(size), prot, h, x);
      StartsIn(x, ipa, size);
      StartsIn(x, h, size);
    }
  }

  lemma ForgetClears(t: Tables, ipa: nat, size: nat)
    requires Inverse(t) && size % GRANULE == 0
    ensures Cleared(t, Forget(t, ipa, Granules(size)), ipa, size)
  {
    var t' := Forget(t, ipa, Granules(size));
    forall x: nat
      ensures Inverse(t')
      ensures x in t'.s2 <==> x in t.s2 && !Starts(x, ipa, size)
      ensures x in t'.s2 ==> t'.s2[x] == t.s2[x]
    {
      hide Forget, In, Inverse;
      Forgotten(t, ipa, Granules(size), x);
      StartsIn(x, ipa, size);
    }
    hide Forget, Starts;
  }

  /** Tables that differ in one block's permission are mirrored by tables that do. */
  lemma OneMirror(t: Tables, hv: Hv, t': Tables, hv': Hv, x: nat, prot: Prot)
    requires Mirrors(t, hv) && Mirrors(t', hv') && x in t.s2 && t'.s2 == t.s2[x := t.s2[x].(prot := prot)]
    ensures hv' == hv[x := Page(t.s2[x].haddr, prot)]
  {
  }

  class Registry {
    var s2: map<nat, Ent>
    var hblk: map<nat, nat>
    var hv: Hv

    ghost function T(): Tables
      reads this
    {
      Tables(s2, hblk)
    }

    ghost predicate Valid()
      reads this
    {
      Inv(T(), hv)
    }

    constructor ()
      ensures Valid() && s2 == map[] && hv == map[]
    {
      s2, hblk, hv := map[], map[], map[];
    }

    /** Any run of legal operations succeeds, keeps the maps inverse and keeps the hypervisor's
        table equal to the registry. */
    method Execute(ops: seq<Op>) returns (ok: bool)
      requires Valid() && LegalRun(T(), ops)
      modifies this
      ensures ok && Valid() && T() == Final(old(T()), ops)
    {
      hide After, Legal;
      ok := true;
      var i := 0;
      assert ops[0..] == ops;
      while i < |ops|
        invariant ok && 0 <= i <= |ops| && Valid() && LegalRun(T(), ops[i..])
                  && Final(T(), ops[i..]) == Final(old(T()), ops)
      {
        assert ops[i..][0] == ops[i] && ops[i..][1..] == ops[i + 1..];
        ok := Perform(ops[i]);
        i := i + 1;
      }
    }

    method Perform(op: Op) returns (ok: bool)
      requires Valid() && Legal(T(), op)
      modifies this
      ensures ok && Valid() && T() == After(old(T()), op)
    {
      hide CanMap, KeepsPages, AllOrNone, Record, Forget;
      ok := true;
      match op
      case Map(ipa, size, prot, h) => ok := Map(ipa, size, prot, h);
      case Unmap(ipa, size) => Unmap(ipa, size);
      case BlockFor(h, prot, offered) => var _, _, r := BlockFor(h, prot, offered); ok := r;
      case Ref(ipa) => Ref(ipa);
      case Unref(ipa) => var _ := Unref(ipa);
      case ClearRefs => ClearRefs();
      case Reprotect(ipa, prot) => ok := Reprotect(ipa, prot);
      case Reflush(ipa) => ok := Reflush(ipa);
    }

    // ---- the hypervisor, as far as it is relied on ----

    method HvUnmap(ipa: nat, size: nat) returns (ok: bool)
      modifies this`hv
      ensures ok <==> Whole(old(hv), ipa, Granules(size))
      ensures Unmapped(old(hv), hv, ipa, Granules(size))
    {
      var n, i := Granules(size), 0;
      while i < n
        invariant 0 <= i <= n && hv == old(hv) && Whole(hv, ipa, i)
        modifies {}
      {
        if ipa + i * GRANULE !in hv {
          assert In(ipa + i * GRANULE, ipa, n);
          return false;
        }
        NextWhole(hv, ipa, i);
        i := i + 1;
      }
      hv := map x | x in hv && !In(x, ipa, n) :: hv[x];
      return true;
    }

    method HvMap(h: nat, ipa: nat, size: nat, prot: Prot) returns (ok: bool)
      modifies this`hv
      ensures ok <==> !Refuses(old(hv), ipa, Granules(size), h)
      ensures if ok then Mapped(old(hv), hv, ipa, Granules(size), prot, h) else hv == old(hv)
    {
      var n := Granules(size);
      if exists x :: x in hv && (In(x, ipa, n) || In(hv[x].haddr, h, n)) {
        return false;
      }
      ghost var was := hv;
      var i := 0;
      while i < n
        invariant 0 <= i <= n && Mapped(was, hv, ipa, i, prot, h)
      {
        NextMapped(was, hv, ipa, i, prot, h);
        hv := hv[ipa + i * GRANULE := Page(h + i * GRANULE, prot)];
        i := i + 1;
      }
      return true;
    }

    // ---- the registry ----

    /** s2_record. */
    method RecordRange(ipa: nat, size: nat, prot: Prot, h: nat)
      requires size % GRANULE == 0
      modifies this`s2, this`hblk
      ensures T() == Record(old(T()), ipa, Granules(size), prot, h)
    {
      var off := 0;
      while off < size
        invariant 0 <= off <= size && off % GRANULE == 0
        invariant T() == Record(old(T()), ipa, Granules(off), prot, h)
      {
        assert off == Granules(off) * GRANULE;
        var refs := if ipa + off in s2 then s2[ipa + off].refs else 0;
        s2 := s2[ipa + off := Ent(h + off, prot, refs)];
        hblk := hblk[h + off := ipa + off];
        off := off + GRANULE;
      }
    }

    /** s2_forget. */
    method ForgetRange(ipa: nat, size: nat)
      requires size % GRANULE == 0
      modifies this`s2, this`hblk
      ensures T() == Forget(old(T()), ipa, Granules(size))
    {
      var off := 0;
      while off < size
        invariant 0 <= off <= size && off % GRANULE == 0
        invariant T() == Forget(old(T()), ipa, Granules(off))
      {
        assert off == Granules(off) * GRANULE;
        if ipa + off in s2 {
          hblk := hblk - {s2[ipa + off].haddr};
          s2 := s2 - {ipa + off};
        }
        off := off + GRANULE;
      }
    }

    /** Map a range of blocks onto host memory.  False is a panic: the hypervisor refused. */
    method Map(ipa: nat, size: nat, prot: Prot, h: nat) returns (ok: bool)
      requires h % GRANULE == 0 && ipa % GRANULE == 0 && size % GRANULE == 0
      modifies this
      ensures old(Valid()) ==> (ok <==> CanMap(old(s2), ipa, Granules(size), h))
      ensures ok ==> T() == After(old(T()), Op.Map(ipa, size, prot, h))
      ensures ok && old(Valid()) ==> (Valid() <==> KeepsPages(old(s2), ipa, Granules(size), h))
      ensures ok ==> Laid(old(T()), T(), ipa, size, prot, h)
    {
      ghost var t, hv0 := T(), hv;
      if Base(ipa) in s2 {
        var _ := HvUnmap(ipa, size);
      }
      ghost var hv1 := hv;
      ok := HvMap(h, ipa, size, prot);
      if ok {
        RecordRange(ipa, size, prot, h);
        RecordLays(t, ipa, size, prot, h);
      }
      if Inv(t, hv0) {
        MapExact(t, hv0, hv1, hv, ipa, Granules(size), prot, h);
      }
    }

    method Unmap(ipa: nat, size: nat)
      requires Valid() && size % GRANULE == 0
      modifies this
      ensures T() == After(old(T()), Op.Unmap(ipa, size))
      ensures Valid() <==> AllOrNone(old(s2), ipa, Granules(size))
      ensures Cleared(old(T()), T(), ipa, size)
    {
      ghost var t, hv0 := T(), hv;
      if Base(ipa) in s2 {
        var _ := HvUnmap(ipa, size);
      }
      ghost var hv1 := hv;
      ForgetRange(ipa, size);
      UnmapExact(t, hv0, hv1, ipa, Granules(size));
      ForgetClears(t, ipa, size);
    }

    /** The block behind a host page: its own if it has one, with the permissions asked for
        added, or else the one offered. */
    method BlockFor(h: nat, prot: Prot, offered: nat) returns (ipa: nat, created: bool, ok: bool)
      requires Valid() && h % GRANULE == 0 && offered % GRANULE == 0
      modifies this
      ensures ok && T() == After(old(T()), Op.BlockFor(h, prot, offered))
      ensures ipa in s2 && s2[ipa].haddr == h && prot <= s2[ipa].prot
      ensures created <==> h !in old(hblk)
      ensures !created ==>
                Valid() && ipa == old(hblk)[h] && old(s2)[ipa].prot <= s2[ipa].prot && s2[ipa].refs == old(s2)[ipa].refs
      ensures created ==> ipa == offered && (Valid() <==> offered !in old(s2))
      ensures s2[ipa].prot == if !created then old(s2)[ipa].prot + prot else if prot == {} then {R} else prot
      ensures forall x :: x != ipa ==> (x in s2 <==> x in old(s2)) && (x in s2 ==> s2[x] == old(s2)[x])
    {
      hide Laid, Record, CanMap, KeepsPages;
      ghost var t := T();
      ok := true;
      if h in hblk && hblk[h] in s2 {
        ipa, created := hblk[h], false;
        var have := s2[ipa].prot;
        if have + prot != have {
          Again(t, ipa, have + prot);
          ok := Map(ipa, GRANULE, have + prot, h);
        } else {
          assert s2[ipa := s2[ipa].(prot := have + prot)] == s2;
        }
        return;
      }
      First(t, offered, h);
      OneGranule(t, offered, OrRead(prot), h);
      ok := Map(offered, GRANULE, OrRead(prot), h);
      return offered, true, ok;
    }

    method Reprotect(ipa: nat, prot: Prot) returns (ok: bool)
      requires Valid()
      modifies this
      ensures Valid() && ok && T() == After(old(T()), Op.Reprotect(ipa, prot))
      ensures hblk == old(hblk)
      ensures if Base(ipa) in old(s2) then
                var was := old(s2)[Base(ipa)];
                && s2 == old(s2)[Base(ipa) := Ent(was.haddr, prot, was.refs)]
                && hv == old(hv)[Base(ipa) := Page(was.haddr, prot)]
              else s2 == old(s2) && hv == old(hv)
    {
      var base := Base(ipa);
      if base !in s2 {
        return true;
      }
      Again(T(), base, prot);
      ghost var t, hv0 := T(), hv;
      ok := Map(base, GRANULE, prot, s2[base].haddr);
      OneMirror(t, hv0, T(), hv, base, prot);
    }

    /** Nothing is changed: the block is unmapped and mapped again. */
    method Reflush(ipa: nat) returns (ok: bool)
      requires Valid()
      modifies this
      ensures Valid() && ok && T() == old(T()) && hv == old(hv)
    {
      var base := Base(ipa);
      if base !in s2 {
        return true;
      }
      ghost var t, hv0 := T(), hv;
      var ent := s2[base];
      Again(t, base, ent.prot);
      ok := Map(base, GRANULE, ent.prot, ent.haddr);
      assert t.s2[base := t.s2[base].(prot := ent.prot)] == t.s2;
      MirrorsOne(t, hv0, hv);
    }

    method Ref(ipa: nat)
      requires Valid()
      modifies this`s2
      ensures Valid() && T() == After(old(T()), Op.Ref(ipa))
      ensures forall x :: (x in s2 <==> x in old(s2)) &&
                (x in s2 ==> s2[x] == Ent(old(s2)[x].haddr, old(s2)[x].prot,
                                          old(s2)[x].refs + if x == Base(ipa) then 1 else 0))
    {
      var base := Base(ipa);
      if base in s2 {
        s2 := s2[base := s2[base].(refs := s2[base].refs + 1)];
      }
    }

    /** True when no reference is left. */
    method Unref(ipa: nat) returns (unused: bool)
      requires Valid()
      modifies this`s2
      ensures Valid() && T() == After(old(T()), Op.Unref(ipa))
      ensures unused <==> Base(ipa) in old(s2) && old(s2)[Base(ipa)].refs <= 1
      ensures forall x :: (x in s2 <==> x in old(s2)) &&
                (x in s2 ==> s2[x] == Ent(old(s2)[x].haddr, old(s2)[x].prot,
                                          if x == Base(ipa) && old(s2)[x].refs > 0 then old(s2)[x].refs - 1
                                          else old(s2)[x].refs))
    {
      var base := Base(ipa);
      if base !in s2 {
        return false;
      }
      if s2[base].refs > 0 {
        s2 := s2[base := s2[base].(refs := s2[base].refs - 1)];
      } else {
        assert s2[base := s2[base].(refs := 0)] == s2;
      }
      return s2[base].refs == 0;
    }

    method ClearRefs()
      requires Valid()
      modifies this`s2
      ensures Valid() && T() == After(old(T()), Op.ClearRefs)
      ensures forall x :: (x in s2 <==> x in old(s2)) &&
                (x in s2 ==> s2[x] == Ent(old(s2)[x].haddr, old(s2)[x].prot, 0))
    {
      ghost var was := s2;
      var left := s2.Keys;
      while left != {}
        invariant left <= s2.Keys == was.Keys
        invariant forall x :: x in was ==> s2[x] == if x in left then was[x] else was[x].(refs := 0)
        decreases left
      {
        var x :| x in left;
        s2 := s2[x := s2[x].(refs := 0)];
        left := left - {x};
      }
      assert s2 == map x | x in was :: was[x].(refs := 0);
    }
  }

  lemma MirrorsOne(t: Tables, hv: Hv, hv': Hv)
    requires Mirrors(t, hv) && Mirrors(t, hv')
    ensures hv == hv'
  {
  }

  lemma MapExact(t: Tables, hv: Hv, hv1: Hv, hv2: Hv, ipa: nat, n: nat, prot: Prot, h: nat)
    requires Inv(t, hv) && Prepared(t, hv, hv1, ipa, n) && ipa % GRANULE == 0 && h % GRANULE == 0
    requires !Refuses(hv1, ipa, n, h) ==> Mapped(hv1, hv2, ipa, n, prot, h)
    ensures Refuses(hv1, ipa, n, h) <==> !CanMap(t.s2, ipa, n, h)
    ensures CanMap(t.s2, ipa, n, h) ==> (Inv(Record(t, ipa, n, prot, h), hv2) <==> KeepsPages(t.s2, ipa, n, h))
  {
    hide Refuses, CanMap, Mapped, Prepared, Record, Inverse, Mirrors, Aligned, KeepsPages;
    AcceptedExactly(t, hv, hv1, ipa, n, h);
    if CanMap(t.s2, ipa, n, h) {
      MapMirrors(t, hv, hv1, hv2, ipa, n, prot, h);
      MapInverse(t, ipa, n, prot, h);
    }
  }

  lemma NextWhole(hv: Hv, ipa: nat, i: nat)
    requires Whole(hv, ipa, i) && ipa + i * GRANULE in hv
    ensures Whole(hv, ipa, i + 1)
  {
    forall x | In(x, ipa, i + 1)
      ensures x in hv
    {
      InStep(x, ipa, i);
    }
  }

  lemma NextMapped(hv: Hv, hv': Hv, ipa: nat, i: nat, prot: Prot, h: nat)
    requires Mapped(hv, hv', ipa, i, prot, h)
    ensures Mapped(hv, hv'[ipa + i * GRANULE := Page(h + i * GRANULE, prot)], ipa, i + 1, prot, h)
  {
    forall x: nat
      ensures In(x, ipa, i + 1) <==> In(x, ipa, i) || x == ipa + i * GRANULE
    {
      InStep(x, ipa, i);
    }
    hide In;
  }

  // ---- reference counts ----

  /** The operation counts block x's references, or does away with it. */
  ghost predicate Counts(op: Op, x: nat) {
    match op
    case Ref(ipa) => Base(ipa) == x
    case Unref(ipa) => Base(ipa) == x
    case ClearRefs => true
    case Unmap(ipa, size) => In(x, ipa, Granules(size))
    case _ => false
  }

  lemma RefsKept(t: Tables, op: Op, x: nat)
    requires Inverse(t) && x in t.s2 && !Counts(op, x)
    ensures x in After(t, op).s2 && After(t, op).s2[x].refs == t.s2[x].refs
  {
    hide Record, Forget, In, Inverse;
    match op
    case Map(ipa, size, prot, h) => Recorded(t, ipa, Granules(size), prot, h, x);
    case Unmap(ipa, size) => Forgotten(t, ipa, Granules(size), x);
    case _ =>
  }

  /** Remapping, re-permissioning and flushing never change how often a block is referred to. */
  lemma {:induction false} RefsSurvive(t: Tables, hv: Hv, ops: seq<Op>, x: nat)
    requires Inv(t, hv) && LegalRun(t, ops) && x in t.s2 && forall i :: 0 <= i < |ops| ==> !Counts(ops[i], x)
    ensures x in Final(t, ops).s2 && Final(t, ops).s2[x].refs == t.s2[x].refs
    decreases |ops|
  {
    hide After, Legal, Counts, Inverse, Mirrors, Aligned;
    if ops != [] {
      RefsKept(t, ops[0], x);
      var hv' := LegalKeeps(t, hv, ops[0]);
      RefsSurvive(After(t, ops[0]), hv', ops[1..], x);
    }
  }

  /** The operation may change block x's permission. */
  ghost predicate Permits(t: Tables, op: Op, x: nat) {
    match op
    case Map(ipa, size, _, _) => In(x, ipa, Granules(size))
    case Unmap(ipa, size) => In(x, ipa, Granules(size))
    case BlockFor(h, _, offered) => x == offered || (x in t.s2 && t.s2[x].haddr == h)
    case Reprotect(ipa, _) => Base(ipa) == x
    case _ => false
  }

  ghost predicate NonePermits(t: Tables, ops: seq<Op>, x: nat)
    decreases |ops|
  {
    ops == [] || (!Permits(t, ops[0], x) && NonePermits(After(t, ops[0]), ops[1..], x))
  }

  lemma PermissionKept(t: Tables, op: Op, x: nat)
    requires Inverse(t) && x in t.s2 && !Permits(t, op, x)
    ensures x in After(t, op).s2 && After(t, op).s2[x].prot == t.s2[x].prot
    ensures After(t, op).s2[x].haddr == t.s2[x].haddr
  {
    hide Record, Forget, In;
    match op
    case Map(ipa, size, prot, h) => Recorded(t, ipa, Granules(size), prot, h, x);
    case Unmap(ipa, size) => Forgotten(t, ipa, Granules(size), x);
    case _ =>
  }

  lemma {:induction false} PermissionsSurvive(t: Tables, hv: Hv, ops: seq<Op>, x: nat)
    requires Inv(t, hv) && LegalRun(t, ops) && x in t.s2 && NonePermits(t, ops, x)
    ensures x in Final(t, ops).s2 && Final(t, ops).s2[x].prot == t.s2[x].prot
    ensures Final(t, ops).s2[x].haddr == t.s2[x].haddr
    decreases |ops|
  {
    hide After, Legal, Permits, Inverse, Mirrors, Aligned;
    if ops != [] {
      PermissionKept(t, ops[0], x);
      var hv' := LegalKeeps(t, hv, ops[0]);
      PermissionsSurvive(After(t, ops[0]), hv', ops[1..], x);
    }
  }

  /** A new permission is there for as long as no later operation is on that block: in any legal run that starts
      with it, and in any registry that has been through that run. */
  lemma ReprotectLasts(t: Tables, hv: Hv, ipa: nat, prot: Prot, ops: seq<Op>)
    requires Inv(t, hv) && Base(ipa) in t.s2 && LegalRun(After(t, Op.Reprotect(ipa, prot)), ops)
    requires NonePermits(After(t, Op.Reprotect(ipa, prot)), ops, Base(ipa))
    ensures var x, t' := Base(ipa), Final(t, [Op.Reprotect(ipa, prot)] + ops);
            x in t'.s2 && t'.s2[x].prot == prot && t'.s2[x].haddr == t.s2[x].haddr
  {
    var op := Op.Reprotect(ipa, prot);
    assert ([op] + ops)[1..] == ops;
    var hv' := LegalKeeps(t, hv, op);
    PermissionsSurvive(After(t, op), hv', ops, Base(ipa));
  }

  /** A legal operation keeps the invariant, for some hypervisor table. */
  lemma LegalKeeps(t: Tables, hv: Hv, op: Op) returns (hv': Hv)
    requires Inv(t, hv) && Legal(t, op)
    ensures Inv(After(t, op), hv')
  {
    hide CanMap, KeepsPages, AllOrNone, Record, Forget;
    hv' := map x | x in After(t, op).s2 :: Page(After(t, op).s2[x].haddr, After(t, op).s2[x].prot);
    match op
    case Map(ipa, size, prot, h) =>
      MapInverse(t, ipa, Granules(size), prot, h);
      MapAligned(t, ipa, Granules(size), prot, h);
    case Unmap(ipa, size) => UnmapAligned(t, ipa, Granules(size));
    case BlockFor(h, prot, offered) => BlockKeeps(t, h, prot, offered);
    case _ =>
  }

  lemma MapAligned(t: Tables, ipa: nat, n: nat, prot: Prot, h: nat)
    requires Aligned(t) && ipa % GRANULE == 0 && h % GRANULE == 0
    ensures Aligned(Record(t, ipa, n, prot, h))
  {
    hide Record, In;
    var t' := Record(t, ipa, n, prot, h);
    forall x | x in t'.s2
      ensures x % GRANULE == 0 && t'.s2[x].haddr % GRANULE == 0
    {
      Recorded(t, ipa, n, prot, h, x);
      InAligned(x, ipa, n, h);
    }
  }

  lemma UnmapAligned(t: Tables, ipa: nat, n: nat)
    requires Inverse(t) && Aligned(t)
    ensures Inverse(Forget(t, ipa, n)) && Aligned(Forget(t, ipa, n))
  {
    hide Forget, In, Inverse;
    var t' := Forget(t, ipa, n);
    Forgotten(t, ipa, n, 0);
    forall x | x in t'.s2
      ensures x in t.s2 && t'.s2[x] == t.s2[x]
    {
      Forgotten(t, ipa, n, x);
    }
  }

  lemma BlockKeeps(t: Tables, h: nat, prot: Prot, offered: nat)
    requires Inverse(t) && Aligned(t) && Legal(t, Op.BlockFor(h, prot, offered))
    ensures Inverse(After(t, Op.BlockFor(h, prot, offered))) && Aligned(After(t, Op.BlockFor(h, prot, offered)))
  {
  }

  // ---- what goes wrong otherwise ----

  /** Moving a block to another host page is accepted, and leaves the old page indexed. */
  lemma MovedBlock()
    ensures var t := Put(Tables(map[], map[]), 0, {R}, 0);
            && Inverse(t) && CanMap(t.s2, 0, Granules(GRANULE), GRANULE)
            && !Inverse(Record(t, 0, Granules(GRANULE), {R}, GRANULE))
  {
    var t := Put(Tables(map[], map[]), 0, {R}, 0);
    OneGranule(t, 0, {R}, GRANULE);
    forall y: int
      ensures (In(y, 0, 1) <==> y == 0) && (In(y, GRANULE, 1) <==> y == GRANULE)
    {
      Single(y, 0);
      Single(y, GRANULE);
    }
    var t' := Put(t, 0, {R}, GRANULE);
    assert 0 in t'.hblk && t'.hblk[0] == 0 && t'.s2[0].haddr == GRANULE;
  }

  /** Unmapping two blocks of which one is mapped leaves it mapped and unregistered. */
  lemma HalfUnmapped()
    ensures var t := Put(Tables(map[], map[]), 0, {R}, 0);
            var hv: Hv := map[0 := Page(0, {R})];
            Inv(t, hv) && forall hv1: Hv :: Prepared(t, hv, hv1, 0, 2) ==> !Inv(Forget(t, 0, 2), hv1)
  {
    var t := Put(Tables(map[], map[]), 0, {R}, 0);
    var hv: Hv := map[0 := Page(0, {R})];
    assert Inv(t, hv);
    forall hv1: Hv | Prepared(t, hv, hv1, 0, 2)
      ensures !Inv(Forget(t, 0, 2), hv1)
    {
      UnmapExact(t, hv, hv1, 0, 2);
      assert In(0, 0, 2) && In(GRANULE, 0, 2) && 0 in t.s2 && GRANULE !in t.s2;
    }
  }
}
