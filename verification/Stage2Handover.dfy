/** The registry carried to another process, or into a new virtual machine. */
module Stage2Handover {
  import opened Stage2
  import opened Stage2Registry
  import opened Basics

  /** What is kept of a block: where it is, the arena offset of its bytes (negative for
      memory that is not the arena's), and its permissions. */
  datatype Saved = Saved(ipa: nat, off: int, prot: Prot)

  /** out lists blocks of the registry, each at most once. */
  ghost predicate Lists(out: seq<Saved>, s2: map<nat, Ent>, offsetOf: nat -> int) {
    && (forall i :: 0 <= i < |out| ==>
          out[i].ipa in s2 && out[i] == Saved(out[i].ipa, offsetOf(s2[out[i].ipa].haddr), s2[out[i].ipa].prot))
    && (forall i, j :: 0 <= i < j < |out| ==> out[i].ipa != out[j].ipa)
  }

  ghost predicate Listed(out: seq<Saved>, x: nat) {
    exists i :: 0 <= i < |out| && out[i].ipa == x
  }

  /** The registry by arena offsets.  The number of blocks is returned even if there was
      not room for them all. */
  method Snapshot(r: Registry, offsetOf: nat -> int, max: nat) returns (out: seq<Saved>, n: nat)
    ensures n == |r.s2| && |out| == (if n < max then n else max)
    ensures Lists(out, r.s2, offsetOf)
    ensures n <= max ==> forall x :: x in r.s2 ==> Listed(out, x)
  {
    out, n := [], 0;
    var left := r.s2.Keys;
    while left != {}
      invariant left <= r.s2.Keys && n + |left| == |r.s2| && |out| == (if n < max then n else max)
      invariant Lists(out, r.s2, offsetOf) && forall i :: 0 <= i < |out| ==> out[i].ipa !in left
      invariant n <= max ==> forall x :: x in r.s2 && x !in left ==> Listed(out, x)
      decreases left
    {
      var ipa :| ipa in left;
      if n < max {
        ListedMore(out, Saved(ipa, offsetOf(r.s2[ipa].haddr), r.s2[ipa].prot));
        out := out + [Saved(ipa, offsetOf(r.s2[ipa].haddr), r.s2[ipa].prot)];
      }
      n := n + 1;
      left := left - {ipa};
    }
  }

  lemma ListedMore(out: seq<Saved>, v: Saved)
    ensures Listed(out + [v], v.ipa)
    ensures forall x :: Listed(out, x) ==> Listed(out + [v], x)
  {
    assert (out + [v])[|out|] == v;
    forall x | Listed(out, x)
      ensures Listed(out + [v], x)
    {
      var i :| 0 <= i < |out| && out[i].ipa == x;
      assert (out + [v])[i].ipa == x;
    }
  }

  /** The entries can be restored: blocks and arena offsets are not repeated, and every arena
      offset has an address of its own here. */
  ghost predicate Restorable(saved: seq<Saved>, hvaOf: int -> Option<nat>) {
    && (forall i, j :: 0 <= i < j < |saved| ==> saved[i].ipa != saved[j].ipa)
    && (forall i :: 0 <= i < |saved| && saved[i].off >= 0 ==>
          saved[i].ipa % GRANULE == 0 && hvaOf(saved[i].off).Some? && hvaOf(saved[i].off).value % GRANULE == 0)
    && (forall i, j :: 0 <= i < j < |saved| && saved[i].off >= 0 && saved[j].off >= 0 ==>
          hvaOf(saved[i].off) != hvaOf(saved[j].off))
  }

  /** Entry i is back, at its arena offset's address here. */
  ghost predicate Back(v: Saved, hvaOf: int -> Option<nat>, s2: map<nat, Ent>) {
    v.off >= 0 ==> hvaOf(v.off).Some? && v.ipa in s2 && s2[v.ipa] == Ent(hvaOf(v.off).value, v.prot, 0)
  }

  ghost predicate FromSaved(saved: seq<Saved>, n: nat, x: nat)
    requires n <= |saved|
  {
    exists i :: 0 <= i < n && saved[i].off >= 0 && saved[i].ipa == x
  }

  /** The first n entries are back and nothing else is there. */
  ghost predicate Restored(saved: seq<Saved>, hvaOf: int -> Option<nat>, s2: map<nat, Ent>, n: nat)
    requires n <= |saved|
  {
    && (forall i :: 0 <= i < n ==> Back(saved[i], hvaOf, s2))
    && (forall x :: x in s2 ==> FromSaved(saved, n, x))
  }

  /** One entry restored, given the ones before it. */
  lemma RestoreNext(saved: seq<Saved>, hvaOf: int -> Option<nat>, t: Tables, n: nat)
    requires n < |saved| && Restorable(saved, hvaOf) && Restored(saved, hvaOf, t.s2, n) && Inverse(t)
             && saved[n].off >= 0
    ensures var h := hvaOf(saved[n].off).value;
            && saved[n].ipa !in t.s2 && h !in t.hblk
            && Restored(saved, hvaOf, Put(t, saved[n].ipa, saved[n].prot, h).s2, n + 1)
  {
    hide Inverse;
    var h, v := hvaOf(saved[n].off).value, saved[n];
    assert v.ipa !in t.s2 by {
      assert forall i :: 0 <= i < n ==> saved[i].ipa != v.ipa;
    }
    NewPage(saved, hvaOf, t, n);
    var s2' := Put(t, v.ipa, v.prot, h).s2;
    forall i | 0 <= i < n + 1
      ensures Back(saved[i], hvaOf, s2')
    {
      assert i < n ==> Back(saved[i], hvaOf, t.s2) && saved[i].ipa != v.ipa;
    }
    FromNext(saved, n, t.s2, s2');
  }

  lemma NewPage(saved: seq<Saved>, hvaOf: int -> Option<nat>, t: Tables, n: nat)
    requires n < |saved| && Restorable(saved, hvaOf) && Restored(saved, hvaOf, t.s2, n) && Inverse(t)
             && saved[n].off >= 0
    ensures hvaOf(saved[n].off).value !in t.hblk
  {
    forall k | k in t.hblk
      ensures k != hvaOf(saved[n].off).value
    {
      assert FromSaved(saved, n, t.hblk[k]);
      var i :| 0 <= i < n && saved[i].off >= 0 && saved[i].ipa == t.hblk[k];
      assert Back(saved[i], hvaOf, t.s2);
      assert hvaOf(saved[i].off) != hvaOf(saved[n].off);
    }
  }

  lemma FromNext(saved: seq<Saved>, n: nat, s2: map<nat, Ent>, s2': map<nat, Ent>)
    requires n < |saved| && (forall x :: x in s2 ==> FromSaved(saved, n, x))
    requires forall x :: x in s2' ==> x in s2 || (x == saved[n].ipa && saved[n].off >= 0)
    ensures forall x :: x in s2' ==> FromSaved(saved, n + 1, x)
  {
    forall x | x in s2'
      ensures FromSaved(saved, n + 1, x)
    {
      if x in s2 {
        assert FromSaved(saved, n, x);
      }
    }
  }

  lemma RestoreSkip(saved: seq<Saved>, hvaOf: int -> Option<nat>, s2: map<nat, Ent>, n: nat)
    requires n < |saved| && Restored(saved, hvaOf, s2, n) && saved[n].off < 0
    ensures Restored(saved, hvaOf, s2, n + 1)
  {
    FromNext(saved, n, s2, s2);
  }

  /** The registry and the mappings rebuilt.  False is a panic. */
  method Restore(r: Registry, saved: seq<Saved>, hvaOf: int -> Option<nat>) returns (ok: bool)
    requires r.Valid() && r.s2 == map[] && r.hblk == map[]
    modifies r
    ensures Restorable(saved, hvaOf) ==> ok && r.Valid() && Restored(saved, hvaOf, r.s2, |saved|)
  {
    ghost var good := Restorable(saved, hvaOf);
    hide Restorable, Restored, Inverse, Mirrors, Aligned, CanMap, KeepsPages;
    NoneRestored(saved, hvaOf);
    var i := 0;
    while i < |saved|
      invariant 0 <= i <= |saved| && (good ==> r.Valid() && Restored(saved, hvaOf, r.s2, i))
    {
      if saved[i].off < 0 {
        if good {
          RestoreSkip(saved, hvaOf, r.s2, i);
        }
      } else {
        var hva := hvaOf(saved[i].off);
        if good {
          Usable(saved, hvaOf, i);
          RestoreNext(saved, hvaOf, r.T(), i);
          First(r.T(), saved[i].ipa, hva.value);
          OneGranule(r.T(), saved[i].ipa, saved[i].prot, hva.value);
        }
        if hva.None? || saved[i].ipa % GRANULE != 0 || hva.value % GRANULE != 0 {
          return false;
        }
        ok := r.Map(saved[i].ipa, GRANULE, saved[i].prot, hva.value);
        if !ok {
          return;
        }
      }
      i := i + 1;
    }
    return true;
  }

  lemma Usable(saved: seq<Saved>, hvaOf: int -> Option<nat>, i: nat)
    requires Restorable(saved, hvaOf) && i < |saved| && saved[i].off >= 0
    ensures saved[i].ipa % GRANULE == 0 && hvaOf(saved[i].off).Some? && hvaOf(saved[i].off).value % GRANULE == 0
  {
  }

  lemma NoneRestored(saved: seq<Saved>, hvaOf: int -> Option<nat>)
    ensures Restored(saved, hvaOf, map[], 0)
  {
  }

  /** A handover keeps every arena-backed block: same place, same arena offset, same
      permissions.  Blocks of memory outside the arena are left out. */
  lemma HandoverKeeps(s2: map<nat, Ent>, offsetOf: nat -> int, saved: seq<Saved>, hvaOf: int -> Option<nat>,
                      offsetOf': nat -> int, s2': map<nat, Ent>, x: nat)
    requires Lists(saved, s2, offsetOf) && (forall y :: y in s2 ==> Listed(saved, y))
    requires Restored(saved, hvaOf, s2', |saved|)
    requires forall o: int :: o >= 0 && hvaOf(o).Some? ==> offsetOf'(hvaOf(o).value) == o
    ensures x in s2' <==> x in s2 && offsetOf(s2[x].haddr) >= 0
    ensures x in s2' ==>
              offsetOf'(s2'[x].haddr) == offsetOf(s2[x].haddr) && s2'[x].prot == s2[x].prot && s2'[x].refs == 0
  {
    if x in s2' {
      assert FromSaved(saved, |saved|, x);
      var i :| 0 <= i < |saved| && saved[i].off >= 0 && saved[i].ipa == x;
      assert Back(saved[i], hvaOf, s2');
    } else if x in s2 {
      assert Listed(saved, x);
      var i :| 0 <= i < |saved| && saved[i].ipa == x;
      assert Back(saved[i], hvaOf, s2');
    }
  }

  /** A snapshot can be restored wherever each arena offset has an aligned address of its own. */
  lemma SnapshotRestorable(t: Tables, offsetOf: nat -> int, saved: seq<Saved>, hvaOf: int -> Option<nat>)
    requires Inverse(t) && Aligned(t) && Lists(saved, t.s2, offsetOf)
    requires forall h: nat, k: nat :: offsetOf(h) >= 0 && offsetOf(h) == offsetOf(k) ==> h == k
    requires forall o: int, p: int :: o >= 0 && p >= 0 && o != p && hvaOf(o).Some? && hvaOf(p).Some? ==>
               hvaOf(o).value != hvaOf(p).value
    requires forall x :: x in t.s2 && offsetOf(t.s2[x].haddr) >= 0 ==>
               hvaOf(offsetOf(t.s2[x].haddr)).Some? && hvaOf(offsetOf(t.s2[x].haddr)).value % GRANULE == 0
    ensures Restorable(saved, hvaOf)
  {
    forall i, j | 0 <= i < j < |saved| && saved[i].off >= 0 && saved[j].off >= 0
      ensures saved[i].off != saved[j].off
    {
      assert saved[i].ipa in t.s2 && saved[j].ipa in t.s2 && saved[i].ipa != saved[j].ipa;
      if saved[i].off == saved[j].off {
        OneBlock(t, saved[i].ipa, saved[j].ipa);
      }
    }
  }

  /** Each arena offset has, in each process, one aligned address of its own. */
  ghost predicate Arenas(offsetOf: nat -> int, hvaOf: int -> Option<nat>, offsetOf': nat -> int) {
    && (forall h: nat, k: nat :: offsetOf(h) >= 0 && offsetOf(h) == offsetOf(k) ==> h == k)
    && (forall o: int :: o >= 0 && hvaOf(o).Some? ==> offsetOf'(hvaOf(o).value) == o)
  }

  /** What is registered in s2' is what was backed by the arena in s2: the same blocks, at the same arena offsets, with
      the same permissions and no references. */
  ghost predicate Carried(s2: map<nat, Ent>, offsetOf: nat -> int, s2': map<nat, Ent>, offsetOf': nat -> int) {
    forall x ::
      && (x in s2' <==> x in s2 && offsetOf(s2[x].haddr) >= 0)
      && (x in s2' ==>
            offsetOf'(s2'[x].haddr) == offsetOf(s2[x].haddr) && s2'[x].prot == s2[x].prot && s2'[x].refs == 0)
  }

  /** The blocks with arena offsets have aligned addresses in the other process. */
  ghost predicate Placeable(s2: map<nat, Ent>, offsetOf: nat -> int, hvaOf: int -> Option<nat>) {
    forall x :: x in s2 && offsetOf(s2[x].haddr) >= 0 ==>
      hvaOf(offsetOf(s2[x].haddr)).Some? && hvaOf(offsetOf(s2[x].haddr)).value % GRANULE == 0
  }

  /** A registry handed over: listed here, rebuilt from the list in a new process.  If the list has room for it
      and the arena is there, the new registry is the old one in the new process's addresses and its
      hypervisor agrees with it. */
  method Handover(r: Registry, offsetOf: nat -> int, max: nat, hvaOf: int -> Option<nat>, ghost offsetOf': nat -> int)
    returns (ok: bool, r': Registry)
    requires r.Valid()
    ensures fresh(r')
    ensures |r.s2| <= max && Arenas(offsetOf, hvaOf, offsetOf') && Placeable(r.s2, offsetOf, hvaOf) ==>
              ok && r'.Valid() && Carried(r.s2, offsetOf, r'.s2, offsetOf')
  {
    hide Restorable, Restored, Lists, Listed, Inverse, Mirrors, Aligned, Arenas, Placeable, Carried;
    ghost var t := r.T();
    var saved, n := Snapshot(r, offsetOf, max);
    r' := new Registry();
    EmptyInverse(r'.T());
    ok := Restore(r', saved, hvaOf);
    if |r.s2| <= max && Arenas(offsetOf, hvaOf, offsetOf') && Placeable(r.s2, offsetOf, hvaOf) {
      HandedOver(t, offsetOf, saved, hvaOf, offsetOf', r'.s2);
    }
  }

  lemma HandedOver(t: Tables, offsetOf: nat -> int, saved: seq<Saved>, hvaOf: int -> Option<nat>,
                   offsetOf': nat -> int, s2': map<nat, Ent>)
    requires Inverse(t) && Aligned(t) && Lists(saved, t.s2, offsetOf) && (forall y :: y in t.s2 ==> Listed(saved, y))
    requires Arenas(offsetOf, hvaOf, offsetOf') && Placeable(t.s2, offsetOf, hvaOf)
    ensures Restorable(saved, hvaOf)
    ensures Restored(saved, hvaOf, s2', |saved|) ==> Carried(t.s2, offsetOf, s2', offsetOf')
  {
    hide Restorable, Restored, Lists, Listed, Inverse, Aligned;
    OwnAddresses(offsetOf, hvaOf, offsetOf');
    SnapshotRestorable(t, offsetOf, saved, hvaOf);
    if Restored(saved, hvaOf, s2', |saved|) {
      forall x
        ensures x in s2' <==> x in t.s2 && offsetOf(t.s2[x].haddr) >= 0
        ensures x in s2' ==> offsetOf'(s2'[x].haddr) == offsetOf(t.s2[x].haddr) && s2'[x].prot == t.s2[x].prot
        ensures x in s2' ==> s2'[x].refs == 0
      {
        HandoverKeeps(t.s2, offsetOf, saved, hvaOf, offsetOf', s2', x);
      }
    }
  }

  /** Nothing registered, nothing indexed. */
  lemma EmptyInverse(t: Tables)
    requires Inverse(t) && t.s2 == map[]
    ensures t.hblk == map[]
  {
  }

  /** An address says which offset it is of, so no two offsets have one. */
  lemma OwnAddresses(offsetOf: nat -> int, hvaOf: int -> Option<nat>, offsetOf': nat -> int)
    requires Arenas(offsetOf, hvaOf, offsetOf')
    ensures forall o: int, p: int :: o >= 0 && p >= 0 && o != p && hvaOf(o).Some? && hvaOf(p).Some? ==>
              hvaOf(o).value != hvaOf(p).value
  {
  }

  /** A new virtual machine is given every mapping again.  False is a panic. */
  method Replay(r: Registry) returns (ok: bool)
    requires r.hv == map[]
    modifies r`hv
    ensures Inverse(r.T()) ==> ok && Mirrors(r.T(), r.hv)
  {
    var left := r.s2.Keys;
    ghost var t := r.T();
    while left != {}
      invariant left <= r.s2.Keys && r.T() == t
      invariant Inverse(t) ==> Partly(t, r.hv, left)
      decreases left
    {
      var ipa :| ipa in left;
      ghost var hv := r.hv;
      ok := r.HvMap(r.s2[ipa].haddr, ipa, GRANULE, r.s2[ipa].prot);
      if Inverse(t) {
        ReplayOne(t, hv, r.hv, left, ipa);
      }
      if !ok {
        return;
      }
      left := left - {ipa};
    }
    return true;
  }

  /** What is registered is mapped, but for the blocks of left. */
  ghost predicate Partly(t: Tables, hv: Hv, left: set<nat>) {
    && (forall x :: x in hv <==> x in t.s2 && x !in left)
    && (forall x :: x in hv ==> hv[x] == Page(t.s2[x].haddr, t.s2[x].prot))
  }

  lemma ReplayOne(t: Tables, hv: Hv, hv': Hv, left: set<nat>, ipa: nat)
    requires Inverse(t) && Partly(t, hv, left) && ipa in left && ipa in t.s2
    ensures !Refuses(hv, ipa, Granules(GRANULE), t.s2[ipa].haddr)
    ensures Mapped(hv, hv', ipa, Granules(GRANULE), t.s2[ipa].prot, t.s2[ipa].haddr) ==> Partly(t, hv', left - {ipa})
  {
    var h := t.s2[ipa].haddr;
    forall y: int
      ensures (In(y, ipa, 1) <==> y == ipa) && (In(y, h, 1) <==> y == h) && Granules(GRANULE) == 1
    {
      Single(y, ipa);
      Single(y, h);
    }
    hide In;
  }
}
