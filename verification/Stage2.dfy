/** The stage-2 registry: which host page backs each guest-physical block, the reverse
    index, and the hypervisor's own table that both must agree with.
 */
module Stage2 {

  const GRANULE := 0x4000

  datatype Perm = R | W | X
  type Prot = set<Perm>

  datatype Ent = Ent(haddr: nat, prot: Prot, refs: nat)
  datatype Page = Page(haddr: nat, prot: Prot)

  /** The forward map and the reverse index. */
  datatype Tables = Tables(s2: map<nat, Ent>, hblk: map<nat, nat>)

  type Hv = map<nat, Page>

  function Base(ipa: nat): (b: nat)
    ensures b % GRANULE == 0 && b <= ipa < b + GRANULE
  {
    ipa - ipa % GRANULE
  }

  /** x is one of the n granules from lo. */
  predicate In(x: int, lo: nat, n: nat) {
    lo <= x < lo + n * GRANULE && (x - lo) % GRANULE == 0
  }

  /** The granule that is as far into a range from b as x is into one from a. */
  function Moved(x: nat, a: nat, b: nat): nat {
    if x >= a then b + (x - a) else 0
  }

  lemma InStep(x: int, lo: nat, n: nat)
    ensures In(x, lo, n + 1) <==> In(x, lo, n) || x == lo + n * GRANULE
    ensures !In(lo + n * GRANULE, lo, n)
  {
  }

  // ---- what must hold ----

  /** Each block's host page leads back to it, and each indexed host page to its block. */
  ghost predicate Inverse(t: Tables) {
    && (forall x :: x in t.s2 ==> t.s2[x].haddr in t.hblk && t.hblk[t.s2[x].haddr] == x)
    && (forall h :: h in t.hblk ==> t.hblk[h] in t.s2 && t.s2[t.hblk[h]].haddr == h)
  }

  /** The hypervisor maps what is registered, where and as it is registered. */
  ghost predicate Mirrors(t: Tables, hv: Hv) {
    && (forall x :: x in hv <==> x in t.s2)
    && (forall x :: x in hv ==> hv[x] == Page(t.s2[x].haddr, t.s2[x].prot))
  }

  ghost predicate Aligned(t: Tables) {
    forall x :: x in t.s2 ==> x % GRANULE == 0 && t.s2[x].haddr % GRANULE == 0
  }

  ghost predicate Inv(t: Tables, hv: Hv) {
    Inverse(t) && Mirrors(t, hv) && Aligned(t)
  }

  /** One host page has one block. */
  lemma OneBlock(t: Tables, x: nat, y: nat)
    requires Inverse(t) && x in t.s2 && y in t.s2 && t.s2[x].haddr == t.s2[y].haddr
    ensures x == y
  {
  }

  // ---- the loops over granules ----

  function Refs(s2: map<nat, Ent>, x: nat): nat {
    if x in s2 then s2[x].refs else 0
  }

  /** One granule recorded. */
  function Put(t: Tables, x: nat, prot: Prot, h: nat): Tables {
    Tables(t.s2[x := Ent(h, prot, Refs(t.s2, x))], t.hblk[h := x])
  }

  function Record(t: Tables, ipa: nat, n: nat, prot: Prot, h: nat): Tables {
    if n == 0 then t
    else Put(Record(t, ipa, n - 1, prot, h), ipa + (n - 1) * GRANULE, prot, h + (n - 1) * GRANULE)
  }

  /** One granule forgotten, if it was known. */
  function Drop(t: Tables, x: nat): Tables {
    if x !in t.s2 then t else Tables(t.s2 - {x}, t.hblk - {t.s2[x].haddr})
  }

  function Forget(t: Tables, ipa: nat, n: nat): Tables {
    if n == 0 then t else Drop(Forget(t, ipa, n - 1), ipa + (n - 1) * GRANULE)
  }

  /** What recording a range leaves at each block and each host page. */
  lemma {:induction false} Recorded(t: Tables, ipa: nat, n: nat, prot: Prot, h: nat, x: nat)
    ensures var t' := Record(t, ipa, n, prot, h);
            && (x in t'.s2 <==> x in t.s2 || In(x, ipa, n))
            && (x in t'.s2 ==> t'.s2[x] == if In(x, ipa, n) then Ent(Moved(x, ipa, h), prot, Refs(t.s2, x))
                else t.s2[x])
            && (x in t'.hblk <==> x in t.hblk || In(x, h, n))
            && (x in t'.hblk ==> t'.hblk[x] == if In(x, h, n) then Moved(x, h, ipa) else t.hblk[x])
    decreases n
  {
    if n > 0 {
      Recorded(t, ipa, n - 1, prot, h, x);
      InStep(x, ipa, n - 1);
      InStep(x, h, n - 1);
    }
  }

  /** Forgetting a range removes its blocks and their host pages, and nothing else. */
  lemma {:induction false} Forgotten(t: Tables, ipa: nat, n: nat, x: nat)
    requires Inverse(t)
    ensures var t' := Forget(t, ipa, n);
            && Inverse(t')
            && (x in t'.s2 <==> x in t.s2 && !In(x, ipa, n))
            && (x in t'.s2 ==> t'.s2[x] == t.s2[x])
    decreases n
  {
    if n > 0 {
      Forgotten(t, ipa, n - 1, x);
      InStep(x, ipa, n - 1);
    }
  }

  // ---- the hypervisor ----

  ghost predicate Whole(hv: Hv, ipa: nat, n: nat) {
    forall x :: In(x, ipa, n) ==> x in hv
  }

  /** Unmapping: a range that is not mapped throughout is refused. */
  ghost predicate Unmapped(hv: Hv, hv': Hv, ipa: nat, n: nat) {
    if Whole(hv, ipa, n) then
      (forall x :: x in hv' <==> x in hv && !In(x, ipa, n)) && (forall x :: x in hv' ==> hv'[x] == hv[x])
    else hv' == hv
  }

  /** A mapping is refused if a block of the range is mapped, or a host page of it anywhere. */
  ghost predicate Refuses(hv: Hv, ipa: nat, n: nat, h: nat) {
    exists x :: x in hv && (In(x, ipa, n) || In(hv[x].haddr, h, n))
  }

  ghost predicate Mapped(hv: Hv, hv': Hv, ipa: nat, n: nat, prot: Prot, h: nat) {
    && (forall x :: x in hv' <==> x in hv || In(x, ipa, n))
    && (forall x :: x in hv' ==> hv'[x] == if In(x, ipa, n) then Page(Moved(x, ipa, h), prot) else hv[x])
  }

  // ---- when an operation keeps the invariant ----

  /** The range can be mapped: it is mapped throughout or not at all, and none of its host
      pages is mapped elsewhere. */
  ghost predicate CanMap(s2: map<nat, Ent>, ipa: nat, n: nat, h: nat) {
    && ((forall x :: In(x, ipa, n) ==> x in s2) || (forall x :: In(x, ipa, n) ==> x !in s2))
    && (forall x :: x in s2 && !In(x, ipa, n) ==> !In(s2[x].haddr, h, n))
  }

  /** Every host page the range had, it keeps. */
  ghost predicate KeepsPages(s2: map<nat, Ent>, ipa: nat, n: nat, h: nat) {
    forall x :: x in s2 && In(x, ipa, n) ==> In(s2[x].haddr, h, n)
  }

  /** The hypervisor's table once the range has been unmapped, if its first block was registered. */
  ghost predicate Prepared(t: Tables, hv: Hv, hv1: Hv, ipa: nat, n: nat) {
    if Base(ipa) in t.s2 then Unmapped(hv, hv1, ipa, n) else hv1 == hv
  }

  /** The hypervisor accepts the mapping exactly when CanMap holds. */
  lemma AcceptedExactly(t: Tables, hv: Hv, hv1: Hv, ipa: nat, n: nat, h: nat)
    requires Inv(t, hv) && Prepared(t, hv, hv1, ipa, n) && ipa % GRANULE == 0
    ensures Refuses(hv1, ipa, n, h) <==> !CanMap(t.s2, ipa, n, h)
  {
    hide Inverse, Aligned;
    if n > 0 {
      assert In(ipa, ipa, n);
    }
    if Base(ipa) in t.s2 && !Whole(hv, ipa, n) {
      assert ipa in hv1;
    }
  }

  /** What is then mapped is what is registered. */
  lemma MapMirrors(t: Tables, hv: Hv, hv1: Hv, hv2: Hv, ipa: nat, n: nat, prot: Prot, h: nat)
    requires Inv(t, hv) && Prepared(t, hv, hv1, ipa, n) && !Refuses(hv1, ipa, n, h) && Mapped(hv1, hv2, ipa, n, prot, h)
    requires ipa % GRANULE == 0 && h % GRANULE == 0
    ensures Mirrors(Record(t, ipa, n, prot, h), hv2) && Aligned(Record(t, ipa, n, prot, h))
  {
    hide Inverse, Record, In;
    var t' := Record(t, ipa, n, prot, h);
    forall x: nat
      ensures x in hv2 <==> x in t'.s2
      ensures x in hv2 ==> hv2[x] == Page(t'.s2[x].haddr, t'.s2[x].prot)
      ensures x in t'.s2 ==> x % GRANULE == 0 && t'.s2[x].haddr % GRANULE == 0
    {
      Recorded(t, ipa, n, prot, h, x);
      InAligned(x, ipa, n, h);
    }
  }

  lemma InAligned(x: nat, ipa: nat, n: nat, h: nat)
    requires ipa % GRANULE == 0 && h % GRANULE == 0
    ensures In(x, ipa, n) ==> x % GRANULE == 0 && Moved(x, ipa, h) % GRANULE == 0
  {
    if In(x, ipa, n) {
      Multiple(ipa, x - ipa);
      Multiple(h, x - ipa);
    }
  }

  lemma Multiple(a: nat, b: nat)
    requires a % GRANULE == 0 && b % GRANULE == 0
    ensures (a + b) % GRANULE == 0
  {
  }

  /** A block still leads to itself by way of its host page. */
  lemma ForwardKept(t: Tables, ipa: nat, n: nat, prot: Prot, h: nat, x: nat)
    requires Inverse(t) && CanMap(t.s2, ipa, n, h)
    ensures var t' := Record(t, ipa, n, prot, h);
            x in t'.s2 ==> t'.s2[x].haddr in t'.hblk && t'.hblk[t'.s2[x].haddr] == x
  {
    hide Record, In;
    var t' := Record(t, ipa, n, prot, h);
    Recorded(t, ipa, n, prot, h, x);
    InShift(x, ipa, h, n);
    if x in t'.s2 {
      Recorded(t, ipa, n, prot, h, t'.s2[x].haddr);
      InAbove(x, ipa, n);
    }
  }

  /** So does an indexed host page, if the range keeps its pages. */
  lemma BackwardKept(t: Tables, ipa: nat, n: nat, prot: Prot, h: nat, k: nat)
    requires Inverse(t) && CanMap(t.s2, ipa, n, h) && KeepsPages(t.s2, ipa, n, h)
    ensures var t' := Record(t, ipa, n, prot, h);
            k in t'.hblk ==> t'.hblk[k] in t'.s2 && t'.s2[t'.hblk[k]].haddr == k
  {
    hide Record, In;
    var t' := Record(t, ipa, n, prot, h);
    Recorded(t, ipa, n, prot, h, k);
    InShift(k, h, ipa, n);
    if k in t'.hblk {
      Recorded(t, ipa, n, prot, h, t'.hblk[k]);
      InAbove(k, h, n);
    }
  }

  lemma InAbove(x: nat, lo: nat, n: nat)
    ensures In(x, lo, n) ==> x >= lo
  {
  }

  /** The maps stay inverse exactly if the range keeps every host page it had. */
  lemma MapInverse(t: Tables, ipa: nat, n: nat, prot: Prot, h: nat)
    requires Inverse(t) && CanMap(t.s2, ipa, n, h)
    ensures Inverse(Record(t, ipa, n, prot, h)) <==> KeepsPages(t.s2, ipa, n, h)
  {
    hide Record, In, CanMap, Moved;
    var t' := Record(t, ipa, n, prot, h);
    if KeepsPages(t.s2, ipa, n, h) {
      forall x: nat
        ensures x in t'.s2 ==> t'.s2[x].haddr in t'.hblk && t'.hblk[t'.s2[x].haddr] == x
        ensures x in t'.hblk ==> t'.hblk[x] in t'.s2 && t'.s2[t'.hblk[x]].haddr == x
      {
        ForwardKept(t, ipa, n, prot, h, x);
        BackwardKept(t, ipa, n, prot, h, x);
      }
    } else {
      var x :| x in t.s2 && In(x, ipa, n) && !In(t.s2[x].haddr, h, n);
      var k := t.s2[x].haddr;
      Recorded(t, ipa, n, prot, h, k);
      Recorded(t, ipa, n, prot, h, x);
      InShift(x, ipa, h, n);
      assert k in t'.hblk && t'.hblk[k] == x && t'.s2[x].haddr != k;
    }
  }

  lemma InShift(x: nat, a: nat, b: nat, n: nat)
    ensures In(x, a, n) ==> In(Moved(x, a, b), b, n)
  {
  }

  /** Unmapping keeps the invariant exactly if the range is mapped throughout or not at all. */
  lemma UnmapExact(t: Tables, hv: Hv, hv1: Hv, ipa: nat, n: nat)
    requires Inv(t, hv) && Prepared(t, hv, hv1, ipa, n)
    ensures Inv(Forget(t, ipa, n), hv1) <==>
              (forall x :: In(x, ipa, n) ==> x in t.s2) || (forall x :: In(x, ipa, n) ==> x !in t.s2)
  {
    hide Forget, In, Inverse;
    var t' := Forget(t, ipa, n);
    forall x: nat
      ensures Inverse(t')
      ensures x in t'.s2 <==> x in t.s2 && !In(x, ipa, n)
      ensures x in t'.s2 ==> t'.s2[x] == t.s2[x]
    {
      Forgotten(t, ipa, n, x);
    }
    if (forall x :: In(x, ipa, n) ==> x in t.s2) {
      InCongruent(ipa, ipa, n);
      assert n > 0 ==> Base(ipa) in t.s2 && Whole(hv, ipa, n);
      assert n == 0 ==> forall x: nat :: !In(x, ipa, n) by { NoneIn(ipa); }
    } else if (forall x :: In(x, ipa, n) ==> x !in t.s2) {
      InCongruent(ipa, ipa, n);
    } else {
      var x, y :| In(x, ipa, n) && x in t.s2 && In(y, ipa, n) && y !in t.s2;
      assert x in hv1 && x !in t'.s2;
    }
  }

  lemma NoneIn(ipa: nat)
    ensures forall x: nat :: !In(x, ipa, 0)
  {
  }

  lemma InCongruent(x: nat, ipa: nat, n: nat)
    ensures In(x, ipa, n) ==> x % GRANULE == ipa % GRANULE && n > 0
    ensures n > 0 ==> In(ipa, ipa, n)
  {
  }
}
