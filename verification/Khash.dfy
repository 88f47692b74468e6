/** The open-addressing hash table: power-of-two buckets, triangular probing,
    tombstones, and a rehash that works inside the key and value arrays it is
    rehashing.  The table is proved to be a finite map.

    Sizes are natural numbers, a bucket's two flag bits are one of the three
    states they can be in, and whether an allocation succeeds is a parameter.
 */
module Khash {
  import opened Basics
  import opened Probe
  import Rounding

  /** The two flag bits: 10 never used, 00 in use, 01 removed. */
  datatype Flag = Empty | Live | Deleted

  /** Which allocations of one resize succeed. */
  datatype Memory = Memory(flags: bool, keys: bool, vals: bool)

  /** floor(0.77 n + 0.5), the number of buckets that may be non-empty. */
  function Limit(n: nat): nat {
    (77 * n + 50) / 100
  }

  /** That is, 77 hundredths of n to the nearest whole number. */
  lemma LimitNearest(n: nat)
    ensures 100 * Limit(n) - 50 <= 77 * n < 100 * Limit(n) + 50
  {
  }

  /** The size a resize request asks for. */
  function Target(request: nat): (n: nat)
    ensures PowerOfTwo(n) && n >= 4
  {
    assert Exp2(2) == 4;
    if RoundUp(request) < 4 then 4 else RoundUp(request)
  }

  /** That is what the macro gives on 32-bit words, for every request up to 2^31; beyond, the macro gives 0 and the
      request becomes one for 4 buckets. */
  lemma TargetIsMacro(request: nat)
    requires request < Rounding.WORD
    ensures var m := Rounding.Macro(request);
            (if m < 4 then 4 else m) == if request <= Rounding.WORD / 2 then Target(request) else 4
  {
    hide RoundUp;
    Rounding.MacroRoundsUp(request);
  }

  /** So is the size a full table of n buckets grows to, up to 2^30 of them. */
  lemma GrowthIsMacro(n: nat)
    requires PowerOfTwo(n) && 4 <= n <= Rounding.WORD / 4
    ensures Target(n + 1) == Rounding.Macro(n + 1) == 2 * n
  {
    hide PowerOfTwo;
    Rounding.MacroRoundsUp(n + 1);
    NextRound(n);
  }

  ghost function Used(fl: seq<Flag>): set<nat> {
    set i: nat | i < |fl| && fl[i] != Empty
  }

  /** No bucket met by the first s probes is empty. */
  ghost predicate Unbroken(fl: seq<Flag>, h: nat, s: nat)
    requires |fl| > 0
  {
    forall t: nat :: t < s ==> fl[At(|fl|, h, t)] != Empty
  }

  /** Bucket i is where a search for hash h arrives without meeting an empty one. */
  ghost predicate Reached(fl: seq<Flag>, h: nat, i: nat)
    requires |fl| > 0
  {
    exists s: nat :: At(|fl|, h, s) == i && Unbroken(fl, h, s)
  }

  /** `bucket` is the inverse of the keys stored in the live buckets of fl. */
  ghost predicate Inverse<K>(fl: seq<Flag>, ks: seq<K>, bucket: map<K, nat>)
  {
    && |fl| <= |ks|
    && (forall k :: k in bucket ==> bucket[k] < |fl| && fl[bucket[k]] == Live && ks[bucket[k]] == k)
    && (forall i: nat :: i < |fl| && fl[i] == Live ==> ks[i] in bucket && bucket[ks[i]] == i)
  }

  ghost predicate AllReached<K>(fl: seq<Flag>, hash: K -> nat, bucket: map<K, nat>)
  {
    forall k :: k in bucket ==> |fl| > 0 && Reached(fl, hash(k), bucket[k])
  }

  ghost predicate Values<K, V>(vs: seq<V>, bucket: map<K, nat>, m: map<K, V>)
  {
    && bucket.Keys <= m.Keys
    && (forall k :: k in bucket ==> bucket[k] < |vs| && vs[bucket[k]] == m[k])
  }

  ghost function Pairs<K, V>(bucket: map<K, nat>, vs: seq<V>): map<K, V>
  {
    map k | k in bucket && bucket[k] < |vs| :: vs[bucket[k]]
  }

  /** Filling buckets never hides one that a search could reach. */
  lemma ReachedGrows(fl: seq<Flag>, fl': seq<Flag>, h: nat, i: nat)
    requires |fl| == |fl'| > 0 && Reached(fl, h, i)
    requires forall j: nat :: j < |fl| && fl[j] != Empty ==> fl'[j] != Empty
    ensures Reached(fl', h, i)
  {
    var s: nat :| At(|fl|, h, s) == i && Unbroken(fl, h, s);
    assert Unbroken(fl', h, s);
  }

  /** A stored key is met within the first |fl| probes, and before any empty bucket. */
  lemma StoredIsMet<K>(fl: seq<Flag>, ks: seq<K>, hash: K -> nat, bucket: map<K, nat>, k: K)
    requires |fl| > 0 && PowerOfTwo(|fl|)
    requires Inverse(fl, ks, bucket) && AllReached(fl, hash, bucket)
    ensures k in bucket ==> exists t: nat :: t < |fl| && At(|fl|, hash(k), t) == bucket[k] && Unbroken(fl, hash(k), t)
  {
    if k in bucket {
      var n, h := |fl|, hash(k);
      EveryBucket(n, h, bucket[k]);
      var a: nat :| a < n && At(n, h, a) == bucket[k];
      var b: nat :| At(n, h, b) == bucket[k] && Unbroken(fl, h, b);
      var t := if a <= b then a else b;
      assert Unbroken(fl, h, t);
    }
  }

  /** A search that has seen an empty bucket, or come all the way round, without
      meeting key k has shown that k is not stored. */
  lemma SearchIsExact<K>(fl: seq<Flag>, ks: seq<K>, hash: K -> nat, bucket: map<K, nat>, k: K, s: nat)
    requires |fl| > 0 && PowerOfTwo(|fl|)
    requires Inverse(fl, ks, bucket) && AllReached(fl, hash, bucket)
    requires forall t: nat :: t < s ==> var i := At(|fl|, hash(k), t); !(fl[i] == Live && ks[i] == k)
    requires s >= |fl| || fl[At(|fl|, hash(k), s)] == Empty
    ensures k !in bucket
  {
    StoredIsMet(fl, ks, hash, bucket, k);
  }

  lemma UsedLeavesEmpty(fl: seq<Flag>) returns (e: nat)
    requires |Used(fl)| < |fl|
    ensures e < |fl| && fl[e] == Empty
  {
    AllUsed(fl);
    e :| e < |fl| && fl[e] == Empty;
  }

  lemma {:induction false} AllUsed(fl: seq<Flag>)
    ensures (forall i: nat :: i < |fl| ==> fl[i] != Empty) ==> |Used(fl)| == |fl|
  {
    if |fl| > 0 && forall i: nat :: i < |fl| ==> fl[i] != Empty {
      var n := |fl| - 1;
      AllUsed(fl[..n]);
      assert Used(fl) == Used(fl[..n]) + {n};
    } else if |fl| == 0 {
      assert Used(fl) == {};
    }
  }

  lemma UsedUpdate(fl: seq<Flag>, i: nat, f: Flag)
    requires i < |fl| && f != Empty
    ensures |Used(fl[i := f])| == |Used(fl)| + if fl[i] == Empty then 1 else 0
  {
    if fl[i] == Empty {
      assert Used(fl[i := f]) == Used(fl) + {i} && i !in Used(fl);
    } else {
      assert Used(fl[i := f]) == Used(fl);
    }
  }

  // ------------------------------------------------------------- the rehash

  /** Half way through a rehash the arrays hold two tables at once: `left` lists
      the pairs still in the old one, `placed` those already in the new one, and
      no bucket belongs to both. */
  ghost predicate TwoTables<K, V>(of: seq<Flag>, nf: seq<Flag>, ks: seq<K>, vs: seq<V>, hash: K -> nat,
                                  left: map<K, nat>, placed: map<K, nat>, m: map<K, V>)
  {
    && Inverse(of, ks, left) && Inverse(nf, ks, placed) && AllReached(nf, hash, placed)
    && Values(vs, left, m) && Values(vs, placed, m)
    && left.Keys !! placed.Keys
    && (forall i: nat :: i < |of| && i < |nf| && of[i] == Live ==> nf[i] == Empty)
    && (forall i: nat :: i < |nf| ==> nf[i] != Deleted)
    && |Used(nf)| == |placed|
  }

  /** The old table loses what it held in bucket i, if that was live. */
  ghost function Vacated(of: seq<Flag>, i: nat): seq<Flag> {
    if i < |of| && of[i] == Live then of[i := Deleted] else of
  }

  ghost function Remaining<K>(of: seq<Flag>, ks: seq<K>, left: map<K, nat>, i: nat): map<K, nat>
    requires |of| <= |ks|
  {
    if i < |of| && of[i] == Live then left - {ks[i]} else left
  }

  lemma OldSide<K, V>(of: seq<Flag>, ks: seq<K>, vs: seq<V>, left: map<K, nat>, m: map<K, V>, k: K, v: V, i: nat)
    requires Inverse(of, ks, left) && Values(vs, left, m) && i < |ks| && i < |vs|
    ensures Inverse(Vacated(of, i), ks[i := k], Remaining(of, ks, left, i))
    ensures Values(vs[i := v], Remaining(of, ks, left, i), m)
  {
  }

  lemma NewSide<K, V>(nf: seq<Flag>, ks: seq<K>, vs: seq<V>, placed: map<K, nat>, m: map<K, V>, k: K, v: V, i: nat)
    requires Inverse(nf, ks, placed) && Values(vs, placed, m)
    requires k !in placed && k in m && m[k] == v && i < |nf| && i < |vs| && nf[i] == Empty
    ensures Inverse(nf[i := Live], ks[i := k], placed[k := i])
    ensures Values(vs[i := v], placed[k := i], m)
  {
  }

  lemma NewSideReached<K>(nf: seq<Flag>, hash: K -> nat, placed: map<K, nat>, k: K, i: nat)
    requires AllReached(nf, hash, placed) && i < |nf| && Reached(nf, hash(k), i)
    ensures AllReached(nf[i := Live], hash, placed[k := i])
  {
    forall k' | k' in placed[k := i]
      ensures Reached(nf[i := Live], hash(k'), placed[k := i][k'])
    {
      ReachedGrows(nf, nf[i := Live], hash(k'), placed[k := i][k']);
    }
  }

  lemma TakeKeeps<K, V>(of: seq<Flag>, nf: seq<Flag>, ks: seq<K>, vs: seq<V>, hash: K -> nat,
                        left: map<K, nat>, placed: map<K, nat>, m: map<K, V>, j: nat)
    requires TwoTables(of, nf, ks, vs, hash, left, placed, m)
    requires j < |of| && of[j] == Live
    ensures TwoTables(of[j := Deleted], nf, ks, vs, hash, left - {ks[j]}, placed, m)
    ensures ks[j] in m && j < |vs| && m[ks[j]] == vs[j] && ks[j] !in placed
  {
  }

  /** The unguarded probe of the rehash: it ends, because a free bucket is among
      the first |nf| probes, and it ends at the first free bucket it meets. */
  method FirstEmpty(nf: array<Flag>, h: nat) returns (i: nat)
    requires nf.Length > 0 && PowerOfTwo(nf.Length) && |Used(nf[..])| < nf.Length
    ensures i < nf.Length && nf[i] == Empty && Reached(nf[..], h, i)
  {
    var n := nf.Length;
    ghost var e := UsedLeavesEmpty(nf[..]);
    EveryBucket(n, h, e);
    ghost var stop: nat :| stop < n && At(n, h, stop) == e;
    var step: nat := 0;
    i := h % n;
    while nf[i] != Empty
      invariant step <= stop && i == At(n, h, step) && Unbroken(nf[..], h, step)
      decreases stop - step
    {
      AtStep(n, h, step);
      step := step + 1;
      i := (i + step) % n;
    }
  }

  method Realloc<T(0)>(a: array<T>, n: nat) returns (b: array<T>)
    ensures fresh(b) && b.Length == n
    ensures forall i :: 0 <= i < n && i < a.Length ==> b[i] == a[i]
  {
    b := new T[n];
    var len := if n < a.Length then n else a.Length;
    forall i | 0 <= i < len {
      b[i] := a[i];
    }
  }

  /** The pair the kick-out loop is looking for a bucket for. */
  datatype Hand<K, V> = Nothing | Pair(key: K, val: V)

  /** Two tables and the pair in hand, which is in neither, hold exactly m. */
  ghost predicate Carrying<K, V>(of: seq<Flag>, nf: seq<Flag>, ks: seq<K>, vs: seq<V>, hash: K -> nat,
                                 left: map<K, nat>, placed: map<K, nat>, m: map<K, V>, hand: Hand<K, V>)
  {
    && TwoTables(of, nf, ks, vs, hash, left, placed, m)
    && Partition(m.Keys, left.Keys, placed.Keys, hand)
    && (hand.Pair? ==> hand.key in m && m[hand.key] == hand.val)
  }

  ghost predicate Partition<K, V>(all: set<K>, left: set<K>, placed: set<K>, hand: Hand<K, V>)
  {
    && all == left + placed + (if hand.Pair? then {hand.key} else {})
    && (hand.Pair? ==> hand.key !in left && hand.key !in placed)
  }

  lemma PlaceTables<K, V>(of: seq<Flag>, nf: seq<Flag>, ks: seq<K>, vs: seq<V>, hash: K -> nat,
                          left: map<K, nat>, placed: map<K, nat>, m: map<K, V>, k: K, v: V, i: nat)
    requires TwoTables(of, nf, ks, vs, hash, left, placed, m)
    requires k !in left && k !in placed && k in m && m[k] == v
    requires i < |nf| <= |vs| && nf[i] == Empty && Reached(nf, hash(k), i)
    ensures TwoTables(Vacated(of, i), nf[i := Live], ks[i := k], vs[i := v], hash,
                      Remaining(of, ks, left, i), placed[k := i], m)
  {
    OldSide(of, ks, vs, left, m, k, v, i);
    NewSide(nf, ks, vs, placed, m, k, v, i);
    NewSideReached(nf, hash, placed, k, i);
    UsedUpdate(nf, i, Live);
  }

  /** Writing the pair in hand into the empty bucket i of the new table, and
      marking whatever the old table held there as removed, keeps both tables. */
  lemma PlaceKeeps<K, V>(of: seq<Flag>, nf: seq<Flag>, ks: seq<K>, vs: seq<V>, hash: K -> nat,
                         left: map<K, nat>, placed: map<K, nat>, m: map<K, V>, k: K, v: V, i: nat)
    requires Carrying(of, nf, ks, vs, hash, left, placed, m, Pair(k, v))
    requires i < |nf| <= |vs| && nf[i] == Empty && Reached(nf, hash(k), i)
    ensures TwoTables(Vacated(of, i), nf[i := Live], ks[i := k], vs[i := v], hash,
                      Remaining(of, ks, left, i), placed[k := i], m)
  {
    hide TwoTables, Reached;
    PlaceTables(of, nf, ks, vs, hash, left, placed, m, k, v, i);
  }

  lemma CarryingLeavesRoom<K, V>(of: seq<Flag>, nf: seq<Flag>, ks: seq<K>, vs: seq<V>, hash: K -> nat,
                                 left: map<K, nat>, placed: map<K, nat>, m: map<K, V>, hand: Hand<K, V>)
    requires Carrying(of, nf, ks, vs, hash, left, placed, m, hand) && hand.Pair? && |m| < |nf|
    ensures |Used(nf)| < |nf|
  {
    SubsetSmaller(placed.Keys, m.Keys);
  }

  lemma KeysMove<K, V>(all: set<K>, left: set<K>, placed: set<K>, hand: Hand<K, V>, next: Hand<K, V>)
    requires Partition(all, left, placed, hand) && hand.Pair? && left !! placed
    ensures next.Nothing? ==> Partition(all, left, placed + {hand.key}, next)
    ensures next.Pair? && next.key in left ==> Partition(all, left - {next.key}, placed + {hand.key}, next)
  {
  }

  lemma PlaceCarries<K, V>(of: seq<Flag>, nf: seq<Flag>, ks: seq<K>, vs: seq<V>, hash: K -> nat,
                           left: map<K, nat>, placed: map<K, nat>, m: map<K, V>, key: K, val: V, i: nat)
    requires Carrying(of, nf, ks, vs, hash, left, placed, m, Pair(key, val))
    requires i < |nf| <= |vs| && nf[i] == Empty && Reached(nf, hash(key), i)
    ensures i < |ks| && |of| <= |ks|
    ensures var left' := Remaining(of, ks, left, i);
            var kicked := i < |of| && of[i] == Live;
            && Carrying(Vacated(of, i), nf[i := Live], ks[i := key], vs[i := val], hash,
                        left', placed[key := i], m, if kicked then Pair(ks[i], vs[i]) else Nothing)
            && |left'| == |left| - if kicked then 1 else 0
  {
    hide TwoTables, Reached, Partition;
    KickedWasListed(of, nf, ks, vs, hash, left, placed, m, i);
    PlaceKeeps(of, nf, ks, vs, hash, left, placed, m, key, val, i);
    assert placed[key := i].Keys == placed.Keys + {key};
    if i < |of| && of[i] == Live {
      assert (left - {ks[i]}).Keys == left.Keys - {ks[i]};
      KeysMove(m.Keys, left.Keys, placed.Keys, Pair(key, val), Pair(ks[i], vs[i]));
    } else {
      KeysMove(m.Keys, left.Keys, placed.Keys, Pair(key, val), Nothing);
    }
  }

  /** What the old table holds in a bucket is one of the pairs it lists. */
  lemma KickedWasListed<K, V>(of: seq<Flag>, nf: seq<Flag>, ks: seq<K>, vs: seq<V>, hash: K -> nat,
                              left: map<K, nat>, placed: map<K, nat>, m: map<K, V>, i: nat)
    requires TwoTables(of, nf, ks, vs, hash, left, placed, m) && (i < |nf| || i < |of|)
    ensures i < |ks| && |of| <= |ks| && left.Keys !! placed.Keys
    ensures i < |of| && of[i] == Live ==>
              && ks[i] in left && ks[i] !in placed && ks[i] in m && i < |vs| && m[ks[i]] == vs[i]
              && |left - {ks[i]}| == |left| - 1
  {
    if i < |of| && of[i] == Live {
      assert (left - {ks[i]}).Keys == left.Keys - {ks[i]};
    }
  }

  lemma TakeCarries<K, V>(of: seq<Flag>, nf: seq<Flag>, ks: seq<K>, vs: seq<V>, hash: K -> nat,
                          left: map<K, nat>, placed: map<K, nat>, m: map<K, V>, j: nat)
    requires Carrying(of, nf, ks, vs, hash, left, placed, m, Nothing)
    requires j < |of| && of[j] == Live
    ensures j < |ks| && j < |vs|
    ensures Carrying(of[j := Deleted], nf, ks, vs, hash, left - {ks[j]}, placed, m, Pair(ks[j], vs[j]))
  {
    hide TwoTables;
    KickedWasListed(of, nf, ks, vs, hash, left, placed, m, j);
    TakeKeeps(of, nf, ks, vs, hash, left, placed, m, j);
    assert (left - {ks[j]}).Keys == left.Keys - {ks[j]};
  }

  /** One turn of the kick-out loop: put the pair in hand in bucket i, and take in
      hand the pair the old table still held there, if it did. */
  method PlaceOne<K(==), V>(flags: array<Flag>, nf: array<Flag>, keys: array<K>, vals: array<V>, ghost hash: K -> nat,
                            key: K, val: V, i: nat, ghost left: map<K, nat>, ghost placed: map<K, nat>,
                            ghost m: map<K, V>)
    returns (hand: Hand<K, V>, ghost left': map<K, nat>, ghost placed': map<K, nat>)
    requires flags != nf && keys as object != vals && {flags as object, nf} !! {keys as object, vals}
    requires Carrying(flags[..], nf[..], keys[..], vals[..], hash, left, placed, m, Pair(key, val))
    requires i < nf.Length <= vals.Length && nf[i] == Empty && Reached(nf[..], hash(key), i)
    modifies flags, nf, keys, vals
    ensures Carrying(flags[..], nf[..], keys[..], vals[..], hash, left', placed', m, hand)
    ensures |left'| == |left| - if hand.Pair? then 1 else 0
    ensures flags[..] == Vacated(old(flags[..]), i)
  {
    hide Carrying, Reached;
    PlaceCarries(flags[..], nf[..], keys[..], vals[..], hash, left, placed, m, key, val, i);
    left', placed' := Remaining(flags[..], keys[..], left, i), placed[key := i];
    nf[i] := Live;
    hand := Nothing;
    if i < flags.Length && flags[i] == Live {
      hand := Pair(keys[i], vals[i]);
      flags[i] := Deleted;
    }
    keys[i], vals[i] := key, val;
    assert nf[..] == old(nf[..])[i := Live];
    assert keys[..] == old(keys[..])[i := key];
    assert vals[..] == old(vals[..])[i := val];
    assert flags[..] == Vacated(old(flags[..]), i);
  }

  /** The kick-out loop: place a pair, and if its bucket still held a pair of the
      old table, carry on with that one. */
  method Settle<K(==), V>(flags: array<Flag>, nf: array<Flag>, keys: array<K>, vals: array<V>, hash: K -> nat,
                          key: K, val: V, ghost left0: map<K, nat>, ghost placed0: map<K, nat>, ghost m: map<K, V>)
    returns (ghost left: map<K, nat>, ghost placed: map<K, nat>)
    requires flags != nf && keys as object != vals && {flags as object, nf} !! {keys as object, vals}
    requires nf.Length > 0 && PowerOfTwo(nf.Length) && nf.Length <= vals.Length && |m| < nf.Length
    requires Carrying(flags[..], nf[..], keys[..], vals[..], hash, left0, placed0, m, Pair(key, val))
    modifies flags, nf, keys, vals
    ensures Carrying(flags[..], nf[..], keys[..], vals[..], hash, left, placed, m, Nothing)
    ensures forall i :: 0 <= i < flags.Length && old(flags[i]) != Live ==> flags[i] != Live
  {
    hide Carrying;
    var hand := Pair(key, val);
    left, placed := left0, placed0;
    while hand.Pair?
      invariant Carrying(flags[..], nf[..], keys[..], vals[..], hash, left, placed, m, hand)
      invariant forall i :: 0 <= i < flags.Length && old(flags[i]) != Live ==> flags[i] != Live
      decreases |left|, hand.Pair?
    {
      CarryingLeavesRoom(flags[..], nf[..], keys[..], vals[..], hash, left, placed, m, hand);
      var i := FirstEmpty(nf, hash(hand.key));
      hand, left, placed := PlaceOne(flags, nf, keys, vals, hash, hand.key, hand.val, i, left, placed, m);
    }
  }

  /** The whole rehash: every live pair of the old table ends in the new one. */
  method Rehash<K(==), V>(flags: array<Flag>, nf: array<Flag>, keys: array<K>, vals: array<V>, hash: K -> nat,
                          ghost bucket: map<K, nat>, ghost m: map<K, V>)
    returns (ghost placed: map<K, nat>)
    requires flags != nf && keys as object != vals && {flags as object, nf} !! {keys as object, vals}
    requires nf.Length > 0 && PowerOfTwo(nf.Length) && nf.Length <= vals.Length && |m| < nf.Length
    requires Carrying(flags[..], nf[..], keys[..], vals[..], hash, bucket, map[], m, Nothing)
    modifies flags, nf, keys, vals
    ensures Carrying([], nf[..], keys[..], vals[..], hash, map[], placed, m, Nothing)
  {
    hide Carrying;
    ghost var left := bucket;
    placed := map[];
    var j := 0;
    while j < flags.Length
      invariant 0 <= j <= flags.Length
      invariant Carrying(flags[..], nf[..], keys[..], vals[..], hash, left, placed, m, Nothing)
      invariant forall i :: 0 <= i < j ==> flags[i] != Live
    {
      if flags[j] == Live {
        TakeCarries(flags[..], nf[..], keys[..], vals[..], hash, left, placed, m, j);
        left := left - {keys[j]};
        ghost var of := flags[..];
        flags[j] := Deleted;
        assert flags[..] == of[j := Deleted];
        left, placed := Settle(flags, nf, keys, vals, hash, keys[j], vals[j], left, placed, m);
      }
      j := j + 1;
    }
    NothingLeft(flags[..], nf[..], keys[..], vals[..], hash, left, placed, m);
  }

  lemma NothingLeft<K, V>(of: seq<Flag>, nf: seq<Flag>, ks: seq<K>, vs: seq<V>, hash: K -> nat,
                          left: map<K, nat>, placed: map<K, nat>, m: map<K, V>)
    requires Carrying(of, nf, ks, vs, hash, left, placed, m, Nothing)
    requires forall i :: 0 <= i < |of| ==> of[i] != Live
    ensures Carrying([], nf, ks, vs, hash, map[], placed, m, Nothing)
  {
    assert left == map[];
  }

  lemma SubsetSmaller<T>(a: set<T>, b: set<T>)
    requires a < b
    ensures |a| < |b|
  {
    assert b == a + (b - a);
    assert |b| == |a| + |b - a|;
  }

  // -------------------------------------------------------------- the table

  class Table<K(==, 0), V(0)> {
    const hash: K -> nat
    var nBuckets: nat
    var size: nat
    var nOccupied: nat
    var upperBound: nat
    var flags: array<Flag>
    var keys: array<K>
    var vals: array<V>

    /** The bucket each stored key is in. */
    ghost var bucket: map<K, nat>

    ghost function Repr(): set<object>
      reads this
    {
      {this, flags, keys, vals}
    }

    /** Enough for a search: the arrays fit, live buckets hold distinct keys, and
        every one of them can be reached from its hash. */
    ghost predicate Searchable()
      reads Repr()
    {
      && keys as object != vals && flags as object !in {keys as object, vals}
      && flags.Length == nBuckets <= keys.Length && nBuckets <= vals.Length
      && (nBuckets > 0 ==> PowerOfTwo(nBuckets))
      && Inverse(flags[..], keys[..], bucket) && AllReached(flags[..], hash, bucket)
    }

    /** The table invariant: the counters are exact and the load limit holds. */
    ghost predicate Valid()
      reads Repr()
    {
      && Searchable()
      && (nBuckets > 0 ==> nBuckets >= 4)
      && size == |bucket| && nOccupied == |Used(flags[..])|
      && upperBound == (if nBuckets == 0 then 0 else Limit(nBuckets))
      && nOccupied <= upperBound
    }

    /** The finite map the table stands for. */
    ghost function Contents(): map<K, V>
      reads Repr()
    {
      Pairs(bucket, vals[..])
    }

    constructor (hash: K -> nat)
      ensures Valid() && fresh(Repr()) && Contents() == map[]
      ensures this.hash == hash
    {
      this.hash := hash;
      nBuckets, size, nOccupied, upperBound := 0, 0, 0, 0;
      flags := new Flag[0];
      keys := new K[0];
      vals := new V[0];
      bucket := map[];
      new;
      assert Used(flags[..]) == {};
    }

    /** kh_get: the bucket of a stored key, or nBuckets.  Correct even for a table
        with no empty bucket left, where only the return to the start ends it. */
    method Get(key: K) returns (x: nat)
      requires Searchable()
      ensures key in Contents() ==> x < nBuckets && flags[x] == Live && keys[x] == key && vals[x] == Contents()[key]
      ensures key !in Contents() ==> x == nBuckets
    {
      if nBuckets == 0 {
        return 0;
      }
      var n, h := nBuckets, hash(key);
      var i, step := h % n, 0;
      var last := i;
      FirstReturn(n, h);
      while flags[i] != Empty && (flags[i] == Deleted || keys[i] != key)
        invariant 0 <= step < 2 * n - 1 && i == At(n, h, step)
        invariant forall t: nat :: t < step ==> var j := At(n, h, t); !(flags[j] == Live && keys[j] == key)
        decreases 2 * n - step
      {
        AtStep(n, h, step);
        step := step + 1;
        i := (i + step) % n;
        if i == last {
          SearchIsExact(flags[..], keys[..], hash, bucket, key, step);
          return n;
        }
      }
      if flags[i] == Empty {
        SearchIsExact(flags[..], keys[..], hash, bucket, key, step);
      }
      x := if flags[i] != Live then n else i;
    }

    method GrowKeys(want: nat)
      requires Valid() && nBuckets < want
      modifies this`keys
      ensures Valid() && fresh(keys) && keys.Length == want
    {
      var longer := Realloc(keys, want);
      KeysAgree(flags[..], keys[..], longer[..], bucket);
      hide Inverse, AllReached, Used, PowerOfTwo;
      keys := longer;
    }

    method GrowVals(want: nat)
      requires Valid() && nBuckets < want
      modifies this`vals
      ensures Valid() && fresh(vals) && vals.Length == want && Contents() == old(Contents())
    {
      var longer := Realloc(vals, want);
      PairsAgree(flags[..], keys[..], vals[..], longer[..], bucket);
      hide Inverse, AllReached, Used, PowerOfTwo, Pairs;
      vals := longer;
    }

    /** The expanding half of a resize: longer key and value arrays, in that order,
        either of which may be refused. */
    method Grow(want: nat, mem: Memory) returns (ok: bool)
      requires Valid() && nBuckets < want
      modifies this`keys, this`vals
      ensures Valid() && Contents() == old(Contents())
      ensures fresh({keys as object, vals} - old({keys as object, vals}))
      ensures ok == (mem.keys && mem.vals)
      ensures ok ==> keys.Length == want && vals.Length == want
    {
      hide Table.Valid, Pairs;
      if !mem.keys {
        return false;
      }
      GrowKeys(want);
      if !mem.vals {
        return false;
      }
      GrowVals(want);
      return true;
    }

    /** Rehash every pair into newFlags. */
    method Move(newFlags: array<Flag>) returns (ghost placed: map<K, nat>)
      requires Valid() && {newFlags as object} !! {flags as object, keys, vals}
      requires newFlags.Length >= 4 && PowerOfTwo(newFlags.Length) && size < Limit(newFlags.Length)
      requires newFlags.Length <= keys.Length && newFlags.Length <= vals.Length
      requires forall i :: 0 <= i < newFlags.Length ==> newFlags[i] == Empty
      modifies flags, keys, vals, newFlags
      ensures Settled(newFlags[..], keys[..], vals[..], hash, placed, old(Contents()))
      ensures |old(Contents())| == size
    {
      hide Carrying, Inverse, AllReached, Values, Pairs, Settled;
      ghost var m := Contents();
      StartRehash(flags[..], newFlags[..], keys[..], vals[..], hash, bucket, m);
      placed := Rehash(flags, newFlags, keys, vals, hash, bucket, m);
      EndRehash(newFlags[..], keys[..], vals[..], hash, placed, m);
    }

    /** The shrinking half of a resize. */
    method Trim(newFlags: array<Flag>, ghost placed: map<K, nat>, ghost m: map<K, V>)
      requires Settled(newFlags[..], keys[..], vals[..], hash, placed, m)
      requires keys as object != vals && newFlags as object !in {keys as object, vals}
      requires newFlags.Length <= keys.Length && newFlags.Length <= vals.Length
      modifies this`keys, this`vals
      ensures Settled(newFlags[..], keys[..], vals[..], hash, placed, m)
      ensures keys as object != vals && newFlags as object !in {keys as object, vals}
      ensures newFlags.Length <= keys.Length && newFlags.Length <= vals.Length
      ensures fresh({keys as object, vals} - old({keys as object, vals}))
    {
      if nBuckets > newFlags.Length {
        var shorterKeys := Realloc(keys, newFlags.Length);
        var shorterVals := Realloc(vals, newFlags.Length);
        SettledTrim(newFlags[..], keys[..], vals[..], shorterKeys[..], shorterVals[..], hash, placed, m);
        keys := shorterKeys;
        vals := shorterVals;
      }
    }

    /** Make a freshly filled flag array the table. */
    method Install(newFlags: array<Flag>, ghost placed: map<K, nat>, ghost m: map<K, V>)
      requires Settled(newFlags[..], keys[..], vals[..], hash, placed, m)
      requires keys as object != vals && newFlags as object !in {keys as object, vals}
      requires newFlags.Length <= keys.Length && newFlags.Length <= vals.Length
      requires newFlags.Length >= 4 && PowerOfTwo(newFlags.Length) && size == |m| < Limit(newFlags.Length)
      modifies this
      ensures Valid() && flags == newFlags && Contents() == m
      ensures keys == old(keys) && vals == old(vals)
      ensures nBuckets == newFlags.Length && nOccupied == size == old(size)
      ensures forall i :: 0 <= i < nBuckets ==> flags[i] != Deleted
    {
      hide Inverse, AllReached, Used, Settled, PowerOfTwo, Pairs;
      SettledIs(newFlags[..], keys[..], vals[..], hash, placed, m);
      bucket := placed;
      flags := newFlags;
      nBuckets := newFlags.Length;
      nOccupied := size;
      upperBound := Limit(nBuckets);
    }

    /** Rehash, shrink, install. */
    method Adopt(newFlags: array<Flag>)
      requires Valid() && {newFlags as object} !! {flags as object, keys, vals}
      requires newFlags.Length >= 4 && PowerOfTwo(newFlags.Length) && size < Limit(newFlags.Length)
      requires newFlags.Length <= keys.Length && newFlags.Length <= vals.Length
      requires forall i :: 0 <= i < newFlags.Length ==> newFlags[i] == Empty
      modifies Repr(), newFlags
      ensures Valid() && flags == newFlags && Contents() == old(Contents())
      ensures fresh({keys as object, vals} - old({keys as object, vals}))
      ensures nBuckets == newFlags.Length && nOccupied == size == old(size)
      ensures forall i :: 0 <= i < nBuckets ==> flags[i] != Deleted
    {
      hide Inverse, AllReached, Used, Settled, PowerOfTwo, Pairs;
      ghost var m := Contents();
      ghost var placed := Move(newFlags);
      Trim(newFlags, placed, m);
      Install(newFlags, placed, m);
    }

    /** kh_resize.  A request too small for what is stored is answered 0 and does
        nothing; a failed allocation is answered -1; otherwise the pairs are
        rehashed in place.  The map is the same in every case. */
    method Resize(request: nat, mem: Memory) returns (r: int)
      requires Valid()
      modifies Repr()
      ensures Valid() && fresh(Repr() - old(Repr())) && Contents() == old(Contents()) && size == old(size)
      ensures r == 0 || r == -1
      ensures var want := Target(request);
              if r == -1 || old(size) >= Limit(want) then
                && nBuckets == old(nBuckets) && nOccupied == old(nOccupied)
              else
                && nBuckets == want && nOccupied == size
                && (forall i :: 0 <= i < nBuckets ==> flags[i] != Deleted)
      ensures r == -1 <==>
                && old(size) < Limit(Target(request))
                && (!mem.flags || (old(nBuckets) < Target(request) && !(mem.keys && mem.vals)))
      ensures mem.flags && mem.keys && mem.vals ==> r == 0
    {
      hide Inverse, AllReached, Used, PowerOfTwo, Target;
      var want := Target(request);
      if size >= Limit(want) {
        return 0;
      }
      if !mem.flags {
        return -1;
      }
      var newFlags := new Flag[want](_ => Empty);
      if nBuckets < want {
        var ok := Grow(want, mem);
        if !ok {
          return -1;
        }
      }
      Adopt(newFlags);
      return 0;
    }
  
    /** The search half of kh_put: the bucket already holding the key, or one that
        can take it - the last tombstone passed, or else the empty bucket met. */
    method Slot(key: K) returns (x: nat)
      requires Searchable() && exists i :: 0 <= i < nBuckets && flags[i] != Live
      ensures x < nBuckets && Chosen(flags[..], hash, bucket, key, x)
    {
      hide Probing, Chosen, Inverse, AllReached, Reached;
      var n, h := nBuckets, hash(key);
      var i: nat, step: nat, site: nat := h % n, 0, n;
      x := n;
      ProbingStarts(flags[..], keys[..], h, key);
      if flags[i] == Empty {
        x := i;
      } else {
        var last := i;
        FirstReturn(n, h);
        while flags[i] != Empty && (flags[i] == Deleted || keys[i] != key)
          invariant 0 <= step < 2 * n - 1 && i == At(n, h, step) && site <= n
          invariant Probing(flags[..], keys[..], h, key, step, site)
          decreases 2 * n - step
        {
          ProbingSteps(flags[..], keys[..], h, key, step, site);
          if flags[i] == Deleted {
            site := i;
          }
          AtStep(n, h, step);
          step := step + 1;
          i := (i + step) % n;
          if i == last {
            x := site;
            break;
          }
        }
        if x == n {
          if flags[i] == Empty && site != n {
            x := site;
          } else {
            x := i;
          }
        }
      }
      ProbingEnds(flags[..], keys[..], hash, bucket, key, step, site);
    }

    /** Write a new key into the bucket chosen for it. */
    method Insert(key: K, x: nat)
      requires Valid() && x < nBuckets && flags[x] != Live && nOccupied < upperBound
      requires key !in bucket && Reached(flags[..], hash(key), x)
      modifies this`size, this`nOccupied, this`bucket, flags, keys
      ensures Valid() && flags[x] == Live && keys[x] == key
      ensures bucket == old(bucket)[key := x]
      ensures nOccupied == old(nOccupied) + if old(flags[x]) == Empty then 1 else 0
    {
      StoreKeeps(flags[..], keys[..], hash, bucket, key, x);
      hide Inverse, AllReached, Reached, Used, PowerOfTwo;
      if flags[x] == Empty {
        nOccupied := nOccupied + 1;
      }
      keys[x] := key;
      flags[x] := Live;
      size := size + 1;
      bucket := bucket[key := x];
      assert flags[..] == old(flags[..])[x := Live] && keys[..] == old(keys[..])[x := key];
    }

    /** The writing half of kh_put, once a bucket has been chosen. */
    method Store(key: K, x: nat) returns (ret: int)
      requires Valid() && x < nBuckets && nOccupied < upperBound
      requires Chosen(flags[..], hash, bucket, key, x)
      modifies this`size, this`nOccupied, this`bucket, flags, keys
      ensures Valid() && flags[x] == Live && keys[x] == key
      ensures Contents() == old(Contents())[key := vals[x]]
      ensures ret == (match old(flags[x]) case Live => 0 case Empty => 1 case Deleted => 2)
      ensures ret == 0 <==> key in old(Contents())
    {
      hide Inverse, AllReached, Reached, Used, PowerOfTwo, Chosen, Pairs;
      ChosenIs(flags[..], keys[..], hash, bucket, key, x);
      PairsUpdate(bucket, vals[..], key, x);
      if flags[x] == Live {
        return 0;
      }
      ret := if flags[x] == Empty then 1 else 2;
      Insert(key, x);
    }

    /** The resizing half of kh_put: at the load limit, clear the tombstones when
        they are most of the table and double it otherwise. */
    method MakeRoom(mem: Memory) returns (r: int)
      requires Valid()
      modifies Repr()
      ensures Valid() && fresh(Repr() - old(Repr())) && Contents() == old(Contents()) && size == old(size)
      ensures r == 0 ==> nOccupied < upperBound
      ensures mem.flags && mem.keys && mem.vals ==> r == 0
      ensures r == 0 || r == -1
      ensures old(nOccupied) < old(upperBound) ==>
                r == 0 && nBuckets == old(nBuckets) && nOccupied == old(nOccupied) && flags[..] == old(flags[..])
      ensures old(nOccupied) >= old(upperBound) && r == 0 ==>
                && (forall i :: 0 <= i < nBuckets ==> flags[i] != Deleted)
                && nBuckets == if old(nBuckets) > 2 * old(size) then old(nBuckets) else Target(old(nBuckets) + 1)
    {
      hide Inverse, AllReached, Used, PowerOfTwo, RoundUp;
      r := 0;
      if nOccupied >= upperBound {
        if nBuckets > 2 * size {
          SameRound(nBuckets);
          r := Resize(nBuckets - 1, mem);
        } else {
          NextRound(nBuckets);
          LiveAreUsed(flags[..], keys[..], bucket);
          r := Resize(nBuckets + 1, mem);
        }
      }
    }

    /** kh_put: the value is the caller's to write, through the bucket returned. */
    method Put(key: K, mem: Memory) returns (x: nat, ret: int)
      requires Valid()
      modifies Repr()
      ensures Valid() && fresh(Repr() - old(Repr()))
      ensures ret == -1 || ret == 0 || ret == 1 || ret == 2
      ensures ret == -1 ==> x == nBuckets && Contents() == old(Contents())
      ensures ret != -1 ==> x < nBuckets && flags[x] == Live && keys[x] == key
      ensures ret != -1 ==> Contents() == old(Contents())[key := vals[x]]
      ensures ret != -1 ==> (ret == 0 <==> key in old(Contents()))
      ensures mem.flags && mem.keys && mem.vals ==> ret != -1
      ensures old(nOccupied) < old(upperBound) ==>
                && ret != -1 && nBuckets == old(nBuckets)
                && ret == (match old(flags[..])[x] case Live => 0 case Empty => 1 case Deleted => 2)
      ensures old(nOccupied) >= old(upperBound) ==> ret != 2
      ensures old(nOccupied) >= old(upperBound) && ret != -1 ==>
                nBuckets == if old(nBuckets) > 2 * old(size) then old(nBuckets) else Target(old(nBuckets) + 1)
    {
      hide Inverse, AllReached, Chosen, Used, PowerOfTwo;
      var r := MakeRoom(mem);
      if r < 0 {
        return nBuckets, -1;
      }
      ghost var e := UsedLeavesEmpty(flags[..]);
      x := Slot(key);
      ret := Store(key, x);
    }

    /** kh_del: a live bucket becomes a tombstone; anything else is left alone. */
    method Del(x: nat)
      requires Valid() && x <= nBuckets
      modifies this`size, this`bucket, flags
      ensures Valid() && nOccupied == old(nOccupied)
      ensures if x < nBuckets && old(flags[x]) == Live
              then Contents() == old(Contents()) - {keys[x]}
              else Contents() == old(Contents())
    {
      if x != nBuckets && flags[x] == Live {
        ghost var fl := flags[..];
        DelKeeps(fl, keys[..], hash, bucket, x);
        PairsUpdate(bucket, vals[..], keys[x], x);
        hide Inverse, AllReached, Used, PowerOfTwo, Pairs;
        flags[x] := Deleted;
        assert flags[..] == fl[x := Deleted];
        size := size - 1;
        bucket := bucket - {keys[x]};
      }
    }

    /** kh_clear: every bucket as if never used. */
    method Clear()
      requires Valid()
      modifies this`size, this`nOccupied, this`bucket, flags
      ensures Valid() && Contents() == map[] && nBuckets == old(nBuckets)
    {
      forall i | 0 <= i < flags.Length {
        flags[i] := Empty;
      }
      size, nOccupied := 0, 0;
      bucket := map[];
      assert Used(flags[..]) == {};
    }

    /** Assignment through kh_value. */
    method SetValue(x: nat, v: V)
      requires Valid() && x < nBuckets && flags[x] == Live
      modifies vals
      ensures Valid() && Contents() == old(Contents())[keys[x] := v]
    {
      vals[x] := v;
    }
  }

  /** A search for k after s probes: it met no empty bucket and not k, and `site`
      is a tombstone it passed, or |fl| if it passed none. */
  ghost predicate Probing<K>(fl: seq<Flag>, ks: seq<K>, h: nat, k: K, s: nat, site: nat)
    requires 0 < |fl| <= |ks|
  {
    && Unbroken(fl, h, s)
    && (forall t: nat :: t < s ==> var i := At(|fl|, h, t); !(fl[i] == Live && ks[i] == k))
    && (site == |fl| ==> forall t: nat :: t < s ==> fl[At(|fl|, h, t)] == Live)
    && (site != |fl| ==> site < |fl| && fl[site] == Deleted && Reached(fl, h, site))
  }

  /** x is the bucket kh_put may use for k. */
  ghost predicate Chosen<K>(fl: seq<Flag>, hash: K -> nat, bucket: map<K, nat>, k: K, x: nat)
    requires |fl| > 0
  {
    && x < |fl|
    && (k in bucket ==> x == bucket[k])
    && (k !in bucket ==> fl[x] != Live && Reached(fl, hash(k), x))
  }

  lemma ChosenIs<K>(fl: seq<Flag>, ks: seq<K>, hash: K -> nat, bucket: map<K, nat>, k: K, x: nat)
    requires |fl| > 0 && Chosen(fl, hash, bucket, k, x) && Inverse(fl, ks, bucket)
    ensures k in bucket ==> x == bucket[k] && fl[x] == Live && ks[x] == k
    ensures k !in bucket ==> fl[x] != Live && Reached(fl, hash(k), x)
  {
  }

  lemma ProbingStarts<K>(fl: seq<Flag>, ks: seq<K>, h: nat, k: K)
    requires 0 < |fl| <= |ks|
    ensures Probing(fl, ks, h, k, 0, |fl|)
  {
  }

  lemma ProbingSteps<K>(fl: seq<Flag>, ks: seq<K>, h: nat, k: K, s: nat, site: nat)
    requires 0 < |fl| <= |ks| && Probing(fl, ks, h, k, s, site)
    requires var i := At(|fl|, h, s); fl[i] != Empty && (fl[i] == Deleted || ks[i] != k)
    ensures var i := At(|fl|, h, s); Probing(fl, ks, h, k, s + 1, if fl[i] == Deleted then i else site)
  {
    assert At(|fl|, h, s) == At(|fl|, h, s) && Unbroken(fl, h, s);
  }

  /** A trip round that met only live buckets has met them all. */
  lemma AllLive(fl: seq<Flag>, h: nat, s: nat)
    requires |fl| > 0 && PowerOfTwo(|fl|) && s >= |fl|
    ensures (forall t: nat :: t < s ==> fl[At(|fl|, h, t)] == Live) ==> forall i :: 0 <= i < |fl| ==> fl[i] == Live
  {
    forall i: nat | i < |fl| && forall t: nat :: t < s ==> fl[At(|fl|, h, t)] == Live
      ensures fl[i] == Live
    {
      EveryBucket(|fl|, h, i);
      var t: nat :| t < |fl| && At(|fl|, h, t) == i;
    }
  }

  /** However the search ends, the bucket kh_put picks is the right one. */
  lemma ProbingEnds<K>(fl: seq<Flag>, ks: seq<K>, hash: K -> nat, bucket: map<K, nat>, k: K, s: nat, site: nat)
    requires |fl| > 0 && PowerOfTwo(|fl|) && Inverse(fl, ks, bucket) && AllReached(fl, hash, bucket)
    requires Probing(fl, ks, hash(k), k, s, site) && exists i :: 0 <= i < |fl| && fl[i] != Live
    ensures var i := At(|fl|, hash(k), s);
            && (s >= |fl| ==> site != |fl|)
            && (s >= |fl| || (fl[i] == Empty && site != |fl|) ==> Chosen(fl, hash, bucket, k, site))
            && (fl[i] == Empty && site == |fl| ==> Chosen(fl, hash, bucket, k, i))
            && (fl[i] == Live && ks[i] == k ==> Chosen(fl, hash, bucket, k, i))
  {
    var i := At(|fl|, hash(k), s);
    assert Reached(fl, hash(k), i);
    if s >= |fl| {
      AllLive(fl, hash(k), s);
    }
    if s >= |fl| || fl[i] == Empty {
      SearchIsExact(fl, ks, hash, bucket, k, s);
    }
  }

  lemma StoreKeeps<K>(fl: seq<Flag>, ks: seq<K>, hash: K -> nat, bucket: map<K, nat>, k: K, x: nat)
    requires Inverse(fl, ks, bucket) && AllReached(fl, hash, bucket)
    requires k !in bucket && x < |fl| && fl[x] != Live && Reached(fl, hash(k), x)
    ensures Inverse(fl[x := Live], ks[x := k], bucket[k := x])
    ensures AllReached(fl[x := Live], hash, bucket[k := x])
    ensures |bucket[k := x]| == |bucket| + 1
    ensures |Used(fl[x := Live])| == |Used(fl)| + if fl[x] == Empty then 1 else 0
  {
    UsedUpdate(fl, x, Live);
    NewSideReached(fl, hash, bucket, k, x);
  }

  lemma DelKeeps<K>(fl: seq<Flag>, ks: seq<K>, hash: K -> nat, bucket: map<K, nat>, x: nat)
    requires Inverse(fl, ks, bucket) && AllReached(fl, hash, bucket)
    requires x < |fl| && fl[x] == Live
    ensures Inverse(fl[x := Deleted], ks, bucket - {ks[x]})
    ensures AllReached(fl[x := Deleted], hash, bucket - {ks[x]})
    ensures |bucket - {ks[x]}| == |bucket| - 1
    ensures |Used(fl[x := Deleted])| == |Used(fl)|
  {
    UsedUpdate(fl, x, Deleted);
    var rest := bucket - {ks[x]};
    assert rest.Keys == bucket.Keys - {ks[x]};
    forall k | k in rest
      ensures Reached(fl[x := Deleted], hash(k), rest[k])
    {
      ReachedGrows(fl, fl[x := Deleted], hash(k), rest[k]);
    }
  }

  /** No more keys are stored than buckets are in use. */
  lemma {:induction false} LiveAreUsed<K>(fl: seq<Flag>, ks: seq<K>, bucket: map<K, nat>)
    requires Inverse(fl, ks, bucket)
    ensures |bucket| <= |Used(fl)|
    decreases |bucket|
  {
    if |bucket| > 0 {
      var k :| k in bucket;
      var i, rest := bucket[k], bucket - {k};
      assert rest.Keys == bucket.Keys - {k};
      LiveAreUsed(fl[i := Empty], ks, rest);
      assert Used(fl[i := Empty]) == Used(fl) - {i};
    }
  }

  /** The request that only clears tombstones rounds back to the same size. */
  lemma SameRound(n: nat)
    requires PowerOfTwo(n) && n >= 4
    ensures RoundUp(n - 1) == n
  {
    hide RoundUp, PowerOfTwo;
    RoundUpIsLeast(n - 1, n);
    PowersOfTwoDouble(RoundUp(n - 1), n);
  }

  /** The request that expands rounds to twice the size. */
  lemma NextRound(n: nat)
    requires n == 0 || PowerOfTwo(n)
    ensures n > 0 ==> RoundUp(n + 1) == 2 * n
  {
    if n > 0 {
      PowerOfTwoDoubles(n);
      RoundUpIsLeast(n + 1, 2 * n);
      PowersOfTwoDouble(n, RoundUp(n + 1));
    }
  }

  /** Only the keys of live buckets matter. */
  lemma KeysAgree<K>(fl: seq<Flag>, ks: seq<K>, ks': seq<K>, bucket: map<K, nat>)
    requires Inverse(fl, ks, bucket) && |fl| <= |ks'|
    requires forall i :: 0 <= i < |fl| ==> ks'[i] == ks[i]
    ensures Inverse(fl, ks', bucket)
  {
  }

  lemma PairsAgree<K, V>(fl: seq<Flag>, ks: seq<K>, vs: seq<V>, vs': seq<V>, bucket: map<K, nat>)
    requires Inverse(fl, ks, bucket) && |fl| <= |vs| && |fl| <= |vs'|
    requires forall i :: 0 <= i < |vs| && i < |vs'| ==> vs'[i] == vs[i]
    ensures Pairs(bucket, vs') == Pairs(bucket, vs)
  {
  }

  lemma PairsUpdate<K, V>(bucket: map<K, nat>, vs: seq<V>, k: K, x: nat)
    requires x < |vs|
    ensures Pairs(bucket[k := x], vs) == Pairs(bucket, vs)[k := vs[x]]
    ensures Pairs(bucket - {k}, vs) == Pairs(bucket, vs) - {k}
    ensures k in bucket && bucket[k] == x ==> Pairs(bucket, vs)[k := vs[x]] == Pairs(bucket, vs)
    ensures k in Pairs(bucket, vs) ==> k in bucket
    ensures k in bucket && bucket[k] == x ==> k in Pairs(bucket, vs)
  {
  }

  lemma StartRehash<K, V>(of: seq<Flag>, nf: seq<Flag>, ks: seq<K>, vs: seq<V>, hash: K -> nat,
                          bucket: map<K, nat>, m: map<K, V>)
    requires Inverse(of, ks, bucket) && |nf| <= |ks| && |of| <= |vs| && m == Pairs(bucket, vs)
    requires forall i :: 0 <= i < |nf| ==> nf[i] == Empty
    ensures Carrying(of, nf, ks, vs, hash, bucket, map[], m, Nothing)
    ensures |m| == |bucket|
  {
    assert Used(nf) == {};
    assert m.Keys == bucket.Keys && |m.Keys| == |m| && |bucket.Keys| == |bucket|;
  }

  /** The table a rehash leaves: exactly m, no tombstone, nothing else in use. */
  ghost predicate Settled<K, V>(nf: seq<Flag>, ks: seq<K>, vs: seq<V>, hash: K -> nat, placed: map<K, nat>, m: map<K,
                                V>)
  {
    && Inverse(nf, ks, placed) && AllReached(nf, hash, placed) && Values(vs, placed, m)
    && placed.Keys == m.Keys && |Used(nf)| == |placed|
    && (forall i :: 0 <= i < |nf| ==> nf[i] != Deleted)
  }

  lemma EndRehash<K, V>(nf: seq<Flag>, ks: seq<K>, vs: seq<V>, hash: K -> nat, placed: map<K, nat>, m: map<K, V>)
    requires Carrying([], nf, ks, vs, hash, map[], placed, m, Nothing)
    ensures Settled(nf, ks, vs, hash, placed, m)
  {
    assert |placed.Keys| == |placed|;
  }

  lemma SettledTrim<K, V>(nf: seq<Flag>, ks: seq<K>, vs: seq<V>, ks': seq<K>, vs': seq<V>, hash: K -> nat,
                          placed: map<K, nat>, m: map<K, V>)
    requires Settled(nf, ks, vs, hash, placed, m)
    requires |nf| == |ks'| == |vs'| <= |vs|
    requires forall i :: 0 <= i < |nf| && i < |ks| ==> ks'[i] == ks[i]
    requires forall i :: 0 <= i < |nf| ==> vs'[i] == vs[i]
    ensures Settled(nf, ks', vs', hash, placed, m)
  {
  }

  lemma SettledIs<K, V>(nf: seq<Flag>, ks: seq<K>, vs: seq<V>, hash: K -> nat, placed: map<K, nat>, m: map<K, V>)
    requires Settled(nf, ks, vs, hash, placed, m)
    ensures Inverse(nf, ks, placed) && AllReached(nf, hash, placed)
    ensures m == Pairs(placed, vs)
    ensures |placed| == |m| == |Used(nf)|
    ensures forall i :: 0 <= i < |nf| ==> nf[i] != Deleted
  {
    assert |placed.Keys| == |placed| && |m.Keys| == |m|;
  }

  // ------------------------------------------------------------------- runs

  /** What a client does with the table: kh_put followed by the write through
      kh_value, kh_get, kh_get followed by kh_del, kh_clear, kh_resize. */
  datatype Op<K, V> =
    | PutOp(key: K, val: V, mem: Memory)
    | GetOp(key: K)
    | DelOp(key: K)
    | ClearOp
    | ResizeOp(request: nat, mem: Memory)

  datatype Answer<V> = Code(ret: int) | Found(val: V) | Missing | Done

  /** What an ideal finite map answers to op, and what it becomes. */
  ghost predicate Ideal<K, V>(op: Op<K, V>, m: map<K, V>, a: Answer<V>, m': map<K, V>)
  {
    match op
    case PutOp(k, v, mem) =>
      && a.Code?
      && (a.ret == -1 ==> m' == m && !(mem.flags && mem.keys && mem.vals))
      && (a.ret != -1 ==> m' == m[k := v] && (a.ret == 0 <==> k in m))
    case GetOp(k) => m' == m && a == if k in m then Found(m[k]) else Missing
    case DelOp(k) => m' == m - {k} && a == Done
    case ClearOp => m' == map[] && a == Done
    case ResizeOp(_, _) => m' == m && a.Code?
  }

  /** A put followed by a write through the bucket it returned. */
  method PutPair<K(==, 0), V(0)>(t: Table<K, V>, k: K, v: V, mem: Memory) returns (ret: int)
    requires t.Valid()
    modifies t.Repr()
    ensures t.Valid() && fresh(t.Repr() - old(t.Repr()))
    ensures ret == -1 ==> t.Contents() == old(t.Contents()) && !(mem.flags && mem.keys && mem.vals)
    ensures ret != -1 ==> t.Contents() == old(t.Contents())[k := v] && (ret == 0 <==> k in old(t.Contents()))
  {
    hide Inverse, AllReached, Used, PowerOfTwo;
    var x;
    x, ret := t.Put(k, mem);
    if ret != -1 {
      t.SetValue(x, v);
    }
  }

  method Apply<K(==, 0), V(0)>(t: Table<K, V>, op: Op<K, V>) returns (a: Answer<V>)
    requires t.Valid()
    modifies t.Repr()
    ensures t.Valid() && fresh(t.Repr() - old(t.Repr()))
    ensures Ideal(op, old(t.Contents()), a, t.Contents())
  {
    hide Inverse, AllReached, Used, PowerOfTwo;
    match op {
      case PutOp(k, v, mem) =>
        var ret := PutPair(t, k, v, mem);
        a := Code(ret);
      case GetOp(k) =>
        var x := t.Get(k);
        a := if x == t.nBuckets then Missing else Found(t.vals[x]);
      case DelOp(k) =>
        var x := t.Get(k);
        t.Del(x);
        a := Done;
      case ClearOp =>
        t.Clear();
        a := Done;
      case ResizeOp(n, mem) =>
        var r := t.Resize(n, mem);
        a := Code(r);
    }
  }

  /** Any sequence of operations: the table answers as the finite map does, and the
      map it ends with is the one that map ends with. */
  method Run<K(==, 0), V(0)>(t: Table<K, V>, ops: seq<Op<K, V>>)
    returns (answers: seq<Answer<V>>, ghost maps: seq<map<K, V>>)
    requires t.Valid()
    modifies t.Repr()
    ensures t.Valid() && |answers| == |ops| && |maps| == |ops| + 1
    ensures maps[0] == old(t.Contents()) && maps[|ops|] == t.Contents()
    ensures forall i :: 0 <= i < |ops| ==> Ideal(ops[i], maps[i], answers[i], maps[i + 1])
  {
    hide Ideal, Table.Valid;
    answers, maps := [], [t.Contents()];
    var n := 0;
    while n < |ops|
      invariant 0 <= n <= |ops|
      invariant t.Valid() && fresh(t.Repr() - old(t.Repr()))
      invariant |answers| == n && |maps| == n + 1 && maps[0] == old(t.Contents()) && maps[n] == t.Contents()
      invariant forall i :: 0 <= i < n ==> Ideal(ops[i], maps[i], answers[i], maps[i + 1])
    {
      var a := Apply(t, ops[n]);
      answers, maps := answers + [a], maps + [t.Contents()];
      n := n + 1;
    }
  }

  /** The counters are exact, and a bucket is always left empty. */
  lemma LoadIsBounded<K(0), V(0)>(t: Table<K, V>)
    requires t.Valid()
    ensures t.size == |t.Contents()|
    ensures t.size <= t.nOccupied == |Used(t.flags[..])| <= Limit(t.nBuckets)
    ensures t.nBuckets > 0 ==> exists i :: 0 <= i < t.nBuckets && t.flags[i] == Empty
  {
    assert t.Contents().Keys == t.bucket.Keys && |t.Contents().Keys| == |t.Contents()| && |t.bucket.Keys| == |t.bucket|;
    LiveAreUsed(t.flags[..], t.keys[..], t.bucket);
    if t.nBuckets > 0 {
      var e := UsedLeavesEmpty(t.flags[..]);
    }
  }
}
