/** Search order: what the comparison must be, and what a descent keeps. */
module RbSearch {
  import opened RbTheory
  import opened RbHeap
  import opened RbRemove

  /** What the comparison has to be: of opposite sign when swapped, and transitive
      when strict.  Elements neither way compare as equal, as overlapping regions do. */
  ghost predicate IsOrder<K(!new)>(cmp: (K, K) -> int) {
    && (forall a, b :: cmp(a, b) < 0 <==> cmp(b, a) > 0)
    && (forall a, b, c :: cmp(a, b) < 0 && cmp(b, c) < 0 ==> cmp(a, c) < 0)
  }

  ghost predicate Sorted(s: seq<Elem>, cmp: (Key, Key) -> int) {
    forall i, j :: 0 <= i < j < |s| ==> cmp(s[i].key, s[j].key) < 0
  }

  ghost predicate Missing(key: Key, s: seq<Elem>, cmp: (Key, Key) -> int) {
    forall e :: e in s ==> cmp(key, e.key) != 0
  }

  /** after is before with e put in somewhere. */
  ghost predicate OneAdded(before: seq<Elem>, after: seq<Elem>, e: Elem) {
    exists k :: 0 <= k <= |before| && after == before[..k] + [e] + before[k..]
  }

  ghost predicate AllBelow(s: seq<Elem>, key: Key, cmp: (Key, Key) -> int) {
    forall e :: e in s ==> cmp(e.key, key) < 0
  }

  ghost predicate AllAbove(s: seq<Elem>, key: Key, cmp: (Key, Key) -> int) {
    forall e :: e in s ==> cmp(key, e.key) < 0
  }

  /** Everything before path p is below the key, everything after it above. */
  ghost predicate Bounded(p: Path, key: Key, cmp: (Key, Key) -> int) {
    AllBelow(Before(p), key, cmp) && AllAbove(After(p), key, cmp)
  }

  /** One step down the search keeps the key between what is left behind. */
  lemma Descend(p: Path, t: Tree, key: Key, cmp: (Key, Key) -> int)
    requires t.Node? && IsOrder(cmp) && Sorted(Inorder(Plug(p, t)), cmp) && Bounded(p, key, cmp)
    ensures cmp(key, t.elm.key) < 0 ==> Bounded(InLeft(p, t.elm, t.red, t.right), key, cmp)
    ensures cmp(key, t.elm.key) > 0 ==> Bounded(InRight(p, t.left, t.elm, t.red), key, cmp)
  {
    hide Sorted, IsOrder, AllBelow, AllAbove, Plug;
    var e, l, r := t.elm, Inorder(t.left), Inorder(t.right);
    PlugInorder(p, t);
    DescendSeq(Before(p), l, e, r, After(p), key, cmp);
    assert Before(InRight(p, t.left, e, t.red)) == Before(p) + l + [e];
    assert After(InLeft(p, e, t.red, t.right)) == [e] + r + After(p);
  }

  lemma DescendSeq(a: seq<Elem>, l: seq<Elem>, e: Elem, r: seq<Elem>, b: seq<Elem>, key: Key, cmp: (Key, Key) -> int)
    requires IsOrder(cmp) && Sorted(a + (l + [e] + r) + b, cmp)
    ensures cmp(key, e.key) < 0 ==> AllAbove([e] + r + b, key, cmp)
    ensures cmp(key, e.key) > 0 ==> AllBelow(a + l + [e], key, cmp)
  {
    hide Sorted, IsOrder, AllBelow, AllAbove;
    assert a + (l + [e] + r) + b == (a + l) + [e] + (r + b);
    SortedAround(a + l, e, r + b, cmp);
    Transitive(a + l, e, r + b, key, cmp);
    Joined(a + l, [e], key, cmp);
    Joined([e], r + b, key, cmp);
    assert [e] + (r + b) == [e] + r + b;
  }

  lemma SortedAround(a: seq<Elem>, e: Elem, b: seq<Elem>, cmp: (Key, Key) -> int)
    requires Sorted(a + [e] + b, cmp)
    ensures AllBelow(a, e.key, cmp) && AllAbove(b, e.key, cmp)
  {
    var s := a + [e] + b;
    assert s[|a|] == e;
    assert forall i :: 0 <= i < |a| ==> s[i] == a[i];
    assert forall i :: 0 <= i < |b| ==> s[|a| + 1 + i] == b[i];
  }

  lemma Transitive(a: seq<Elem>, e: Elem, b: seq<Elem>, key: Key, cmp: (Key, Key) -> int)
    requires IsOrder(cmp) && AllBelow(a, e.key, cmp) && AllAbove(b, e.key, cmp)
    ensures cmp(key, e.key) < 0 ==> AllAbove(b, key, cmp) && AllAbove([e], key, cmp)
    ensures cmp(key, e.key) > 0 ==> AllBelow(a, key, cmp) && AllBelow([e], key, cmp)
  {
  }

  lemma Joined(a: seq<Elem>, b: seq<Elem>, key: Key, cmp: (Key, Key) -> int)
    ensures AllBelow(a, key, cmp) && AllBelow(b, key, cmp) <==> AllBelow(a + b, key, cmp)
    ensures AllAbove(a, key, cmp) && AllAbove(b, key, cmp) <==> AllAbove(a + b, key, cmp)
  {
    assert forall e :: e in a + b <==> e in a || e in b;
  }

  lemma PlugStep(p: Path, t: Tree)
    requires t.Node?
    ensures Plug(InLeft(p, t.elm, t.red, t.right), t.left) == Plug(p, t)
    ensures Plug(InRight(p, t.left, t.elm, t.red), t.right) == Plug(p, t)
  {
  }

  lemma WholeTreeSplits(h: Heap, root: Elem?, t: Tree, cmp: (Key, Key) -> int, key: Key)
    requires Shape(h, root, t)
    ensures t == Plug(Top, t) && root == RootOf(t) && Bounded(Top, key, cmp)
  {
  }

  lemma MemberAt(p: Path, t: Tree)
    requires t.Node?
    ensures t.elm in Members(Plug(p, t))
  {
    PlugInorder(p, t);
    Inside(t);
  }

  /** Nothing in the tree compares equal once the search has run out. */
  lemma NotThere(p: Path, elm: Elem, cmp: (Key, Key) -> int)
    requires IsOrder(cmp) && Bounded(p, elm.key, cmp)
    ensures Missing(elm.key, Inorder(Plug(p, Leaf)), cmp)
    ensures elm !in Members(Plug(p, Leaf))
  {
    PlugInorder(p, Leaf);
  }

  /** The element has its place in the order, and the order is kept. */
  lemma Inserted(p: Path, elm: Elem, after: Tree, before: Tree, cmp: (Key, Key) -> int)
    requires before == Plug(p, Leaf) && Sorted(Inorder(before), cmp) && Bounded(p, elm.key, cmp)
    requires Inorder(after) == Inorder(Plug(p, Node(Leaf, elm, true, Leaf)))
    ensures Sorted(Inorder(after), cmp) && Members(after) == Members(before) + {elm}
    ensures OneAdded(Inorder(before), Inorder(after), elm)
  {
    hide Sorted, AllBelow, AllAbove;
    PlugInorder(p, Leaf);
    PlugInorder(p, Node(Leaf, elm, true, Leaf));
    var a, b := Before(p), After(p);
    assert Inorder(Node(Leaf, elm, true, Leaf)) == [elm];
    assert Inorder(before) == a + b && Inorder(after) == a + [elm] + b;
    SortedWith(a, elm, b, cmp);
    assert (a + b)[..|a|] == a && (a + b)[|a|..] == b;
  }

  lemma SortedWith(a: seq<Elem>, e: Elem, b: seq<Elem>, cmp: (Key, Key) -> int)
    requires Sorted(a + b, cmp) && AllBelow(a, e.key, cmp) && AllAbove(b, e.key, cmp)
    ensures Sorted(a + [e] + b, cmp)
  {
    var s, s' := a + b, a + [e] + b;
    forall i, j | 0 <= i < j < |s'|
      ensures cmp(s'[i].key, s'[j].key) < 0
    {
      assert i != |a| ==> s'[i] == s[if i < |a| then i else i - 1];
      assert j != |a| ==> s'[j] == s[if j < |a| then j else j - 1];
      assert i < |a| ==> s'[i] in a;
      assert j > |a| ==> s'[j] == b[j - |a| - 1] && s'[j] in b;
    }
  }

  /** Taking an element out keeps the order of the rest. */
  lemma StillSorted(h: Heap, root: Elem?, before: Tree, after: Tree, e: Elem, cmp: (Key, Key) -> int)
    requires Shape(h, root, before) && Sorted(Inorder(before), cmp) && OneOut(Inorder(before), Inorder(after), e)
    ensures Sorted(Inorder(after), cmp) && Members(before) == Members(after) + {e} && e !in Members(after)
  {
    hide Sorted, NoRepeats, Spells;
    var s, s' := Inorder(before), Inorder(after);
    var k :| 0 <= k <= |s'| && s == s'[..k] + [e] + s'[k..];
    var a, b := s'[..k], s'[k..];
    assert s' == a + b;
    SortedWithout(a, e, b, cmp);
    Parts(a, e, b);
    assert forall x :: x in s' <==> x in a || x in b;
  }

  lemma SortedWithout(a: seq<Elem>, e: Elem, b: seq<Elem>, cmp: (Key, Key) -> int)
    requires Sorted(a + [e] + b, cmp)
    ensures Sorted(a + b, cmp)
  {
    var s, s' := a + [e] + b, a + b;
    forall i, j | 0 <= i < j < |s'|
      ensures cmp(s'[i].key, s'[j].key) < 0
    {
      assert s'[i] == s[if i < |a| then i else i + 1] && s'[j] == s[if j < |a| then j else j + 1];
    }
  }

  ghost function First(s: seq<Elem>): Elem? {
    if s == [] then null else s[0]
  }

  /** The place of an element that is at a given place in the tree. */
  lemma PlaceOf(p: Path, t: Tree)
    requires t.Node?
    ensures Inorder(Plug(p, t)) == (Before(p) + Inorder(t.left)) + [t.elm] + (Inorder(t.right) + After(p))
  {
    PlugInorder(p, t);
    Middle(Before(p), Inorder(t.left), t.elm, Inorder(t.right), After(p));
  }

  lemma Middle(a: seq<Elem>, l: seq<Elem>, e: Elem, r: seq<Elem>, b: seq<Elem>)
    ensures a + (l + [e] + r) + b == (a + l) + [e] + (r + b)
  {
  }

  /** e is in s and next is what follows it, or null at the end. */
  ghost predicate Follows(s: seq<Elem>, e: Elem, next: Elem?) {
    exists k: nat :: FollowsAt(s, e, next, k)
  }

  ghost predicate FollowsAt(s: seq<Elem>, e: Elem, next: Elem?, k: nat) {
    k < |s| && s[k] == e && next == if k + 1 < |s| then s[k + 1] else null
  }

  lemma FollowsSplit(a: seq<Elem>, e: Elem, b: seq<Elem>)
    ensures Follows(a + [e] + b, e, First(b))
  {
    assert FollowsAt(a + [e] + b, e, First(b), |a|);
  }

  lemma FoundAt(s: seq<Elem>, e: Elem, key: Key, cmp: (Key, Key) -> int)
    requires e in s && cmp(key, e.key) == 0
    ensures FirstNotBelow(s, key, cmp, e)
  {
  }

  /** The first element that is not below the key; for keys that compare equal to
      several, one of those. */
  ghost predicate FirstNotBelow(s: seq<Elem>, key: Key, cmp: (Key, Key) -> int, res: Elem?) {
    if res == null then AllBelow(s, key, cmp)
    else exists k :: 0 <= k < |s| && s[k] == res &&
           (cmp(key, res.key) == 0 || (cmp(key, res.key) < 0 && AllBelow(s[..k], key, cmp)))
  }

  lemma SearchEnds(p: Path, key: Key, cmp: (Key, Key) -> int)
    requires Bounded(p, key, cmp)
    ensures FirstNotBelow(Inorder(Plug(p, Leaf)), key, cmp, First(After(p)))
  {
    PlugInorder(p, Leaf);
    var a, b := Before(p), After(p);
    if b == [] {
      assert a + Inorder(Leaf) + b == a;
    } else {
      var s := a + Inorder(Leaf) + b;
      assert s[|a|] == b[0] && s[..|a|] == a;
    }
  }

  lemma NothingEqual(p: Path, key: Key, cmp: (Key, Key) -> int)
    requires IsOrder(cmp) && Bounded(p, key, cmp)
    ensures Missing(key, Inorder(Plug(p, Leaf)), cmp)
  {
    PlugInorder(p, Leaf);
  }

  lemma {:induction false} PlugToFirst(q: Path, base: Path, f: Tree)
    requires Under(q, base) && Inorder(f) != []
    ensures Inorder(PlugTo(q, base, f)) != [] && Inorder(PlugTo(q, base, f))[0] == Inorder(f)[0]
    decreases q
  {
    if q != base {
      PlugToFirst(q.up, base, Node(f, q.elm, q.red, q.right));
    }
  }

  lemma LeftmostIsFirst(p: Path, t: Tree, q: Path, f: Tree)
    requires t.Node? && f.Node? && f.left.Leaf?
    requires Under(q, InRight(p, t.left, t.elm, t.red)) && PlugTo(q, InRight(p, t.left, t.elm, t.red), f) == t.right
    ensures First(Inorder(t.right) + After(p)) == f.elm
  {
    PlugToFirst(q, InRight(p, t.left, t.elm, t.red), f);
  }

  lemma EmptyRight(t: Tree)
    requires t.Node? && t.right.Leaf?
    ensures Inorder(t.right) == []
  {
  }

  lemma {:induction false} SizeIsLength(t: Tree)
    ensures |Inorder(t)| == Size(t)
  {
    match t
    case Leaf =>
    case Node(l, _, _, r) =>
      SizeIsLength(l);
      SizeIsLength(r);
  }

  /** A guest region, by address and size, and the comparison the region tree is
      generated with: regions that overlap compare as equal. */
  datatype Range = Range(gaddr: nat, size: nat)
  type Region = r: Range | r.size > 0 witness Range(0, 1)

  function RegionCompare(r1: Region, r2: Region): int {
    if r1.gaddr >= r2.gaddr + r2.size then 1
    else if r1.gaddr + r1.size <= r2.gaddr then -1
    else 0
  }

  predicate Holds(r: Region, x: int) {
    r.gaddr <= x < r.gaddr + r.size
  }

  /** It is an order in the sense the tree needs, and equal means overlapping. */
  lemma RegionCompareIsOrder()
    ensures IsOrder(RegionCompare)
    ensures forall a, b :: RegionCompare(a, b) == 0 <==> exists x :: Holds(a, x) && Holds(b, x)
    ensures forall a, b :: RegionCompare(a, b) < 0 <==> forall x, y :: Holds(a, x) && Holds(b, y) ==> x < y
    ensures forall a, b :: RegionCompare(a, b) > 0 <==> forall x, y :: Holds(a, x) && Holds(b, y) ==> x > y
  {
    forall a: Region, b: Region
      ensures RegionCompare(a, b) >= 0 ==> exists x, y :: Holds(a, x) && Holds(b, y) && x >= y
      ensures RegionCompare(a, b) <= 0 ==> exists x, y :: Holds(a, x) && Holds(b, y) && x <= y
    {
      assert Holds(a, a.gaddr) && Holds(a, a.gaddr + a.size - 1);
      assert Holds(b, b.gaddr) && Holds(b, b.gaddr + b.size - 1);
    }
    forall a: Region, b: Region | RegionCompare(a, b) == 0
      ensures exists x :: Holds(a, x) && Holds(b, x)
    {
      var x := if a.gaddr < b.gaddr then b.gaddr else a.gaddr;
      assert Holds(a, x) && Holds(b, x);
    }
  }
}
