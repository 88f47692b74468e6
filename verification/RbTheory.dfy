/** Red-black trees as values: what the linked tree stands for, the path from a
    place in it up to the root, and the balance conditions, stated so that a tree
    can be taken apart at any node and put together again.
 */
module RbTheory {
  import opened Basics

  type Key(!new)

  /** A member of a linked tree: what RB_ENTRY adds to a struct, and its key. */
  class Elem {
    const key: Key
    var left: Elem?
    var right: Elem?
    var parent: Elem?
    var red: bool

    constructor (key: Key)
      ensures this.key == key
    {
      this.key := key;
    }
  }

  datatype Tree = Leaf | Node(left: Tree, elm: Elem, red: bool, right: Tree)

  /** The way up from a subtree: the ancestor, its colour and its other child. */
  datatype Path =
    | Top
    | InLeft(up: Path, elm: Elem, red: bool, right: Tree)
    | InRight(up: Path, left: Tree, elm: Elem, red: bool)

  ghost function Plug(p: Path, t: Tree): Tree
    decreases p
  {
    match p
    case Top => t
    case InLeft(up, e, red, r) => Plug(up, Node(t, e, red, r))
    case InRight(up, l, e, red) => Plug(up, Node(l, e, red, t))
  }

  ghost function Depth(p: Path): nat {
    match p
    case Top => 0
    case InLeft(up, _, _, _) => 1 + Depth(up)
    case InRight(up, _, _, _) => 1 + Depth(up)
  }

  // ---------------------------------------------------------------- contents

  ghost function Inorder(t: Tree): seq<Elem> {
    match t
    case Leaf => []
    case Node(l, e, _, r) => Inorder(l) + [e] + Inorder(r)
  }

  /** What comes before, and after, everything below a path. */
  ghost function Before(p: Path): seq<Elem> {
    match p
    case Top => []
    case InLeft(up, _, _, _) => Before(up)
    case InRight(up, l, e, _) => Before(up) + Inorder(l) + [e]
  }

  ghost function After(p: Path): seq<Elem> {
    match p
    case Top => []
    case InLeft(up, e, _, r) => [e] + Inorder(r) + After(up)
    case InRight(up, _, _, _) => After(up)
  }

  lemma {:induction false} PlugInorder(p: Path, t: Tree)
    ensures Inorder(Plug(p, t)) == Before(p) + Inorder(t) + After(p)
    decreases p
  {
    match p
    case Top =>
    case InLeft(up, e, red, r) =>
      PlugInorder(up, Node(t, e, red, r));
      Regroup(Before(up), Inorder(t), [e], Inorder(r), After(up));
    case InRight(up, l, e, red) =>
      PlugInorder(up, Node(l, e, red, t));
      Regroup(Before(up), Inorder(l), [e], Inorder(t), After(up));
  }

  lemma Regroup<T>(a: seq<T>, b: seq<T>, c: seq<T>, d: seq<T>, e: seq<T>)
    ensures a + (b + c + d) + e == a + b + (c + d + e) == (a + b + c) + d + e
  {
  }

  /** No element is in two places. */
  ghost predicate NoRepeats(s: seq<Elem>) {
    forall i, j :: 0 <= i < j < |s| ==> s[i] != s[j]
  }

  // ----------------------------------------------------------------- balance

  ghost predicate IsRed(t: Tree) {
    t.Node? && t.red
  }

  ghost function Blacken(t: Tree): Tree {
    match t
    case Leaf => Leaf
    case Node(l, e, _, r) => Node(l, e, false, r)
  }

  ghost function Weight(red: bool): nat {
    if red then 0 else 1
  }

  /** Every way down from t meets n black nodes. */
  ghost predicate Black(t: Tree, n: int) {
    match t
    case Leaf => n == 0
    case Node(l, _, red, r) => Black(l, n - Weight(red)) && Black(r, n - Weight(red))
  }

  /** No red node has a red child. */
  ghost predicate Calm(t: Tree) {
    match t
    case Leaf => true
    case Node(l, _, red, r) => Calm(l) && Calm(r) && (red ==> !IsRed(l) && !IsRed(r))
  }

  /** The same below the root, which may itself be red over red. */
  ghost predicate CalmBelow(t: Tree) {
    t.Node? ==> Calm(t.left) && Calm(t.right)
  }

  /** A subtree of black height n makes the tree around the path even. */
  ghost predicate Fits(p: Path, n: int) {
    match p
    case Top => true
    case InLeft(up, _, red, r) => Black(r, n) && Fits(up, n + Weight(red))
    case InRight(up, l, _, red) => Black(l, n) && Fits(up, n + Weight(red))
  }

  /** Nothing on the path is red over red, given the colour of what is below it,
      and the root is black. */
  ghost predicate CalmPath(p: Path, red: bool) {
    match p
    case Top => !red
    case InLeft(up, _, c, r) => Calm(r) && (c ==> !red && !IsRed(r)) && CalmPath(up, c)
    case InRight(up, l, _, c) => Calm(l) && (c ==> !red && !IsRed(l)) && CalmPath(up, c)
  }

  ghost predicate Balanced(t: Tree) {
    Calm(t) && !IsRed(t) && exists n: nat :: Black(t, n)
  }

  lemma {:induction false} BlackUnique(t: Tree, m: int, n: int)
    requires Black(t, m) && Black(t, n)
    ensures m == n >= 0
  {
    match t
    case Leaf =>
    case Node(l, _, red, _) => BlackUnique(l, m - Weight(red), n - Weight(red));
  }

  /** Putting a subtree of the right height and a fitting colour back on its path
      gives a balanced tree. */
  lemma {:induction false} PlugBalanced(p: Path, t: Tree, n: int)
    requires Black(t, n) && Fits(p, n) && Calm(t) && CalmPath(p, IsRed(t))
    ensures Balanced(Plug(p, t))
    decreases p
  {
    match p
    case Top =>
      BlackUnique(t, n, n);
    case InLeft(up, e, red, r) =>
      PlugBalanced(up, Node(t, e, red, r), n + Weight(red));
    case InRight(up, l, e, red) =>
      PlugBalanced(up, Node(l, e, red, t), n + Weight(red));
  }

  /** Taking a balanced tree apart at any node. */
  lemma {:induction false} Unplug(p: Path, t: Tree) returns (n: int)
    requires Balanced(Plug(p, t))
    ensures Black(t, n) && Fits(p, n) && Calm(t) && CalmPath(p, IsRed(t))
    decreases p
  {
    match p
    case Top =>
      n :| Black(t, n);
    case InLeft(up, e, red, r) =>
      var m := Unplug(up, Node(t, e, red, r));
      n := m - Weight(red);
    case InRight(up, l, e, red) =>
      var m := Unplug(up, Node(l, e, red, t));
      n := m - Weight(red);
  }

  /** A path that is calm over something red is calm over something black. */
  lemma CalmPathBlack(p: Path, red: bool)
    requires CalmPath(p, red)
    ensures CalmPath(p, false)
  {
  }

  // ------------------------------------------------------------------ height

  ghost function Size(t: Tree): nat {
    match t case Leaf => 0 case Node(l, _, _, r) => Size(l) + 1 + Size(r)
  }

  ghost function Height(t: Tree): nat {
    match t
    case Leaf => 0
    case Node(l, _, _, r) => 1 + if Height(l) < Height(r) then Height(r) else Height(l)
  }

  lemma {:induction false} SizeOfHeight(t: Tree, n: nat)
    requires Black(t, n) && Calm(t)
    ensures Size(t) + 1 >= Exp2(n)
    ensures Height(t) <= 2 * n + if IsRed(t) then 1 else 0
  {
    match t
    case Leaf =>
    case Node(l, _, red, r) =>
      BlackUnique(t, n, n);
      BlackUnique(l, n - Weight(red), n - Weight(red));
      SizeOfHeight(l, n - Weight(red));
      SizeOfHeight(r, n - Weight(red));
  }

  lemma {:induction false} Exp2Monotone(a: nat, b: nat)
    requires a <= b
    ensures Exp2(a) <= Exp2(b)
  {
    if a < b {
      Exp2Monotone(a, b - 1);
    }
  }

  lemma {:induction false} Exp2Square(n: nat)
    ensures Exp2(2 * n) == Exp2(n) * Exp2(n)
  {
    if n > 0 {
      Exp2Square(n - 1);
      var x := Exp2(n - 1);
      assert Exp2(2 * n) == 2 * Exp2(2 * n - 1) == 4 * Exp2(2 * n - 2);
      assert (2 * x) * (2 * x) == 4 * (x * x);
    }
  }

  /** Height at most 2 lg(n+1), with both sides raised: 2^height <= (n+1)^2. */
  lemma HeightBound(t: Tree)
    requires Balanced(t)
    ensures Exp2(Height(t)) <= (Size(t) + 1) * (Size(t) + 1)
  {
    var n: nat :| Black(t, n);
    SizeOfHeight(t, n);
    Exp2Monotone(Height(t), 2 * n);
    Exp2Square(n);
    SquareMonotone(Exp2(n), Size(t) + 1);
  }

  lemma SquareMonotone(a: nat, b: nat)
    requires a <= b
    ensures a * a <= b * b
  {
    assert a * a <= a * b <= b * b;
  }
}
