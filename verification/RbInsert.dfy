/** Insertion fix-up on trees: the colour and rotation cases of the repair. */
module RbInsert {
  import opened RbTheory
  import opened RbHeap

  /** The subtree one step up a path. */
  ghost function Below(p: Path, t: Tree): Tree
    requires !p.Top?
  {
    match p
    case InLeft(_, e, red, r) => Node(t, e, red, r)
    case InRight(_, l, e, red) => Node(l, e, red, t)
  }

  /** Parent and uncle black, grandparent red. */
  ghost function Generation(p: Path, t: Tree): Tree
    requires !p.Top? && !p.up.Top?
  {
    var par := Blacken(Below(p, t));
    match p.up
    case InLeft(_, g, _, u) => Node(par, g, true, Blacken(u))
    case InRight(_, u, g, _) => Node(Blacken(u), g, true, par)
  }

  /** A tree in need of at most one repair: the subtree below p has a red root,
      which may sit under a red parent; all else is in balance. */
  ghost predicate RedAtHole(p: Path, t: Tree, n: int) {
    IsRed(t) && Calm(t) && Black(t, n) && Fits(p, n) && CalmPath(p, false)
  }

  lemma GenerationKeeps(p: Path, t: Tree, n: int)
    requires RedAtHole(p, t, n) && !p.Top? && p.red && !p.up.Top?
    requires IsRed(if p.up.InLeft? then p.up.right else p.up.left)
    ensures RedAtHole(p.up.up, Generation(p, t), n + 1)
    ensures Inorder(Plug(p.up.up, Generation(p, t))) == Inorder(Plug(p, t))
  {
    assert CalmPath(p.up, true) && Fits(p.up, n);
    var u := if p.up.InLeft? then p.up.right else p.up.left;
    assert Black(u, n) && Calm(u) && Calm(Below(p, t)) == Calm(Below(p, t));
    assert Black(Blacken(u), n + 1) && Calm(Blacken(u));
    assert Black(Blacken(Below(p, t)), n + 1) && Calm(Blacken(Below(p, t)));
    PlugInorder(p.up.up, Generation(p, t));
    PlugInorder(p.up.up, Below(p.up, Below(p, t)));
    CalmPathBlack(p.up.up, p.up.red);
  }

  /** Turn a bend - a right child of a left child, or the reverse - straight. */
  ghost function Straighten(p: Path, t: Tree): (Path, Tree)
    requires t.Node? && !p.Top? && !p.up.Top?
  {
    var Node(a, x, cx, b) := t;
    if p.up.InLeft? && p.InRight? then (InLeft(p.up, x, cx, b), Node(p.left, p.elm, p.red, a))
    else if p.up.InRight? && p.InLeft? then (InRight(p.up, a, x, cx), Node(b, p.elm, p.red, p.right))
    else (p, t)
  }

  /** The parent, now black, in the grandparent's place, with the grandparent, now
      red, as its other child. */
  ghost function Raise(p: Path): Path
    requires !p.Top? && !p.up.Top?
  {
    match p
    case InLeft(InLeft(q, g, _, u), par, _, s) => InLeft(q, par, false, Node(s, g, true, u))
    case InRight(InRight(q, u, g, _), s, par, _) => InRight(q, Node(u, g, true, s), par, false)
    case _ => p
  }

  ghost function TurnedUp(p: Path, t: Tree): (Path, Tree)
    requires t.Node? && !p.Top? && !p.up.Top?
  {
    var (p', t') := Straighten(p, t);
    (Raise(p'), t')
  }

  lemma StraightenKeeps(p: Path, t: Tree, n: int)
    requires RedAtHole(p, t, n) && !p.Top? && p.red && !p.up.Top?
    ensures var (p', t') := Straighten(p, t);
            && RedAtHole(p', t', n) && !p'.Top? && p'.red && p'.up == p.up
            && Inorder(Plug(p', t')) == Inorder(Plug(p, t))
  {
    var (p', t') := Straighten(p, t);
    PlugInorder(p.up, Below(p, t));
    PlugInorder(p.up, Below(p', t'));
    assert Inorder(Below(p', t')) == Inorder(Below(p, t));
  }

  lemma RaiseInorder(p: Path, t: Tree)
    requires !p.Top? && !p.up.Top?
    ensures Inorder(Plug(Raise(p), t)) == Inorder(Plug(p, t))
  {
    var r := Raise(p);
    PlugInorder(p.up.up, Below(p.up, Below(p, t)));
    PlugInorder(r.up, Below(r, t));
    match p {
      case InLeft(InLeft(q, g, _, u), par, _, s) => Regroup(Inorder(t), [par], Inorder(s), [g], Inorder(u));
      case InRight(InRight(q, u, g, _), s, par, _) => Regroup(Inorder(u), [g], Inorder(s), [par], Inorder(t));
      case _ =>
    }
  }

  lemma RaiseKeeps(p: Path, t: Tree, n: int)
    requires RedAtHole(p, t, n) && !p.Top? && p.red
    requires (p.InLeft? && p.up.InLeft? && !IsRed(p.up.right)) || (p.InRight? && p.up.InRight? && !IsRed(p.up.left))
    ensures RedAtHole(Raise(p), t, n) && !Raise(p).red && Depth(Raise(p)) < Depth(p)
  {
    assert CalmPath(p.up, true) && Fits(p.up, n) && !p.up.red;
  }

  /** A red parent has a black grandparent above it, and the fields say where the
      uncle is. */
  lemma Grandparent(h: Heap, root: Elem?, p: Path, t: Tree, n: int)
    requires RedAtHole(p, t, n) && !p.Top? && p.red && Shape(h, root, Plug(p, t))
    ensures !p.up.Top? && p.elm in h && h[p.elm].parent == p.up.elm && p.up.elm in h && Depth(p.up.up) < Depth(p)
    ensures h[p.up.elm].left == p.elm <==> p.up.InLeft?
    ensures var u := if p.up.InLeft? then p.up.right else p.up.left;
            && (if p.up.InLeft? then h[p.up.elm].right else h[p.up.elm].left) == RootOf(u)
            && (u.Node? ==> u.elm in h && h[u.elm].red == u.red)
  {
    assert CalmPath(p.up, true);
    var par := Below(p, t);
    Links(h, root, p, t);
    Links(h, root, p.up, par);
    match p.up {
      case InLeft(q, g, red, u) => Links(h, root, InRight(q, par, g, red), u);
      case InRight(q, u, g, red) => Links(h, root, InLeft(q, g, red, par), u);
    }
  }

  lemma TurnedUpKeeps(p: Path, t: Tree, n: int)
    requires RedAtHole(p, t, n) && !p.Top? && p.red && !p.up.Top?
    requires !IsRed(if p.up.InLeft? then p.up.right else p.up.left)
    ensures var (p', t') := TurnedUp(p, t);
            && RedAtHole(p', t', n) && Depth(p') < Depth(p)
            && Inorder(Plug(p', t')) == Inorder(Plug(p, t))
  {
    var (q, s) := Straighten(p, t);
    StraightenKeeps(p, t, n);
    RaiseKeeps(q, s, n);
    RaiseInorder(q, s);
  }

  /** With no red parent above the hole, painting the root black is all it takes. */
  lemma RootBlackened(p: Path, t: Tree, n: int)
    requires RedAtHole(p, t, n) && (!p.Top? ==> !p.red)
    ensures Plug(p, t).Node? && Balanced(Blacken(Plug(p, t)))
    ensures Inorder(Blacken(Plug(p, t))) == Inorder(Plug(p, t))
  {
    if p.Top? {
      BlackUnique(t, n, n);
      assert Black(Blacken(t), n + 1);
    } else {
      assert CalmPath(p, true);
      PlugBalanced(p, t, n);
      PlugInorder(p, t);
      assert Plug(p, t) != Leaf by { Inside(t); }
    }
  }

  lemma WholeTree(h: Heap, root: Elem?, t: Tree)
    requires Shape(h, root, t) && t.Node?
    ensures root == t.elm && Plug(Top, t) == t && Plug(Top, t.(red := false)) == Blacken(t)
  {
  }

  lemma NewLeaf(p: Path, elm: Elem)
    requires Balanced(Plug(p, Leaf))
    ensures RedAtHole(p, Node(Leaf, elm, true, Leaf), 0)
  {
    var n := Unplug(p, Leaf);
  }

  lemma UpStep(q: Path, x: Tree)
    requires q.InRight?
    ensures After(q) == After(q.up) && Plug(q, x) == Plug(q.up, Below(q, x))
  {
  }
}
