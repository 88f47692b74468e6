/** The red-black tree of the guest memory regions: insertion and removal with
    their rotations and colour fix-ups on linked elements, and the walks.
 */
module RbTree {
  import opened Basics
  import opened RbTheory
  import opened RbHeap
  import opened RbInsert
  import opened RbRemove
  import opened RbSearch

  class Head {
    const cmp: (Key, Key) -> int
    var root: Elem?
    /** The tree the linked elements spell. */
    ghost var tree: Tree

    ghost function Elems(): set<Elem>
      reads this
    {
      Members(tree)
    }

    ghost predicate Valid()
      reads this, Elems()
    {
      && Shape(Snap(Elems()), root, tree) && Balanced(tree)
      && IsOrder(cmp) && Sorted(Inorder(tree), cmp)
    }

    constructor (cmp: (Key, Key) -> int)
      requires IsOrder(cmp)
      ensures Valid() && this.cmp == cmp && tree == Leaf
    {
      this.cmp := cmp;
      root := null;
      tree := Leaf;
      new;
      assert Black(Leaf, 0);
    }

    /** Make y the child, of the element above path p, that `elm` was; or the root. */
    method Replace(elm: Elem, up: Elem?, y: Elem?, ghost all: set<Elem>, ghost p: Path)
      requires up == UpOf(p) && (p.Top? <==> up == null)
      requires up != null ==> up in all && (up.left == elm <==> p.InLeft?)
      modifies this`root, all
      ensures root == if p.Top? then y else old(root)
      ensures Snap(all) == WithChild(old(Snap(all)), p, y)
    {
      if up != null {
        if up.left == elm {
          up.left := y;
        } else {
          up.right := y;
        }
      } else {
        root := y;
      }
      assert !p.Top? ==> p.elm == up;
    }

    method SetParent(e: Elem?, up: Elem?, ghost all: set<Elem>)
      requires e != null ==> e in all
      modifies all
      ensures Snap(all) == WithParent(old(Snap(all)), e, up)
    {
      if e != null {
        e.parent := up;
      }
    }

    method SetLeft(e: Elem, x: Elem?, ghost all: set<Elem>)
      requires e in all
      modifies all
      ensures Snap(all) == WithLeft(old(Snap(all)), e, x)
    {
      e.left := x;
    }

    method SetRight(e: Elem, x: Elem?, ghost all: set<Elem>)
      requires e in all
      modifies all
      ensures Snap(all) == WithRight(old(Snap(all)), e, x)
    {
      e.right := x;
    }

    method RotateLeft(elm: Elem, ghost all: set<Elem>, ghost p: Path, ghost t: Tree) returns (tmp: Elem)
      requires t.Node? && t.right.Node? && t.elm == elm && Shape(Snap(all), root, Plug(p, t))
      modifies this`root, all
      ensures Shape(Snap(all), root, Plug(p, TurnLeft(t))) && tmp == t.right.elm
    {
      hide Shape, Plug, TurnLeft, TurnedLeft;
      ghost var h := Snap(all);
      RotateLinks(h, root, p, t);
      tmp := elm.right;
      var up, between := elm.parent, tmp.left;
      LeftWrites(h, p, t);
      SetRight(elm, between, all);
      SetParent(between, elm, all);
      SetParent(tmp, up, all);
      Replace(elm, up, tmp, all, p);
      SetLeft(tmp, elm, all);
      SetParent(elm, tmp, all);
      TurnLeftKeeps(h, Snap(all), old(root), root, p, t);
    }
  
    method RotateRight(elm: Elem, ghost all: set<Elem>, ghost p: Path, ghost t: Tree) returns (tmp: Elem)
      requires t.Node? && t.left.Node? && t.elm == elm && Shape(Snap(all), root, Plug(p, t))
      modifies this`root, all
      ensures Shape(Snap(all), root, Plug(p, TurnRight(t))) && tmp == t.left.elm
    {
      hide Shape, Plug, TurnRight, TurnedRight;
      ghost var h := Snap(all);
      RotateRightLinks(h, root, p, t);
      tmp := elm.left;
      var up, between := elm.parent, tmp.right;
      RightWrites(h, p, t);
      SetLeft(elm, between, all);
      SetParent(between, elm, all);
      SetParent(tmp, up, all);
      Replace(elm, up, tmp, all, p);
      SetRight(tmp, elm, all);
      SetParent(elm, tmp, all);
      TurnRightKeeps(h, Snap(all), old(root), root, p, t);
    }

    method SetColor(elm: Elem, red: bool, ghost all: set<Elem>, ghost p: Path, ghost t: Tree)
      requires t.Node? && t.elm == elm && Shape(Snap(all), root, Plug(p, t))
      modifies all
      ensures Shape(Snap(all), root, Plug(p, t.(red := red)))
    {
      hide Shape, Plug;
      ghost var h := Snap(all);
      Links(h, root, p, t);
      Recolour(h, root, p, t, red);
      elm.red := red;
      assert Snap(all) == h[elm := h[elm].(red := red)];
    }

    // -------------------------------------------------------------- insertion

    /** The red-uncle case on the left: colours move up a generation. */
    method PassUpLeft(uncle: Elem, parent: Elem, gparent: Elem, ghost all: set<Elem>, ghost p: Path, ghost t: Tree)
      requires !p.Top? && p.up.InLeft? && p.up.right.Node? && Shape(Snap(all), root, Plug(p, t))
      requires uncle == p.up.right.elm && parent == p.elm && gparent == p.up.elm
      modifies all
      ensures Shape(Snap(all), root, Plug(p.up.up, Generation(p, t)))
    {
      hide Shape;
      ghost var u, q, par := p.up.right, p.up.up, Below(p, t);
      SetColor(uncle, false, all, InRight(q, par, gparent, p.up.red), u);
      SetColor(parent, false, all, InLeft(q, gparent, p.up.red, Blacken(u)), par);
      SetColor(gparent, true, all, q, Node(Blacken(par), gparent, p.up.red, Blacken(u)));
    }

    method PassUpRight(uncle: Elem, parent: Elem, gparent: Elem, ghost all: set<Elem>, ghost p: Path, ghost t: Tree)
      requires !p.Top? && p.up.InRight? && p.up.left.Node? && Shape(Snap(all), root, Plug(p, t))
      requires uncle == p.up.left.elm && parent == p.elm && gparent == p.up.elm
      modifies all
      ensures Shape(Snap(all), root, Plug(p.up.up, Generation(p, t)))
    {
      hide Shape;
      ghost var u, q, par := p.up.left, p.up.up, Below(p, t);
      SetColor(uncle, false, all, InLeft(q, gparent, p.up.red, par), u);
      SetColor(parent, false, all, InRight(q, Blacken(u), gparent, p.up.red), par);
      SetColor(gparent, true, all, q, Node(Blacken(u), gparent, p.up.red, Blacken(par)));
    }
  
    /** The black-uncle case on the left: straighten the bend if there is one, then
        turn the parent up over the grandparent. */
    method TurnUpLeft(elm0: Elem, parent0: Elem, gparent: Elem, ghost all: set<Elem>, ghost p0: Path, ghost t0: Tree)
      returns (elm: Elem, ghost p: Path, ghost t: Tree)
      requires t0.Node? && !p0.Top? && p0.up.InLeft? && Shape(Snap(all), root, Plug(p0, t0))
      requires elm0 == t0.elm && parent0 == p0.elm && gparent == p0.up.elm
      modifies this`root, all
      ensures (p, t) == TurnedUp(p0, t0) && t.Node? && elm == t.elm
      ensures Shape(Snap(all), root, Plug(p, t))
    {
      hide Shape;
      elm, p, t := elm0, p0, t0;
      var parent := parent0;
      Links(Snap(all), root, p, t);
      if parent.right == elm {
        var tmp := RotateLeft(parent, all, p.up, Below(p, t));
        tmp := parent;
        parent := elm;
        elm := tmp;
        p, t := Straighten(p, t).0, Straighten(p, t).1;
      }
      ghost var q, red, u := p.up.up, p.up.red, p.up.right;
      SetColor(parent, false, all, p.up, Below(p, t));
      SetColor(gparent, true, all, q, Below(p.up, Blacken(Below(p, t))));
      var tmp := RotateRight(gparent, all, q, Below(p.up, Blacken(Below(p, t))).(red := true));
      p := Raise(p);
    }

    /** The black-uncle case on the right: straighten the bend if there is one, then
        turn the parent up over the grandparent. */
    method TurnUpRight(elm0: Elem, parent0: Elem, gparent: Elem, ghost all: set<Elem>, ghost p0: Path, ghost t0: Tree)
      returns (elm: Elem, ghost p: Path, ghost t: Tree)
      requires t0.Node? && !p0.Top? && p0.up.InRight? && Shape(Snap(all), root, Plug(p0, t0))
      requires elm0 == t0.elm && parent0 == p0.elm && gparent == p0.up.elm
      modifies this`root, all
      ensures (p, t) == TurnedUp(p0, t0) && t.Node? && elm == t.elm
      ensures Shape(Snap(all), root, Plug(p, t))
    {
      hide Shape;
      elm, p, t := elm0, p0, t0;
      var parent := parent0;
      Links(Snap(all), root, p, t);
      if parent.left == elm {
        var tmp := RotateRight(parent, all, p.up, Below(p, t));
        tmp := parent;
        parent := elm;
        elm := tmp;
        p, t := Straighten(p, t).0, Straighten(p, t).1;
      }
      ghost var q, red, u := p.up.up, p.up.red, p.up.left;
      SetColor(parent, false, all, p.up, Below(p, t));
      SetColor(gparent, true, all, q, Below(p.up, Blacken(Below(p, t))));
      var tmp := RotateLeft(gparent, all, q, Below(p.up, Blacken(Below(p, t))).(red := true));
      p := Raise(p);
    }
  
    /** RB_INSERT_COLOR: repair a red element under a red parent, working up. */
    method InsertColor(elm0: Elem, ghost all: set<Elem>, ghost p0: Path, ghost t0: Tree) returns (ghost result: Tree)
      requires RedAtHole(p0, t0, 0) && t0.elm == elm0 && Shape(Snap(all), root, Plug(p0, t0))
      modifies this`root, all
      ensures Shape(Snap(all), root, result) && Balanced(result)
      ensures Inorder(result) == Inorder(Plug(p0, t0))
    {
      hide Shape, Plug, Calm, Black, Fits, CalmPath, Inorder, Straighten, Raise;
      var elm := elm0;
      ghost var p, t, n := p0, t0, 0;
      Links(Snap(all), root, p, t);
      while elm.parent != null && elm.parent.red
        invariant RedAtHole(p, t, n) && elm == t.elm && Shape(Snap(all), root, Plug(p, t))
        invariant elm in all && elm.parent == UpOf(p)
                  && (UpOf(p) != null ==> !p.Top? && elm.parent in all && elm.parent.red == p.red)
        invariant Inorder(Plug(p, t)) == Inorder(Plug(p0, t0))
        decreases Depth(p)
      {
        var parent := elm.parent;
        var gparent := parent.parent;
        Grandparent(Snap(all), root, p, t, n);
        if parent == gparent.left {
          var uncle := gparent.right;
          if uncle != null && uncle.red {
            GenerationKeeps(p, t, n);
            PassUpLeft(uncle, parent, gparent, all, p, t);
            elm, p, t, n := gparent, p.up.up, Generation(p, t), n + 1;
          } else {
            TurnedUpKeeps(p, t, n);
            elm, p, t := TurnUpLeft(elm, parent, gparent, all, p, t);
          }
        } else {
          var uncle := gparent.left;
          if uncle != null && uncle.red {
            GenerationKeeps(p, t, n);
            PassUpRight(uncle, parent, gparent, all, p, t);
            elm, p, t, n := gparent, p.up.up, Generation(p, t), n + 1;
          } else {
            TurnedUpKeeps(p, t, n);
            elm, p, t := TurnUpRight(elm, parent, gparent, all, p, t);
          }
        }
        Links(Snap(all), root, p, t);
      }
      RootBlackened(p, t, n);
      ghost var whole := Plug(p, t);
      WholeTree(Snap(all), root, whole);
      SetColor(root, false, all, Top, whole);
      result := Blacken(whole);
    }
  
    /** Hang a new red leaf below its parent. */
    method Attach(elm: Elem, parent: Elem?, comp: int, ghost all: set<Elem>, ghost p: Path)
      requires Shape(Snap(all), root, Plug(p, Leaf)) && elm !in all && parent == UpOf(p)
      requires (p.InLeft? <==> comp < 0) && (p.InRight? <==> comp > 0)
      modifies this`root, all, elm
      ensures Shape(Snap(all + {elm}), root, Plug(p, Node(Leaf, elm, true, Leaf)))
    {
      hide Shape, Plug;
      ghost var h := Snap(all);
      Links(h, root, p, Leaf);
      elm.parent, elm.left, elm.right, elm.red := parent, null, null, true;
      if parent != null {
        if comp < 0 {
          parent.left := elm;
        } else {
          parent.right := elm;
        }
      } else {
        root := elm;
      }
      AttachKeeps(h, Snap(all + {elm}), old(root), root, p, elm);
    }

    /** The descent of RB_INSERT: to an element that compares equal, or to the
        empty place where the key belongs. */
    method Place(key: Key) returns (tmp: Elem?, parent: Elem?, comp: int, ghost p: Path, ghost t: Tree)
      requires Valid()
      ensures tree == Plug(p, t) && tmp == RootOf(t) && Bounded(p, key, cmp)
      ensures tmp != null ==> cmp(key, tmp.key) == 0
      ensures tmp == null ==> parent == UpOf(p) && (p.InLeft? <==> comp < 0) && (p.InRight? <==> comp > 0)
    {
      hide Shape, Balanced, Sorted, IsOrder, Inorder, Plug, Bounded;
      p, t := Top, tree;
      tmp, parent, comp := root, null, 0;
      WholeTreeSplits(Snap(Elems()), root, tree, cmp, key);
      while tmp != null
        invariant tree == Plug(p, t) && tmp == RootOf(t) && Bounded(p, key, cmp)
        invariant parent == UpOf(p) && (p.InLeft? <==> comp < 0) && (p.InRight? <==> comp > 0)
        decreases t
      {
        parent := tmp;
        comp := cmp(key, parent.key);
        Links(Snap(Elems()), root, p, t);
        Descend(p, t, key, cmp);
        PlugStep(p, t);
        if comp < 0 {
          tmp := tmp.left;
          p, t := InLeft(p, t.elm, t.red, t.right), t.left;
        } else if comp > 0 {
          tmp := tmp.right;
          p, t := InRight(p, t.left, t.elm, t.red), t.right;
        } else {
          return;
        }
      }
    }

    /** RB_INSERT: the element that compares equal, if there is one, with nothing
        changed; otherwise elm goes in and the answer is null. */
    method Insert(elm: Elem) returns (clash: Elem?)
      requires Valid()
      modifies this`root, this`tree, Elems(), elm
      ensures Valid()
      ensures clash != null ==> clash in old(Elems()) && cmp(elm.key, clash.key) == 0
      ensures clash != null ==> tree == old(tree) && root == old(root) && Snap(Elems()) == old(Snap(Elems()))
      ensures clash == null ==> Missing(elm.key, old(Inorder(tree)), cmp)
      ensures clash == null ==> OneAdded(old(Inorder(tree)), Inorder(tree), elm)
    {
      hide Shape, Balanced, Sorted, IsOrder, Inorder, Plug, Bounded;
      ghost var all := Elems();
      var tmp, parent, comp;
      ghost var p, t;
      tmp, parent, comp, p, t := Place(elm.key);
      assert Snap(all) == old(Snap(all));
      if tmp != null {
        MemberAt(p, t);
        return tmp;
      }
      assert t == Leaf;
      NotThere(p, elm, cmp);
      NewLeaf(p, elm);
      Attach(elm, parent, comp, all, p);
      tree := InsertColor(elm, all + {elm}, p, Node(Leaf, elm, true, Leaf));
      Inserted(p, elm, tree, old(tree), cmp);
      return null;
    }

    // ---------------------------------------------------------------- removal

    /** Hole on the left: case 1, a red sibling. */
    method LiftLeft(tmp: Elem, parent: Elem, ghost all: set<Elem>, ghost p: Path, ghost t: Tree)
      requires p.InLeft? && p.right.Node? && tmp == p.right.elm && parent == p.elm
      requires Shape(Snap(all), root, Plug(p, t))
      modifies this`root, all
      ensures Shape(Snap(all), root, Plug(LiftedPath(p), t))
    {
      hide Shape;
      ghost var s, up := p.right, p.up;
      SetColor(tmp, false, all, InRight(up, t, parent, p.red), s);
      SetColor(parent, true, all, up, Node(t, parent, p.red, Blacken(s)));
      var top := RotateLeft(parent, all, up, Node(t, parent, true, Blacken(s)));
    }

    /** Hole on the left: case 3, only the near nephew is red. */
    method NephewLeft(tmp: Elem, ghost all: set<Elem>, ghost p: Path, ghost t: Tree)
      requires p.InLeft? && p.right.Node? && tmp == p.right.elm && p.right.left.Node?
      requires Shape(Snap(all), root, Plug(p, t))
      modifies this`root, all
      ensures Shape(Snap(all), root, Plug(Hang(true, p.up, p.elm, p.red, TurnedSibling(true, p.right)), t))
    {
      hide Shape;
      ghost var s := p.right;
      ghost var q := InRight(p.up, t, p.elm, p.red);
      Links(Snap(all), root, q, s);
      var oleft := tmp.left;
      if oleft != null {
        SetColor(oleft, false, all, InLeft(q, s.elm, s.red, s.right), s.left);
      }
      SetColor(tmp, true, all, q, Node(Blacken(s.left), s.elm, s.red, s.right));
      oleft := RotateRight(tmp, all, q, Node(Blacken(s.left), s.elm, true, s.right));
    }

    /** Hole on the left: case 4, the far nephew is red. */
    method RepairLeft(tmp: Elem, parent: Elem, ghost all: set<Elem>, ghost p: Path, ghost t: Tree)
      requires p.InLeft? && p.right.Node? && tmp == p.right.elm && parent == p.elm && IsRed(p.right.right)
      requires Shape(Snap(all), root, Plug(p, t))
      modifies this`root, all
      ensures Shape(Snap(all), root, Plug(p.up, Repaired(p, t)))
    {
      hide Shape;
      ghost var s, up := p.right, p.up;
      Links(Snap(all), root, p, t);
      SetColor(tmp, parent.red, all, InRight(up, t, parent, p.red), s);
      ghost var s1 := s.(red := p.red);
      SetColor(parent, false, all, up, Node(t, parent, p.red, s1));
      ghost var q := InRight(up, t, parent, false);
      Links(Snap(all), root, q, s1);
      if tmp.right != null {
        SetColor(tmp.right, false, all, InRight(q, s.left, s.elm, p.red), s.right);
      }
      var top := RotateLeft(parent, all, up, Node(t, parent, false, Node(s.left, s.elm, p.red, Blacken(s.right))));
    }

    /** Hole on the right: case 1, a red sibling. */
    method LiftRight(tmp: Elem, parent: Elem, ghost all: set<Elem>, ghost p: Path, ghost t: Tree)
      requires p.InRight? && p.left.Node? && tmp == p.left.elm && parent == p.elm
      requires Shape(Snap(all), root, Plug(p, t))
      modifies this`root, all
      ensures Shape(Snap(all), root, Plug(LiftedPath(p), t))
    {
      hide Shape;
      ghost var s, up := p.left, p.up;
      SetColor(tmp, false, all, InLeft(up, parent, p.red, t), s);
      SetColor(parent, true, all, up, Node(Blacken(s), parent, p.red, t));
      var top := RotateRight(parent, all, up, Node(Blacken(s), parent, true, t));
    }

    /** Hole on the right: case 3, only the near nephew is red. */
    method NephewRight(tmp: Elem, ghost all: set<Elem>, ghost p: Path, ghost t: Tree)
      requires p.InRight? && p.left.Node? && tmp == p.left.elm && p.left.right.Node?
      requires Shape(Snap(all), root, Plug(p, t))
      modifies this`root, all
      ensures Shape(Snap(all), root, Plug(Hang(false, p.up, p.elm, p.red, TurnedSibling(false, p.left)), t))
    {
      hide Shape;
      ghost var s := p.left;
      ghost var q := InLeft(p.up, p.elm, p.red, t);
      Links(Snap(all), root, q, s);
      var oright := tmp.right;
      if oright != null {
        SetColor(oright, false, all, InRight(q, s.left, s.elm, s.red), s.right);
      }
      SetColor(tmp, true, all, q, Node(s.left, s.elm, s.red, Blacken(s.right)));
      oright := RotateLeft(tmp, all, q, Node(s.left, s.elm, true, Blacken(s.right)));
    }

    /** Hole on the right: case 4, the far nephew is red. */
    method RepairRight(tmp: Elem, parent: Elem, ghost all: set<Elem>, ghost p: Path, ghost t: Tree)
      requires p.InRight? && p.left.Node? && tmp == p.left.elm && parent == p.elm && IsRed(p.left.left)
      requires Shape(Snap(all), root, Plug(p, t))
      modifies this`root, all
      ensures Shape(Snap(all), root, Plug(p.up, Repaired(p, t)))
    {
      hide Shape;
      ghost var s, up := p.left, p.up;
      Links(Snap(all), root, p, t);
      SetColor(tmp, parent.red, all, InLeft(up, parent, p.red, t), s);
      ghost var s1 := s.(red := p.red);
      SetColor(parent, false, all, up, Node(s1, parent, p.red, t));
      ghost var q := InLeft(up, parent, false, t);
      Links(Snap(all), root, q, s1);
      if tmp.left != null {
        SetColor(tmp.left, false, all, InLeft(q, s.elm, p.red, s.right), s.left);
      }
      var top := RotateRight(parent, all, up, Node(Node(Blacken(s.left), s.elm, p.red, s.right), parent, false, t));
    }

    /** One turn of the repair for a hole on the left.  The shortage is gone, or it
        has moved up. */
    method StepLeft(parent0: Elem, ghost all: set<Elem>, ghost p0: Path, ghost t0: Tree, ghost n0: int)
      returns (parent: Elem?, elm: Elem?, done: bool, ghost p: Path, ghost t: Tree, ghost n: int)
      requires ShortAtHole(p0, t0, n0) && p0.InLeft? && !IsRed(t0) && parent0 == p0.elm
      requires Shape(Snap(all), root, Plug(p0, t0))
      modifies this`root, all
      ensures ShortAtHole(p, t, n) && elm == RootOf(t) && Shape(Snap(all), root, Plug(p, t))
      ensures Inorder(Plug(p, t)) == Inorder(Plug(p0, t0))
      ensures done ==> p.Top?
      ensures !done ==> parent == UpOf(p) && Depth(p) + (if IsRed(t) then 0 else 1) < Depth(p0) + 1
    {
      hide Shape, ShortAtHole, Plug, Balanced, Inorder, LiftedPath, Paid, TurnedSibling, Repaired;
      parent, p, t, n, done := parent0, p0, t0, n0, false;
      Around(Snap(all), root, p, t, n);
      var tmp := parent.right;
      if tmp.red {
        LiftKeeps(p, t, n);
        LiftLeft(tmp, parent, all, p, t);
        p := LiftedPath(p);
        Around(Snap(all), root, p, t, n);
        tmp := parent.right;
      }
      if (tmp.left == null || !tmp.left.red) && (tmp.right == null || !tmp.right.red) {
        PayKeeps(p, t, n);
        PaidIs(p, t);
        SetColor(tmp, true, all, InRight(p.up, t, p.elm, p.red), p.right);
        elm, p, t, n := parent, p.up, Paid(p, t), n + Weight(p.red);
        Around(Snap(all), root, p, t, n);
        parent := elm.parent;
      } else {
        if tmp.right == null || !tmp.right.red {
          NephewKeeps(p, t, n);
          NephewLeft(tmp, all, p, t);
          p := Hang(true, p.up, p.elm, p.red, TurnedSibling(true, p.right));
          Around(Snap(all), root, p, t, n);
          tmp := parent.right;
        }
        RepairKeeps(p, t, n);
        RepairLeft(tmp, parent, all, p, t);
        p, t := Top, Plug(p.up, Repaired(p, t));
        n := AlreadyBlack(Snap(all), root, t);
        elm, done := root, true;
      }
    }

    /** One turn of the repair for a hole on the right.  The shortage is gone, or it
        has moved up. */
    method StepRight(parent0: Elem, ghost all: set<Elem>, ghost p0: Path, ghost t0: Tree, ghost n0: int)
      returns (parent: Elem?, elm: Elem?, done: bool, ghost p: Path, ghost t: Tree, ghost n: int)
      requires ShortAtHole(p0, t0, n0) && p0.InRight? && !IsRed(t0) && parent0 == p0.elm
      requires Shape(Snap(all), root, Plug(p0, t0))
      modifies this`root, all
      ensures ShortAtHole(p, t, n) && elm == RootOf(t) && Shape(Snap(all), root, Plug(p, t))
      ensures Inorder(Plug(p, t)) == Inorder(Plug(p0, t0))
      ensures done ==> p.Top?
      ensures !done ==> parent == UpOf(p) && Depth(p) + (if IsRed(t) then 0 else 1) < Depth(p0) + 1
    {
      hide Shape, ShortAtHole, Plug, Balanced, Inorder, LiftedPath, Paid, TurnedSibling, Repaired;
      parent, p, t, n, done := parent0, p0, t0, n0, false;
      Around(Snap(all), root, p, t, n);
      var tmp := parent.left;
      if tmp.red {
        LiftKeeps(p, t, n);
        LiftRight(tmp, parent, all, p, t);
        p := LiftedPath(p);
        Around(Snap(all), root, p, t, n);
        tmp := parent.left;
      }
      if (tmp.left == null || !tmp.left.red) && (tmp.right == null || !tmp.right.red) {
        PayKeeps(p, t, n);
        PaidIs(p, t);
        SetColor(tmp, true, all, InLeft(p.up, p.elm, p.red, t), p.left);
        elm, p, t, n := parent, p.up, Paid(p, t), n + Weight(p.red);
        Around(Snap(all), root, p, t, n);
        parent := elm.parent;
      } else {
        if tmp.left == null || !tmp.left.red {
          NephewKeeps(p, t, n);
          NephewRight(tmp, all, p, t);
          p := Hang(false, p.up, p.elm, p.red, TurnedSibling(false, p.left));
          Around(Snap(all), root, p, t, n);
          tmp := parent.left;
        }
        RepairKeeps(p, t, n);
        RepairRight(tmp, parent, all, p, t);
        p, t := Top, Plug(p.up, Repaired(p, t));
        n := AlreadyBlack(Snap(all), root, t);
        elm, done := root, true;
      }
    }

    /** RB_REMOVE_COLOR: make up for a black element taken out above `elm`. */
    method RemoveColor(parent0: Elem?, elm0: Elem?, ghost all: set<Elem>, ghost p0: Path, ghost t0: Tree, ghost n0: int)
      returns (ghost result: Tree)
      requires ShortAtHole(p0, t0, n0) && elm0 == RootOf(t0) && parent0 == UpOf(p0)
      requires Shape(Snap(all), root, Plug(p0, t0))
      modifies this`root, all
      ensures Shape(Snap(all), root, result) && Balanced(result)
      ensures Inorder(result) == Inorder(Plug(p0, t0))
    {
      hide Shape, ShortAtHole, Plug, Balanced, Inorder;
      var parent, elm, done := parent0, elm0, false;
      ghost var p, t, n := p0, t0, n0;
      Around(Snap(all), root, p, t, n);
      while !done && (elm == null || !elm.red) && elm != root
        invariant ShortAtHole(p, t, n) && elm == RootOf(t) && Shape(Snap(all), root, Plug(p, t))
        invariant Fields(Snap(all), root, p, t) && (done ==> p.Top?) && (!done ==> parent == UpOf(p))
        invariant Inorder(Plug(p, t)) == Inorder(Plug(p0, t0))
        decreases !done, Depth(p) + if IsRed(t) then 0 else 1
      {
        if parent.left == elm {
          parent, elm, done, p, t, n := StepLeft(parent, all, p, t, n);
        } else {
          parent, elm, done, p, t, n := StepRight(parent, all, p, t, n);
        }
        Around(Snap(all), root, p, t, n);
      }
      StopKeeps(p, t, n);
      if elm != null {
        SetColor(elm, false, all, p, t);
      }
      result := Plug(p, Blacken(t));
    }

    /** Bypass an element that has at most one child. */
    method Splice(elm: Elem, child: Elem?, ghost all: set<Elem>, ghost p: Path, ghost t: Tree, ghost c: Tree)
      requires OnlyChild(t, c) && t.elm == elm && child == RootOf(c) && Shape(Snap(all), root, Plug(p, t))
      modifies this`root, all
      ensures Shape(Snap(all), root, Plug(p, c)) && elm in all && elm.parent == UpOf(p)
    {
      hide Shape, Plug;
      SpliceLinks(Snap(all), root, p, t, c);
      SpliceKeeps(Snap(all), root, if p.Top? then child else root, p, t, c);
      var parent := elm.parent;
      SetParent(child, parent, all);
      Replace(elm, parent, child, all, p);
      SpliceLeaves(old(Snap(all)), p, t, c);
    }

    /** Put s where an element with a left child is, taking over its fields. */
    method Substitute(s: Elem, elm: Elem, ghost all: set<Elem>, ghost p: Path, ghost t: Tree)
      requires t.Node? && t.elm == elm && t.left.Node? && Shape(Snap(all), root, Plug(p, t))
      requires s in all && s !in Members(Plug(p, t))
      modifies this`root, all
      ensures Shape(Snap(all), root, Plug(p, t.(elm := s)))
    {
      hide Shape, Plug;
      ghost var h := Snap(all);
      SubstituteLinks(h, root, p, t, s);
      SubstituteKeeps(h, root, if p.Top? then s else root, p, t, s);
      s.left, s.right, s.parent, s.red := elm.left, elm.right, elm.parent, elm.red;
      assert Snap(all) == h[s := h[elm]];
      Replace(elm, elm.parent, s, all, p);
      SetParent(elm.left, s, all);
      SetParent(elm.right, s, all);
    }

    /** The first element of the right subtree, and the way down to it. */
    method Successor(elm: Elem, ghost all: set<Elem>, ghost p: Path, ghost t: Tree)
      returns (s: Elem, ghost q: Path, ghost f: Tree)
      requires t.Node? && t.elm == elm && t.right.Node? && Shape(Snap(all), root, Plug(p, t))
      ensures f.Node? && f.left.Leaf? && f.elm == s && Plug(q, f) == Plug(p, t)
      ensures Under(q, InRight(p, t.left, t.elm, t.red)) && PlugTo(q, InRight(p, t.left, t.elm, t.red), f) == t.right
    {
      hide Shape;
      Links(Snap(all), root, p, t);
      ghost var base := InRight(p, t.left, t.elm, t.red);
      q, f := base, t.right;
      s := elm.right;
      Links(Snap(all), root, q, f);
      while s.left != null
        invariant f.Node? && f.elm == s && Plug(q, f) == Plug(p, t) && s in all && s.left == RootOf(f.left)
        invariant Under(q, base) && PlugTo(q, base, f) == t.right
        decreases f
      {
        s := s.left;
        q, f := InLeft(q, f.elm, f.red, f.right), f.left;
        Links(Snap(all), root, q, f);
      }
    }

    /** An element with at most one child: take it out of the links. */
    method Unlink(elm: Elem, ghost all: set<Elem>, ghost p: Path, ghost t: Tree)
      returns (parent: Elem?, child: Elem?, red: bool, ghost c: Tree, ghost n: int)
      requires t.Node? && t.elm == elm && (t.left.Leaf? || t.right.Leaf?)
      requires Shape(Snap(all), root, Plug(p, t)) && Balanced(Plug(p, t))
      modifies this`root, all
      ensures Shape(Snap(all), root, Plug(p, c)) && child == RootOf(c) && parent == UpOf(p)
      ensures if red then Balanced(Plug(p, c)) else ShortAtHole(p, c, n)
      ensures OneOut(Inorder(Plug(p, t)), Inorder(Plug(p, c)), elm)
    {
      hide Shape, Plug, Balanced, Inorder;
      Links(Snap(all), root, p, t);
      c := if t.left.Leaf? then t.right else t.left;
      child := if elm.left == null then elm.right else elm.left;
      parent, red := elm.parent, elm.red;
      n := Unplug(p, t);
      RemovalBalance(p, t, c, n);
      n := n - 1;
      SplicedOut(Snap(all), root, p, t, c);
      Splice(elm, child, all, p, t, c);
    }

    /** An element with two children: its successor takes its place. */
    method Exchange(elm: Elem, ghost all: set<Elem>, ghost p: Path, ghost t: Tree)
      returns (parent: Elem?, child: Elem?, red: bool, ghost q: Path, ghost c: Tree, ghost n: int)
      requires t.Node? && t.elm == elm && t.left.Node? && t.right.Node?
      requires Shape(Snap(all), root, Plug(p, t)) && Balanced(Plug(p, t))
      modifies this`root, all
      ensures Shape(Snap(all), root, Plug(q, c)) && child == RootOf(c) && parent == UpOf(q)
      ensures if red then Balanced(Plug(q, c)) else ShortAtHole(q, c, n)
      ensures OneOut(Inorder(Plug(p, t)), Inorder(Plug(q, c)), elm)
    {
      hide Shape, Plug, Balanced, Inorder, ShortAtHole, Rebase, PlugTo;
      var s;
      ghost var q0, f;
      s, q0, f := Successor(elm, all, p, t);
      assert Snap(all) == old(Snap(all));
      Links(Snap(all), root, q0, f);
      child, parent, red, c := s.right, s.parent, s.red, f.right;
      q, n := Exchanged(Snap(all), root, p, t, q0, f);
      ghost var r1 := PlugTo(q0, InRight(p, t.left, elm, t.red), c);
      Splice(s, child, all, q0, f, c);
      if s.parent == elm {
        parent := s;
      }
      Substitute(s, elm, all, p, Node(t.left, elm, t.red, r1));
    }

    /** RB_REMOVE: exactly elm leaves the tree. */
    method Remove(elm: Elem) returns (out: Elem)
      requires Valid() && elm in Elems()
      modifies this`root, this`tree, Elems()
      ensures Valid() && out == elm && elm !in Elems()
      ensures OneOut(old(Inorder(tree)), Inorder(tree), elm)
    {
      hide Shape, Plug, Balanced, Inorder, Sorted, IsOrder, OneOut, ShortAtHole, Members;
      ghost var all := Elems();
      ghost var p, t;
      p, t := LocateTop(tree, elm);
      Links(Snap(all), root, p, t);
      var parent: Elem?, child: Elem?, red: bool;
      ghost var q, c, n := p, t, 0;
      if elm.left == null || elm.right == null {
        parent, child, red, c, n := Unlink(elm, all, p, t);
      } else {
        parent, child, red, q, c, n := Exchange(elm, all, p, t);
      }
      tree := Plug(q, c);
      if !red {
        tree := RemoveColor(parent, child, all, q, c, n);
      }
      StillSorted(old(Snap(all)), old(root), old(tree), tree, elm, cmp);
      ShapeOfMembers(Snap(all), Snap(Elems()), root, tree);
      return elm;
    }

    // ------------------------------------------------------------------ walks

    /** RB_FIND: an element that compares equal, or null when there is none. */
    method Find(key: Key) returns (tmp: Elem?)
      requires Valid()
      ensures tmp != null ==> tmp in Elems() && cmp(key, tmp.key) == 0
      ensures tmp == null <==> Missing(key, Inorder(tree), cmp)
    {
      hide Shape, Balanced, Sorted, IsOrder, Inorder, Plug, Bounded;
      ghost var p, t := Top, tree;
      tmp := root;
      WholeTreeSplits(Snap(Elems()), root, tree, cmp, key);
      while tmp != null
        invariant tree == Plug(p, t) && tmp == RootOf(t) && Bounded(p, key, cmp)
        decreases t
      {
        var comp := cmp(key, tmp.key);
        Links(Snap(Elems()), root, p, t);
        Descend(p, t, key, cmp);
        PlugStep(p, t);
        if comp < 0 {
          tmp := tmp.left;
          p, t := InLeft(p, t.elm, t.red, t.right), t.left;
        } else if comp > 0 {
          tmp := tmp.right;
          p, t := InRight(p, t.left, t.elm, t.red), t.right;
        } else {
          MemberAt(p, t);
          assert tmp in Inorder(tree);
          return;
        }
      }
      assert t == Leaf;
      NothingEqual(p, key, cmp);
    }

    /** RB_NFIND: the first element not below the key. */
    method NFind(key: Key) returns (res: Elem?)
      requires Valid()
      ensures FirstNotBelow(Inorder(tree), key, cmp, res)
    {
      hide Shape, Balanced, Sorted, IsOrder, Inorder, Plug, Bounded;
      ghost var p, t := Top, tree;
      var tmp := root;
      res := null;
      WholeTreeSplits(Snap(Elems()), root, tree, cmp, key);
      while tmp != null
        invariant tree == Plug(p, t) && tmp == RootOf(t) && Bounded(p, key, cmp) && res == First(After(p))
        decreases t
      {
        var comp := cmp(key, tmp.key);
        Links(Snap(Elems()), root, p, t);
        Descend(p, t, key, cmp);
        PlugStep(p, t);
        if comp < 0 {
          res := tmp;
          tmp := tmp.left;
          p, t := InLeft(p, t.elm, t.red, t.right), t.left;
        } else if comp > 0 {
          tmp := tmp.right;
          p, t := InRight(p, t.left, t.elm, t.red), t.right;
        } else {
          MemberAt(p, t);
          FoundAt(Inorder(tree), tmp, key, cmp);
          return tmp;
        }
      }
      assert t == Leaf;
      SearchEnds(p, key, cmp);
    }

    /** RB_NEXT: what follows an element in the order. */
    method Next(elm: Elem) returns (next: Elem?)
      requires Valid() && elm in Elems()
      ensures Follows(Inorder(tree), elm, next)
    {
      hide Shape, Balanced, Sorted, IsOrder, Inorder, Plug;
      ghost var p, t;
      p, t := LocateTop(tree, elm);
      PlaceOf(p, t);
      FollowsSplit(Before(p) + Inorder(t.left), elm, Inorder(t.right) + After(p));
      Links(Snap(Elems()), root, p, t);
      if elm.right != null {
        var s;
        ghost var q, f;
        s, q, f := Successor(elm, Elems(), p, t);
        LeftmostIsFirst(p, t, q, f);
        next := s;
      } else {
        var e := elm;
        ghost var q, x := p, t;
        assert Inorder(t.right) == [] by { EmptyRight(t); }
        while e.parent != null && e == e.parent.right
          invariant x.Node? && x.elm == e && tree == Plug(q, x) && After(q) == After(p)
          invariant e in Elems() && e.parent == UpOf(q) && (UpOf(q) != null ==> !q.Top? && UpOf(q) in Elems())
          invariant UpOf(q) != null ==> (e.parent.right == e <==> q.InRight?)
          decreases Depth(q)
        {
          e := e.parent;
          UpStep(q, x);
          q, x := q.up, Below(q, x);
          Links(Snap(Elems()), root, q, x);
        }
        next := e.parent;
        assert next == First(After(p));
        assert [] + After(p) == After(p);
      }
    }
  }

  /** The height of every tree the operations build: 2^height <= (n+1)^2. */
  lemma HeightOfTree(head: Head)
    requires head.Valid()
    ensures Exp2(Height(head.tree)) <= (|Inorder(head.tree)| + 1) * (|Inorder(head.tree)| + 1)
  {
    HeightBound(head.tree);
    SizeIsLength(head.tree);
  }
}
