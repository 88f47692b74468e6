/** Removal fix-up on trees: each case of the repair, for a hole on either side.
    `left` says which side the hole is on; near and far are seen from the hole.
 */
module RbRemove {
  import opened RbTheory
  import opened RbHeap

  ghost function Hang(left: bool, up: Path, e: Elem, red: bool, sibling: Tree): Path {
    if left then InLeft(up, e, red, sibling) else InRight(up, sibling, e, red)
  }

  ghost function Join(left: bool, near: Tree, e: Elem, red: bool, far: Tree): Tree {
    if left then Node(near, e, red, far) else Node(far, e, red, near)
  }

  ghost function Sibling(p: Path): Tree
    requires !p.Top?
  {
    if p.InLeft? then p.right else p.left
  }

  ghost function Near(left: bool, t: Tree): Tree
    requires t.Node?
  {
    if left then t.left else t.right
  }

  ghost function Far(left: bool, t: Tree): Tree
    requires t.Node?
  {
    if left then t.right else t.left
  }

  /** A tree one black node short below p; the hole's own root may be red, over
      red even, in which case painting it black is the whole repair. */
  ghost predicate ShortAtHole(p: Path, t: Tree, n: int) {
    CalmBelow(t) && Black(t, n) && Fits(p, n + 1) && CalmPath(p, false)
  }

  /** There is a sibling to borrow from, and it has children when it is red. */
  lemma SiblingThere(p: Path, t: Tree, n: int)
    requires ShortAtHole(p, t, n) && !p.Top?
    ensures n >= 0 && Sibling(p).Node?
    ensures Sibling(p).red ==> !p.red && Sibling(p).left.Node? && Sibling(p).right.Node?
  {
    BlackUnique(t, n, n);
    var s := Sibling(p);
    assert Black(s, n + 1);
    assert s.Node? && s.red ==> Black(s.left, n + 1) && Black(s.right, n + 1);
  }

  /** Case 1, a red sibling: it becomes the black grandparent of the hole. */
  ghost function LiftedPath(p: Path): Path
    requires !p.Top? && Sibling(p).Node?
  {
    var left, s := p.InLeft?, Sibling(p);
    Hang(left, Hang(left, p.up, s.elm, false, Far(left, s)), p.elm, true, Near(left, s))
  }

  lemma LiftKeeps(p: Path, t: Tree, n: int)
    requires ShortAtHole(p, t, n) && !p.Top? && IsRed(Sibling(p))
    ensures ShortAtHole(LiftedPath(p), t, n) && !IsRed(Sibling(LiftedPath(p)))
    ensures var q := LiftedPath(p);
            !q.Top? && (q.InLeft? <==> p.InLeft?) && q.elm == p.elm && q.red && Depth(q) == Depth(p) + 1
    ensures Inorder(Plug(LiftedPath(p), t)) == Inorder(Plug(p, t))
  {
    SiblingThere(p, t, n);
    var left, s, q := p.InLeft?, Sibling(p), LiftedPath(p);
    assert Calm(s) && Black(s, n + 1);
    assert Black(Near(left, s), n + 1) && Black(Far(left, s), n + 1);
    LiftInorder(p, t);
  }

  lemma LiftInorder(p: Path, t: Tree)
    requires !p.Top? && Sibling(p).Node?
    ensures Inorder(Plug(LiftedPath(p), t)) == Inorder(Plug(p, t))
  {
    var left, s := p.InLeft?, Sibling(p);
    var whole := Join(left, Join(left, t, p.elm, true, Near(left, s)), s.elm, false, Far(left, s));
    assert Plug(LiftedPath(p), t) == Plug(p.up, whole);
    JoinInorder(left, t, p.elm, p.red, s, true, false);
    SameInside(p.up, Join(left, t, p.elm, p.red, s), whole);
  }

  /** Turning the sibling up over its parent keeps the order, whatever the colours. */
  lemma JoinInorder(left: bool, t: Tree, e: Elem, red: bool, s: Tree, red1: bool, red2: bool)
    requires s.Node?
    ensures Inorder(Join(left, Join(left, t, e, red1, Near(left, s)), s.elm, red2, Far(left, s)))
         == Inorder(Join(left, t, e, red, s))
  {
    if left {
      Regroup(Inorder(t), [e], Inorder(s.left), [s.elm], Inorder(s.right));
    } else {
      Regroup(Inorder(s.left), [s.elm], Inorder(s.right), [e], Inorder(t));
    }
  }

  lemma SameInside(p: Path, t: Tree, t': Tree)
    ensures Inorder(t) == Inorder(t') ==> Inorder(Plug(p, t)) == Inorder(Plug(p, t'))
  {
    PlugInorder(p, t);
    PlugInorder(p, t');
  }

  /** Case 2, a black sibling with black children: it turns red and the shortage
      moves up. */
  ghost function Paid(p: Path, t: Tree): Tree
    requires !p.Top? && Sibling(p).Node?
  {
    Join(p.InLeft?, t, p.elm, p.red, Sibling(p).(red := true))
  }

  lemma PayKeeps(p: Path, t: Tree, n: int)
    requires ShortAtHole(p, t, n) && !IsRed(t) && !p.Top? && Sibling(p).Node? && !Sibling(p).red
    requires !IsRed(Sibling(p).left) && !IsRed(Sibling(p).right)
    ensures ShortAtHole(p.up, Paid(p, t), n + Weight(p.red))
    ensures Inorder(Plug(p.up, Paid(p, t))) == Inorder(Plug(p, t))
  {
    var s := Sibling(p);
    assert Black(s, n + 1) && Calm(s);
    assert Black(s.(red := true), n) && Calm(s.(red := true));
    CalmPathBlack(p.up, p.red);
    assert Inorder(s.(red := true)) == Inorder(s);
    SameInside(p.up, Join(p.InLeft?, t, p.elm, p.red, s), Paid(p, t));
  }

  /** Case 3, only the near nephew is red: it becomes the sibling. */
  ghost function TurnedSibling(left: bool, s: Tree): Tree
    requires s.Node? && Near(left, s).Node?
  {
    var nephew := Near(left, s);
    Join(left, Near(left, nephew), nephew.elm, false, Join(left, Far(left, nephew), s.elm, true, Far(left, s)))
  }

  lemma NephewKeeps(p: Path, t: Tree, n: int)
    requires ShortAtHole(p, t, n) && !p.Top? && Sibling(p).Node? && !Sibling(p).red
    requires IsRed(Near(p.InLeft?, Sibling(p))) && !IsRed(Far(p.InLeft?, Sibling(p)))
    ensures var left := p.InLeft?;
            var q := Hang(left, p.up, p.elm, p.red, TurnedSibling(left, Sibling(p)));
            && ShortAtHole(q, t, n) && Inorder(Plug(q, t)) == Inorder(Plug(p, t))
            && !Sibling(q).red && IsRed(Far(left, Sibling(q)))
  {
    var left, s := p.InLeft?, Sibling(p);
    var nephew, s' := Near(left, s), TurnedSibling(left, s);
    assert Black(s, n + 1) && Calm(s) && Black(nephew, n) && Calm(nephew);
    assert Black(Join(left, Far(left, nephew), s.elm, true, Far(left, s)), n);
    assert Black(s', n + 1) && Calm(s');
    NephewInorder(left, s);
    SameInside(p.up, Join(left, t, p.elm, p.red, s), Join(left, t, p.elm, p.red, s'));
  }

  lemma NephewInorder(left: bool, s: Tree)
    requires s.Node? && Near(left, s).Node?
    ensures Inorder(TurnedSibling(left, s)) == Inorder(s)
  {
    var x := Near(left, s);
    if left {
      Regroup(Inorder(x.left), [x.elm], Inorder(x.right), [s.elm], Inorder(s.right));
    } else {
      Regroup(Inorder(s.left), [s.elm], Inorder(x.left), [x.elm], Inorder(x.right));
    }
  }

  /** Case 4, the far nephew is red: one rotation makes up the shortage. */
  ghost function Repaired(p: Path, t: Tree): Tree
    requires !p.Top? && Sibling(p).Node?
  {
    var left, s := p.InLeft?, Sibling(p);
    Join(left, Join(left, t, p.elm, false, Near(left, s)), s.elm, p.red, Blacken(Far(left, s)))
  }

  lemma RepairKeeps(p: Path, t: Tree, n: int)
    requires ShortAtHole(p, t, n) && !IsRed(t) && !p.Top? && Sibling(p).Node? && !Sibling(p).red
    requires IsRed(Far(p.InLeft?, Sibling(p)))
    ensures Balanced(Plug(p.up, Repaired(p, t)))
    ensures Inorder(Plug(p.up, Repaired(p, t))) == Inorder(Plug(p, t))
  {
    var left, s := p.InLeft?, Sibling(p);
    var far, near, r := Far(left, s), Near(left, s), Repaired(p, t);
    assert Black(s, n + 1) && Calm(s) && Black(far, n) && Black(near, n);
    assert Calm(far) && Black(Blacken(far), n + 1) && Calm(Blacken(far));
    var inner := Join(left, t, p.elm, false, near);
    assert Black(inner, n + 1) && Calm(inner);
    assert Black(r, n + 1 + Weight(p.red)) && Calm(r);
    PlugBalanced(p.up, r, n + 1 + Weight(p.red));
    RepairInorder(p, t);
  }

  lemma RepairInorder(p: Path, t: Tree)
    requires !p.Top? && Sibling(p).Node?
    ensures Inorder(Plug(p.up, Repaired(p, t))) == Inorder(Plug(p, t))
  {
    var left, s := p.InLeft?, Sibling(p);
    JoinInorder(left, t, p.elm, p.red, s, false, p.red);
    assert Inorder(Blacken(Far(left, s))) == Inorder(Far(left, s));
    SameInside(p.up, Join(left, t, p.elm, p.red, s), Repaired(p, t));
  }

  /** Where the repair stops - at a red root of the hole, or at the top - painting
      it black balances the tree. */
  lemma StopKeeps(p: Path, t: Tree, n: int)
    requires ShortAtHole(p, t, n) && (IsRed(t) || p.Top?)
    ensures Balanced(Plug(p, Blacken(t)))
    ensures Inorder(Plug(p, Blacken(t))) == Inorder(Plug(p, t))
  {
    BlackUnique(t, n, n);
    SameInside(p, t, Blacken(t));
    if IsRed(t) {
      assert Black(Blacken(t), n + 1) && Calm(Blacken(t));
      PlugBalanced(p, Blacken(t), n + 1);
    } else {
      assert Blacken(t) == t && Calm(t);
    }
  }

  /** What the fields say around a hole: which side it is on, the sibling with its
      children, and whether the hole is at the root. */
  ghost predicate Fields(h: Heap, root: Elem?, p: Path, t: Tree) {
    && (root == RootOf(t) <==> p.Top?)
    && (t.Node? ==> t.elm in h && h[t.elm].red == t.red && h[t.elm].parent == UpOf(p))
    && (!p.Top? ==>
          && p.elm in h && Sibling(p).Node?
          && (h[p.elm].left == RootOf(t) <==> p.InLeft?)
          && (if p.InLeft? then h[p.elm].right else h[p.elm].left) == Sibling(p).elm
          && FieldsOf(h, Sibling(p)))
  }

  /** The fields of a node and the colours of its children. */
  ghost predicate FieldsOf(h: Heap, s: Tree)
    requires s.Node?
  {
    && s.elm in h && h[s.elm].left == RootOf(s.left) && h[s.elm].right == RootOf(s.right) && h[s.elm].red == s.red
    && (s.left.Node? ==> s.left.elm in h && h[s.left.elm].red == s.left.red)
    && (s.right.Node? ==> s.right.elm in h && h[s.right.elm].red == s.right.red)
  }

  lemma Around(h: Heap, root: Elem?, p: Path, t: Tree, n: int)
    requires ShortAtHole(p, t, n) && Shape(h, root, Plug(p, t))
    ensures Fields(h, root, p, t)
  {
    Links(h, root, p, t);
    RootIsTop(h, root, p, t);
    if !p.Top? {
      SiblingThere(p, t, n);
      NodeFields(h, root, if p.InLeft? then InRight(p.up, t, p.elm, p.red) else InLeft(p.up, p.elm, p.red, t),
                 Sibling(p));
    }
  }

  lemma NodeFields(h: Heap, root: Elem?, q: Path, s: Tree)
    requires s.Node? && Shape(h, root, Plug(q, s))
    ensures FieldsOf(h, s)
  {
    hide Shape;
    Links(h, root, q, s);
    Links(h, root, InLeft(q, s.elm, s.red, s.right), s.left);
    Links(h, root, InRight(q, s.left, s.elm, s.red), s.right);
  }

  lemma {:induction false} PlugRoot(p: Path, t: Tree)
    ensures !p.Top? ==> Plug(p, t).Node? && Plug(p, t).elm in Outside(p)
    decreases p
  {
    match p
    case Top =>
    case InLeft(up, e, red, r) => PlugRoot(up, Node(t, e, red, r));
    case InRight(up, l, e, red) => PlugRoot(up, Node(l, e, red, t));
  }

  lemma RootIsTop(h: Heap, root: Elem?, p: Path, t: Tree)
    requires Shape(h, root, Plug(p, t))
    ensures root == RootOf(t) <==> p.Top?
  {
    PlugRoot(p, t);
    PlugMembers(p, t);
    Inside(t);
  }

  lemma PaidIs(p: Path, t: Tree)
    requires !p.Top? && Sibling(p).Node?
    ensures p.InLeft? ==> Plug(InRight(p.up, t, p.elm, p.red), p.right.(red := true)) == Plug(p.up, Paid(p, t))
    ensures p.InRight? ==> Plug(InLeft(p.up, p.elm, p.red, t), p.left.(red := true)) == Plug(p.up, Paid(p, t))
    ensures p.InLeft? ==> Plug(InRight(p.up, t, p.elm, p.red), p.right) == Plug(p, t)
    ensures p.InRight? ==> Plug(InLeft(p.up, p.elm, p.red, t), p.left) == Plug(p, t)
    ensures RootOf(Paid(p, t)) == p.elm && IsRed(Paid(p, t)) == p.red
  {
  }

  lemma AlreadyBlack(h: Heap, root: Elem?, t: Tree) returns (n: int)
    requires Shape(h, root, t) && Balanced(t)
    ensures Plug(Top, t) == t && root == RootOf(t) && ShortAtHole(Top, t, n)
  {
    n :| Black(t, n);
  }

  // ---------------------------------------------------------- taking one out

  /** c is all there is below t's root. */
  ghost predicate OnlyChild(t: Tree, c: Tree) {
    t.Node? && ((t.left.Leaf? && c == t.right) || (t.right.Leaf? && c == t.left))
  }

  /** Bypassing an element with at most one child. */
  lemma SpliceKeeps(h: Heap, root: Elem?, root': Elem?, p: Path, t: Tree, c: Tree)
    requires Shape(h, root, Plug(p, t)) && OnlyChild(t, c)
    requires root' == if p.Top? then RootOf(c) else root
    ensures Shape(WithChild(WithParent(h, RootOf(c), UpOf(p)), p, RootOf(c)), root', Plug(p, c))
  {
    hide Plug, NoRepeats;
    var h1 := WithParent(h, RootOf(c), UpOf(p));
    var h' := WithChild(h1, p, RootOf(c));
    SplitSpelling(h, root, p, t);
    PlugMembers(p, t);
    NodeMembers(t.left, t.elm, t.red, t.right);
    UpIsOutside(p, t);
    Inside(c);
    SpellsRehang(h, h', c, t.elm, UpOf(p));
    PathRelink(h, h', p, t, t.elm, RootOf(c), root);
    SplitSpelling(h', root', p, c);
    SpliceInorder(p, t, c);
  }

  lemma OnlyChildInorder(t: Tree, c: Tree)
    requires OnlyChild(t, c)
    ensures Inorder(t) == if t.left.Leaf? then [t.elm] + Inorder(c) else Inorder(c) + [t.elm]
  {
  }

  lemma SpliceInorder(p: Path, t: Tree, c: Tree)
    requires OnlyChild(t, c) && NoRepeats(Inorder(Plug(p, t)))
    ensures NoRepeats(Inorder(Plug(p, c)))
    ensures OneOut(Inorder(Plug(p, t)), Inorder(Plug(p, c)), t.elm)
  {
    hide Plug, NoRepeats, Inorder, OneOut;
    PlugInorder(p, t);
    PlugInorder(p, c);
    OnlyChildInorder(t, c);
    if t.left.Leaf? {
      OutFront(Before(p), t.elm, Inorder(c), After(p));
    } else {
      OutBack(Before(p), Inorder(c), t.elm, After(p));
    }
  }

  /** after is before with e taken out. */
  ghost predicate OneOut(before: seq<Elem>, after: seq<Elem>, e: Elem) {
    exists k :: 0 <= k <= |after| && before == after[..k] + [e] + after[k..]
  }

  lemma OutFront(a: seq<Elem>, e: Elem, x: seq<Elem>, b: seq<Elem>)
    requires NoRepeats(a + ([e] + x) + b)
    ensures NoRepeats(a + x + b) && OneOut(a + ([e] + x) + b, a + x + b, e)
  {
    assert a + ([e] + x) + b == a + [e] + (x + b);
    assert a + x + b == a + (x + b);
    OneLess(a, e, x + b);
    OutAt(a, e, x + b);
  }

  lemma OutBack(a: seq<Elem>, x: seq<Elem>, e: Elem, b: seq<Elem>)
    requires NoRepeats(a + (x + [e]) + b)
    ensures NoRepeats(a + x + b) && OneOut(a + (x + [e]) + b, a + x + b, e)
  {
    assert a + (x + [e]) + b == (a + x) + [e] + b;
    OneLess(a + x, e, b);
    OutAt(a + x, e, b);
  }

  lemma OutAt(a: seq<Elem>, e: Elem, b: seq<Elem>)
    ensures OneOut(a + [e] + b, a + b, e)
  {
    assert (a + b)[..|a|] == a && (a + b)[|a|..] == b;
  }

  lemma OneLess(a: seq<Elem>, e: Elem, b: seq<Elem>)
    requires NoRepeats(a + [e] + b)
    ensures NoRepeats(a + b)
  {
    var s, s' := a + [e] + b, a + b;
    forall i, j | 0 <= i < j < |s'|
      ensures s'[i] != s'[j]
    {
      assert s'[i] == s[if i < |a| then i else i + 1] && s'[j] == s[if j < |a| then j else j + 1];
    }
  }

  /** The writes that put s in the place of an element. */
  ghost function Substituted(h: Heap, p: Path, t: Tree, s: Elem): Heap
    requires t.Node? && t.elm in h
  {
    WithParent(WithParent(WithChild(h[s := h[t.elm]], p, s), RootOf(t.left), s), RootOf(t.right), s)
  }

  lemma SubstituteKeeps(h: Heap, root: Elem?, root': Elem?, p: Path, t: Tree, s: Elem)
    requires t.Node? && t.elm in h && Shape(h, root, Plug(p, t)) && s !in Members(Plug(p, t))
    requires root' == if p.Top? then s else root
    ensures Shape(Substituted(h, p, t, s), root', Plug(p, t.(elm := s)))
  {
    hide Plug, NoRepeats;
    var h', t' := Substituted(h, p, t, s), t.(elm := s);
    SplitSpelling(h, root, p, t);
    PlugMembers(p, t);
    SubstituteSpells(h, p, t, s);
    SubstitutePath(h, p, t, s, root);
    SplitSpelling(h', root', p, t');
    SubstituteInorder(p, t, s);
  }

  lemma SubstituteSpells(h: Heap, p: Path, t: Tree, s: Elem)
    requires t.Node? && t.elm in h && Spells(h, t, UpOf(p)) && NoRepeats(Inorder(t))
    requires Members(t) !! Outside(p) && s !in Members(t) && s !in Outside(p)
    ensures Spells(Substituted(h, p, t, s), t.(elm := s), UpOf(p))
  {
    hide NoRepeats, Inorder, Members, Outside;
    var h' := Substituted(h, p, t, s);
    InorderParts(t.left, t.elm, t.red, t.right);
    UpIsOutside(p, t);
    Newcomer(p, t, s);
    SpellsRehang(h, h', t.left, t.elm, s);
    SpellsRehang(h, h', t.right, t.elm, s);
  }

  /** The element coming in is none of those it will be linked to. */
  lemma Newcomer(p: Path, t: Tree, s: Elem)
    requires t.Node? && Members(t) !! Outside(p) && s !in Members(t) && s !in Outside(p)
    ensures s != UpOf(p) && s != RootOf(t.left) && s != RootOf(t.right) && s !in Inorder(t)
    ensures t.left.Node? ==> t.left.elm in Inorder(t.left)
    ensures t.right.Node? ==> t.right.elm in Inorder(t.right)
  {
    Inside(t.left);
    Inside(t.right);
    Inside(t);
  }

  lemma RootsInside(p: Path, t: Tree)
    requires t.Node? && Members(t) !! Outside(p)
    ensures t.elm !in Outside(p)
    ensures t.left.Node? ==> t.left.elm !in Outside(p)
    ensures t.right.Node? ==> t.right.elm !in Outside(p)
  {
    Inside(t.left);
    Inside(t.right);
    Inside(t);
    assert forall x :: x in Inorder(t) ==> x in Members(t);
  }

  lemma SubstitutePath(h: Heap, p: Path, t: Tree, s: Elem, root: Elem?)
    requires t.Node? && t.elm in h && SpellsPath(h, p, t.elm, root) && NoRepeats(Inorder(Plug(p, t)))
    requires s !in Outside(p)
    ensures SpellsPath(Substituted(h, p, t, s), p, s, if p.Top? then s else root)
  {
    hide NoRepeats, Plug, Members, Inorder, Outside;
    PlugMembers(p, t);
    RootsInside(p, t);
    PathRelink(h, Substituted(h, p, t, s), p, t, t.elm, s, root);
  }

  lemma SubstituteInorder(p: Path, t: Tree, s: Elem)
    requires t.Node? && NoRepeats(Inorder(Plug(p, t))) && s !in Members(Plug(p, t))
    ensures NoRepeats(Inorder(Plug(p, t.(elm := s))))
  {
    PlugInorder(p, t);
    PlugInorder(p, t.(elm := s));
    var a, l, r, b := Before(p), Inorder(t.left), Inorder(t.right), After(p);
    assert Inorder(t) == l + [t.elm] + r && Inorder(t.(elm := s)) == l + [s] + r;
    hide NoRepeats, Plug, Inorder;
    SwappedIn(a, l, t.elm, s, r, b);
  }

  lemma SwappedIn(a: seq<Elem>, l: seq<Elem>, e: Elem, s: Elem, r: seq<Elem>, b: seq<Elem>)
    requires NoRepeats(a + (l + [e] + r) + b) && s !in a + (l + [e] + r) + b
    ensures NoRepeats(a + (l + [s] + r) + b)
  {
    assert a + (l + [e] + r) + b == (a + l) + [e] + (r + b);
    assert a + (l + [s] + r) + b == (a + l) + [s] + (r + b);
    Swapped(a + l, e, s, r + b);
  }

  lemma Swapped(a: seq<Elem>, e: Elem, s: Elem, b: seq<Elem>)
    requires NoRepeats(a + [e] + b) && s !in a + [e] + b
    ensures NoRepeats(a + [s] + b)
  {
    var x, y := a + [e] + b, a + [s] + b;
    forall i, j | 0 <= i < j < |y|
      ensures y[i] != y[j]
    {
      assert i != |a| ==> y[i] == x[i];
      assert j != |a| ==> y[j] == x[j];
    }
  }

  // --------------------------------------------------------------- successor

  /** q goes down from base by left children only. */
  ghost predicate Under(q: Path, base: Path) {
    q == base || (q.InLeft? && Under(q.up, base))
  }

  /** The subtree that plugging x into q makes at base. */
  ghost function PlugTo(q: Path, base: Path, x: Tree): Tree
    requires Under(q, base)
    decreases q
  {
    if q == base then x else PlugTo(q.up, base, Node(x, q.elm, q.red, q.right))
  }

  /** The same way down from another base. */
  ghost function Rebase(q: Path, base: Path, base': Path): Path
    requires Under(q, base)
  {
    if q == base then base' else InLeft(Rebase(q.up, base, base'), q.elm, q.red, q.right)
  }

  lemma {:induction false} RebasePlug(q: Path, base: Path, base': Path, x: Tree)
    requires Under(q, base)
    ensures Plug(q, x) == Plug(base, PlugTo(q, base, x))
    ensures Plug(Rebase(q, base, base'), x) == Plug(base', PlugTo(q, base, x))
    decreases q
  {
    if q != base {
      RebasePlug(q.up, base, base', Node(x, q.elm, q.red, q.right));
    }
  }

  /** Same colours on the way, same balance. */
  lemma {:induction false} RebaseBalance(q: Path, base: Path, base': Path, m: int, red: bool)
    requires Under(q, base) && base.InRight? && base'.InRight?
    requires base' == InRight(base.up, base.left, base'.elm, base.red)
    requires Fits(q, m) && CalmPath(q, red)
    ensures Fits(Rebase(q, base, base'), m) && CalmPath(Rebase(q, base, base'), red)
    ensures UpOf(Rebase(q, base, base')) == if q == base then base'.elm else UpOf(q)
    decreases q
  {
    if q != base {
      RebaseBalance(q.up, base, base', m + Weight(q.red), q.red);
    }
  }

  /** With an element of colour `red` gone from above c, the tree is balanced if it
      was red, and one black node short if it was not. */
  lemma RemovalBalance(q: Path, t: Tree, c: Tree, n: int)
    requires OnlyChild(t, c) && Black(t, n) && Fits(q, n) && Calm(t) && CalmPath(q, t.red)
    ensures t.red ==> Balanced(Plug(q, c))
    ensures !t.red ==> ShortAtHole(q, c, n - 1)
  {
    CalmPathBlack(q, t.red);
    if t.red {
      assert Black(c, n) && Calm(c) && !IsRed(c);
      PlugBalanced(q, c, n);
    }
  }

  lemma {:induction false} PlugToInorder(q: Path, base: Path, f: Tree, x: Tree, s: Elem)
    requires Under(q, base) && Inorder(f) == [s] + Inorder(x)
    ensures Inorder(PlugTo(q, base, f)) == [s] + Inorder(PlugTo(q, base, x))
    decreases q
  {
    if q != base {
      var f', x' := Node(f, q.elm, q.red, q.right), Node(x, q.elm, q.red, q.right);
      assert [s] + Inorder(x) + [q.elm] + Inorder(q.right) == [s] + (Inorder(x) + [q.elm] + Inorder(q.right));
      PlugToInorder(q.up, base, f', x', s);
    }
  }

  /** The successor in the removed element's place: only that element is gone. */
  lemma SuccessorInorder(p: Path, t: Tree, q: Path, f: Tree)
    requires t.Node? && f.Node? && f.left.Leaf?
    requires Under(q, InRight(p, t.left, t.elm, t.red)) && Plug(q, f) == Plug(p, t)
    requires PlugTo(q, InRight(p, t.left, t.elm, t.red), f) == t.right
    ensures var q' := Rebase(q, InRight(p, t.left, t.elm, t.red), InRight(p, t.left, f.elm, t.red));
            OneOut(Inorder(Plug(p, t)), Inorder(Plug(q', f.right)), t.elm)
  {
    var base := InRight(p, t.left, t.elm, t.red);
    var r1 := PlugTo(q, base, f.right);
    assert Inorder(f) == [f.elm] + Inorder(f.right);
    PlugToInorder(q, base, f, f.right, f.elm);
    RebasePlug(q, base, InRight(p, t.left, f.elm, t.red), f.right);
    PlugInorder(p, t);
    PlugInorder(p, Node(t.left, f.elm, t.red, r1));
    hide OneOut;
    SuccessorSeq(Before(p), Inorder(t.left), t.elm, f.elm, Inorder(r1), After(p));
  }

  lemma SuccessorSeq(a: seq<Elem>, l: seq<Elem>, e: Elem, s: Elem, r: seq<Elem>, b: seq<Elem>)
    ensures OneOut(a + (l + [e] + ([s] + r)) + b, a + (l + [s] + r) + b, e)
  {
    assert a + (l + [e] + ([s] + r)) + b == (a + l) + [e] + ([s] + r + b);
    assert a + (l + [s] + r) + b == (a + l) + ([s] + r + b);
    OutAt(a + l, e, [s] + r + b);
  }

  /** Every member of a tree has a path to it. */
  lemma {:induction false} Locate(p0: Path, t0: Tree, e: Elem) returns (p: Path, t: Tree)
    requires e in Inorder(t0)
    ensures Plug(p, t) == Plug(p0, t0) && t.Node? && t.elm == e
    decreases t0
  {
    var Node(l, x, red, r) := t0;
    if x == e {
      p, t := p0, t0;
    } else if e in Inorder(l) {
      p, t := Locate(InLeft(p0, x, red, r), l, e);
    } else {
      p, t := Locate(InRight(p0, l, x, red), r, e);
    }
  }

  /** A tree spelled by some fields is spelled by those of its members alone. */
  lemma ShapeOfMembers(h: Heap, h': Heap, root: Elem?, t: Tree)
    requires Shape(h, root, t)
    requires forall e :: e in Members(t) && e in h ==> e in h' && h'[e] == h[e]
    ensures Shape(h', root, t)
  {
    SpellsFrame(h, h', t, null);
  }

  lemma SpliceLinks(h: Heap, root: Elem?, p: Path, t: Tree, c: Tree)
    requires Shape(h, root, Plug(p, t)) && OnlyChild(t, c)
    ensures t.elm in h && h[t.elm].parent == UpOf(p) && (p.Top? <==> UpOf(p) == null)
    ensures RootOf(c) != null ==> RootOf(c) in h
    ensures !p.Top? ==> UpOf(p) in h && (h[UpOf(p)].left == t.elm <==> p.InLeft?)
    ensures t.elm != RootOf(c) && t.elm != UpOf(p) && (RootOf(c) == null || RootOf(c) != UpOf(p))
  {
    hide Shape;
    Links(h, root, p, t);
    ChildLinks(h, root, p, t);
  }

  lemma ChildLinks(h: Heap, root: Elem?, p: Path, t: Tree)
    requires Shape(h, root, Plug(p, t)) && t.Node?
    ensures t.elm != UpOf(p)
    ensures t.left.Node? ==> t.left.elm in h && t.left.elm != t.elm && t.left.elm != UpOf(p)
    ensures t.right.Node? ==> t.right.elm in h && t.right.elm != t.elm && t.right.elm != UpOf(p)
    ensures t.left.Node? && t.right.Node? ==> t.left.elm != t.right.elm
  {
    hide Plug;
    SplitSpelling(h, root, p, t);
    PlugMembers(p, t);
    NodeMembers(t.left, t.elm, t.red, t.right);
    UpIsOutside(p, t);
    Inside(t.left);
    Inside(t.right);
    Inside(t);
  }

  lemma SpliceLeaves(h: Heap, p: Path, t: Tree, c: Tree)
    requires OnlyChild(t, c) && t.elm in h && t.elm != RootOf(c) && t.elm != UpOf(p)
    ensures var h' := WithChild(WithParent(h, RootOf(c), UpOf(p)), p, RootOf(c));
            t.elm in h' && h'[t.elm] == h[t.elm]
  {
  }

  lemma SubstituteLinks(h: Heap, root: Elem?, p: Path, t: Tree, s: Elem)
    requires Shape(h, root, Plug(p, t)) && t.Node? && s !in Members(Plug(p, t))
    ensures t.elm in h && h[t.elm] == Link(RootOf(t.left), RootOf(t.right), UpOf(p), t.red)
    ensures (p.Top? <==> UpOf(p) == null) && s != t.elm && s != UpOf(p)
    ensures !p.Top? ==> UpOf(p) in h && (h[UpOf(p)].left == t.elm <==> p.InLeft?)
    ensures t.elm != UpOf(p)
    ensures t.left.Node? ==> t.left.elm in h && t.left.elm != t.elm && t.left.elm != UpOf(p)
    ensures t.right.Node? ==> t.right.elm in h && t.right.elm != t.elm && t.right.elm != UpOf(p)
  {
    hide Shape;
    Links(h, root, p, t);
    ChildLinks(h, root, p, t);
    MemberAround(h, root, p, t);
  }

  lemma MemberAround(h: Heap, root: Elem?, p: Path, t: Tree)
    requires Shape(h, root, Plug(p, t)) && t.Node?
    ensures t.elm in Members(Plug(p, t)) && (!p.Top? ==> p.elm in Members(Plug(p, t)))
  {
    PlugMembers(p, t);
    Inside(t);
  }

  lemma LocateTop(t0: Tree, e: Elem) returns (p: Path, t: Tree)
    requires e in Members(t0)
    ensures Plug(p, t) == t0 && t.Node? && t.elm == e
  {
    p, t := Locate(Top, t0, e);
  }

  lemma SplicedOut(h: Heap, root: Elem?, p: Path, t: Tree, c: Tree)
    requires Shape(h, root, Plug(p, t)) && OnlyChild(t, c)
    ensures OneOut(Inorder(Plug(p, t)), Inorder(Plug(p, c)), t.elm)
  {
    SpliceInorder(p, t, c);
  }

  /** Everything the exchange with the successor needs to know. */
  lemma Exchanged(h: Heap, root: Elem?, p: Path, t: Tree, q0: Path, f: Tree) returns (q: Path, n: int)
    requires t.Node? && f.Node? && f.left.Leaf? && Shape(h, root, Plug(p, t)) && Balanced(Plug(p, t))
             && Plug(q0, f) == Plug(p, t)
    requires Under(q0, InRight(p, t.left, t.elm, t.red)) && PlugTo(q0, InRight(p, t.left, t.elm, t.red), f) == t.right
    ensures var r1 := PlugTo(q0, InRight(p, t.left, t.elm, t.red), f.right);
            && Plug(q0, f.right) == Plug(p, Node(t.left, t.elm, t.red, r1))
            && Plug(q, f.right) == Plug(p, Node(t.left, f.elm, t.red, r1))
            && f.elm !in Members(Plug(q0, f.right))
    ensures UpOf(q) == if UpOf(q0) == t.elm then f.elm else UpOf(q0)
    ensures f.red ==> Balanced(Plug(q, f.right))
    ensures !f.red ==> ShortAtHole(q, f.right, n)
    ensures OneOut(Inorder(Plug(p, t)), Inorder(Plug(q, f.right)), t.elm)
  {
    var base, base' := InRight(p, t.left, t.elm, t.red), InRight(p, t.left, f.elm, t.red);
    q := Rebase(q0, base, base');
    RebasePlug(q0, base, base', f.right);
    var m := Unplug(q0, f);
    RebaseBalance(q0, base, base', m, f.red);
    RemovalBalance(q, f, f.right, m);
    n := m - 1;
    SuccessorInorder(p, t, q0, f);
    GoneFromTree(q0, f);
    UpOfUnder(p, t, q0, f);
  }

  lemma GoneFromTree(p: Path, t: Tree)
    requires t.Node? && t.left.Leaf? && NoRepeats(Inorder(Plug(p, t)))
    ensures t.elm !in Members(Plug(p, t.right))
  {
    PlugMembers(p, t);
    NodeMembers(t.left, t.elm, t.red, t.right);
    SpliceInorder(p, t, t.right);
    PlugMembers(p, t.right);
    Inside(t);
  }

  /** Only at the base itself does the way down hang from the removed element. */
  lemma UpOfUnder(p: Path, t: Tree, q: Path, f: Tree)
    requires t.Node? && Under(q, InRight(p, t.left, t.elm, t.red)) && NoRepeats(Inorder(Plug(q, f)))
    ensures UpOf(q) == t.elm <==> q == InRight(p, t.left, t.elm, t.red)
  {
    var base := InRight(p, t.left, t.elm, t.red);
    if q != base {
      PlugMembers(q, f);
      UnderOutside(q.up, base);
    }
  }

  lemma {:induction false} UnderOutside(q: Path, base: Path)
    requires Under(q, base) && base.InRight?
    ensures base.elm in Outside(q)
  {
    if q != base {
      UnderOutside(q.up, base);
    }
  }
}
