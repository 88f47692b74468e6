/** The linked form of a red-black tree: when the pointer and colour fields of the
    elements spell out a given tree, and how single field writes change which tree
    they spell.
 */
module RbHeap {
  import opened RbTheory

  /** The fields of one element, and of all of them. */
  datatype Link = Link(left: Elem?, right: Elem?, parent: Elem?, red: bool)
  type Heap = map<Elem, Link>

  ghost function Snap(all: set<Elem>): Heap
    reads all
  {
    map e | e in all :: Link(e.left, e.right, e.parent, e.red)
  }

  ghost function RootOf(t: Tree): Elem? {
    match t case Leaf => null case Node(_, e, _, _) => e
  }

  ghost function UpOf(p: Path): Elem? {
    match p case Top => null case InLeft(_, e, _, _) => e case InRight(_, _, e, _) => e
  }

  /** The fields below `up` spell t. */
  ghost predicate Spells(h: Heap, t: Tree, up: Elem?) {
    match t
    case Leaf => true
    case Node(l, e, red, r) =>
      e in h && h[e] == Link(RootOf(l), RootOf(r), up, red) && Spells(h, l, e) && Spells(h, r, e)
  }

  /** The fields above `hole` spell p. */
  ghost predicate SpellsPath(h: Heap, p: Path, hole: Elem?, root: Elem?) {
    match p
    case Top => root == hole
    case InLeft(up, e, red, r) =>
      e in h && h[e] == Link(hole, RootOf(r), UpOf(up), red) && Spells(h, r, e) && SpellsPath(h, up, e, root)
    case InRight(up, l, e, red) =>
      e in h && h[e] == Link(RootOf(l), hole, UpOf(up), red) && Spells(h, l, e) && SpellsPath(h, up, e, root)
  }

  /** Head pointer and fields spell t, and no element is in it twice. */
  ghost predicate Shape(h: Heap, root: Elem?, t: Tree) {
    Spells(h, t, null) && root == RootOf(t) && NoRepeats(Inorder(t))
  }

  lemma {:induction false} SplitSpelling(h: Heap, root: Elem?, p: Path, t: Tree)
    ensures Spells(h, Plug(p, t), null) && root == RootOf(Plug(p, t))
       <==> Spells(h, t, UpOf(p)) && SpellsPath(h, p, RootOf(t), root)
    decreases p
  {
    match p
    case Top =>
    case InLeft(up, e, red, r) => SplitSpelling(h, root, up, Node(t, e, red, r));
    case InRight(up, l, e, red) => SplitSpelling(h, root, up, Node(l, e, red, t));
  }

  lemma {:induction false} SpellsFrame(h: Heap, h': Heap, t: Tree, up: Elem?)
    requires Spells(h, t, up)
    requires forall e :: e in Inorder(t) && e in h ==> e in h' && h'[e] == h[e]
    ensures Spells(h', t, up)
  {
    match t
    case Leaf =>
    case Node(l, e, red, r) =>
      assert e in Inorder(t);
      SpellsFrame(h, h', l, e);
      SpellsFrame(h, h', r, e);
  }

  /** Only the root's parent field changes when a subtree is hung elsewhere. */
  lemma SpellsRehang(h: Heap, h': Heap, t: Tree, up: Elem?, up': Elem?)
    requires Spells(h, t, up) && NoRepeats(Inorder(t))
    requires forall e :: e in Inorder(t) && e in h ==>
               e in h' && h'[e] == if e == RootOf(t) then h[e].(parent := up') else h[e]
    ensures Spells(h', t, up')
  {
    match t
    case Leaf =>
    case Node(l, e, red, r) =>
      InorderParts(l, e, red, r);
      SpellsFrame(h, h', l, e);
      SpellsFrame(h, h', r, e);
  }

  lemma InorderParts(l: Tree, e: Elem, red: bool, r: Tree)
    requires NoRepeats(Inorder(Node(l, e, red, r)))
    ensures NoRepeats(Inorder(l)) && NoRepeats(Inorder(r))
    ensures e !in Inorder(l) && e !in Inorder(r)
    ensures forall x :: x in Inorder(l) ==> x !in Inorder(r)
    ensures forall x :: x in Inorder(Node(l, e, red, r)) <==> x == e || x in Inorder(l) || x in Inorder(r)
  {
    Parts(Inorder(l), e, Inorder(r));
  }

  lemma Inside(t: Tree)
    ensures t.Node? ==> t.elm in Inorder(t)
    ensures forall x :: t.Node? && (x in Inorder(t.left) || x in Inorder(t.right)) ==> x in Inorder(t)
  {
  }

  lemma Parts(a: seq<Elem>, e: Elem, b: seq<Elem>)
    requires NoRepeats(a + [e] + b)
    ensures NoRepeats(a) && NoRepeats(b) && e !in a && e !in b
    ensures forall x :: x in a ==> x !in b
    ensures forall x :: x in a + [e] + b <==> x == e || x in a || x in b
  {
    var s := a + [e] + b;
    assert forall i :: 0 <= i < |a| ==> s[i] == a[i];
    assert s[|a|] == e;
    assert forall i :: 0 <= i < |b| ==> s[|a| + 1 + i] == b[i];
  }

  ghost function Members(t: Tree): set<Elem> {
    set e | e in Inorder(t)
  }

  /** The elements a path is made of. */
  ghost function Outside(p: Path): set<Elem> {
    match p
    case Top => {}
    case InLeft(up, e, _, r) => {e} + Members(r) + Outside(up)
    case InRight(up, l, e, _) => {e} + Members(l) + Outside(up)
  }

  lemma {:induction false} PlugMembers(p: Path, t: Tree)
    requires NoRepeats(Inorder(Plug(p, t)))
    ensures NoRepeats(Inorder(t)) && Members(t) !! Outside(p)
    ensures Members(Plug(p, t)) == Members(t) + Outside(p)
    ensures p.InLeft? ==> {p.elm} !! Members(p.right) !! Outside(p.up) && NoRepeats(Inorder(p.right))
    ensures p.InRight? ==> {p.elm} !! Members(p.left) !! Outside(p.up) && NoRepeats(Inorder(p.left))
    decreases p
  {
    hide NoRepeats, Inorder, Members;
    match p
    case Top =>
    case InLeft(up, e, red, r) =>
      PlugMembers(up, Node(t, e, red, r));
      NodeMembers(t, e, red, r);
    case InRight(up, l, e, red) =>
      PlugMembers(up, Node(l, e, red, t));
      NodeMembers(l, e, red, t);
  }

  lemma NodeMembers(l: Tree, e: Elem, red: bool, r: Tree)
    requires NoRepeats(Inorder(Node(l, e, red, r)))
    ensures NoRepeats(Inorder(l)) && NoRepeats(Inorder(r))
    ensures {e} !! Members(l) !! Members(r)
    ensures Members(Node(l, e, red, r)) == Members(l) + {e} + Members(r)
  {
    InorderParts(l, e, red, r);
  }

  lemma {:induction false} PathFrame(h: Heap, h': Heap, p: Path, hole: Elem?, root: Elem?)
    requires SpellsPath(h, p, hole, root)
    requires forall e :: e in Outside(p) && e in h ==> e in h' && h'[e] == h[e]
    ensures SpellsPath(h', p, hole, root)
  {
    match p
    case Top =>
    case InLeft(up, e, red, r) =>
      SpellsFrame(h, h', r, e);
      PathFrame(h, h', up, e, root);
    case InRight(up, l, e, red) =>
      SpellsFrame(h, h', l, e);
      PathFrame(h, h', up, e, root);
  }

  /** The link into the hole of a path now leads to hole'. */
  ghost function Relinked(k: Link, p: Path, hole': Elem?): Link {
    if p.InLeft? then k.(left := hole') else k.(right := hole')
  }

  lemma PathRelink(h: Heap, h': Heap, p: Path, t: Tree, hole: Elem?, hole': Elem?, root: Elem?)
    requires SpellsPath(h, p, hole, root) && NoRepeats(Inorder(Plug(p, t)))
    requires forall e :: e in Outside(p) && e in h ==>
               e in h' && h'[e] == if e == UpOf(p) then Relinked(h[e], p, hole') else h[e]
    ensures SpellsPath(h', p, hole', if p.Top? then hole' else root)
  {
    PlugMembers(p, t);
    match p
    case Top =>
    case InLeft(up, e, red, r) =>
      SpellsFrame(h, h', r, e);
      PathFrame(h, h', up, e, root);
    case InRight(up, l, e, red) =>
      SpellsFrame(h, h', l, e);
      PathFrame(h, h', up, e, root);
  }

  /** The fields around a place in the tree, read off the tree. */
  lemma Links(h: Heap, root: Elem?, p: Path, t: Tree)
    requires Shape(h, root, Plug(p, t))
    ensures t.Node? ==> t.elm in h && h[t.elm] == Link(RootOf(t.left), RootOf(t.right), UpOf(p), t.red)
    ensures p.Top? ==> root == RootOf(t)
    ensures p.InLeft? ==> p.elm in h && h[p.elm] == Link(RootOf(t), RootOf(p.right), UpOf(p.up), p.red)
    ensures p.InRight? ==> p.elm in h && h[p.elm] == Link(RootOf(p.left), RootOf(t), UpOf(p.up), p.red)
    ensures p.InRight? && t.Node? ==> RootOf(p.left) != t.elm
    ensures p.InLeft? && t.Node? ==> RootOf(p.right) != t.elm
  {
    hide Plug, NoRepeats;
    SplitSpelling(h, root, p, t);
    PlugMembers(p, t);
    SiblingDiffers(p, t);
  }

  lemma SiblingDiffers(p: Path, t: Tree)
    requires Members(t) !! Outside(p)
    ensures p.InRight? && t.Node? ==> RootOf(p.left) != t.elm
    ensures p.InLeft? && t.Node? ==> RootOf(p.right) != t.elm
  {
    if !p.Top? {
      var s := if p.InLeft? then p.right else p.left;
      assert s.Node? ==> s.elm in Members(s) && s.elm in Outside(p);
      assert t.Node? ==> t.elm in Members(t);
    }
  }

  /** The tree around a path spelled by h' is the one with t' in the hole. */
  lemma Assemble(h: Heap, h': Heap, root: Elem?, root': Elem?, p: Path, t: Tree, t': Tree)
    requires Shape(h, root, Plug(p, t)) && Inorder(t') == Inorder(t)
    requires Spells(h', t', UpOf(p)) && SpellsPath(h', p, RootOf(t'), root')
    ensures Shape(h', root', Plug(p, t'))
  {
    hide NoRepeats;
    SplitSpelling(h', root', p, t');
    PlugInorder(p, t);
    PlugInorder(p, t');
  }

  lemma Recolour(h: Heap, root: Elem?, p: Path, t: Tree, red: bool)
    requires Shape(h, root, Plug(p, t)) && t.Node? && t.elm in h
    ensures Shape(h[t.elm := h[t.elm].(red := red)], root, Plug(p, t.(red := red)))
  {
    hide Plug, NoRepeats;
    var h', t' := h[t.elm := h[t.elm].(red := red)], t.(red := red);
    SplitSpelling(h, root, p, t);
    PlugMembers(p, t);
    InorderParts(t.left, t.elm, t.red, t.right);
    SpellsFrame(h, h', t.left, t.elm);
    SpellsFrame(h, h', t.right, t.elm);
    assert t.elm in Members(t);
    PathFrame(h, h', p, t.elm, root);
    Assemble(h, h', root, root, p, t, t');
  }

  // --------------------------------------------------------------- rotations

  ghost function TurnLeft(t: Tree): Tree
    requires t.Node? && t.right.Node?
  {
    var Node(a, x, cx, Node(b, y, cy, c)) := t;
    Node(Node(a, x, cx, b), y, cy, c)
  }

  ghost function TurnRight(t: Tree): Tree
    requires t.Node? && t.left.Node?
  {
    var Node(Node(a, x, cx, b), y, cy, c) := t;
    Node(a, x, cx, Node(b, y, cy, c))
  }

  /** What a rotation writes: x goes under y, y takes x's place, and the subtree
      between them changes hands. */
  ghost predicate Turned(h: Heap, h': Heap, x: Elem, kx: Link, y: Elem, ky: Link, between: Elem?, p: Path)
  {
    && h'.Keys == h.Keys
    && (forall e :: e in h ==>
          h'[e] == if e == x then kx
                   else if e == y then ky
                   else if e == between then h[e].(parent := x)
                   else if e == UpOf(p) then Relinked(h[e], p, y)
                   else h[e])
  }

  ghost predicate TurnedLeft(h: Heap, h': Heap, p: Path, t: Tree)
    requires t.Node? && t.right.Node? && t.elm in h && t.right.elm in h
  {
    var y, between := t.right.elm, RootOf(t.right.left);
    Turned(h, h', t.elm, h[t.elm].(right := between, parent := y), y, h[y].(left := t.elm, parent := UpOf(p)),
           between, p)
  }

  ghost predicate TurnedRight(h: Heap, h': Heap, p: Path, t: Tree)
    requires t.Node? && t.left.Node? && t.elm in h && t.left.elm in h
  {
    var y, between := t.left.elm, RootOf(t.left.right);
    Turned(h, h', t.elm, h[t.elm].(left := between, parent := y), y, h[y].(right := t.elm, parent := UpOf(p)),
           between, p)
  }

  lemma TurnLeftSpells(h: Heap, h': Heap, p: Path, t: Tree)
    requires t.Node? && t.right.Node? && Spells(h, t, UpOf(p)) && NoRepeats(Inorder(t))
    requires t.elm in h && t.right.elm in h
    requires Members(t) !! Outside(p) && TurnedLeft(h, h', p, t)
    ensures Spells(h', TurnLeft(t), UpOf(p))
  {
    hide NoRepeats, Inorder, Members, Outside;
    var Node(a, x, cx, Node(b, y, cy, c)) := t;
    InorderParts(a, x, cx, t.right);
    InorderParts(b, y, cy, c);
    UpIsOutside(p, t);
    Inside(b);
    SpellsFrame(h, h', a, x);
    SpellsRehang(h, h', b, y, x);
    SpellsFrame(h, h', c, y);
  }

  lemma TurnRightSpells(h: Heap, h': Heap, p: Path, t: Tree)
    requires t.Node? && t.left.Node? && Spells(h, t, UpOf(p)) && NoRepeats(Inorder(t))
    requires t.elm in h && t.left.elm in h
    requires Members(t) !! Outside(p) && TurnedRight(h, h', p, t)
    ensures Spells(h', TurnRight(t), UpOf(p))
  {
    hide NoRepeats, Inorder, Members, Outside;
    var Node(Node(a, y, cy, b), x, cx, c) := t;
    InorderParts(t.left, x, cx, c);
    InorderParts(a, y, cy, b);
    UpIsOutside(p, t);
    Inside(b);
    SpellsFrame(h, h', a, y);
    SpellsRehang(h, h', b, y, x);
    SpellsFrame(h, h', c, x);
  }

  lemma UpIsOutside(p: Path, t: Tree)
    requires Members(t) !! Outside(p)
    ensures UpOf(p) == null || UpOf(p) !in Inorder(t)
    ensures forall s :: s in Inorder(t) ==> s in Members(t)
  {
  }

  lemma PathTurned(h: Heap, h': Heap, p: Path, t: Tree, x: Elem, y: Elem, between: Elem?, kx: Link, ky: Link,
                   root: Elem?)
    requires SpellsPath(h, p, x, root) && NoRepeats(Inorder(Plug(p, t)))
    requires Turned(h, h', x, kx, y, ky, between, p)
    requires x in Inorder(t) && y in Inorder(t) && (between == null || between in Inorder(t))
    ensures SpellsPath(h', p, y, if p.Top? then y else root)
  {
    hide Plug, NoRepeats;
    PlugMembers(p, t);
    PathRelink(h, h', p, t, x, y, root);
  }

  lemma TurnLeftKeeps(h: Heap, h': Heap, root: Elem?, root': Elem?, p: Path, t: Tree)
    requires t.Node? && t.right.Node? && Shape(h, root, Plug(p, t))
    requires t.elm in h && t.right.elm in h
    requires TurnedLeft(h, h', p, t)
    requires root' == if p.Top? then t.right.elm else root
    ensures Shape(h', root', Plug(p, TurnLeft(t)))
  {
    hide Plug, NoRepeats, Spells, SpellsPath;
    SplitSpelling(h, root, p, t);
    PlugMembers(p, t);
    TurnLeftSpells(h, h', p, t);
    Inside(t);
    Inside(t.right);
    Inside(t.right.left);
    var y, between := t.right.elm, RootOf(t.right.left);
    PathTurned(h, h', p, t, t.elm, y, between, h[t.elm].(right := between, parent := y),
               h[y].(left := t.elm, parent := UpOf(p)), root);
    assert Inorder(TurnLeft(t)) == Inorder(t);
    Assemble(h, h', root, root', p, t, TurnLeft(t));
  }

  lemma TurnRightKeeps(h: Heap, h': Heap, root: Elem?, root': Elem?, p: Path, t: Tree)
    requires t.Node? && t.left.Node? && Shape(h, root, Plug(p, t))
    requires t.elm in h && t.left.elm in h
    requires TurnedRight(h, h', p, t)
    requires root' == if p.Top? then t.left.elm else root
    ensures Shape(h', root', Plug(p, TurnRight(t)))
  {
    hide Plug, NoRepeats, Spells, SpellsPath;
    SplitSpelling(h, root, p, t);
    PlugMembers(p, t);
    TurnRightSpells(h, h', p, t);
    Inside(t);
    Inside(t.left);
    Inside(t.left.right);
    var y, between := t.left.elm, RootOf(t.left.right);
    PathTurned(h, h', p, t, t.elm, y, between, h[t.elm].(left := between, parent := y),
               h[y].(right := t.elm, parent := UpOf(p)), root);
    assert Inorder(TurnRight(t)) == Inorder(t);
    Assemble(h, h', root, root', p, t, TurnRight(t));
  }

  lemma {:induction false} SpelledOutside(h: Heap, p: Path, hole: Elem?, root: Elem?)
    requires SpellsPath(h, p, hole, root)
    ensures forall e :: e in Outside(p) ==> e in h
  {
    match p
    case Top =>
    case InLeft(up, e, red, r) =>
      SpellsDomain(h, r, e);
      SpelledOutside(h, up, e, root);
    case InRight(up, l, e, red) =>
      SpellsDomain(h, l, e);
      SpelledOutside(h, up, e, root);
  }

  /** Everything that spells a tree is in the heap. */
  lemma {:induction false} SpellsDomain(h: Heap, t: Tree, up: Elem?)
    requires Spells(h, t, up)
    ensures forall e :: e in Inorder(t) ==> e in h
  {
    match t
    case Leaf =>
    case Node(l, e, red, r) =>
      SpellsDomain(h, l, e);
      SpellsDomain(h, r, e);
  }

  // ------------------------------------------------------ writes, as functions

  ghost function WithParent(h: Heap, e: Elem?, up: Elem?): Heap {
    if e == null || e !in h then h else h[e := h[e].(parent := up)]
  }

  ghost function WithLeft(h: Heap, e: Elem, x: Elem?): Heap {
    if e !in h then h else h[e := h[e].(left := x)]
  }

  ghost function WithRight(h: Heap, e: Elem, x: Elem?): Heap {
    if e !in h then h else h[e := h[e].(right := x)]
  }

  ghost function WithChild(h: Heap, p: Path, y: Elem?): Heap {
    if p.Top? || p.elm !in h then h else h[p.elm := Relinked(h[p.elm], p, y)]
  }

  lemma LeftWrites(h: Heap, p: Path, t: Tree)
    requires t.Node? && t.right.Node? && Separate(h, p, t.elm, t.right.elm, RootOf(t.right.left))
    ensures var x, y, b := t.elm, t.right.elm, RootOf(t.right.left);
            var h1 := WithParent(WithParent(WithRight(h, x, b), b, x), y, UpOf(p));
            TurnedLeft(h, WithParent(WithLeft(WithChild(h1, p, y), y, x), x, y), p, t)
  {
  }

  lemma RightWrites(h: Heap, p: Path, t: Tree)
    requires t.Node? && t.left.Node? && Separate(h, p, t.elm, t.left.elm, RootOf(t.left.right))
    ensures var x, y, b := t.elm, t.left.elm, RootOf(t.left.right);
            var h1 := WithParent(WithParent(WithLeft(h, x, b), b, x), y, UpOf(p));
            TurnedRight(h, WithParent(WithRight(WithChild(h1, p, y), y, x), x, y), p, t)
  {
  }

  /** The elements a rotation writes to are in the heap and all different. */
  ghost predicate Separate(h: Heap, p: Path, x: Elem, y: Elem, b: Elem?) {
    && x in h && y in h && x != y && x != UpOf(p) && y != UpOf(p)
    && (b != null ==> b in h && b != x && b != y && b != UpOf(p))
    && (!p.Top? ==> UpOf(p) in h)
  }

  /** The elements a left rotation writes to are in the heap and all different. */
  lemma RotateLinks(h: Heap, root: Elem?, p: Path, t: Tree)
    requires t.Node? && t.right.Node? && Shape(h, root, Plug(p, t))
    ensures t.elm in h && h[t.elm] == Link(RootOf(t.left), t.right.elm, UpOf(p), t.red)
    ensures var y := t.right; y.elm in h && h[y.elm] == Link(RootOf(y.left), RootOf(y.right), t.elm, y.red)
    ensures Separate(h, p, t.elm, t.right.elm, RootOf(t.right.left))
    ensures p.Top? <==> UpOf(p) == null
    ensures !p.Top? ==> UpOf(p) in h && (h[UpOf(p)].left == t.elm <==> p.InLeft?)
  {
    var q := InRight(p, t.left, t.elm, t.red);
    Links(h, root, p, t);
    Links(h, root, q, t.right);
    Links(h, root, InLeft(q, t.right.elm, t.right.red, t.right.right), t.right.left);
    PlugMembers(p, t);
    NodeMembers(t.left, t.elm, t.red, t.right);
    NodeMembers(t.right.left, t.right.elm, t.right.red, t.right.right);
    Inside(t.right.left);
  }

  lemma RotateRightLinks(h: Heap, root: Elem?, p: Path, t: Tree)
    requires t.Node? && t.left.Node? && Shape(h, root, Plug(p, t))
    ensures t.elm in h && h[t.elm] == Link(t.left.elm, RootOf(t.right), UpOf(p), t.red)
    ensures var y := t.left; y.elm in h && h[y.elm] == Link(RootOf(y.left), RootOf(y.right), t.elm, y.red)
    ensures Separate(h, p, t.elm, t.left.elm, RootOf(t.left.right))
    ensures p.Top? <==> UpOf(p) == null
    ensures !p.Top? ==> UpOf(p) in h && (h[UpOf(p)].left == t.elm <==> p.InLeft?)
  {
    var q := InLeft(p, t.elm, t.red, t.right);
    Links(h, root, p, t);
    Links(h, root, q, t.left);
    Links(h, root, InRight(q, t.left.left, t.left.elm, t.left.red), t.left.right);
    PlugMembers(p, t);
    NodeMembers(t.left, t.elm, t.red, t.right);
    NodeMembers(t.left.left, t.left.elm, t.left.red, t.left.right);
    Inside(t.left.right);
  }

  lemma AttachKeeps(h: Heap, h': Heap, root: Elem?, root': Elem?, p: Path, elm: Elem)
    requires Shape(h, root, Plug(p, Leaf)) && elm !in h && root' == if p.Top? then elm else root
    requires h'.Keys == h.Keys + {elm} && h'[elm] == Link(null, null, UpOf(p), true)
    requires forall e :: e in h ==> h'[e] == if e == UpOf(p) then Relinked(h[e], p, elm) else h[e]
    ensures Shape(h', root', Plug(p, Node(Leaf, elm, true, Leaf)))
  {
    hide Plug, NoRepeats;
    var leaf := Node(Leaf, elm, true, Leaf);
    SplitSpelling(h, root, p, Leaf);
    SpelledOutside(h, p, null, root);
    PathRelink(h, h', p, Leaf, null, elm, root);
    SplitSpelling(h', root', p, leaf);
    PlugInorder(p, Leaf);
    PlugInorder(p, leaf);
    PlugMembers(p, Leaf);
    assert Inorder(leaf) == [elm];
    assert elm !in Outside(p);
    OutsideIs(p);
    OneMore(Before(p), elm, After(p));
  }

  lemma {:induction false} OutsideIs(p: Path)
    ensures forall e :: e in Before(p) || e in After(p) <==> e in Outside(p)
  {
    match p
    case Top =>
    case InLeft(up, _, _, _) => OutsideIs(up);
    case InRight(up, _, _, _) => OutsideIs(up);
  }

  lemma OneMore(a: seq<Elem>, e: Elem, b: seq<Elem>)
    requires NoRepeats(a + [] + b) && e !in a && e !in b
    ensures NoRepeats(a + [e] + b)
  {
    var s, s' := a + [] + b, a + [e] + b;
    forall i, j | 0 <= i < j < |s'|
      ensures s'[i] != s'[j]
    {
      assert i != |a| ==> s'[i] == s[if i < |a| then i else i - 1] && s'[i] != e;
      assert j != |a| ==> s'[j] == s[if j < |a| then j else j - 1] && s'[j] != e;
    }
  }
}
