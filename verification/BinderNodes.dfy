/** Objects passed by reference: a table gives every object one handle for the whole
    instance, and an object in a parcel is renamed for whoever receives it.
 */
module BinderNodes {

  const MAX_NODES := 4096

  const BINDER := 0x73622a85
  const WEAK_BINDER := 0x77622a85
  const HANDLE := 0x73682a85
  const WEAK_HANDLE := 0x77682a85

  datatype Node = Free | Node(owner: nat, ptr: nat, cookie: nat)

  /** A flat object: a 64-bit pointer or handle and a cookie, tagged with what it is. */
  datatype Flat = Flat(kind: nat, flags: nat, binder: nat, cookie: nat)

  predicate IsOwn(f: Flat) {
    f.kind == BINDER || f.kind == WEAK_BINDER
  }

  predicate IsRef(f: Flat) {
    f.kind == HANDLE || f.kind == WEAK_HANDLE
  }

  predicate IsWeak(f: Flat) {
    f.kind == WEAK_BINDER || f.kind == WEAK_HANDLE
  }

  /** A handle is the low half of the field it travels in. */
  function HandleOf(f: Flat): (h: nat)
    ensures h < 0x1_0000_0000
  {
    f.binder % 0x1_0000_0000
  }

  /** Something backs handle h. */
  predicate Backed(t: seq<Node>, h: nat) {
    0 < h < |t| && t[h].Node?
  }

  predicate Names(t: seq<Node>, i: nat, owner: nat, ptr: nat) {
    Backed(t, i) && t[i].owner == owner && t[i].ptr == ptr
  }

  /** Entries are filled from 1 upwards and no object has two. */
  ghost predicate Valid(t: seq<Node>) {
    && |t| == MAX_NODES && t[0].Free?
    && (forall i, j :: 0 < i < j < |t| && t[j].Node? ==> t[i].Node?)
    && (forall i, j :: 0 < i < j < |t| && t[i].Node? && t[j].Node? ==> t[i].owner != t[j].owner || t[i].ptr != t[j].ptr)
  }

  /** Nothing a handle names is ever changed or taken away. */
  ghost predicate Grows(t: seq<Node>, t': seq<Node>) {
    |t| == |t'| && forall h: nat :: Backed(t, h) ==> Backed(t', h) && t'[h] == t[h]
  }

  ghost predicate Known(t: seq<Node>, owner: nat, ptr: nat) {
    exists h: nat :: Names(t, h, owner, ptr)
  }

  ghost predicate Full(t: seq<Node>) {
    forall i :: 0 < i < |t| ==> t[i].Node?
  }

  // ---- what an object means ----

  datatype Meaning =
    | Object(weak: bool, owner: nat, ptr: nat)
    | Manager(weak: bool)
    | Nothing(weak: bool, handle: nat)
    | Plain(flat: Flat)

  /** What `f` means to endpoint `who`, which holds it. */
  ghost function Denote(t: seq<Node>, who: nat, f: Flat): Meaning {
    var weak := f.kind == WEAK_BINDER || f.kind == WEAK_HANDLE;
    if f.kind == BINDER || f.kind == WEAK_BINDER then Object(weak, who, f.binder)
    else if f.kind == HANDLE || f.kind == WEAK_HANDLE then
      var h := f.binder % 0x1_0000_0000;
      if h == 0 then Manager(weak)
      else if h < |t| && t[h].Node? then Object(weak, t[h].owner, t[h].ptr)
      else Nothing(weak, h)
    else Plain(f)
  }

  /** What `f` means does not change as the table fills, unless it meant nothing. */
  lemma MeaningLasts(t: seq<Node>, t': seq<Node>, who: nat, f: Flat)
    requires Grows(t, t')
    ensures !Denote(t, who, f).Nothing? ==> Denote(t', who, f) == Denote(t, who, f)
  {
  }

  // ---- one object ----

  /** An object renamed for its receiver, given the handle its own object has. */
  function Rename(t: seq<Node>, to: nat, f: Flat, h: nat): Flat {
    if IsOwn(f) then Flat(if f.kind == BINDER then HANDLE else WEAK_HANDLE, f.flags, h, 0)
    else if IsRef(f) && Backed(t, HandleOf(f)) && t[HandleOf(f)].owner == to then
      var n := t[HandleOf(f)];
      Flat(if f.kind == HANDLE then BINDER else WEAK_BINDER, f.flags, n.ptr, n.cookie)
    else f
  }

  /** f sent by `from` in table t arrives at `to` as g in table t'. */
  ghost predicate Sent(t: seq<Node>, from: nat, to: nat, f: Flat, t': seq<Node>, g: Flat) {
    exists h: nat :: SentAs(t, from, to, f, t', g, h)
  }

  ghost predicate SentAs(t: seq<Node>, from: nat, to: nat, f: Flat, t': seq<Node>, g: Flat, h: nat) {
    && (IsOwn(f) ==> Registered(t, from, f.binder, f.cookie, t', h))
    && (!IsOwn(f) ==> t' == t)
    && g == Rename(t', to, f, h)
  }

  /** h is the handle of (owner, ptr), made with this cookie if there was none. */
  ghost predicate Registered(t: seq<Node>, owner: nat, ptr: nat, cookie: nat, t': seq<Node>, h: nat) {
    && Names(t', h, owner, ptr)
    && (Known(t, owner, ptr) ==> t' == t)
    && (!Known(t, owner, ptr) ==>
          h < |t| && t[h].Free? && t' == t[h := Node(owner, ptr, cookie)] && forall i :: 0 < i < h ==> t[i].Node?)
  }

  lemma RegisteredKeeps(t: seq<Node>, owner: nat, ptr: nat, cookie: nat, t': seq<Node>, h: nat)
    requires Valid(t) && Registered(t, owner, ptr, cookie, t', h)
    ensures Valid(t') && Grows(t, t')
    ensures !Known(t, owner, ptr) ==> t'[h].cookie == cookie
  {
    if !Known(t, owner, ptr) {
      forall i | 0 < i < |t| && t[i].Node?
        ensures t[i].owner != owner || t[i].ptr != ptr
      {
        assert !Names(t, i, owner, ptr);
      }
    }
  }

  /** Sending keeps what an object means and its flags. */
  lemma SentKeeps(t: seq<Node>, from: nat, to: nat, f: Flat, t': seq<Node>, g: Flat)
    requires Valid(t) && Sent(t, from, to, f, t', g)
    ensures Valid(t') && Grows(t, t')
    ensures Denote(t', to, g) == Denote(t, from, f) && g.flags == f.flags
  {
    var h: nat :| SentAs(t, from, to, f, t', g, h);
    if IsOwn(f) {
      RegisteredKeeps(t, from, f.binder, f.cookie, t', h);
      assert h < MAX_NODES;
    }
  }

  /** How an object arrives: at its owner from elsewhere as a pointer with the cookie it was
      first registered under, and anywhere else by its handle. */
  lemma Arrives(t: seq<Node>, from: nat, to: nat, f: Flat, t': seq<Node>, g: Flat, weak: bool, owner: nat, ptr: nat)
    requires Valid(t) && Sent(t, from, to, f, t', g) && Denote(t, from, f) == Object(weak, owner, ptr)
    ensures IsOwn(g) <==> to == owner && IsRef(f)
    ensures IsOwn(g) ==> g.kind == (if weak then WEAK_BINDER else BINDER) && g.binder == ptr
    ensures IsOwn(g) ==> Names(t', HandleOf(f), owner, ptr) && g.cookie == t'[HandleOf(f)].cookie
    ensures !IsOwn(g) ==> g.kind == (if weak then WEAK_HANDLE else HANDLE) && Names(t', HandleOf(g), owner, ptr)
    ensures from != owner ==> IsRef(f)
    ensures if IsOwn(f) then g.cookie == 0 else !IsOwn(g) ==> g == f
  {
    var h: nat :| SentAs(t, from, to, f, t', g, h);
    if IsOwn(f) {
      RegisteredKeeps(t, from, f.binder, f.cookie, t', h);
    }
  }

  /** Two handles name one object only if they are one handle. */
  lemma OneHandle(t: seq<Node>, h: nat, k: nat, owner: nat, ptr: nat)
    requires Valid(t) && Names(t, h, owner, ptr) && Names(t, k, owner, ptr)
    ensures h == k
  {
    assert h < k || k < h || h == k;
  }

  // ---- any chain of endpoints ----

  /** fos[i] is held by eps[i] when the table is ts[i], and was sent there by eps[i - 1];
      in between, anything else may have been registered. */
  ghost predicate Chain(ts: seq<seq<Node>>, eps: seq<nat>, fos: seq<Flat>) {
    && |ts| == |eps| == |fos| && ts != []
    && (forall i :: 0 <= i < |ts| ==> Valid(ts[i]))
    && (forall i :: 0 < i < |ts| ==> Hop(ts[i - 1], eps[i - 1], eps[i], fos[i - 1], ts[i], fos[i]))
  }

  ghost predicate Hop(t: seq<Node>, from: nat, to: nat, f: Flat, t': seq<Node>, g: Flat) {
    exists mid :: Sent(t, from, to, f, mid, g) && Grows(mid, t')
  }

  lemma {:induction false} ChainGrows(ts: seq<seq<Node>>, eps: seq<nat>, fos: seq<Flat>, i: nat, j: nat)
    requires Chain(ts, eps, fos) && i <= j < |ts|
    ensures Grows(ts[i], ts[j])
    decreases j
  {
    if i < j {
      ChainGrows(ts, eps, fos, i, j - 1);
      var mid :| Sent(ts[j - 1], eps[j - 1], eps[j], fos[j - 1], mid, fos[j]) && Grows(mid, ts[j]);
      SentKeeps(ts[j - 1], eps[j - 1], eps[j], fos[j - 1], mid, fos[j]);
    }
  }

  /** An object sent by its owner means the same at every endpoint it reaches. */
  lemma {:induction false} SameEverywhere(ts: seq<seq<Node>>, eps: seq<nat>, fos: seq<Flat>, i: nat)
    requires Chain(ts, eps, fos) && IsOwn(fos[0]) && i < |ts|
    ensures Denote(ts[i], eps[i], fos[i]) == Object(IsWeak(fos[0]), eps[0], fos[0].binder)
  {
    if i > 0 {
      SameEverywhere(ts, eps, fos, i - 1);
      var mid :| Sent(ts[i - 1], eps[i - 1], eps[i], fos[i - 1], mid, fos[i]) && Grows(mid, ts[i]);
      SentKeeps(ts[i - 1], eps[i - 1], eps[i], fos[i - 1], mid, fos[i]);
      MeaningLasts(mid, ts[i], eps[i], fos[i]);
    }
  }

  /** An object sent out and back comes home as its owner's pointer, with the cookie it
      was first registered under and the kind of reference it was sent as. */
  lemma ComesHome(ts: seq<seq<Node>>, eps: seq<nat>, fos: seq<Flat>, i: nat)
    requires Chain(ts, eps, fos) && IsOwn(fos[0]) && 1 < i < |ts| && eps[i] == eps[0] && eps[i - 1] != eps[0]
    ensures fos[i].kind == fos[0].kind && fos[i].binder == fos[0].binder
    ensures !Known(ts[0], eps[0], fos[0].binder) ==> fos[i].cookie == fos[0].cookie
    ensures forall h: nat :: Names(ts[0], h, eps[0], fos[0].binder) ==> fos[i].cookie == ts[0][h].cookie
  {
    var owner, ptr := eps[0], fos[0].binder;
    SameEverywhere(ts, eps, fos, i - 1);
    var mid :| Sent(ts[i - 1], eps[i - 1], eps[i], fos[i - 1], mid, fos[i]) && Grows(mid, ts[i]);
    SentKeeps(ts[i - 1], eps[i - 1], eps[i], fos[i - 1], mid, fos[i]);
    Arrives(ts[i - 1], eps[i - 1], eps[i], fos[i - 1], mid, fos[i], IsWeak(fos[0]), owner, ptr);
    var k := HandleOf(fos[i - 1]);
    assert Names(ts[i], k, owner, ptr) && fos[i].cookie == ts[i][k].cookie;
    FirstCookie(ts, eps, fos, i, k);
  }

  /** A handle keeps the cookie of the object's first registration. */
  lemma FirstCookie(ts: seq<seq<Node>>, eps: seq<nat>, fos: seq<Flat>, i: nat, k: nat)
    requires Chain(ts, eps, fos) && IsOwn(fos[0]) && 0 < i < |ts| && Names(ts[i], k, eps[0], fos[0].binder)
    ensures !Known(ts[0], eps[0], fos[0].binder) ==> ts[i][k].cookie == fos[0].cookie
    ensures forall h: nat :: Names(ts[0], h, eps[0], fos[0].binder) ==> ts[i][k].cookie == ts[0][h].cookie
  {
    var owner, ptr := eps[0], fos[0].binder;
    var mid :| Sent(ts[0], eps[0], eps[1], fos[0], mid, fos[1]) && Grows(mid, ts[1]);
    var h0: nat :| SentAs(ts[0], eps[0], eps[1], fos[0], mid, fos[1], h0);
    RegisteredKeeps(ts[0], owner, ptr, fos[0].cookie, mid, h0);
    ChainGrows(ts, eps, fos, 1, i);
    assert Names(ts[i], h0, owner, ptr) && ts[i][h0] == mid[h0];
    OneHandle(ts[i], k, h0, owner, ptr);
    forall h: nat | Names(ts[0], h, owner, ptr)
      ensures mid[h] == ts[0][h] && h == h0
    {
      OneHandle(mid, h, h0, owner, ptr);
    }
  }

  // ---- the table in place ----

  /** shm_node_for: the handle of an object, entered in the table if it has none yet; 0 when
      there is no room. */
  method NodeFor(node: array<Node>, owner: nat, ptr: nat, cookie: nat) returns (h: nat, made: bool)
    requires Valid(node[..])
    modifies node
    ensures Valid(node[..])
    ensures h == 0 <==> !Known(old(node[..]), owner, ptr) && Full(old(node[..]))
    ensures h == 0 ==> node[..] == old(node[..]) && !made
    ensures h != 0 ==>
              Registered(old(node[..]), owner, ptr, cookie, node[..], h) && made == !Known(old(node[..]), owner, ptr)
  {
    made := false;
    h := 1;
    while h < node.Length
      invariant 1 <= h <= node.Length && node[..] == old(node[..])
      invariant forall i :: 0 < i < h ==> !Names(node[..], i, owner, ptr)
      modifies {}
    {
      if node[h].Node? && node[h].owner == owner && node[h].ptr == ptr {
        assert Names(node[..], h, owner, ptr);
        return;
      }
      h := h + 1;
    }
    assert !Known(node[..], owner, ptr);
    h := 1;
    while h < node.Length
      invariant 1 <= h <= node.Length && node[..] == old(node[..])
      invariant forall i :: 0 < i < h ==> node[i].Node?
    {
      if node[h].Free? {
        ghost var t := node[..];
        node[h] := Node(owner, ptr, cookie);
        assert node[..] == t[h := Node(owner, ptr, cookie)];
        assert Registered(t, owner, ptr, cookie, node[..], h);
        RegisteredKeeps(t, owner, ptr, cookie, node[..], h);
        return h, true;
      }
      h := h + 1;
    }
    return 0, false;
  }

  /** One object of a parcel from `from` to `to`, or a refusal when the table is full. */
  method Translate(node: array<Node>, from: nat, to: nat, f: Flat) returns (ok: bool, g: Flat, made: bool)
    requires Valid(node[..])
    modifies node
    ensures Valid(node[..])
    ensures ok <==> !(IsOwn(f) && !Known(old(node[..]), from, f.binder) && Full(old(node[..])))
    ensures ok ==> Sent(old(node[..]), from, to, f, node[..], g)
    ensures !ok ==> node[..] == old(node[..])
    ensures made <==> ok && IsOwn(f) && !Known(old(node[..]), from, f.binder)
  {
    ghost var t := node[..];
    if IsOwn(f) {
      var h;
      h, made := NodeFor(node, from, f.binder, f.cookie);
      if h == 0 {
        return false, f, false;
      }
      g := Flat(if f.kind == BINDER then HANDLE else WEAK_HANDLE, f.flags, h, 0);
      assert SentAs(t, from, to, f, node[..], g, h);
      return true, g, made;
    }
    made := false;
    if IsRef(f) {
      var h := HandleOf(f);
      if h == 0 || h >= MAX_NODES || node[h].Free? || node[h].owner != to {
        g := f;
      } else {
        g := Flat(if f.kind == HANDLE then BINDER else WEAK_BINDER, f.flags, node[h].ptr, node[h].cookie);
      }
    } else {
      g := f;
    }
    ok := true;
    assert SentAs(t, from, to, f, node[..], g, 0);
  }
}
