/** The objects of a parcel translated where they lie, byte for byte. */
module BinderObjects {
  import opened Bytes
  import opened BinderNodes
  import BinderParcel

  const SIZE := 24

  type Layout = BinderParcel.Layout

  ghost predicate Laid(l: Layout, d: seq<Byte>) {
    BinderParcel.Laid(l, d)
  }

  function FlatAt(d: seq<Byte>, at: nat): Flat
    requires at + SIZE <= |d|
  {
    Flat(Get(d, at, 4), Get(d, at + 4, 4), Get(d, at + 8, 8), Get(d, at + 16, 8))
  }

  function FlatBytes(f: Flat): (s: seq<Byte>)
    ensures |s| == SIZE
  {
    Le(f.kind, 4) + Le(f.flags, 4) + Le(f.binder, 8) + Le(f.cookie, 8)
  }

  /** Every field fits where it is kept. */
  ghost predicate Fits(f: Flat) {
    f.kind < Range(4) && f.flags < Range(4) && f.binder < Range(8) && f.cookie < Range(8)
  }

  lemma FlatFits(d: seq<Byte>, at: nat)
    requires at + SIZE <= |d|
    ensures Fits(FlatAt(d, at))
  {
    hide Range, Value;
    ValueFits(d[at..at + 4]);
    ValueFits(d[at + 4..at + 8]);
    ValueFits(d[at + 8..at + 16]);
    ValueFits(d[at + 16..at + 24]);
  }

  lemma PutSlice(d: seq<Byte>, at: nat, s: seq<Byte>, lo: nat, hi: nat)
    requires at + |s| <= |d| && lo <= hi <= |s|
    ensures Put(d, at, s)[at + lo..at + hi] == s[lo..hi]
  {
    var e := Put(d, at, s);
    assert forall k :: lo <= k < hi ==> e[at + k] == s[k];
  }

  lemma FlatSlices(f: Flat)
    ensures var s := FlatBytes(f);
            s[0..4] == Le(f.kind, 4) && s[4..8] == Le(f.flags, 4) && s[8..16] == Le(f.binder, 8)
              && s[16..24] == Le(f.cookie, 8)
  {
    hide Le;
    var a := Le(f.kind, 4) + Le(f.flags, 4) + Le(f.binder, 8);
    assert FlatBytes(f) == a + Le(f.cookie, 8) && |a| == 16;
  }

  /** An object is read back as it was written. */
  lemma FlatWritten(d: seq<Byte>, at: nat, f: Flat)
    requires at + SIZE <= |d| && Fits(f)
    ensures FlatAt(Put(d, at, FlatBytes(f)), at) == f
  {
    hide Range, Value, FlatBytes, Put, Le;
    var s := FlatBytes(f);
    FlatSlices(f);
    PutSlice(d, at, s, 0, 4);
    PutSlice(d, at, s, 4, 8);
    PutSlice(d, at, s, 8, 16);
    PutSlice(d, at, s, 16, 24);
    ValueOfLe(f.kind, 4);
    ValueOfLe(f.flags, 4);
    ValueOfLe(f.binder, 8);
    ValueOfLe(f.cookie, 8);
  }

  /** An object the write does not touch is read as before. */
  lemma FlatElsewhere(d: seq<Byte>, at: nat, bytes: seq<Byte>, o: nat)
    requires at + |bytes| <= |d| && o + SIZE <= |d| && (o + SIZE <= at || at + |bytes| <= o)
    ensures FlatAt(Put(d, at, bytes), o) == FlatAt(d, o)
  {
    hide Put, Value;
    PutElsewhere(d, at, bytes, o, o + 4);
    PutElsewhere(d, at, bytes, o + 4, o + 8);
    PutElsewhere(d, at, bytes, o + 8, o + 16);
    PutElsewhere(d, at, bytes, o + 16, o + 24);
  }

  // ---- all the objects of a parcel ----

  ghost function Offs(d: seq<Byte>, l: Layout): (os: seq<nat>)
    requires Laid(l, d)
    ensures |os| == l.n && forall i :: 0 <= i < l.n ==> os[i] == BinderParcel.Off(d, l, i)
  {
    seq(l.n, i requires 0 <= i < l.n => BinderParcel.Off(d, l, i))
  }

  /** No two readable objects share a byte. */
  ghost predicate Separate(os: seq<nat>, dataSize: nat) {
    forall i, j :: 0 <= i < j < |os| && os[i] + SIZE <= dataSize && os[j] + SIZE <= dataSize ==>
      os[i] + SIZE <= os[j] || os[j] + SIZE <= os[i]
  }

  ghost predicate Touched(os: seq<nat>, dataSize: nat, i: nat, k: int)
    requires i < |os|
  {
    os[i] + SIZE <= dataSize && os[i] <= k < os[i] + SIZE
  }

  /** Only the first n objects differ. */
  ghost predicate Frame(os: seq<nat>, dataSize: nat, d: seq<Byte>, e: seq<Byte>, n: nat)
    requires n <= |os|
  {
    |d| == |e| && forall k :: 0 <= k < |d| && (forall i :: 0 <= i < n ==> !Touched(os, dataSize, i, k)) ==> e[k] == d[k]
  }

  ghost predicate Small(t: seq<Node>) {
    forall i :: 0 <= i < |t| && t[i].Node? ==> t[i].ptr < Range(8) && t[i].cookie < Range(8)
  }

  /** One entry of the table of offsets: sent from the table t to the table t', or not an object. */
  ghost predicate Passed(t: seq<Node>, t': seq<Node>, from: nat, to: nat, at: nat, dataSize: nat, d: seq<Byte>,
                         e: seq<Byte>) {
    if at + SIZE > dataSize then t' == t
    else at + SIZE <= |d| == |e| && Sent(t, from, to, FlatAt(d, at), t', FlatAt(e, at))
  }

  /** The first n objects of d have been translated, giving e and taking the table through ts. */
  ghost predicate Translated(ts: seq<seq<Node>>, from: nat, to: nat, os: seq<nat>, dataSize: nat, d: seq<Byte>,
                             e: seq<Byte>, n: nat) {
    && n <= |os| && |ts| == n + 1
    && Frame(os, dataSize, d, e, n)
    && (forall i :: 0 <= i <= n ==> Valid(ts[i]) && Small(ts[i]))
    && (forall i :: 0 <= i < n ==> Passed(ts[i], ts[i + 1], from, to, os[i], dataSize, d, e))
  }

  lemma UntouchedSlice(os: seq<nat>, dataSize: nat, d: seq<Byte>, e: seq<Byte>, n: nat, lo: nat, hi: nat)
    requires n <= |os| && Frame(os, dataSize, d, e, n) && lo <= hi <= |d|
    requires forall i, k :: 0 <= i < n && lo <= k < hi ==> !Touched(os, dataSize, i, k)
    ensures e[lo..hi] == d[lo..hi]
  {
    hide Touched;
    forall k | lo <= k < hi
      ensures e[k] == d[k]
    {
    }
  }

  /** An object not yet come to is as it was. */
  lemma StillThere(os: seq<nat>, dataSize: nat, d: seq<Byte>, e: seq<Byte>, n: nat)
    requires n < |os| && Frame(os, dataSize, d, e, n) && Separate(os, dataSize) && os[n] + SIZE <= dataSize <= |d|
    ensures FlatAt(e, os[n]) == FlatAt(d, os[n])
  {
    hide Frame, Value;
    var o := os[n];
    assert forall i, k :: 0 <= i < n && o <= k < o + SIZE ==> !Touched(os, dataSize, i, k);
    FrameSize(os, dataSize, d, e, n);
    UntouchedSlice(os, dataSize, d, e, n, o, o + 4);
    UntouchedSlice(os, dataSize, d, e, n, o + 4, o + 8);
    UntouchedSlice(os, dataSize, d, e, n, o + 8, o + 16);
    UntouchedSlice(os, dataSize, d, e, n, o + 16, o + 24);
  }

  lemma FrameSize(os: seq<nat>, dataSize: nat, d: seq<Byte>, e: seq<Byte>, n: nat)
    requires n <= |os| && Frame(os, dataSize, d, e, n)
    ensures |d| == |e|
  {
  }

  /** The table of offsets lies beyond the data and is never written. */
  lemma OffsetKept(d: seq<Byte>, e: seq<Byte>, l: Layout, n: nat, i: nat)
    requires Laid(l, d) && Laid(l, e) && n <= l.n && i < l.n && Frame(Offs(d, l), l.dataSize, d, e, n)
    ensures BinderParcel.Off(e, l, i) == Offs(d, l)[i]
  {
    hide Frame;
    var lo := l.offsAt + 8 * i;
    UntouchedSlice(Offs(d, l), l.dataSize, d, e, n, lo, lo + 8);
  }

  lemma SentSmall(t: seq<Node>, from: nat, to: nat, f: Flat, t': seq<Node>, g: Flat)
    requires Valid(t) && Small(t) && Fits(f) && Sent(t, from, to, f, t', g)
    ensures Small(t') && Fits(g)
  {
    BinderParcel.WordRange();
    assert Range(4) == 0x1_0000_0000;
    hide Range;
    var h: nat :| SentAs(t, from, to, f, t', g, h);
  }

  /** A later write leaves what was done for an earlier entry. */
  lemma PassedKept(t: seq<Node>, t': seq<Node>, from: nat, to: nat, os: seq<nat>, i: nat, n: nat, dataSize: nat,
                   d: seq<Byte>, e: seq<Byte>, bytes: seq<Byte>)
    requires i < n < |os| && Separate(os, dataSize) && os[n] + SIZE <= dataSize <= |e| && |bytes| == SIZE
    requires Passed(t, t', from, to, os[i], dataSize, d, e)
    ensures Passed(t, t', from, to, os[i], dataSize, d, Put(e, os[n], bytes))
  {
    hide Put, FlatAt, Sent;
    if os[i] + SIZE <= dataSize {
      FlatElsewhere(e, os[n], bytes, os[i]);
    }
  }

  lemma FrameWritten(os: seq<nat>, dataSize: nat, d: seq<Byte>, e: seq<Byte>, n: nat, bytes: seq<Byte>)
    requires n < |os| && Frame(os, dataSize, d, e, n) && os[n] + SIZE <= dataSize <= |e| && |bytes| == SIZE
    ensures Frame(os, dataSize, d, Put(e, os[n], bytes), n + 1)
  {
    var e' := Put(e, os[n], bytes);
    forall k | 0 <= k < |d| && forall i :: 0 <= i < n + 1 ==> !Touched(os, dataSize, i, k)
      ensures e'[k] == d[k]
    {
      assert !Touched(os, dataSize, n, k);
    }
  }

  lemma FrameWider(os: seq<nat>, dataSize: nat, d: seq<Byte>, e: seq<Byte>, n: nat)
    requires n < |os| && Frame(os, dataSize, d, e, n)
    ensures Frame(os, dataSize, d, e, n + 1)
  {
  }

  /** Entry n names nothing that can be read, or an object that stays as it is. */
  lemma Unwritten(ts: seq<seq<Node>>, t': seq<Node>, from: nat, to: nat, os: seq<nat>, dataSize: nat, d: seq<Byte>,
                  e: seq<Byte>, n: nat)
    requires Translated(ts, from, to, os, dataSize, d, e, n) && n < |os| && Valid(t') && Small(t')
    requires Passed(ts[n], t', from, to, os[n], dataSize, d, e)
    ensures Translated(ts + [t'], from, to, os, dataSize, d, e, n + 1)
  {
    hide Frame, Valid, Small, Passed;
    FrameWider(os, dataSize, d, e, n);
  }

  lemma Written(ts: seq<seq<Node>>, t': seq<Node>, from: nat, to: nat, os: seq<nat>, dataSize: nat, d: seq<Byte>,
                e: seq<Byte>, n: nat, g: Flat)
    requires Translated(ts, from, to, os, dataSize, d, e, n) && n < |os| && Separate(os, dataSize)
    requires Valid(t') && Small(t') && Fits(g) && os[n] + SIZE <= dataSize <= |e| == |d|
    requires Sent(ts[n], from, to, FlatAt(d, os[n]), t', g)
    ensures Translated(ts + [t'], from, to, os, dataSize, d, Put(e, os[n], FlatBytes(g)), n + 1)
  {
    hide Frame, Valid, Small, Passed, Put, FlatAt, Sent, Separate, FlatBytes;
    var e' := Put(e, os[n], FlatBytes(g));
    FrameWritten(os, dataSize, d, e, n, FlatBytes(g));
    forall i | 0 <= i < n
      ensures Passed(ts[i], ts[i + 1], from, to, os[i], dataSize, d, e')
    {
      PassedKept(ts[i], ts[i + 1], from, to, os, i, n, dataSize, d, e, FlatBytes(g));
    }
    assert Passed(ts[n], t', from, to, os[n], dataSize, d, e') by {
      LastPassed(ts[n], t', from, to, os[n], dataSize, d, e, g);
    }
  }

  lemma LastPassed(t: seq<Node>, t': seq<Node>, from: nat, to: nat, at: nat, dataSize: nat, d: seq<Byte>,
                   e: seq<Byte>, g: Flat)
    requires Fits(g) && at + SIZE <= dataSize <= |e| == |d| && Sent(t, from, to, FlatAt(d, at), t', g)
    ensures Passed(t, t', from, to, at, dataSize, d, Put(e, at, FlatBytes(g)))
  {
    hide Put, FlatAt, FlatBytes, Sent;
    FlatWritten(e, at, g);
  }

  /** Exactly the entries 1..k are taken. */
  ghost predicate FilledTo(t: seq<Node>, k: nat) {
    k < |t| && forall i :: 0 < i < |t| ==> (t[i].Node? <==> i <= k)
  }

  /** The pointers and cookies of the entries after lo, up to hi. */
  ghost function Entered(t: seq<Node>, lo: nat, hi: nat): seq<(nat, nat)>
    requires lo <= hi < |t|
  {
    seq(hi - lo, j requires 0 <= j < hi - lo => if t[lo + 1 + j].Node? then (t[lo + 1 + j].ptr, t[lo + 1 + j].cookie)
        else (0, 0))
  }

  /** An object that is registered takes the next entry; anything else takes none. */
  lemma Counted(t: seq<Node>, from: nat, to: nat, f: Flat, t': seq<Node>, g: Flat, lo: nat, hi: nat)
    requires Valid(t) && Sent(t, from, to, f, t', g) && lo <= hi && FilledTo(t, hi)
    ensures var made := IsOwn(f) && !Known(t, from, f.binder);
            if made then hi + 1 < |t'| && FilledTo(t', hi + 1)
              && Entered(t', lo, hi + 1) == Entered(t, lo, hi) + [(f.binder, f.cookie)]
            else t' == t
  {
    var h: nat :| SentAs(t, from, to, f, t', g, h);
    if IsOwn(f) && !Known(t, from, f.binder) {
      var p := h - 1;
      assert t[h].Free? && (p > 0 ==> t[p].Node?);
      assert h == hi + 1;
    }
  }

  lemma Filled(t: seq<Node>) returns (k: nat)
    requires Valid(t)
    ensures FilledTo(t, k) && Entered(t, k, k) == []
  {
    k := 0;
    while k + 1 < |t| && t[k + 1].Node?
      invariant k < |t| && forall i :: 0 < i <= k ==> t[i].Node?
    {
      k := k + 1;
    }
    assert forall i :: k + 1 < i < |t| ==> t[k + 1].Node? || t[i].Free?;
  }

  /** What the loop does at entry i. */
  ghost predicate Turn(t: seq<Node>, from: nat, to: nat, l: Layout, e: seq<Byte>, i: nat, t': seq<Node>,
                       e': seq<Byte>, told: seq<(nat, nat)>, g: Flat)
    requires Laid(l, e) && i < l.n
  {
    var o := BinderParcel.Off(e, l, i);
    if o + SIZE > l.dataSize then t' == t && e' == e && told == []
    else
      var f := FlatAt(e, o);
      && Sent(t, from, to, f, t', g)
      && e' == (if g == f then e else Put(e, o, FlatBytes(g)))
      && told == if IsOwn(f) && !Known(t, from, f.binder) then [(f.binder, f.cookie)] else []
  }

  method TranslateOne(node: array<Node>, from: nat, to: nat, data: array<Byte>, l: Layout, i: nat)
    returns (ok: bool, told: seq<(nat, nat)>, ghost g: Flat)
    requires Valid(node[..]) && Laid(l, data[..]) && i < l.n
    modifies node, data
    ensures Valid(node[..]) && |data[..]| == |old(data[..])|
    ensures ok ==> Turn(old(node[..]), from, to, l, old(data[..]), i, node[..], data[..], told, g)
    ensures !ok ==> node[..] == old(node[..]) && data[..] == old(data[..]) && told == [] && Full(node[..])
  {
    hide Valid, Sent, FlatAt, FlatBytes, Put, Full, Known, Get;
    told := [];
    g := Flat(0, 0, 0, 0);
    var o := BinderParcel.Off(data[..], l, i);
    if o + SIZE > l.dataSize {
      return true, [], g;
    }
    var f := FlatAt(data[..], o);
    var h, made;
    ok, h, made := Translate(node, from, to, f);
    g := h;
    if ok {
      if made {
        told := [(f.binder, f.cookie)];
      }
      if h != f {
        BinderParcel.Store(data, o, FlatBytes(h));
      }
    }
  }

  lemma TurnCounts(t: seq<Node>, from: nat, to: nat, l: Layout, e: seq<Byte>, i: nat, t': seq<Node>, e': seq<Byte>,
                   told: seq<(nat, nat)>, g: Flat, lo: nat, hi: nat)
    requires Laid(l, e) && i < l.n && Turn(t, from, to, l, e, i, t', e', told, g)
    requires Valid(t) && Small(t) && lo <= hi && FilledTo(t, hi)
    ensures Small(t') && Grows(t, t') && hi + |told| < |t'| && FilledTo(t', hi + |told|)
    ensures Entered(t', lo, hi + |told|) == Entered(t, lo, hi) + told
  {
    hide Small, Sent, FlatAt, FlatBytes, Put, Known, Get, Entered;
    var o := BinderParcel.Off(e, l, i);
    if o + SIZE <= l.dataSize {
      var f := FlatAt(e, o);
      FlatFits(e, o);
      SentSmall(t, from, to, f, t', g);
      SentKeeps(t, from, to, f, t', g);
      Counted(t, from, to, f, t', g, lo, hi);
    }
  }

  lemma TurnTranslates(ts: seq<seq<Node>>, from: nat, to: nat, d: seq<Byte>, l: Layout, e: seq<Byte>, i: nat,
                       t': seq<Node>, e': seq<Byte>, told: seq<(nat, nat)>, g: Flat)
    requires Laid(l, d) && Laid(l, e) && i < l.n && Separate(Offs(d, l), l.dataSize)
    requires Translated(ts, from, to, Offs(d, l), l.dataSize, d, e, i)
    requires Turn(ts[i], from, to, l, e, i, t', e', told, g) && Valid(t') && Small(t')
    ensures Translated(ts + [t'], from, to, Offs(d, l), l.dataSize, d, e', i + 1)
  {
    hide Offs, Frame, Valid, Small, Separate, Sent, FlatAt, FlatBytes, Put, Known, Get;
    var os := Offs(d, l);
    OffsetKept(d, e, l, i, i);
    if os[i] + SIZE <= l.dataSize {
      StillThere(os, l.dataSize, d, e, i);
      FlatFits(e, os[i]);
      assert Valid(ts[i]) && Small(ts[i]);
      SentSmall(ts[i], from, to, FlatAt(e, os[i]), t', g);
      if g != FlatAt(e, os[i]) {
        Written(ts, t', from, to, os, l.dataSize, d, e, i, g);
      } else {
        Unwritten(ts, t', from, to, os, l.dataSize, d, e, i);
      }
    } else {
      Unwritten(ts, t', from, to, os, l.dataSize, d, e, i);
    }
  }

  /** The objects of one message, in order.  `told` is what the sender is asked to hold
      a reference to: each of its objects that has just been given a handle. */
  method TranslateAll(node: array<Node>, from: nat, to: nat, data: array<Byte>, l: Layout)
    returns (ok: bool, told: seq<(nat, nat)>, ghost ts: seq<seq<Node>>, ghost lo: nat, ghost hi: nat)
    requires Valid(node[..]) && Small(node[..]) && Laid(l, data[..])
    modifies node, data
    ensures Valid(node[..]) && Small(node[..]) && Grows(old(node[..]), node[..])
    ensures lo <= hi && FilledTo(old(node[..]), lo) && FilledTo(node[..], hi) && told == Entered(node[..], lo, hi)
    ensures ok && Separate(Offs(old(data[..]), l), l.dataSize) ==>
              && Translated(ts, from, to, Offs(old(data[..]), l), l.dataSize, old(data[..]), data[..], l.n)
              && ts[0] == old(node[..]) && ts[l.n] == node[..]
    ensures !ok ==> Full(node[..])
  {
    hide Valid, Small, Separate, Translated, FilledTo, Entered, Offs, Full, Turn, Grows;
    ghost var d, t0 := data[..], node[..];
    ghost var os := Offs(d, l);
    ghost var good := Separate(os, l.dataSize);
    lo := Filled(t0);
    hi := lo;
    ts := [t0];
    told := [];
    Beginning(t0, from, to, os, l.dataSize, d);
    Within(t0, lo);
    var i := 0;
    ok := true;
    while i < l.n
      invariant ok && 0 <= i <= l.n && Laid(l, data[..]) && Valid(node[..]) && Small(node[..]) && Grows(t0, node[..])
      invariant lo <= hi < |node[..]| && FilledTo(node[..], hi) && told == Entered(node[..], lo, hi)
      invariant |ts| == i + 1 && ts[0] == t0 && ts[i] == node[..]
      invariant good ==> Translated(ts, from, to, os, l.dataSize, d, data[..], i)
    {
      ghost var t, e := node[..], data[..];
      var more;
      ghost var g;
      ok, more, g := TranslateOne(node, from, to, data, l, i);
      if !ok {
        return;
      }
      TurnCounts(t, from, to, l, e, i, node[..], data[..], more, g, lo, hi);
      GrowsOn(t0, t, node[..]);
      if good {
        TurnTranslates(ts, from, to, d, l, e, i, node[..], data[..], more, g);
      }
      ts, told, hi := ts + [node[..]], told + more, hi + |more|;
      i := i + 1;
    }
  }

  lemma Beginning(t: seq<Node>, from: nat, to: nat, os: seq<nat>, dataSize: nat, d: seq<Byte>)
    requires Valid(t) && Small(t)
    ensures Translated([t], from, to, os, dataSize, d, d, 0) && Grows(t, t)
  {
    hide Valid, Small;
  }

  lemma Within(t: seq<Node>, k: nat)
    requires FilledTo(t, k)
    ensures k < |t|
  {
  }

  lemma GrowsOn(a: seq<Node>, b: seq<Node>, c: seq<Node>)
    requires Grows(a, b) && Grows(b, c)
    ensures Grows(a, c)
  {
  }

  /** What each object of a message meant to its sender it means to its receiver. */
  lemma {:induction false} MessageKeeps(ts: seq<seq<Node>>, from: nat, to: nat, os: seq<nat>, dataSize: nat,
                                        d: seq<Byte>, e: seq<Byte>, n: nat, i: nat)
    requires Translated(ts, from, to, os, dataSize, d, e, n) && i < n && os[i] + SIZE <= dataSize <= |d|
    ensures |e| == |d| && Grows(ts[0], ts[i]) && Grows(ts[i + 1], ts[n])
    ensures var was := Denote(ts[0], from, FlatAt(d, os[i]));
            !was.Nothing? ==> Denote(ts[n], to, FlatAt(e, os[i])) == was
    ensures FlatAt(e, os[i]).flags == FlatAt(d, os[i]).flags
  {
    hide Frame, Small, FlatAt, Sent, Valid, Denote, Grows;
    FrameSize(os, dataSize, d, e, n);
    TablesGrow(ts, from, to, os, dataSize, d, e, n, 0, i);
    TablesGrow(ts, from, to, os, dataSize, d, e, n, i + 1, n);
    assert Passed(ts[i], ts[i + 1], from, to, os[i], dataSize, d, e) && Valid(ts[i]);
    SentKeeps(ts[i], from, to, FlatAt(d, os[i]), ts[i + 1], FlatAt(e, os[i]));
    MeaningLasts(ts[0], ts[i], from, FlatAt(d, os[i]));
    MeaningLasts(ts[i + 1], ts[n], to, FlatAt(e, os[i]));
  }

  lemma {:induction false} TablesGrow(ts: seq<seq<Node>>, from: nat, to: nat, os: seq<nat>, dataSize: nat,
                                      d: seq<Byte>, e: seq<Byte>, n: nat, i: nat, j: nat)
    requires Translated(ts, from, to, os, dataSize, d, e, n) && i <= j <= n
    ensures Grows(ts[i], ts[j])
    decreases j
  {
    hide Frame, Small, FlatAt, Sent, Valid;
    if i < j {
      TablesGrow(ts, from, to, os, dataSize, d, e, n, i, j - 1);
      assert Passed(ts[j - 1], ts[j], from, to, os[j - 1], dataSize, d, e) && Valid(ts[j - 1]);
      if os[j - 1] + SIZE <= dataSize {
        SentKeeps(ts[j - 1], from, to, FlatAt(d, os[j - 1]), ts[j], FlatAt(e, os[j - 1]));
      }
    }
  }
}
