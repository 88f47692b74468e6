/** Vectored requests: a write is gathered into one buffer when it is submitted, and a
    read is scattered from one buffer when it is reaped.
 */
module AioVectors {
  import opened Bytes

  const MAX_IOV := 1024

  datatype Error = None | Invalid | Fault

  /** A stretch of the guest's memory. */
  datatype Iov = Iov(at: nat, len: nat)

  /** The length of the stretches from i on. */
  function Total(iov: seq<Iov>, i: nat): nat
    requires i <= |iov|
    decreases |iov| - i
  {
    if i == |iov| then 0 else iov[i].len + Total(iov, i + 1)
  }

  predicate Inside(v: Iov, size: nat) {
    v.len > 0 ==> v.at + v.len <= size
  }

  /** Every stretch that is not empty lies in memory. */
  predicate Mapped(iov: seq<Iov>, size: nat) {
    forall i :: 0 <= i < |iov| && iov[i].len > 0 ==> iov[i].at + iov[i].len <= size
  }

  function Piece(mem: seq<Byte>, v: Iov): (s: seq<Byte>)
    requires Inside(v, |mem|)
    ensures |s| == v.len
  {
    if v.len == 0 then [] else mem[v.at..v.at + v.len]
  }

  /** The bytes of the stretches from i on, one after another. */
  function Gathered(mem: seq<Byte>, iov: seq<Iov>, i: nat): (s: seq<Byte>)
    requires i <= |iov| && Mapped(iov, |mem|)
    ensures |s| == Total(iov, i)
    decreases |iov| - i
  {
    if i == |iov| then [] else Piece(mem, iov[i]) + Gathered(mem, iov, i + 1)
  }

  /** Byte k of stretch j comes after every byte of the stretches before it. */
  lemma {:induction false} GatheredAt(mem: seq<Byte>, iov: seq<Iov>, i: nat, j: nat, k: nat)
    requires i <= j < |iov| && Mapped(iov, |mem|) && k < iov[j].len
    ensures 0 <= Total(iov, i) - Total(iov, j) && Total(iov, i) - Total(iov, j) + k < Total(iov, i)
    ensures Gathered(mem, iov, i)[Total(iov, i) - Total(iov, j) + k] == mem[iov[j].at + k]
    decreases |iov| - i
  {
    hide Mapped, Piece;
    MappedAt(iov, |mem|, i);
    var first, rest := Piece(mem, iov[i]), Gathered(mem, iov, i + 1);
    if i < j {
      GatheredAt(mem, iov, i + 1, j, k);
      assert (first + rest)[iov[i].len + (Total(iov, i + 1) - Total(iov, j) + k)]
          == rest[Total(iov, i + 1) - Total(iov, j) + k];
    } else {
      PieceAt(mem, iov[i], k);
    }
  }

  lemma PieceAt(mem: seq<Byte>, v: Iov, k: nat)
    requires Inside(v, |mem|) && k < v.len
    ensures Piece(mem, v)[k] == mem[v.at + k]
  {
  }

  function Least(a: nat, b: nat): nat {
    if a <= b then a else b
  }

  /** Memory with bytes put at `at`, if there are any. */
  function Written(mem: seq<Byte>, at: nat, bytes: seq<Byte>): (m: seq<Byte>)
    requires bytes != [] ==> at + |bytes| <= |mem|
    ensures |m| == |mem|
  {
    if bytes == [] then mem else Put(mem, at, bytes)
  }

  lemma WrittenAt(mem: seq<Byte>, at: nat, bytes: seq<Byte>, k: nat)
    requires (bytes != [] ==> at + |bytes| <= |mem|) && k < |mem|
    ensures Written(mem, at, bytes)[k] == if at <= k < at + |bytes| then bytes[k - at] else mem[k]
  {
  }

  /** As much of the stretches from i on as n bytes go into lies in memory. */
  predicate Reachable(iov: seq<Iov>, i: nat, n: nat, size: nat)
    requires i <= |iov|
    decreases |iov| - i
  {
    i == |iov| || n == 0 ||
    (var s := Least(n, iov[i].len); (s > 0 ==> iov[i].at + s <= size) && Reachable(iov, i + 1, n - s, size))
  }

  lemma {:induction false} MappedIsReachable(iov: seq<Iov>, i: nat, n: nat, size: nat)
    requires i <= |iov| && Mapped(iov, size)
    ensures Reachable(iov, i, n, size)
    decreases |iov| - i
  {
    if i < |iov| {
      MappedAt(iov, size, i);
      MappedIsReachable(iov, i + 1, n - Least(n, iov[i].len), size);
    }
  }

  /** Memory with buf[at..] written into the stretches from i on, as far as it goes. */
  function Scattered(mem: seq<Byte>, iov: seq<Iov>, i: nat, buf: seq<Byte>, at: nat): (m: seq<Byte>)
    requires i <= |iov| && at <= |buf| && Reachable(iov, i, |buf| - at, |mem|)
    ensures |m| == |mem|
    decreases |iov| - i
  {
    if i == |iov| || at == |buf| then mem
    else
      var s := Least(|buf| - at, iov[i].len);
      Scattered(Written(mem, iov[i].at, buf[at..at + s]), iov, i + 1, buf, at + s)
  }

  lemma MappedAt(iov: seq<Iov>, size: nat, i: nat)
    requires Mapped(iov, size) && i < |iov|
    ensures Inside(iov[i], size)
  {
  }

  predicate Holds(v: Iov, k: int) {
    v.at <= k < v.at + v.len
  }

  /** No two stretches share a byte. */
  ghost predicate Separate(iov: seq<Iov>) {
    forall i, j, k :: 0 <= i < j < |iov| && Holds(iov[i], k) ==> !Holds(iov[j], k)
  }

  /** Scattering leaves every byte outside the stretches alone. */
  lemma {:induction false} Outside(mem: seq<Byte>, iov: seq<Iov>, i: nat, buf: seq<Byte>, at: nat, k: nat)
    requires i <= |iov| && at <= |buf| && Reachable(iov, i, |buf| - at, |mem|) && k < |mem|
    requires forall j :: i <= j < |iov| ==> !Holds(iov[j], k)
    ensures Scattered(mem, iov, i, buf, at)[k] == mem[k]
    decreases |iov| - i
  {
    hide Written;
    if i < |iov| && at < |buf| {
      var s := Least(|buf| - at, iov[i].len);
      assert !Holds(iov[i], k);
      WrittenAt(mem, iov[i].at, buf[at..at + s], k);
      Outside(Written(mem, iov[i].at, buf[at..at + s]), iov, i + 1, buf, at + s, k);
    }
  }

  /** A buffer scattered and gathered again is the same buffer. */
  lemma {:induction false} RoundTrip(mem: seq<Byte>, iov: seq<Iov>, i: nat, buf: seq<Byte>, at: nat)
    requires i <= |iov| && at <= |buf| && Mapped(iov, |mem|) && Separate(iov) && |buf| - at <= Total(iov, i)
    ensures Reachable(iov, i, |buf| - at, |mem|)
    ensures Gathered(Scattered(mem, iov, i, buf, at), iov, i)[..|buf| - at] == buf[at..]
    decreases |iov| - i
  {
    hide Written, Mapped, Piece, Separate;
    MappedIsReachable(iov, i, |buf| - at, |mem|);
    if i < |iov| && at < |buf| {
      var s := Least(|buf| - at, iov[i].len);
      MappedAt(iov, |mem|, i);
      var mid := Written(mem, iov[i].at, buf[at..at + s]);
      var end := Scattered(mid, iov, i + 1, buf, at + s);
      RoundTrip(mid, iov, i + 1, buf, at + s);
      FirstKept(mem, iov, i, buf, at, s);
      Joined(Piece(end, iov[i]), Gathered(end, iov, i + 1), buf, at, s);
    }
  }

  /** The later stretches do not disturb the first. */
  lemma FirstKept(mem: seq<Byte>, iov: seq<Iov>, i: nat, buf: seq<Byte>, at: nat, s: nat)
    requires i < |iov| && at + s <= |buf| && Separate(iov) && s <= iov[i].len
    requires Inside(iov[i], |mem|) && Reachable(iov, i + 1, |buf| - at - s, |mem|)
    ensures var end := Scattered(Written(mem, iov[i].at, buf[at..at + s]), iov, i + 1, buf, at + s);
            Piece(end, iov[i])[..s] == buf[at..at + s]
  {
    hide Written, Scattered, Reachable;
    var mid := Written(mem, iov[i].at, buf[at..at + s]);
    var end := Scattered(mid, iov, i + 1, buf, at + s);
    forall k | iov[i].at <= k < iov[i].at + s
      ensures end[k] == buf[at + (k - iov[i].at)]
    {
      assert Holds(iov[i], k);
      WrittenAt(mem, iov[i].at, buf[at..at + s], k);
      Outside(mid, iov, i + 1, buf, at + s, k);
    }
    forall j | 0 <= j < s
      ensures Piece(end, iov[i])[j] == buf[at + j]
    {
      assert end[iov[i].at + j] == buf[at + (iov[i].at + j - iov[i].at)];
    }
  }

  /** The first stretch and the rest give the buffer between them. */
  lemma Joined(first: seq<Byte>, rest: seq<Byte>, buf: seq<Byte>, at: nat, s: nat)
    requires at < |buf| && s == Least(|buf| - at, |first|) && |buf| - at <= |first| + |rest|
    requires first[..s] == buf[at..at + s] && rest[..|buf| - at - s] == buf[at + s..]
    ensures (first + rest)[..|buf| - at] == buf[at..]
  {
    var n := |buf| - at;
    assert buf[at..] == buf[at..at + s] + buf[at + s..];
    if s == n {
      assert (first + rest)[..n] == first[..s];
    } else {
      assert (first + rest)[..n] == first + rest[..n - s] && first[..s] == first;
    }
  }

  /** build, for a vectored write: the stretches copied into a new buffer. */
  method Gather(mem: seq<Byte>, iov: seq<Iov>) returns (err: Error, buf: seq<Byte>)
    ensures err == if |iov| > MAX_IOV then Invalid else if !Mapped(iov, |mem|) then Fault else None
    ensures err == None ==> buf == Gathered(mem, iov, 0)
  {
    hide Piece;
    buf := [];
    if |iov| > MAX_IOV {
      return Invalid, buf;
    }
    ghost var good := Mapped(iov, |mem|);
    var i := 0;
    assert good ==> buf + Gathered(mem, iov, 0) == Gathered(mem, iov, 0);
    while i < |iov|
      invariant 0 <= i <= |iov| && (forall j :: 0 <= j < i ==> Inside(iov[j], |mem|))
      invariant good ==> buf + Gathered(mem, iov, i) == Gathered(mem, iov, 0)
    {
      if !Inside(iov[i], |mem|) {
        return Fault, buf;
      }
      assert good ==>
        buf + (Piece(mem, iov[i]) + Gathered(mem, iov, i + 1)) == buf + Piece(mem, iov[i]) + Gathered(mem, iov, i + 1);
      buf := buf + Piece(mem, iov[i]);
      i := i + 1;
    }
    assert buf + [] == buf;
    return None, buf;
  }

  /** deliver, for a vectored read: what was read is copied out, until it is used up. */
  method Scatter(mem: array<Byte>, iov: seq<Iov>, buf: seq<Byte>) returns (err: Error)
    modifies mem
    ensures err == if Reachable(iov, 0, |buf|, mem.Length) then None else Fault
    ensures err == None ==> mem[..] == Scattered(old(mem[..]), iov, 0, buf, 0)
  {
    hide Written;
    ghost var good := Reachable(iov, 0, |buf|, mem.Length);
    ghost var all := if good then Scattered(mem[..], iov, 0, buf, 0) else [];
    var i, at := 0, 0;
    while i < |iov| && at < |buf|
      invariant 0 <= i <= |iov| && 0 <= at <= |buf| && (good <==> Reachable(iov, i, |buf| - at, mem.Length))
      invariant good ==> all == Scattered(mem[..], iov, i, buf, at)
    {
      var s := Least(|buf| - at, iov[i].len);
      if s > 0 && iov[i].at + s > mem.Length {
        return Fault;
      }
      Copy(mem, iov[i].at, buf[at..at + s]);
      at, i := at + s, i + 1;
    }
    return None;
  }

  method Copy(mem: array<Byte>, at: nat, bytes: seq<Byte>)
    requires bytes != [] ==> at + |bytes| <= mem.Length
    modifies mem
    ensures mem[..] == Written(old(mem[..]), at, bytes)
  {
    forall k | 0 <= k < |bytes| {
      mem[at + k] := bytes[k];
    }
  }
}
