/** Bytes and the little-endian words laid out in them. */
module Bytes {

  type Byte = b: int | 0 <= b < 256

  /** The n low bytes of v, least significant first. */
  function Le(v: nat, n: nat): (s: seq<Byte>)
    ensures |s| == n
    decreases n
  {
    if n == 0 then [] else [v % 256] + Le(v / 256, n - 1)
  }

  function Value(s: seq<Byte>): (v: nat) {
    if s == [] then 0 else s[0] + 256 * Value(s[1..])
  }

  ghost function Range(n: nat): nat {
    if n == 0 then 1 else 256 * Range(n - 1)
  }

  /** A word that fits is read back as it was written. */
  lemma {:induction false} ValueOfLe(v: nat, n: nat)
    requires v < Range(n)
    ensures Value(Le(v, n)) == v
    decreases n
  {
    if n > 0 {
      ValueOfLe(v / 256, n - 1);
      assert Le(v, n)[1..] == Le(v / 256, n - 1);
    }
  }

  lemma {:induction false} ValueFits(s: seq<Byte>)
    ensures Value(s) < Range(|s|)
  {
    if s != [] {
      ValueFits(s[1..]);
    }
  }

  /** Each byte further on counts for 256 times as much. */
  lemma {:induction false} ValueAppends(s: seq<Byte>, b: Byte)
    ensures Value(s + [b]) == Value(s) + b * Range(|s|)
  {
    var t := s + [b];
    if s == [] {
      assert t[1..] == [];
    } else {
      ValueAppends(s[1..], b);
      assert t[1..] == s[1..] + [b];
      assert b * Range(|s|) == 256 * (b * Range(|s| - 1));
    }
  }

  /** Words of one width that have the same value are the same bytes. */
  lemma {:induction false} ValueInjective(s: seq<Byte>, t: seq<Byte>)
    requires |s| == |t| && Value(s) == Value(t)
    ensures s == t
  {
    if s != [] {
      assert s[0] == t[0] && Value(s[1..]) == Value(t[1..]);
      ValueInjective(s[1..], t[1..]);
      assert s == [s[0]] + s[1..] && t == [t[0]] + t[1..];
    }
  }

  function Get(mem: seq<Byte>, at: nat, n: nat): nat
    requires at + n <= |mem|
  {
    Value(mem[at..at + n])
  }

  function Put(mem: seq<Byte>, at: nat, bytes: seq<Byte>): (r: seq<Byte>)
    requires at + |bytes| <= |mem|
    ensures |r| == |mem|
  {
    mem[..at] + bytes + mem[at + |bytes|..]
  }

  /** A range that a write does not touch reads the same. */
  lemma PutElsewhere(mem: seq<Byte>, at: nat, bytes: seq<Byte>, lo: nat, hi: nat)
    requires at + |bytes| <= |mem| && lo <= hi <= |mem| && (hi <= at || at + |bytes| <= lo)
    ensures Put(mem, at, bytes)[lo..hi] == mem[lo..hi]
  {
  }

  lemma GetPut(mem: seq<Byte>, at: nat, v: nat, n: nat)
    requires at + n <= |mem| && v < Range(n)
    ensures Get(Put(mem, at, Le(v, n)), at, n) == v
  {
    ValueOfLe(v, n);
    assert Put(mem, at, Le(v, n))[at..at + n] == Le(v, n);
  }
}
