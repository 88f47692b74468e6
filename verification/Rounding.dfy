/** The rounding macro of the hash table: a 32-bit word decremented, its highest bit smeared
    over every bit below it, and incremented again.
 */
module Rounding {
  import opened Basics
  import opened Probe

  const WORD := 0x1_0000_0000

  ghost predicate Bit(x: nat, i: nat) {
    if i == 0 then x % 2 == 1 else Bit(x / 2, i - 1)
  }

  /** Bitwise or. */
  function Or(a: nat, b: nat): nat {
    if a == 0 && b == 0 then 0 else 2 * Or(a / 2, b / 2) + if a % 2 == 1 || b % 2 == 1 then 1 else 0
  }

  /** Shift right. */
  function Shr(x: nat, s: nat): nat
    decreases s
  {
    if s == 0 then x else Shr(x / 2, s - 1)
  }

  function Smear(x: nat): nat {
    var x := Or(x, Shr(x, 1));
    var x := Or(x, Shr(x, 2));
    var x := Or(x, Shr(x, 4));
    var x := Or(x, Shr(x, 8));
    Or(x, Shr(x, 16))
  }

  /** A word decremented, and incremented, with the wrap of either. */
  function Down(x: nat): nat {
    if x == 0 then WORD - 1 else x - 1
  }

  function Up(x: nat): nat {
    if x + 1 == WORD then 0 else x + 1
  }

  /** kroundup32. */
  function Macro(x: nat): nat {
    Up(Smear(Down(x)))
  }

  lemma {:induction false} OrBit(a: nat, b: nat, i: nat)
    ensures Bit(Or(a, b), i) <==> Bit(a, i) || Bit(b, i)
    decreases i
  {
    if i > 0 {
      OrBit(a / 2, b / 2, i - 1);
      assert a == 0 && b == 0 ==> Or(a / 2, b / 2) == 0;
      assert Or(a, b) / 2 == Or(a / 2, b / 2);
    }
  }

  lemma {:induction false} ShrBit(x: nat, s: nat, i: nat)
    ensures Bit(Shr(x, s), i) <==> Bit(x, i + s)
    decreases s
  {
    if s > 0 {
      ShrBit(x / 2, s - 1, i);
    }
  }

  /** How many bits x has. */
  ghost function Width(x: nat): (n: nat)
    ensures x > 0 <==> n > 0
  {
    if x == 0 then 0 else 1 + Width(x / 2)
  }

  lemma {:induction false} WidthBounds(x: nat)
    ensures x < Exp2(Width(x)) && (x > 0 ==> Exp2(Width(x) - 1) <= x && Bit(x, Width(x) - 1))
  {
    if x > 1 {
      WidthBounds(x / 2);
    }
  }

  lemma {:induction false} NothingAbove(x: nat, i: nat)
    requires i >= Width(x)
    ensures !Bit(x, i)
    decreases i
  {
    if i > 0 {
      NothingAbove(x / 2, i - 1);
    }
  }

  /** The w highest of the n bits are all set, and there are no others above. */
  ghost predicate Spread(x: nat, n: nat, w: nat) {
    && (forall i: nat :: i >= n ==> !Bit(x, i))
    && (forall i: nat :: n <= i + w && i < n ==> Bit(x, i))
  }

  /** One turn of the macro doubles them. */
  lemma SpreadMore(x: nat, n: nat, w: nat)
    requires Spread(x, n, w)
    ensures Spread(Or(x, Shr(x, w)), n, 2 * w)
  {
    hide Bit, Or, Shr;
    var y := Or(x, Shr(x, w));
    forall i: nat
      ensures i >= n ==> !Bit(y, i)
      ensures n <= i + 2 * w && i < n ==> Bit(y, i)
    {
      OrBit(x, Shr(x, w), i);
      ShrBit(x, w, i);
      var j := i + w;
      assert j >= n ==> !Bit(x, j);
      assert n <= j + w && j < n ==> Bit(x, j);
      assert n <= i + w && i < n ==> Bit(x, i);
    }
  }

  lemma {:induction false} NoBits(x: nat)
    requires forall i: nat :: !Bit(x, i)
    ensures x == 0
  {
    assert !Bit(x, 0);
    if x > 0 {
      forall i: nat
        ensures !Bit(x / 2, i)
      {
        assert !Bit(x, i + 1);
      }
      NoBits(x / 2);
    }
  }

  lemma {:induction false} AllOnes(x: nat, n: nat)
    requires forall i: nat :: Bit(x, i) <==> i < n
    ensures x == Exp2(n) - 1
    decreases n
  {
    assert Bit(x, 0) <==> 0 < n;
    if n == 0 {
      NoBits(x);
    } else {
      forall i: nat
        ensures Bit(x / 2, i) <==> i < n - 1
      {
        assert Bit(x, i + 1) <==> i + 1 < n;
      }
      AllOnes(x / 2, n - 1);
    }
  }

  /** The smeared word has every bit up to its highest. */
  lemma SmearFills(x: nat)
    requires Width(x) <= 32
    ensures Smear(x) == Exp2(Width(x)) - 1
  {
    hide Bit, Or, Shr, Width, Exp2;
    var n := Width(x);
    WidthBounds(x);
    forall i: nat | i >= n
      ensures !Bit(x, i)
    {
      NothingAbove(x, i);
    }
    assert n > 0 ==> Bit(x, n - 1);
    assert Spread(x, n, 1);
    var a := Or(x, Shr(x, 1));
    SpreadMore(x, n, 1);
    var b := Or(a, Shr(a, 2));
    SpreadMore(a, n, 2);
    var c := Or(b, Shr(b, 4));
    SpreadMore(b, n, 4);
    var d := Or(c, Shr(c, 8));
    SpreadMore(c, n, 8);
    SpreadMore(d, n, 16);
    AllOnes(Or(d, Shr(d, 16)), n);
  }

  lemma {:induction false} Exp2Order(j: nat, k: nat)
    requires j <= k
    ensures Exp2(j) <= Exp2(k)
  {
    ExponentsOrder(j, k);
  }

  lemma Exp2Word()
    ensures Exp2(32) == WORD && Exp2(31) == WORD / 2
  {
    assert Exp2(8) == 256;
    assert Exp2(16) == 0x1_0000;
    assert Exp2(24) == 0x100_0000;
  }

  /** A word has at most 32 bits. */
  lemma NarrowWord(x: nat)
    requires x < WORD
    ensures Width(x) <= 32
  {
    WidthBounds(x);
    Exp2Word();
    if Width(x) > 32 {
      Exp2Order(32, Width(x) - 1);
    }
  }

  /** The macro gives the power of two that RoundUp gives, exactly up to 2^31; beyond that it
      wraps to 0. */
  lemma MacroRoundsUp(x: nat)
    requires x < WORD
    ensures Macro(x) == if x <= WORD / 2 then RoundUp(x) else 0
  {
    hide Smear, Width, Exp2, RoundUp;
    Exp2Word();
    NarrowWord(Down(x));
    SmearFills(Down(x));
    if x == 0 {
      FullWord();
      RoundUpZero();
    } else {
      RoundUpIs(x);
      Exp2Order(Width(x - 1), 32);
      if x > WORD / 2 {
        PastHalf(x);
      }
    }
  }

  lemma RoundUpZero()
    ensures RoundUp(0) == 0
  {
  }

  /** Between 2^31 and 2^32 there is no power of two. */
  lemma PastHalf(x: nat)
    requires WORD / 2 < x < WORD
    ensures Exp2(Width(x - 1)) >= WORD
  {
    hide Width;
    WidthBounds(x - 1);
    Exp2Word();
    if Width(x - 1) <= 31 {
      Exp2Order(Width(x - 1), 31);
    } else {
      Exp2Order(32, Width(x - 1));
    }
  }

  lemma FullWord()
    ensures Width(WORD - 1) == 32
  {
    NarrowWord(WORD - 1);
    WidthBounds(WORD - 1);
    Exp2Word();
    if Width(WORD - 1) < 32 {
      Exp2Order(Width(WORD - 1), 31);
    }
  }

  lemma RoundUpIs(x: nat)
    requires x > 0
    ensures RoundUp(x) == Exp2(Width(x - 1))
    ensures x <= WORD / 2 <==> Exp2(Width(x - 1)) <= WORD / 2
  {
    hide Width, RoundUp;
    var n, r := Width(x - 1), RoundUp(x);
    WidthBounds(x - 1);
    Exp2Word();
    assert PowerOfTwo(Exp2(n)) && PowerOfTwo(Exp2(31));
    RoundUpIsLeast(x, Exp2(n));
    if n > 0 {
      assert Exp2(n) == 2 * Exp2(n - 1) && PowerOfTwo(Exp2(n - 1));
      PowersOfTwoDouble(Exp2(n - 1), r);
    } else {
      assert Exp2(0) == 1;
    }
    assert r == Exp2(n);
    if x <= WORD / 2 {
      RoundUpIsLeast(x, Exp2(31));
    }
  }
}
