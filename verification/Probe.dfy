/** Triangular probing, the step rule shared by every loop of the hash table.

    From bucket h mod n the k-th step adds k, so after s steps the probe stands
    h + s*(s+1)/2 buckets on.  When n is a power of two the first n probes are
    a permutation of the buckets and the start is met again at step 2n-1, and
    not before.
 */
module Probe {
  import opened Basics

  ghost predicate PowerOfTwo(n: nat)
  {
    exists k: nat :: Exp2(k) == n
  }

  lemma PowerOfTwoDoubles(n: nat)
    requires PowerOfTwo(n)
    ensures PowerOfTwo(2 * n) && n > 0
  {
    var k: nat :| Exp2(k) == n;
    assert Exp2(k + 1) == 2 * n;
  }

  /** The smallest power of two that is at least x; zero stays zero, as it does
      when the rounding macro wraps around. */
  function RoundUp(x: nat): (r: nat)
    ensures x == 0 ==> r == 0
    ensures x > 0 ==> PowerOfTwo(r) && x <= r < 2 * x
  {
    if x == 0 then 0
    else if x == 1 then assert Exp2(0) == 1; 1
    else
      var half := RoundUp((x + 1) / 2);
      PowerOfTwoDoubles(half);
      2 * half
  }

  lemma {:induction false} ExponentsOrder(j: nat, k: nat)
    ensures j < k ==> 2 * Exp2(j) <= Exp2(k)
    ensures j == k ==> Exp2(j) == Exp2(k)
    decreases j + k
  {
    if k > j {
      ExponentsOrder(j, k - 1);
    }
  }

  lemma PowersOfTwoDouble(p: nat, q: nat)
    requires PowerOfTwo(p) && PowerOfTwo(q)
    ensures p < q ==> 2 * p <= q
  {
    var j: nat, k: nat :| Exp2(j) == p && Exp2(k) == q;
    ExponentsOrder(j, k);
    ExponentsOrder(k, j);
  }

  /** So nothing smaller than RoundUp(x) would do. */
  lemma RoundUpIsLeast(x: nat, p: nat)
    requires PowerOfTwo(p) && 0 < x <= p
    ensures RoundUp(x) <= p
  {
    PowersOfTwoDouble(p, RoundUp(x));
  }

  function Triangle(s: nat): nat {
    if s == 0 then 0 else Triangle(s - 1) + s
  }

  /** Where the probe for hash h stands after s steps. */
  function At(n: nat, h: nat, s: nat): (i: nat)
    requires n > 0
    ensures i < n
  {
    (h + Triangle(s)) % n
  }

  lemma {:induction false} TriangleTwice(s: nat)
    ensures 2 * Triangle(s) == s * (s + 1)
  {
    if s > 0 {
      TriangleTwice(s - 1);
      assert s * (s + 1) == (s - 1) * s + 2 * s;
    }
  }

  lemma MulSpread(k: int, n: int)
    requires n > 0
    ensures k >= 1 ==> k * n >= n
    ensures k <= -1 ==> k * n <= -n
  {
    assert k * n == (k - 1) * n + n == (k + 1) * n - n;
  }

  lemma DivModUnique(x: int, n: nat, q: int, r: int)
    requires n > 0 && x == q * n + r && 0 <= r < n
    ensures x / n == q && x % n == r
  {
    var q' := x / n;
    assert n * q' == q' * n;
    assert (q' - q) * n == q' * n - q * n;
    MulSpread(q' - q, n);
  }

  lemma ModShift(a: int, q: int, n: nat)
    requires n > 0
    ensures (a + q * n) % n == a % n
  {
    assert n * (a / n) == (a / n) * n;
    assert (a / n + q) * n == (a / n) * n + q * n;
    DivModUnique(a + q * n, n, a / n + q, a % n);
  }

  lemma ModStep(a: nat, b: nat, n: nat)
    requires n > 0
    ensures (a % n + b) % n == (a + b) % n
  {
    var q := a / n;
    assert n * q == q * n;
    ModShift(a % n + b, q, n);
  }

  /** One turn of the probe loops: step k+1 adds k+1 and masks. */
  lemma AtStep(n: nat, h: nat, s: nat)
    requires n > 0
    ensures At(n, h, 0) == h % n
    ensures At(n, h, s + 1) == (At(n, h, s) + (s + 1)) % n
  {
    ModStep(h + Triangle(s), s + 1, n);
  }

  lemma {:induction false} EvenFactor(a: nat, b: nat, p: nat)
    requires b % 2 == 1 && a * b == p && p % 2 == 0
    ensures a % 2 == 0
    decreases a
  {
    if a >= 2 {
      TwoLess(a, b);
      EvenFactor(a - 2, b, (a - 2) * b);
    }
  }

  lemma TwoLess(a: nat, b: nat)
    requires a >= 2
    ensures a * b == (a - 2) * b + 2 * b
  {
  }

  /** A power of two dividing a product with one odd factor divides the other. */
  lemma {:induction false} OddFactor(k: nat, a: nat, b: nat, q: nat) returns (c: nat)
    requires b % 2 == 1 && a * b == Exp2(k) * q
    ensures a == Exp2(k) * c
  {
    if k == 0 {
      c := a;
    } else {
      var m, a' := Exp2(k - 1), a / 2;
      Twice(m, q);
      EvenFactor(a, b, 2 * (m * q));
      Twice(a', b);
      c := OddFactor(k - 1, a', b, q);
      Twice(m, c);
    }
  }

  lemma Twice(m: nat, q: nat)
    ensures (2 * m) * q == 2 * (m * q)
  {
  }

  /** Two step counts that meet have a difference and a sum whose product is a
      multiple of 2n. */
  lemma MeetingFactors(n: nat, h: nat, s: nat, t: nat) returns (q: nat)
    requires n > 0 && s < t && At(n, h, s) == At(n, h, t)
    ensures (t - s) * (t + s + 1) == (2 * n) * q
  {
    TriangleGrows(s, t);
    q := SameResidue(h + Triangle(s), h + Triangle(t), n);
    TriangleTwice(s);
    TriangleTwice(t);
    DifferenceOfSquares(s, t, Triangle(t) - Triangle(s), q, n);
  }

  lemma DifferenceOfSquares(s: nat, t: nat, d: nat, q: nat, n: nat)
    requires s < t && d == q * n && 2 * d == t * (t + 1) - s * (s + 1)
    ensures (t - s) * (t + s + 1) == (2 * n) * q
  {
    assert (t - s) * (t + s + 1) == t * (t + 1) - s * (s + 1);
    assert 2 * (q * n) == (2 * n) * q;
  }

  lemma SameResidue(a: nat, b: nat, n: nat) returns (k: nat)
    requires n > 0 && a <= b && a % n == b % n
    ensures b - a == k * n
  {
    var d := b / n - a / n;
    assert n * (b / n) == (b / n) * n && n * (a / n) == (a / n) * n;
    assert d * n == (b / n) * n - (a / n) * n;
    MulSpread(d, n);
    k := d;
  }

  lemma {:induction false} TriangleGrows(s: nat, t: nat)
    requires s <= t
    ensures Triangle(s) <= Triangle(t)
    decreases t - s
  {
    if s < t {
      TriangleGrows(s, t - 1);
    }
  }

  /** Probes s < t can only meet when their distance is 2n or their sum is 2n-1
      or more: so they never meet inside the first n, nor with the start before
      step 2n-1. */
  lemma NoEarlyMeeting(n: nat, h: nat, s: nat, t: nat)
    requires PowerOfTwo(n) && s < t
    ensures At(n, h, s) == At(n, h, t) ==> t + s + 1 >= 2 * n
  {
    if At(n, h, s) == At(n, h, t) {
      var q := MeetingFactors(n, h, s, t);
      hide At;
      var k: nat :| Exp2(k) == n;
      assert Exp2(k + 1) == 2 * n;
      FactorsAreLarge(k + 1, t - s, t + s + 1, q);
    }
  }

  /** Of two factors of opposite parity one takes in the whole power of two. */
  lemma FactorsAreLarge(k: nat, a: nat, b: nat, q: nat)
    requires a * b == Exp2(k) * q && 0 < a <= b && a % 2 != b % 2
    ensures b >= Exp2(k)
  {
    if a % 2 == 1 {
      assert b * a == a * b;
      var c := OddFactor(k, b, a, q);
      MultipleIsLarge(b, Exp2(k), c);
    } else {
      var c := OddFactor(k, a, b, q);
      MultipleIsLarge(a, Exp2(k), c);
    }
  }

  lemma MultipleIsLarge(a: nat, m: nat, c: nat)
    requires a == m * c && a > 0
    ensures a >= m
  {
    if c > 0 {
      assert m * c == m + m * (c - 1);
      assert m * (c - 1) >= 0;
    }
  }

  /** The probe returns to its start first at step 2n-1, for every hash. */
  lemma FirstReturn(n: nat, h: nat)
    requires PowerOfTwo(n)
    ensures At(n, h, 2 * n - 1) == At(n, h, 0)
    ensures forall s :: 0 < s < 2 * n - 1 ==> At(n, h, s) != At(n, h, 0)
  {
    TriangleTwice(2 * n - 1);
    var tr := Triangle(2 * n - 1);
    assert 2 * tr == 2 * ((2 * n - 1) * n);
    assert tr == (2 * n - 1) * n;
    ModShift(h, 2 * n - 1, n);
    forall s | 0 < s < 2 * n - 1
      ensures At(n, h, s) != At(n, h, 0)
    {
      NoEarlyMeeting(n, h, 0, s);
    }
  }

  ghost function Visited(n: nat, h: nat, s: nat): set<nat>
    requires n > 0
  {
    set t | 0 <= t < s :: At(n, h, t)
  }

  lemma {:induction false} VisitedSize(n: nat, h: nat, s: nat)
    requires PowerOfTwo(n) && s <= n
    ensures |Visited(n, h, s)| == s
  {
    if s > 0 {
      VisitedSize(n, h, s - 1);
      forall t | 0 <= t < s - 1
        ensures At(n, h, t) != At(n, h, s - 1)
      {
        NoEarlyMeeting(n, h, t, s - 1);
      }
      assert Visited(n, h, s) == Visited(n, h, s - 1) + {At(n, h, s - 1)};
    }
  }

  lemma {:induction false} RangeSize(n: nat, v: set<nat>)
    requires forall i :: i in v ==> i < n
    ensures |v| <= n
    ensures |v| == n ==> forall i: nat :: i < n ==> i in v
  {
    if n > 0 {
      var w := v - {n - 1};
      RangeSize(n - 1, w);
      assert |v| == |w| + if n - 1 in v then 1 else 0;
      assert |v| == n ==> forall i: nat :: i < n && i !in v ==> i !in w;
    }
  }

  /** The first n probes reach every bucket. */
  lemma EveryBucket(n: nat, h: nat, i: nat)
    requires PowerOfTwo(n) && i < n
    ensures exists s :: 0 <= s < n && At(n, h, s) == i
  {
    VisitedSize(n, h, n);
    RangeSize(n, Visited(n, h, n));
    assert i in Visited(n, h, n);
  }
}
