/**
  The finite float64 numbers, and the conversion of integers to them.  Every number has one
  representation, so equality of values is equality.
 */
module Float64s {
  /** `mantissa` times two to the `exponent`. */
  datatype Binary = Binary(mantissa: int, exponent: int)

  const TWO_53 := 0x20_0000_0000_0000

  /** Zero, or an odd mantissa of at most 53 bits. */
  predicate IsFloat64(f: Binary) {
    if f.mantissa == 0 then f.exponent == 0 else f.mantissa % 2 == 1 && -TWO_53 < f.mantissa < TWO_53
  }

  type Float64 = f: Binary | IsFloat64(f) witness Binary(0, 0)

  function Magnitude(n: int): nat {
    if n < 0 then -n else n
  }

  /** The representation with an odd mantissa. */
  function Canonical(mantissa: int, exponent: int): Binary
    decreases Magnitude(mantissa)
  {
    if mantissa == 0 then Binary(0, 0)
    else if mantissa % 2 == 0 then Canonical(mantissa / 2, exponent + 1)
    else Binary(mantissa, exponent)
  }

  function Power2(n: nat): (r: nat)
    ensures r >= 1
  {
    if n == 0 then 1 else 2 * Power2(n - 1)
  }

  lemma {:induction false} CanonicalValue(m: int, e: int)
    ensures var c := Canonical(m, e);
            && Magnitude(c.mantissa) <= Magnitude(m)
            && (m == 0 <==> c.mantissa == 0)
            && (m != 0 ==> c.mantissa % 2 == 1 && c.exponent >= e && c.mantissa * Power2(c.exponent - e) == m)
    decreases Magnitude(m)
  {
    if m != 0 && m % 2 == 0 {
      CanonicalValue(m / 2, e + 1);
      var c := Canonical(m / 2, e + 1);
      var p := Power2(c.exponent - (e + 1));
      assert c.mantissa * (2 * p) == 2 * (c.mantissa * p);
    }
  }

  /** Different integers have different representations. */
  lemma CanonicalUnique(m: int, n: int)
    ensures Canonical(m, 0) == Canonical(n, 0) ==> m == n
  {
    CanonicalValue(m, 0);
    CanonicalValue(n, 0);
  }

  // ----- converting integers

  /** The distance between neighbouring float64 values at magnitude `n`. */
  function Ulp(n: nat): (u: nat)
    ensures u >= 1
  {
    if n < TWO_53 then 1 else 2 * Ulp(n / 2)
  }

  /** The integer float64(i) stands for: rounded to nearest, ties to even. */
  function Rounded(i: int): int {
    if i < 0 then -RoundMagnitude(-i) else RoundMagnitude(i)
  }

  /** The multiple of `u` nearest to `n`. */
  function Nearest(n: nat, u: nat): (k: int)
    requires u > 0
    ensures n / u <= k <= n / u + 1
  {
    var q, rem := n / u, n % u;
    if 2 * rem < u || (2 * rem == u && q % 2 == 0) then q else q + 1
  }

  function RoundMagnitude(n: nat): int {
    Nearest(n, Ulp(n)) * Ulp(n)
  }

  /** float64(i) */
  function FromInt(i: int): Float64 {
    RoundedFits(i);
    Canonical(Rounded(i), 0)
  }

  lemma {:induction false} UlpBound(n: nat)
    ensures n < TWO_53 * Ulp(n)
  {
    if n >= TWO_53 {
      UlpBound(n / 2);
    }
  }

  lemma {:induction false} CanonicalOfUlp(k: int, n: nat, e: int)
    ensures exists e' :: Canonical(k * Ulp(n), e) == Canonical(k, e')
    decreases n
  {
    if n < TWO_53 || k == 0 {
      assert Canonical(k * Ulp(n), e) == Canonical(k, e);
    } else {
      var u := Ulp(n / 2);
      assert k * Ulp(n) == 2 * (k * u) && k * u != 0;
      CanonicalOfUlp(k, n / 2, e + 1);
    }
  }

  lemma SmallCanonical(k: int, e: int)
    requires -TWO_53 <= k <= TWO_53
    ensures IsFloat64(Canonical(k, e))
  {
    CanonicalValue(k, e);
    if k == TWO_53 || k == -TWO_53 {
      CanonicalValue(k / 2, e + 1);
    }
  }

  lemma MultipleFits(s: int, n: nat)
    requires -TWO_53 <= s <= TWO_53
    ensures IsFloat64(Canonical(s * Ulp(n), 0))
  {
    CanonicalOfUlp(s, n, 0);
    var e :| Canonical(s * Ulp(n), 0) == Canonical(s, e);
    SmallCanonical(s, e);
  }

  lemma NearestBound(n: nat)
    ensures 0 <= Nearest(n, Ulp(n)) <= TWO_53
  {
    UlpBound(n);
    NearestAtMost(n, Ulp(n), TWO_53);
  }

  lemma NearestAtMost(n: nat, u: nat, bound: nat)
    requires u > 0 && n < bound * u
    ensures 0 <= Nearest(n, u) <= bound
  {
    DivisionBound(n, u, bound);
  }

  lemma RoundedMultiple(i: int) returns (s: int)
    ensures -TWO_53 <= s <= TWO_53 && Rounded(i) == s * Ulp(Magnitude(i))
  {
    var n := Magnitude(i);
    NearestBound(n);
    s := Nearest(n, Ulp(n));
    if i < 0 {
      Negated(s, Ulp(n));
      s := -s;
    }
  }

  /** A rounded integer has a mantissa of at most 53 bits. */
  lemma RoundedFits(i: int)
    ensures IsFloat64(Canonical(Rounded(i), 0))
  {
    var s := RoundedMultiple(i);
    MultipleFits(s, Magnitude(i));
  }

  lemma DivisionBound(n: nat, u: nat, bound: nat)
    requires u > 0 && n < bound * u
    ensures n / u < bound
  {
    Monotone(bound, n / u, u);
  }

  lemma Monotone(a: nat, b: nat, u: nat)
    ensures a <= b ==> a * u <= b * u
  {
    if a <= b {
      assert b * u == a * u + (b - a) * u;
    }
  }

  lemma Negated(k: int, u: int)
    ensures -(k * u) == (-k) * u
  {
  }

  /** Integers of at most 53 bits keep their value. */
  lemma SmallIntegersExact(i: int, j: int)
    requires -TWO_53 <= i <= TWO_53 && -TWO_53 <= j <= TWO_53
    ensures FromInt(i) == FromInt(j) <==> i == j
  {
    assert Ulp(TWO_53) == 2 * Ulp(TWO_53 / 2) == 2;
    SmallRounded(i);
    SmallRounded(j);
    CanonicalUnique(i, j);
  }

  lemma SmallRounded(i: int)
    requires -TWO_53 <= i <= TWO_53
    ensures Rounded(i) == i
  {
    assert Ulp(TWO_53) == 2 * Ulp(TWO_53 / 2) == 2;
  }

  /** Beyond that, distinct integers can become one number. */
  lemma LargeIntegersMerge()
    ensures FromInt(TWO_53) == FromInt(TWO_53 + 1)
  {
    assert Ulp(TWO_53) == 2 * Ulp(TWO_53 / 2) == 2;
    assert Ulp(TWO_53 + 1) == 2 * Ulp((TWO_53 + 1) / 2) == 2;
  }

  /** The integers up to a bound are told apart exactly when the bound has at most 53 bits. */
  lemma ExactUpTo(bound: int)
    requires bound >= 0
    ensures (forall i, j :: -bound <= i <= bound && -bound <= j <= bound && FromInt(i) == FromInt(j) ==> i == j) <==> bound <= TWO_53
  {
    if bound <= TWO_53 {
      forall i, j | -bound <= i <= bound && -bound <= j <= bound && FromInt(i) == FromInt(j)
        ensures i == j
      {
        SmallIntegersExact(i, j);
      }
    } else {
      LargeIntegersMerge();
    }
  }

  // ----- rounding to nearest

  const TWO_52 := 0x10_0000_0000_0000

  function Distance(a: int, b: int): nat {
    Magnitude(a - b)
  }

  lemma {:induction false} CanonicalNegated(m: int, e: int)
    ensures var c := Canonical(m, e); Canonical(-m, e) == Binary(-c.mantissa, c.exponent)
    decreases Magnitude(m)
  {
    if m != 0 && m % 2 == 0 {
      assert (-m) / 2 == -(m / 2);
      CanonicalNegated(m / 2, e + 1);
    }
  }

  lemma {:induction false} PowersMultiply(a: nat, b: nat)
    ensures Power2(a + b) == Power2(a) * Power2(b)
  {
    if a > 0 {
      PowersMultiply(a - 1, b);
      assert 2 * (Power2(a - 1) * Power2(b)) == 2 * Power2(a - 1) * Power2(b);
    }
  }

  /** Above 53 bits the distance is a power of two that leaves `n` 53 bits. */
  lemma {:induction false} UlpIsPower(n: nat) returns (k: nat)
    ensures Ulp(n) == Power2(k) && (k > 0 ==> TWO_52 * Ulp(n) <= n)
  {
    k := 0;
    if n >= TWO_53 {
      var k' := UlpIsPower(n / 2);
      k := k' + 1;
    }
  }

  /** The multiples of `u` other than the `q`-th are at least `u` away from it. */
  lemma MultiplesApart(q: int, k: int, u: nat)
    ensures if k == q then k * u == q * u else if k < q then k * u + u <= q * u else q * u + u <= k * u
  {
    if k < q {
      AtLeastOnce(q - k, u);
      assert (q - k) * u == q * u - k * u;
    } else if k > q {
      AtLeastOnce(k - q, u);
      assert (k - q) * u == k * u - q * u;
    }
  }

  lemma NearestParts(n: nat, u: nat) returns (q: nat, below: nat)
    requires u > 0
    ensures below == q * u && below <= n < below + u
    ensures Nearest(n, u) == if 2 * (n - below) < u || (2 * (n - below) == u && q % 2 == 0) then q else q + 1
  {
    q := n / u;
    below := q * u;
  }

  /** No multiple of `u` is nearer, and in a tie the one chosen is even. */
  lemma NearestMultiple(n: nat, u: nat, k: int)
    requires u > 0
    ensures Distance(Nearest(n, u) * u, n) <= Distance(k * u, n)
    ensures Distance(Nearest(n, u) * u, n) == Distance(k * u, n) && k != Nearest(n, u) ==> Nearest(n, u) % 2 == 0
  {
    var q, below := NearestParts(n, u);
    MultiplesApart(q, q + 1, u);
    MultiplesApart(q + 1, k, u);
    MultiplesApart(q, k, u);
    assert (q + 1) * u == below + u;
    var chosen, other := Nearest(n, u), k * u;
    assert chosen * u == if chosen == q then below else below + u;
    assert k <= q ==> other <= below;
    assert k > q ==> other >= below + u;
  }

  lemma AtLeastOnce(d: nat, u: nat)
    ensures if d == 0 then d * u == 0 else d * u >= u
  {
    if d > 0 {
      assert d * u == (d - 1) * u + u;
    }
  }

  /** A float64 value is a multiple of two to the `k`, or has less than 53 bits above that. */
  lemma ValueIsMultiple(m: nat, k: nat) returns (multiple: nat)
    requires IsFloat64(Canonical(m, 0))
    ensures m == multiple * Power2(k) || (k > 0 && m < TWO_52 * Power2(k))
  {
    multiple := 0;
    if m > 0 {
      var c := Canonical(m, 0);
      CanonicalValue(m, 0);
      SameSign(c.mantissa, Power2(c.exponent));
      if c.exponent >= k {
        PowersMultiply(c.exponent - k, k);
        multiple := c.mantissa * Power2(c.exponent - k);
        Reassociate(c.mantissa, Power2(c.exponent - k), Power2(k));
      } else {
        PowersMultiply(k - 1 - c.exponent, c.exponent);
        MultiplyBound(c.mantissa, Power2(c.exponent), Power2(k - 1 - c.exponent));
      }
    }
  }

  lemma SameSign(a: int, p: nat)
    ensures a * p > 0 ==> a > 0
  {
    if a <= 0 {
      Monotone(0, -a, p);
      assert (-a) * p == -(a * p);
    }
  }

  lemma Reassociate(a: int, b: int, c: int)
    ensures a * (b * c) == (a * b) * c
  {
  }

  lemma MultiplyBound(a: nat, p: nat, q: nat)
    requires a < TWO_53 && p > 0 && q > 0
    ensures a * p < TWO_53 * (q * p)
  {
    Monotone(p, q * p, TWO_53);
    Monotone(1, q, p);
    assert TWO_53 * p == a * p + (TWO_53 - a) * p;
    AtLeastOnce(TWO_53 - a, p);
  }

  lemma MagnitudeNearest(n: nat, m: nat)
    requires IsFloat64(Canonical(m, 0))
    ensures Distance(RoundMagnitude(n), n) <= Distance(m, n)
    ensures Distance(RoundMagnitude(n), n) == Distance(m, n) && m != RoundMagnitude(n) ==> Nearest(n, Ulp(n)) % 2 == 0
  {
    var k := UlpIsPower(n);
    var multiple := ValueIsMultiple(m, k);
    if m == multiple * Ulp(n) {
      NearestMultiple(n, Ulp(n), multiple);
    } else {
      NearestMultiple(n, Ulp(n), TWO_52);
    }
  }

  /** No float64 value is nearer to an integer than what it converts to, and a tie goes to the even mantissa. */
  lemma RoundedNearest(i: int, m: int)
    requires IsFloat64(Canonical(m, 0))
    ensures FromInt(i) == Canonical(Rounded(i), 0)
    ensures Distance(Rounded(i), i) <= Distance(m, i)
    ensures Distance(Rounded(i), i) == Distance(m, i) && m != Rounded(i) ==> Nearest(Magnitude(i), Ulp(Magnitude(i))) % 2 == 0
  {
    CanonicalNegated(m, 0);
    if i < 0 {
      SignedNearest(-i, -m);
    } else {
      SignedNearest(i, m);
    }
  }

  lemma SignedNearest(n: nat, m: int)
    requires IsFloat64(Canonical(m, 0))
    ensures Distance(RoundMagnitude(n), n) <= Distance(m, n)
    ensures Distance(RoundMagnitude(n), n) == Distance(m, n) && m != RoundMagnitude(n) ==> Nearest(n, Ulp(n)) % 2 == 0
  {
    MagnitudeNearest(n, if m >= 0 then m else 0);
  }

  // ----- printing

  /** Go's %v of a float64, of which only injectivity matters. */
  ghost predicate Injective(format: Float64 -> string) {
    forall x: Float64, y: Float64 :: format(x) == format(y) ==> x == y
  }

  function Code(n: int): nat {
    if n >= 0 then 2 * n else -2 * n - 1
  }

  function Unary(a: nat, b: nat): string {
    seq(a, _ => 'm') + seq(b, _ => 'e')
  }

  lemma UnaryDiffer(a: nat, b: nat, c: nat, d: nat)
    requires a < c || (a == c && b != d)
    ensures Unary(a, b) != Unary(c, d)
  {
    var s, t := Unary(a, b), Unary(c, d);
    if |s| == |t| {
      assert s[a] != t[a];
    }
  }

  /** There are injective formats. */
  lemma InjectiveFormat() returns (format: Float64 -> string)
    ensures Injective(format)
  {
    format := (f: Float64) => Unary(Code(f.mantissa), Code(f.exponent));
    forall x: Float64, y: Float64 | x != y
      ensures format(x) != format(y)
    {
      if Code(x.mantissa) <= Code(y.mantissa) {
        UnaryDiffer(Code(x.mantissa), Code(x.exponent), Code(y.mantissa), Code(y.exponent));
      } else {
        UnaryDiffer(Code(y.mantissa), Code(y.exponent), Code(x.mantissa), Code(x.exponent));
      }
    }
  }
}
