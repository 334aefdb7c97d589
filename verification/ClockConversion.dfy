/** internal/rpicamera/camera_rpicam.go, `multiplyAndDivide`: v*m/d in 64 bits without
    forming v*m. Go's division and remainder truncate toward zero. */
module ClockConversion {
  import Int64

  function Quotient(a: int, d: int): int
    requires d > 0
  {
    if a >= 0 then a / d else -((-a) / d)
  }

  function Remainder(a: int, d: int): int
    requires d > 0
  {
    a - Quotient(a, d) * d
  }

  /** Division truncates toward zero. */
  lemma QuotientTruncates(a: int, d: int)
    requires d > 0
    ensures a >= 0 ==> 0 <= a - Quotient(a, d) * d < d
    ensures a <= 0 ==> -d < a - Quotient(a, d) * d <= 0
  {
    RemainderSign(a, d);
  }

  /** The computation over the integers. */
  function MultiplyAndDivide(v: int, m: int, d: int): int
    requires d > 0
  {
    Quotient(v, d) * m + Quotient(Remainder(v, d) * m, d)
  }

  /** The computation as it runs: every product and sum keeps its low 64 bits only. */
  function MultiplyAndDivide64(v: int, m: int, d: int): int
    requires d > 0
  {
    Int64.Wrap(Int64.Wrap(Quotient(v, d) * m) + Quotient(Int64.Wrap(Remainder(v, d) * m), d))
  }

  /** A quotient shifts by whole multiples of the divisor when nothing changes sign. */
  lemma QuotientShift(k: int, x: int, d: int)
    requires d > 0
    requires (k >= 0 && x >= 0) || (k <= 0 && x <= 0)
    ensures Quotient(k * d + x, d) == k + Quotient(x, d)
  {
    if k >= 0 && x >= 0 {
      DivShift(k, x, d);
    } else {
      DivShift(-k, -x, d);
      assert -(k * d + x) == (-k) * d + (-x);
      if k * d + x >= 0 { ZeroParts(k, x, d); }
    }
  }

  lemma DivShift(k: nat, x: nat, d: int)
    requires d > 0
    ensures k * d + x >= 0 && (k * d + x) / d == k + x / d
  {
    var q, r := x / d, x % d;
    assert k * d + x == (k + q) * d + r;
    DivUnique(k * d + x, k + q, r, d);
  }

  lemma MultipleBound(z: int, d: int)
    requires d > 0
    ensures z >= 1 ==> z * d >= d
    ensures z <= -1 ==> z * d <= -d
  {
  }

  lemma DivUnique(a: int, q: int, r: int, d: int)
    requires d > 0 && a == q * d + r && 0 <= r < d
    ensures a / d == q
  {
    DivideOnce(a, q, r, a / d, a % d, d);
  }

  lemma DivideOnce(a: int, q: int, r: int, p: int, s: int, d: int)
    requires d > 0 && a == q * d + r == p * d + s && 0 <= r < d && 0 <= s < d
    ensures p == q
  {
    assert (p - q) * d == r - s;
    MultipleBound(p - q, d);
  }

  lemma ZeroParts(k: int, x: int, d: int)
    requires d > 0 && k <= 0 && x <= 0 && k * d + x >= 0
    ensures k == 0 && x == 0
  {
  }

  lemma SameSign(a: int, m: int, b: int)
    requires (a >= 0 && b >= 0) || (a <= 0 && b <= 0)
    ensures (a * m >= 0 && b * m >= 0) || (a * m <= 0 && b * m <= 0)
  {
  }

  lemma Parts(n: nat, d: int)
    requires d > 0
    ensures n / d >= 0 && 0 <= n - n / d * d < d
  {
  }

  lemma RemainderSign(v: int, d: int)
    requires d > 0
    ensures -d < Remainder(v, d) < d
    ensures v >= 0 ==> Quotient(v, d) >= 0 && Remainder(v, d) >= 0
    ensures v <= 0 ==> Quotient(v, d) <= 0 && Remainder(v, d) <= 0
  {
  }

  lemma Expand(q: int, r: int, m: int, d: int)
    ensures (q * d + r) * m == q * m * d + r * m
  {
  }

  lemma QuotientOfProduct(v: int, q: int, r: int, m: int, d: int)
    requires d > 0 && v == q * d + r
    requires (q >= 0 && r >= 0) || (q <= 0 && r <= 0)
    ensures Quotient(v * m, d) == q * m + Quotient(r * m, d)
  {
    Expand(q, r, m, d);
    SameSign(q, m, r);
    QuotientShift(q * m, r * m, d);
  }

  /** Over the integers the result is v*m/d truncated toward zero, for every v and m of
      either sign. */
  lemma EqualsTruncatedProduct(v: int, m: int, d: int)
    requires d > 0
    ensures MultiplyAndDivide(v, m, d) == Quotient(v * m, d)
  {
    RemainderSign(v, d);
    QuotientOfProduct(v, Quotient(v, d), Remainder(v, d), m, d);
  }

  predicate Fits(x: int) { Int64.MIN <= x <= Int64.MAX }

  /** As it runs, the computation keeps the low 64 bits of v*m/d whenever the product of the
      remainder fits; so it is exact precisely when, in addition, the result fits. */
  lemma ExactIfItFits(v: int, m: int, d: int)
    requires d > 0 && Fits(Remainder(v, d) * m)
    ensures MultiplyAndDivide64(v, m, d) == Int64.Wrap(Quotient(v * m, d))
    ensures MultiplyAndDivide64(v, m, d) == Quotient(v * m, d) <==> Fits(Quotient(v * m, d))
  {
    EqualsTruncatedProduct(v, m, d);
    var a, b := Quotient(v, d) * m, Quotient(Remainder(v, d) * m, d);
    QuotientShrinks(Remainder(v, d) * m, d);
    Int64.WrapSum(a, b);
    assert MultiplyAndDivide64(v, m, d) == Int64.Wrap(a + b);
  }

  lemma QuotientShrinks(a: int, d: int)
    requires d > 0
    ensures if a >= 0 then 0 <= Quotient(a, d) <= a else a <= Quotient(a, d) <= 0
  {
    DivShrinks(if a >= 0 then a else -a, d);
  }

  lemma DivShrinks(n: nat, d: int)
    requires d > 0
    ensures 0 <= n / d <= n
  {
    Parts(n, d);
    ProductGrows(n / d, d);
  }

  lemma ProductGrows(q: nat, d: int)
    requires d > 0
    ensures q <= q * d
  {
  }

  /** From microseconds to the 90 kHz clock, no intermediate result leaves 64 bits, for any
      64-bit v, so the computation as it runs is exact. */
  lemma MicrosecondsTo90kExact(v: int)
    requires Fits(v)
    ensures Fits(Quotient(v, 1000000) * 90000) && Fits(Remainder(v, 1000000) * 90000)
    ensures Fits(Quotient(v * 90000, 1000000))
    ensures MultiplyAndDivide64(v, 90000, 1000000) == Quotient(v * 90000, 1000000)
  {
  }
}
