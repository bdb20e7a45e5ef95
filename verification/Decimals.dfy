// Decimal values: a 64-bit mantissa and a count of fraction digits. Normal form,
// reading, printing and comparison.

module Decimals {
  const INT64_MAX: int := 0x7fff_ffff_ffff_ffff
  const INT32_MAX: int := 0x7fff_ffff

  /** mantissa / 10^scale */
  datatype Decimal = Decimal(mantissa: int, scale: int)

  predicate Representable(d: Decimal) {
    -INT64_MAX - 1 <= d.mantissa <= INT64_MAX && -INT32_MAX - 1 <= d.scale <= INT32_MAX
  }

  function Pow10(n: nat): (r: nat)
    ensures r > 0
  {
    if n == 0 then 1 else 10 * Pow10(n - 1)
  }

  // ----- normal form -----

  /** No trailing zero among the fraction digits. */
  predicate IsNormal(d: Decimal) { d.scale == 0 || (d.scale > 0 && d.mantissa % 10 != 0) }

  /** Both denote the same rational number. */
  ghost predicate SameNumber(a: Decimal, b: Decimal)
    requires a.scale >= 0 && b.scale >= 0
  {
    a.mantissa * Pow10(b.scale) == b.mantissa * Pow10(a.scale)
  }

  function Strip(d: Decimal): (r: Decimal)
    requires d.scale >= 0
    ensures 0 <= r.scale <= d.scale
    decreases d.scale
  {
    if d.scale > 0 && d.mantissa % 10 == 0 then Strip(Decimal(d.mantissa / 10, d.scale - 1)) else d
  }

  lemma Pow10Add(a: nat, b: nat)
    ensures Pow10(a + b) == Pow10(a) * Pow10(b)
  {
    if a > 0 {
      Pow10Add(a - 1, b);
      assert Pow10(a) * Pow10(b) == 10 * (Pow10(a - 1) * Pow10(b));
    }
  }

  lemma {:induction false} StripMeaning(d: Decimal)
    requires d.scale >= 0
    ensures IsNormal(Strip(d)) && 0 <= Strip(d).scale <= d.scale
    ensures d.mantissa == Strip(d).mantissa * Pow10(d.scale - Strip(d).scale)
    decreases d.scale
  {
    if d.scale > 0 && d.mantissa % 10 == 0 {
      var e := Decimal(d.mantissa / 10, d.scale - 1);
      StripMeaning(e);
      var k := e.scale - Strip(e).scale;
      assert Pow10(k + 1) == 10 * Pow10(k);
      assert Strip(e).mantissa * Pow10(k + 1) == 10 * (Strip(e).mantissa * Pow10(k));
    }
  }

  /** Two normal decimals denote the same number only if they are the same. */
  lemma NormalUnique(a: Decimal, b: Decimal)
    requires a.scale >= 0 && b.scale >= 0 && IsNormal(a) && IsNormal(b)
    ensures SameNumber(a, b) <==> a == b
  {
    if SameNumber(a, b) {
      if a.scale < b.scale {
        Shorter(a, b);
      } else {
        Shorter(b, a);
      }
    }
  }

  lemma Shorter(a: Decimal, b: Decimal)
    requires 0 <= a.scale <= b.scale && IsNormal(b)
    requires a.mantissa * Pow10(b.scale) == b.mantissa * Pow10(a.scale)
    ensures a == b
  {
    var k := b.scale - a.scale;
    Pow10Add(k, a.scale);
    hide Pow10;
    CancelFactor(a.mantissa, b.mantissa, Pow10(k), Pow10(a.scale));
    PowerDivides(a.mantissa, k);
  }

  lemma PowerDivides(m: int, k: nat)
    ensures k == 0 ==> m * Pow10(k) == m
    ensures k > 0 ==> (m * Pow10(k)) % 10 == 0
  {
    if k > 0 {
      var p := Pow10(k - 1);
      assert m * (10 * p) == 10 * (m * p);
      assert (10 * (m * p)) % 10 == 0;
    }
  }

  lemma Positive(x: int, q: nat)
    requires x > 0 && q > 0
    ensures x * q > 0
  {
  }

  lemma MulOrder(x: int, y: int, q: nat)
    requires q > 0
    ensures x * q == y * q <==> x == y
  {
    assert (y - x) * q == y * q - x * q;
    if x < y {
      Positive(y - x, q);
    } else if x > y {
      assert (x - y) * q == x * q - y * q;
      Positive(x - y, q);
    }
  }

  lemma CancelFactor(x: int, y: int, p: nat, q: nat)
    requires q > 0 && x * (p * q) == y * q
    ensures x * p == y
  {
    assert (x * p) * q == x * (p * q);
    MulOrder(x * p, y, q);
  }

  lemma StripSame(d: Decimal, e: Decimal)
    requires d.scale >= 0 && e.scale >= 0
    ensures SameNumber(d, e) <==> SameNumber(Strip(d), e)
  {
    StripMeaning(d);
    var s := Strip(d);
    var k := d.scale - s.scale;
    Pow10Add(k, s.scale);
    hide Pow10, Strip;
    ScaleBoth(d.mantissa, s.mantissa, e.mantissa, Pow10(d.scale), Pow10(s.scale), Pow10(e.scale), Pow10(k));
  }

  lemma ScaleBoth(d: int, s: int, e: int, pd: nat, ps: nat, pe: nat, f: nat)
    requires f > 0 && d == s * f && pd == f * ps
    ensures d * pe == e * pd <==> s * pe == e * ps
  {
    assert (s * f) * pe == (s * pe) * f;
    assert e * (f * ps) == (e * ps) * f;
    MulOrder(s * pe, e * ps, f);
  }

  /** The loop of the normalizer; a negative scale is refused. */
  method Normalize(d: Decimal) returns (ok: bool, r: Decimal)
    ensures ok <==> d.scale >= 0
    ensures ok ==> r == Strip(d) && IsNormal(r) && SameNumber(r, d)
    ensures !ok ==> r == d
  {
    r := d;
    if r.scale < 0 {
      return false, r;
    }
    while r.scale > 0 && r.mantissa % 10 == 0
      invariant r.scale >= 0 && Strip(r) == Strip(d)
    {
      r := Decimal(r.mantissa / 10, r.scale - 1);
    }
    StripSame(d, r);
    StripSame(r, r);
    StripMeaning(d);
    if r.mantissa == 0 {
      r := r.(scale := 0);
    }
    return true, r;
  }

  /** Comparison strips both sides; it finds two decimals equal exactly if they denote the same number. */
  method Matches(a: Decimal, b: Decimal) returns (same: bool)
    requires a.scale >= 0 && b.scale >= 0
    ensures same <==> SameNumber(a, b)
  {
    var l, r := a, b;
    while l.scale > 0 && l.mantissa % 10 == 0
      invariant l.scale >= 0 && Strip(l) == Strip(a)
    {
      l := Decimal(l.mantissa / 10, l.scale - 1);
    }
    while r.scale > 0 && r.mantissa % 10 == 0
      invariant r.scale >= 0 && Strip(r) == Strip(b)
    {
      r := Decimal(r.mantissa / 10, r.scale - 1);
    }
    if l.mantissa == 0 {
      l := l.(scale := 0);
    }
    if r.mantissa == 0 {
      r := r.(scale := 0);
    }
    same := l.mantissa == r.mantissa && l.scale == r.scale;
    MatchesStripped(a, b);
  }

  lemma MatchesStripped(a: Decimal, b: Decimal)
    requires a.scale >= 0 && b.scale >= 0
    ensures SameNumber(a, b) <==> Strip(a) == Strip(b)
  {
    StripMeaning(a);
    StripMeaning(b);
    hide Strip;
    StripSame(a, b);
    StripSame(b, Strip(a));
    NormalUnique(Strip(b), Strip(a));
  }
}
