/** Powers and positional notation, most significant digit first.  Shared by the codecs and by the
    compact difficulty target, which are all statements about digits in some base. */
module Positional {

  type Byte = b: nat | b < 256

  function Pow(b: nat, e: nat): nat {
    if e == 0 then 1 else b * Pow(b, e - 1)
  }

  lemma {:induction false} PowAdd(b: nat, x: nat, y: nat)
    ensures Pow(b, x + y) == Pow(b, x) * Pow(b, y)
  {
    if x > 0 {
      PowAdd(b, x - 1, y);
      Associate(b, Pow(b, x - 1), Pow(b, y));
    }
  }

  lemma Associate(x: nat, y: nat, z: nat)
    ensures x * (y * z) == (x * y) * z
  {}

  lemma {:induction false} PowPositive(b: nat, e: nat)
    requires b > 0
    ensures Pow(b, e) > 0
  {
    if e > 0 { PowPositive(b, e - 1); }
  }

  lemma {:induction false} PowOfPow(b: nat, x: nat, y: nat)
    ensures Pow(b, x * y) == Pow(Pow(b, x), y)
  {
    if y > 0 {
      PowOfPow(b, x, y - 1);
      assert x * y == x + x * (y - 1);
      PowAdd(b, x, x * (y - 1));
    }
  }

  lemma {:induction false} PowMonotone(b: nat, x: nat, y: nat)
    requires b > 0 && x <= y
    ensures Pow(b, x) <= Pow(b, y)
  {
    PowAdd(b, x, y - x);
    PowPositive(b, y - x);
    Scale(Pow(b, x), Pow(b, y - x));
  }

  lemma Scale(a: nat, k: nat)
    requires k > 0
    ensures a <= a * k
  {}

  lemma MulLess(a: nat, b: nat, c: nat, d: nat)
    requires a < c && b <= d && 0 < d
    ensures a * b < c * d
  {
    assert a * b <= a * d < c * d;
  }

  lemma {:induction false} PowBaseStrict(a: nat, b: nat, k: nat)
    requires a < b && k > 0
    ensures Pow(a, k) < Pow(b, k)
  {
    if k > 1 {
      PowBaseStrict(a, b, k - 1);
      MulLess(a, Pow(a, k - 1), b, Pow(b, k - 1));
    } else {
      assert Pow(a, 0) == 1 && Pow(b, 0) == 1;
    }
  }

  lemma {:induction false} PowBaseMonotone(a: nat, b: nat, k: nat)
    requires a <= b
    ensures Pow(a, k) <= Pow(b, k)
  {
    if k > 0 && a < b { PowBaseStrict(a, b, k); }
  }

  /** Comparing powers of two bases through one known comparison b^p <= c^q:
      b^m fits below c^e as soon as e/m is at least q/p. */
  lemma {:induction false} PowCompare(b: nat, p: nat, c: nat, q: nat, m: nat, e: nat)
    requires p > 0 && c > 0 && Pow(b, p) <= Pow(c, q) && q * m <= e * p
    ensures Pow(b, m) <= Pow(c, e)
  {
    if Pow(b, m) > Pow(c, e) {
      PowBaseStrict(Pow(c, e), Pow(b, m), p);
      PowOfPow(c, e, p);
      PowOfPow(b, m, p);
      assert m * p == p * m;
      PowOfPow(b, p, m);
      PowBaseMonotone(Pow(b, p), Pow(c, q), m);
      PowOfPow(c, q, m);
      PowMonotone(c, q * m, e * p);
      assert false;
    }
  }

  ghost predicate InBase(s: seq<nat>, base: nat) {
    forall i :: 0 <= i < |s| ==> s[i] < base
  }

  /** The number a digit sequence denotes. */
  ghost function Value(s: seq<nat>, base: nat): nat {
    if s == [] then 0 else Value(s[..|s| - 1], base) * base + s[|s| - 1]
  }

  lemma {:induction false} ValueConcat(a: seq<nat>, b: seq<nat>, base: nat)
    ensures Value(a + b, base) == Value(a, base) * Pow(base, |b|) + Value(b, base)
  {
    if b == [] {
      assert a + b == a;
    } else {
      var b', x := b[..|b| - 1], b[|b| - 1];
      assert a + b == (a + b') + [x];
      ValueConcat(a, b', base);
      ValueSnoc(a + b', x, base);
      Regroup(Value(a, base), Pow(base, |b'|), Value(b', base), base);
    }
  }

  lemma Regroup(v: nat, p: nat, w: nat, base: nat)
    ensures (v * p + w) * base == v * (base * p) + w * base
  {
    assert v * p * base == v * (base * p);
  }

  lemma {:induction false} ValueBound(s: seq<nat>, base: nat)
    requires InBase(s, base)
    ensures Value(s, base) < Pow(base, |s|)
  {
    if s != [] {
      var s' := s[..|s| - 1];
      ValueBound(s', base);
      MulStep(Value(s', base), Pow(base, |s'|), base);
    }
  }

  lemma {:induction false} ValueUnique(a: seq<nat>, b: seq<nat>, base: nat)
    requires InBase(a, base) && InBase(b, base) && |a| == |b|
    requires Value(a, base) == Value(b, base)
    ensures a == b
  {
    if a != [] {
      var n := |a| - 1;
      var va, vb := Value(a[..n], base), Value(b[..n], base);
      DivModUnique(va, a[n], vb, b[n], base);
      ValueUnique(a[..n], b[..n], base);
      assert a == a[..n] + [a[n]] && b == b[..n] + [b[n]];
    }
  }

  lemma DivModUnique(q: nat, r: nat, q': nat, r': nat, d: nat)
    requires r < d && r' < d && q * d + r == q' * d + r'
    ensures q == q' && r == r'
  {
    MulStep(q, q', d);
    MulStep(q', q, d);
  }

  lemma MulStep(q: nat, q': nat, d: nat)
    ensures q < q' ==> q * d + d <= q' * d
  {
    if q < q' {
      var k := q' - q - 1;
      assert (q + 1 + k) * d == q * d + d + k * d;
    }
  }

  lemma DivMod(q: nat, r: nat, d: nat)
    requires r < d
    ensures (q * d + r) / d == q && (q * d + r) % d == r
  {
    var w := q * d + r;
    DivModUnique(w / d, w % d, q, r, d);
  }

  function Zeros(n: nat): (s: seq<nat>)
    ensures |s| == n && forall i :: 0 <= i < n ==> s[i] == 0
  {
    seq(n, _ => 0)
  }

  lemma {:induction false} LeadingZeros(k: nat, s: seq<nat>, base: nat)
    ensures Value(Zeros(k) + s, base) == Value(s, base)
  {
    ValueConcat(Zeros(k), s, base);
    ZerosValue(k, base);
  }

  lemma {:induction false} ZerosValue(k: nat, base: nat)
    ensures Value(Zeros(k), base) == 0
  {
    if k > 0 {
      assert Zeros(k)[..k - 1] == Zeros(k - 1);
      ZerosValue(k - 1, base);
    }
  }

  /** The digits of v, with no leading zero. */
  function Digits(v: nat, base: nat): (s: seq<nat>)
    requires base > 1
    ensures InBase(s, base)
    ensures s != [] ==> s[0] != 0
  {
    if v == 0 then [] else (DivShrinks(v, base); Digits(v / base, base) + [v % base])
  }

  lemma DivShrinks(v: nat, base: nat)
    requires v > 0 && base > 1
    ensures v / base < v
  {
    var q := v / base;
    assert v == q * base + v % base;
    Scale(q, base - 1);
    assert q * base == q + q * (base - 1);
  }

  lemma Euclid(v: nat, d: nat)
    requires d > 0
    ensures v == v / d * d + v % d
  {}

  lemma ValueSnoc(s: seq<nat>, x: nat, base: nat)
    ensures Value(s + [x], base) == Value(s, base) * base + x
  {
    assert (s + [x])[..|s|] == s;
  }

  lemma {:induction false} DigitsValue(v: nat, base: nat)
    requires base > 1
    ensures Value(Digits(v, base), base) == v
  {
    if v > 0 {
      var q, r := v / base, v % base;
      DivShrinks(v, base);
      DigitsValue(q, base);
      ValueSnoc(Digits(q, base), r, base);
      Euclid(v, base);
    }
  }

  lemma DigitsSnoc(v: nat, d: nat, base: nat)
    requires base > 1 && d < base && (v > 0 || d > 0)
    ensures Digits(v * base + d, base) == Digits(v, base) + [d]
  {
    DivMod(v, d, base);
    Scale(v, base);
  }

  /** A digit sequence with no leading zero is what Digits computes for its value. */
  lemma {:induction false} DigitsCanonical(s: seq<nat>, base: nat)
    requires base > 1 && InBase(s, base) && (s != [] ==> s[0] != 0)
    ensures Digits(Value(s, base), base) == s
  {
    if s != [] {
      var s', d := s[..|s| - 1], s[|s| - 1];
      assert s == s' + [d];
      DigitsCanonical(s', base);
      if s' != [] { NonZero(s', base); }
      DigitsSnoc(Value(s', base), d, base);
    }
  }

  lemma {:induction false} NonZero(s: seq<nat>, base: nat)
    requires base > 0 && s != [] && s[0] != 0
    ensures Value(s, base) > 0
  {
    if |s| > 1 {
      NonZero(s[..|s| - 1], base);
    } else {
      assert s[..0] == [];
    }
  }

  /** The last n digits of v, leading zeros included. */
  function Fixed(v: nat, base: nat, n: nat): (s: seq<nat>)
    requires base > 0
    ensures |s| == n && InBase(s, base)
    decreases n
  {
    if n == 0 then [] else (Remainder(v, base); Fixed(v / base, base, n - 1) + [v % base])
  }

  lemma Remainder(v: nat, d: nat)
    requires d > 0
    ensures 0 <= v / d && 0 <= v % d < d
  {}

  lemma {:induction false} FixedOfValue(s: seq<nat>, base: nat)
    requires base > 0 && InBase(s, base)
    ensures Fixed(Value(s, base), base, |s|) == s
  {
    if s != [] {
      var s', d := s[..|s| - 1], s[|s| - 1];
      assert s == s' + [d];
      FixedOfValue(s', base);
      DivMod(Value(s', base), d, base);
    }
  }

  lemma {:induction false} ValueOfFixed(v: nat, base: nat, n: nat)
    requires base > 0 && v < Pow(base, n)
    ensures Value(Fixed(v, base, n), base) == v
    decreases n
  {
    if n > 0 {
      QuotientBound(v, base, Pow(base, n - 1));
      var q, r := v / base, v % base;
      Euclid(v, base);
      Remainder(v, base);
      ValueOfFixed(q, base, n - 1);
      ValueSnoc(Fixed(q, base, n - 1), r, base);
    }
  }

  lemma QuotientBound(v: nat, base: nat, p: nat)
    requires base > 0 && v < base * p
    ensures v / base < p
  {
    Euclid(v, base);
    assert p > 0;
    assert (p - 1) * base + base == base * p;
    MulStep(p - 1, v / base, base);
  }
}
