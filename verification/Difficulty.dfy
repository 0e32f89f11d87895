/** The difficulty retarget of core/bitcoin/BRMerkleBlock.c, against the exact rule it stands for:
    scale the target's value by the clamped timespan, cap it, and write it in compact form. */
module Difficulty {
  import opened Blocks
  import opened Positional

  const MAX_PROOF_OF_WORK: nat := 0x1d00ffff
  const TARGET_TIMESPAN: nat := 1_209_600  // 14 * 24 * 60 * 60 seconds
  const MAX_MANTISSA: nat := 0x7fffff

  function Clamp(span: int): (r: nat)
    ensures TARGET_TIMESPAN / 4 <= r <= TARGET_TIMESPAN * 4
    ensures TARGET_TIMESPAN / 4 <= span <= TARGET_TIMESPAN * 4 ==> r == span
  {
    if span < TARGET_TIMESPAN / 4 then TARGET_TIMESPAN / 4
    else if span > TARGET_TIMESPAN * 4 then TARGET_TIMESPAN * 4
    else span
  }

  function SizeOf(compact: nat): nat { compact / 0x100_0000 }

  function MantissaOf(compact: nat): nat { compact % 0x80_0000 }

  function Pack(mantissa: nat, size: nat): nat { mantissa + size * 0x100_0000 }

  /** Drop bytes until the mantissa fits in 23 bits and the size is positive. */
  function Normalised(mantissa: nat, size: int): (r: (nat, nat))
    ensures r.0 <= MAX_MANTISSA && r.1 >= 1
    decreases if size < 1 then 1 - size else 0, mantissa
  {
    if size < 1 || mantissa > MAX_MANTISSA then Normalised(mantissa / 256, size + 1) else (mantissa, size)
  }

  /** The scaled mantissa: TARGET_TIMESPAN / 256 is 4725 exactly. */
  function Scaled(prevTarget: nat, span: int): nat {
    MantissaOf(prevTarget) * Clamp(span) / (TARGET_TIMESPAN / 256)
  }

  function Uncapped(prevTarget: nat, span: int): nat {
    var (mantissa, size) := Normalised(Scaled(prevTarget, span), SizeOf(prevTarget) - 1);
    Pack(mantissa, size)
  }

  function Retargeted(prevTarget: nat, span: int): nat {
    var target := Uncapped(prevTarget, span);
    if target > MAX_PROOF_OF_WORK then MAX_PROOF_OF_WORK else target
  }

  // ---- The rule: values of compact targets and the canonical compact form of a value.

  ghost function CompactValue(compact: nat): nat {
    if SizeOf(compact) >= 3 then MantissaOf(compact) * Pow(256, SizeOf(compact) - 3)
    else (PowPositive(256, 3 - SizeOf(compact)); MantissaOf(compact) / Pow(256, 3 - SizeOf(compact)))
  }

  /** The leading three of n base-256 digits of v. */
  function Leading(v: nat, n: nat): nat {
    if n <= 3 then v * Pow(256, 3 - n) else (PowPositive(256, n - 3); v / Pow(256, n - 3))
  }

  /** Canonical compact form: the top three bytes, or the top two if the third would set the sign bit. */
  function ToCompact(v: nat): nat {
    var n := |Digits(v, 256)|;
    var mantissa := Leading(v, n);
    if mantissa > MAX_MANTISSA then Pack(mantissa / 256, n + 1) else Pack(mantissa, n)
  }

  /** The value in proportion to the timespan, but not below a quarter and not above four times what it was. */
  ghost function ScaledValue(prevTarget: nat, span: int): nat {
    var value := CompactValue(prevTarget);
    var scaled := value * span / TARGET_TIMESPAN;
    if scaled < value / 4 then value / 4 else if scaled > value * 4 then value * 4 else scaled
  }

  function Min(a: nat, b: nat): nat { if a < b then a else b }

  /** (mantissa, size) is the truncation of v to a mantissa of 256-ary weight size. */
  ghost predicate Truncation(v: nat, mantissa: nat, size: nat) {
    mantissa * Pow(256, size) <= v * Pow(256, 3) < (mantissa + 1) * Pow(256, size)
  }

  ghost predicate Normal(v: nat, mantissa: nat, size: nat) {
    0x8000 <= mantissa <= MAX_MANTISSA && Truncation(v, mantissa, size)
  }

  lemma MulMono(a: nat, b: nat, p: nat)
    ensures a <= b ==> a * p <= b * p
    ensures p > 0 && a * p < b * p ==> a < b
  {
    MulStep(a, b, p);
    MulStep(b, a, p);
  }

  /** Normal forms are ordered like the values they truncate, so each value has only one. */
  lemma NormalMonotone(v: nat, m: nat, s: nat, v': nat, m': nat, s': nat)
    requires Normal(v, m, s) && Normal(v', m', s') && v <= v'
    ensures s < s' || (s == s' && m <= m')
  {
    MulMono(v, v', Pow(256, 3));
    assert m * Pow(256, s) < (m' + 1) * Pow(256, s');
    PowPositive(256, s');
    if s > s' {
      PowAdd(256, s', s - s');
      PowMonotone(256, 1, s - s');
      Tower(m, m', Pow(256, s'), Pow(256, s - s'));
      assert false;
    } else if s == s' {
      MulMono(m, m' + 1, Pow(256, s));
    }
  }

  lemma Tower(m: nat, m': nat, p: nat, q: nat)
    requires m >= 0x8000 && m' < 0x80_0000 && q >= 256
    ensures m * (p * q) >= (m' + 1) * p
  {
    assert m * q >= 0x8000 * 256 by { MulMono(0x8000, m, q); }
    MulMono(m' + 1, m * q, p);
    assert m * (p * q) == (m * q) * p;
  }

  lemma TruncationShift(v: nat, m: nat, s: nat)
    requires Truncation(v, m, s)
    ensures Truncation(v, m / 256, s + 1)
  {
    ShiftBounds(v * Pow(256, 3), m, Pow(256, s));
  }

  lemma ShiftBounds(x: nat, m: nat, p: nat)
    requires m * p <= x < (m + 1) * p
    ensures m / 256 * (256 * p) <= x < (m / 256 + 1) * (256 * p)
  {
    var q := m / 256;
    MulMono(q * 256, m, p);
    MulMono(m + 1, q * 256 + 256, p);
    Associate(q, 256, p);
    Associate(q + 1, 256, p);
  }

  lemma {:induction false} DigitCount(v: nat)
    requires v > 0
    ensures var n := |Digits(v, 256)|; n > 0 && Pow(256, n - 1) <= v < Pow(256, n)
  {
    var d := Digits(v, 256);
    DigitsValue(v, 256);
    ValueBound(d, 256);
    LeadingDigit(d, 256);
  }

  lemma LeadingDigit(d: seq<nat>, base: nat)
    requires d != [] && d[0] > 0
    ensures Pow(base, |d| - 1) <= Value(d, base)
  {
    assert d == [d[0]] + d[1..];
    ValueConcat([d[0]], d[1..], base);
    assert [d[0]] == [] + [d[0]];
    ValueSnoc([], d[0], base);
    Scale(Pow(base, |d| - 1), d[0]);
  }

  lemma ToCompactNormal(v: nat)
    requires v > 0
    ensures exists m: nat, s: nat :: Normal(v, m, s) && ToCompact(v) == Pack(m, s)
  {
    DigitCount(v);
    var n := |Digits(v, 256)|;
    var m := TopBytes(v, n);
    if m > MAX_MANTISSA {
      TruncationShift(v, m, n);
      assert Normal(v, m / 256, n + 1);
    } else {
      assert Normal(v, m, n);
    }
  }

  lemma TopBytes(v: nat, n: nat) returns (m: nat)
    requires n > 0 && Pow(256, n - 1) <= v < Pow(256, n)
    ensures Truncation(v, m, n) && 0x1_0000 <= m < 0x100_0000
    ensures n <= 3 ==> m == v * Pow(256, 3 - n)
    ensures n > 3 ==> Pow(256, n - 3) > 0 && m == v / Pow(256, n - 3)
  {
    assert Pow(256, 2) == 0x1_0000 && Pow(256, 3) == 0x100_0000;
    if n <= 3 {
      PowPositive(256, 3 - n);
      PowAdd(256, n, 3 - n);
      PowAdd(256, n - 1, 3 - n);
      FewBytes(v, Pow(256, n), Pow(256, n - 1), Pow(256, 3 - n));
      m := v * Pow(256, 3 - n);
    } else {
      PowPositive(256, n - 3);
      PowAdd(256, n - 3, 3);
      PowAdd(256, n - 3, 2);
      ManyBytes(v, Pow(256, n - 3));
      m := v / Pow(256, n - 3);
    }
  }

  lemma FewBytes(v: nat, high: nat, low: nat, p: nat)
    requires p > 0 && low <= v < high && high * p == 0x100_0000 && low * p == 0x1_0000
    ensures 0x1_0000 <= v * p < 0x100_0000
    ensures v * p * high == v * 0x100_0000 < (v * p + 1) * high
  {
    MulMono(low, v, p);
    MulStep(v, high, p);
    assert v * p * high == v * (high * p);
    assert (v * p + 1) * high == v * p * high + high;
  }

  lemma ManyBytes(v: nat, p: nat)
    requires p > 0 && p * 0x1_0000 <= v < p * 0x100_0000
    ensures 0x1_0000 <= v / p < 0x100_0000
    ensures v / p * (p * 0x100_0000) <= v * 0x100_0000 < (v / p + 1) * (p * 0x100_0000)
  {
    var m := v / p;
    Euclid(v, p);
    MulMono(0x100_0000, m, p);
    MulMono(m + 1, 0x1_0000, p);
    assert (m + 1) * p == m * p + p;
    Associate(m, p, 0x100_0000);
    Associate(m + 1, p, 0x100_0000);
  }

  // ---- The retarget computes the rule.

  lemma {:induction false} NormalisedTruncation(v: nat, m: nat, s: nat)
    requires s >= 1 && m >= 0x8000 && Truncation(v, m, s)
    ensures Normal(v, Normalised(m, s).0, Normalised(m, s).1)
    decreases m
  {
    if m > MAX_MANTISSA {
      TruncationShift(v, m, s);
      NormalisedTruncation(v, m / 256, s + 1);
    }
  }

  lemma ScaledTruncation(m: nat, t: nat, v: nat, span: nat, p: nat)
    requires p > 0 && t == m * span / 4725 && v == m * (p * 256) * span / (4725 * 256)
    ensures t * p <= v < (t + 1) * p
  {
    var num := m * span;
    assert m * (p * 256) * span == num * p * 256;
    TruncationOf(num, t, num % 4725, p);
    Between(num * p, v, t * p, p);
  }

  lemma TruncationOf(num: nat, t: nat, r: nat, p: nat)
    requires num == t * 4725 + r && r < 4725
    ensures 4725 * (t * p) <= num * p <= 4725 * (t * p) + 4725 * p
    ensures p > 0 ==> num * p < 4725 * (t * p) + 4725 * p
    ensures (t + 1) * p == t * p + p
  {
    assert num * p == 4725 * (t * p) + r * p;
    MulStep(r, 4725, p);
  }

  lemma Between(w: nat, v: nat, tp: nat, p: nat)
    requires v == w * 256 / (4725 * 256) && 4725 * tp <= w < 4725 * tp + 4725 * p
    ensures tp <= v < tp + p
  {}

  /** Bounding the timespan bounds the value. */
  lemma ScaledIsClamped(prevTarget: nat, span: int)
    ensures ScaledValue(prevTarget, span) == CompactValue(prevTarget) * Clamp(span) / TARGET_TIMESPAN
  {
    var value := CompactValue(prevTarget);
    hide CompactValue;
    if span < TARGET_TIMESPAN / 4 {
      Proportion(value, span, TARGET_TIMESPAN / 4);
    } else {
      Proportion(value, TARGET_TIMESPAN / 4, span);
    }
    if span > TARGET_TIMESPAN * 4 {
      Proportion(value, TARGET_TIMESPAN * 4, span);
    } else {
      Proportion(value, span, TARGET_TIMESPAN * 4);
    }
    Quarter(value);
  }

  lemma Proportion(value: nat, a: int, b: int)
    requires a <= b
    ensures value * a / TARGET_TIMESPAN <= value * b / TARGET_TIMESPAN
  {
    assert value * b == value * a + value * (b - a);
  }

  lemma Quarter(value: nat)
    ensures value * (TARGET_TIMESPAN / 4) / TARGET_TIMESPAN == value / 4
    ensures value * (TARGET_TIMESPAN * 4) / TARGET_TIMESPAN == value * 4
  {}

  /** The scaled mantissa truncates the scaled value. */
  lemma ScaledTruncates(prevTarget: nat, span: int)
    requires SizeOf(prevTarget) >= 4
    ensures Truncation(ScaledValue(prevTarget, span), Scaled(prevTarget, span), SizeOf(prevTarget) - 1)
  {
    var t, v, s := Scaled(prevTarget, span), ScaledValue(prevTarget, span), SizeOf(prevTarget);
    ScaledIsClamped(prevTarget, span);
    var p := Pow(256, s - 4);
    PowPositive(256, s - 4);
    ScaledTruncation(MantissaOf(prevTarget), t, v, Clamp(span), p);
    PowAdd(256, s - 4, 3);
    Associate(t, p, Pow(256, 3));
    Associate(t + 1, p, Pow(256, 3));
    assert Pow(256, 3) == 0x100_0000;
  }

  /** For every previous target of at least four bytes: the retarget is the canonical compact form
      of floor(target * timespan / TARGET_TIMESPAN) exactly when the scaled mantissa keeps 16 bits. */
  lemma UncappedExact(prevTarget: nat, span: int)
    requires SizeOf(prevTarget) >= 4
    ensures Uncapped(prevTarget, span) == ToCompact(ScaledValue(prevTarget, span))
       <==> Scaled(prevTarget, span) >= 0x8000
  {
    var t, v, s := Scaled(prevTarget, span), ScaledValue(prevTarget, span), SizeOf(prevTarget);
    ScaledTruncates(prevTarget, span);
    if t >= 0x8000 {
      NormalisedTruncation(v, t, s - 1);
      NormalToCompact(v, Normalised(t, s - 1).0, Normalised(t, s - 1).1);
    } else {
      assert Uncapped(prevTarget, span) == Pack(t, s - 1);
      if v > 0 {
        ToCompactNormal(v);
        var m', s' :| Normal(v, m', s') && ToCompact(v) == Pack(m', s');
        PackUnique(t, s - 1, m', s');
      }
    }
  }

  lemma PackUnique(m: nat, s: nat, m': nat, s': nat)
    requires m <= MAX_MANTISSA && m' <= MAX_MANTISSA
    ensures Pack(m, s) == Pack(m', s') <==> m == m' && s == s'
  {}

  lemma NormalToCompact(v: nat, m: nat, s: nat)
    requires Normal(v, m, s)
    ensures ToCompact(v) == Pack(m, s)
  {
    PowPositive(256, s);
    Scale(Pow(256, s), m);
    ToCompactNormal(v);
    var m', s' :| Normal(v, m', s') && ToCompact(v) == Pack(m', s');
    NormalMonotone(v, m, s, v, m', s');
    NormalMonotone(v, m', s', v, m, s);
  }

  lemma MaxValue()
    ensures CompactValue(MAX_PROOF_OF_WORK) == 0xffff * Pow(256, 26)
  {
    hide Pow;
  }

  lemma MaxIsNormal()
    ensures Normal(CompactValue(MAX_PROOF_OF_WORK), 0xffff, 0x1d)
    ensures CompactValue(MAX_PROOF_OF_WORK) > 0
  {
    MaxValue();
    hide CompactValue, Pow;
    PowAdd(256, 26, 3);
    PowPositive(256, 29);
    PowPositive(256, 26);
    Associate(0xffff, Pow(256, 26), Pow(256, 3));
  }

  /** Capping the compact integers caps the values: the target a transition block must carry is the
      canonical form of the scaled value or of the highest allowed value, whichever is smaller, exactly
      when the scaled mantissa keeps 16 bits or the scaled value reaches the highest allowed one. */
  lemma RetargetExact(prevTarget: nat, span: int)
    requires SizeOf(prevTarget) >= 4
    ensures Retargeted(prevTarget, span) == ToCompact(Min(ScaledValue(prevTarget, span), CompactValue(MAX_PROOF_OF_WORK)))
       <==> Scaled(prevTarget, span) >= 0x8000 || ScaledValue(prevTarget, span) >= CompactValue(MAX_PROOF_OF_WORK)
  {
    var v, max := ScaledValue(prevTarget, span), CompactValue(MAX_PROOF_OF_WORK);
    UncappedExact(prevTarget, span);
    MaxIsNormal();
    NormalToCompact(max, 0xffff, 0x1d);
    if Scaled(prevTarget, span) >= 0x8000 {
      CappedNormal(v, Uncapped(prevTarget, span));
    } else if v >= max {
      LargeWithFewBits(prevTarget, span);
    } else {
      BelowMax(v);
    }
  }

  lemma CappedNormal(v: nat, compact: nat)
    requires compact == ToCompact(v)
    ensures (if compact > MAX_PROOF_OF_WORK then MAX_PROOF_OF_WORK else compact) == ToCompact(Min(v, CompactValue(MAX_PROOF_OF_WORK)))
  {
    var max := CompactValue(MAX_PROOF_OF_WORK);
    MaxIsNormal();
    NormalToCompact(max, 0xffff, 0x1d);
    if v > 0 {
      ToCompactNormal(v);
      var m, s :| Normal(v, m, s) && ToCompact(v) == Pack(m, s);
      if v < max {
        NormalMonotone(v, m, s, max, 0xffff, 0x1d);
      } else {
        NormalMonotone(max, 0xffff, 0x1d, v, m, s);
      }
    }
  }

  /** No smaller value has the compact form of the highest one. */
  lemma BelowMax(v: nat)
    requires v < CompactValue(MAX_PROOF_OF_WORK)
    ensures ToCompact(v) != MAX_PROOF_OF_WORK
  {
    MaxIsNormal();
    if v > 0 {
      ToCompactNormal(v);
      var m, s :| Normal(v, m, s) && ToCompact(v) == Pack(m, s);
      if m == 0xffff && s == 0x1d { MaxTimes(v); }
      PackUnique(m, s, 0xffff, 0x1d);
    }
  }

  lemma MaxTimes(v: nat)
    ensures CompactValue(MAX_PROOF_OF_WORK) * Pow(256, 3) == 0xffff * Pow(256, 0x1d)
    ensures 0xffff * Pow(256, 0x1d) <= v * Pow(256, 3) ==> v >= CompactValue(MAX_PROOF_OF_WORK)
  {
    MaxValue();
    hide CompactValue, Pow;
    PowAdd(256, 26, 3);
    PowPositive(256, 3);
    Associate(0xffff, Pow(256, 26), Pow(256, 3));
    MulMono(v + 1, CompactValue(MAX_PROOF_OF_WORK), Pow(256, 3));
    assert (v + 1) * Pow(256, 3) == v * Pow(256, 3) + Pow(256, 3);
  }

  /** A mantissa below 16 bits reaches the highest value only with a size that is capped. */
  lemma LargeWithFewBits(prevTarget: nat, span: int)
    requires SizeOf(prevTarget) >= 4 && Scaled(prevTarget, span) < 0x8000
    requires ScaledValue(prevTarget, span) >= CompactValue(MAX_PROOF_OF_WORK)
    ensures Retargeted(prevTarget, span) == MAX_PROOF_OF_WORK
  {
    var t, v, s := Scaled(prevTarget, span), ScaledValue(prevTarget, span), SizeOf(prevTarget) - 1;
    ScaledTruncates(prevTarget, span);
    MaxTimes(v);
    MulMono(CompactValue(MAX_PROOF_OF_WORK), v, Pow(256, 3));
    if s <= 0x1d { FewBits(v, t, s); }
  }

  lemma FewBits(v: nat, t: nat, s: nat)
    requires Truncation(v, t, s) && t < 0x8000 && s <= 0x1d
    ensures v * Pow(256, 3) < 0xffff * Pow(256, 0x1d)
  {
    PowMonotone(256, s, 0x1d);
    PowPositive(256, 0x1d);
    MulMono(t + 1, 0x8000, Pow(256, s));
    assert 0x8000 * Pow(256, s) <= 0x8000 * Pow(256, 0x1d);
  }

  /** Every normalised target, in particular every mantissa in 0x8000..0x7fffff, meets the condition. */
  lemma NormalisedTargetsKeepPrecision(prevTarget: nat, span: int)
    requires MantissaOf(prevTarget) >= 0x200
    ensures Scaled(prevTarget, span) >= 0x8000
  {
    var m := MantissaOf(prevTarget);
    assert Clamp(span) >= 64 * 4725;
    MulMono(64 * 4725, Clamp(span), m);
  }

  /** A four-byte target with a tiny mantissa is where the code leaves the rule. */
  lemma RetargetInexactExample()
    ensures Uncapped(0x0400_0001, 0) == 0x0300_0040
    ensures ScaledValue(0x0400_0001, 0) == 64 && ToCompact(64) == 0x0140_0000
  {
    assert MantissaOf(0x0400_0001) == 1 && SizeOf(0x0400_0001) == 4 && Clamp(0) == 302_400;
    assert Pow(256, 1) == 256;
    SixtyFour();
  }

  lemma SixtyFour()
    ensures ToCompact(64) == 0x0140_0000
  {
    DigitsSnoc(0, 64, 256);
    assert Pow(256, 2) == 0x1_0000;
  }

  // ---- More time never makes the target harder.

  /** Ordered first by size, then by mantissa; a larger size comes with a mantissa of at least 16 bits. */
  ghost predicate AtMost(a: (nat, nat), b: (nat, nat)) {
    && a.0 <= MAX_MANTISSA && b.0 <= MAX_MANTISSA && a.1 >= 1
    && ((a.1 == b.1 && a.0 <= b.0) || (a.1 < b.1 && b.0 >= 0x8000))
  }

  lemma {:induction false} NormalisedSize(m: nat, s: int)
    requires m >= 0x8000 && s >= 1
    ensures Normalised(m, s).0 >= 0x8000 && Normalised(m, s).1 >= s
    decreases m
  {
    if m > MAX_MANTISSA { NormalisedSize(m / 256, s + 1); }
  }

  lemma {:induction false} NormalisedRises(m: nat, m': nat, s: int)
    requires m <= m'
    ensures AtMost(Normalised(m, s), Normalised(m', s))
    decreases if s < 1 then 1 - s else 0, m'
  {
    if s < 1 || m > MAX_MANTISSA {
      NormalisedRises(m / 256, m' / 256, s + 1);
    } else if m' > MAX_MANTISSA {
      NormalisedSize(m' / 256, s + 1);
    }
  }

  lemma PackParts(a: (nat, nat))
    requires a.0 <= MAX_MANTISSA
    ensures SizeOf(Pack(a.0, a.1)) == a.1 && MantissaOf(Pack(a.0, a.1)) == a.0
  {
    var m, s := a.0, a.1;
    assert Pack(m, s) == m + s * 2 * 0x80_0000;
    DivMod(s, m, 0x100_0000);
    DivMod(2 * s, m, 0x80_0000);
  }

  lemma AtMostValue(a: (nat, nat), b: (nat, nat))
    requires AtMost(a, b)
    ensures CompactValue(Pack(a.0, a.1)) <= CompactValue(Pack(b.0, b.1))
  {
    PackParts(a);
    PackParts(b);
    hide Pack, SizeOf, MantissaOf;
    assert Pow(256, 0) == 1 && Pow(256, 1) == 256 && Pow(256, 2) == 0x1_0000;
    if a.1 == b.1 {
      SameSize(a.0, b.0, a.1);
    } else if a.1 >= 3 {
      PowAdd(256, a.1 - 3, b.1 - a.1);
      PowMonotone(256, 1, b.1 - a.1);
      Larger(a.0, b.0, Pow(256, a.1 - 3), Pow(256, b.1 - a.1));
    } else if b.1 >= 3 {
      PowPositive(256, b.1 - 3);
      Scale(b.0, Pow(256, b.1 - 3));
    }
  }

  lemma SameSize(m: nat, m': nat, s: nat)
    requires m <= m' <= MAX_MANTISSA
    ensures CompactValue(Pack(m, s)) <= CompactValue(Pack(m', s))
  {
    PackParts((m, s));
    PackParts((m', s));
    if s >= 3 {
      MulMono(m, m', Pow(256, s - 3));
    } else {
      PowPositive(256, 3 - s);
      Quotients(m, m', Pow(256, 3 - s));
    }
  }

  lemma Quotients(a: nat, b: nat, d: nat)
    requires a <= b && d > 0
    ensures a / d <= b / d
  {
    Euclid(a, d);
    Euclid(b, d);
    MulStep(b / d, a / d, d);
  }

  lemma Larger(m: nat, m': nat, p: nat, q: nat)
    requires m <= MAX_MANTISSA && m' >= 0x8000 && q >= 256
    ensures m * p <= m' * (p * q)
  {
    MulMono(0x8000, m', q);
    MulMono(256, q, 0x8000);
    MulMono(m, m' * q, p);
    assert m' * (p * q) == (m' * q) * p;
  }

  /** The longer an interval took, the easier the next target: for every previous target. */
  lemma RetargetMonotone(prevTarget: nat, span: int, span': int)
    requires span <= span'
    ensures CompactValue(Retargeted(prevTarget, span)) <= CompactValue(Retargeted(prevTarget, span'))
  {
    var s := SizeOf(prevTarget) - 1;
    MulMono(Clamp(span), Clamp(span'), MantissaOf(prevTarget));
    Quotients(MantissaOf(prevTarget) * Clamp(span), MantissaOf(prevTarget) * Clamp(span'), TARGET_TIMESPAN / 256);
    var a, b := Normalised(Scaled(prevTarget, span), s), Normalised(Scaled(prevTarget, span'), s);
    NormalisedRises(Scaled(prevTarget, span), Scaled(prevTarget, span'), s);
    hide CompactValue, Normalised, Scaled;
    var max := (0xffff, 0x1d);
    AtMostValue(a, b);
    PackOrder(a, b);
    PackOrder(a, max);
    PackOrder(max, b);
    if Pack(a.0, a.1) <= MAX_PROOF_OF_WORK < Pack(b.0, b.1) { AtMostValue(a, max); }
  }

  lemma PackOrder(a: (nat, nat), b: (nat, nat))
    requires a.0 <= MAX_MANTISSA && b.0 <= MAX_MANTISSA
    ensures Pack(a.0, a.1) <= Pack(b.0, b.1) <==> a.1 < b.1 || (a.1 == b.1 && a.0 <= b.0)
  {}

  /** From eight weeks on the target is that of eight weeks, and up to half a week that of half a week. */
  lemma RetargetSaturates(prevTarget: nat, span: int)
    ensures span >= 4 * TARGET_TIMESPAN ==> Retargeted(prevTarget, span) == Retargeted(prevTarget, 4 * TARGET_TIMESPAN)
    ensures span <= TARGET_TIMESPAN / 4 ==> Retargeted(prevTarget, span) == Retargeted(prevTarget, TARGET_TIMESPAN / 4)
  {}

  // ---- The code.

  method Retarget(prevTarget: nat, span: int) returns (target: nat)
    requires prevTarget < 0x1_0000_0000
    ensures target == Retargeted(prevTarget, span)
  {
    var size: int := prevTarget / 0x100_0000;
    target := prevTarget % 0x80_0000;
    var timespan := span;
    if timespan < TARGET_TIMESPAN / 4 { timespan := TARGET_TIMESPAN / 4; }
    if timespan > TARGET_TIMESPAN * 4 { timespan := TARGET_TIMESPAN * 4; }
    target := target * timespan;
    target := target / (TARGET_TIMESPAN / 256);
    size := size - 1;
    while size < 1 || target > MAX_MANTISSA
      invariant Normalised(target, size) == Normalised(Scaled(prevTarget, span), SizeOf(prevTarget) - 1)
      decreases if size < 1 then 1 - size else 0, target
    {
      target, size := target / 256, size + 1;
    }
    target := target + size * 0x100_0000;
    if target > MAX_PROOF_OF_WORK { target := MAX_PROOF_OF_WORK; }
  }

  /** What BRMerkleBlockVerifyDifficulty accepts. */
  predicate Acceptable(block: Block, previous: Option<Block>, transitionTime: nat) {
    && previous.Some?
    && block.prev == previous.value.hash
    && block.height == previous.value.height + 1
    && if block.height % DIFFICULTY_INTERVAL == 0
       then transitionTime != 0
         && block.target == Retargeted(previous.value.target, previous.value.timestamp - transitionTime)
       else block.target == previous.value.target
  }

  method VerifyDifficulty(block: Block, previous: Option<Block>, transitionTime: nat) returns (r: bool)
    requires previous.Some? ==> previous.value.target < 0x1_0000_0000
    ensures r == Acceptable(block, previous, transitionTime)
  {
    r := true;
    if previous.None? || block.prev != previous.value.hash || block.height != previous.value.height + 1 { r := false; }
    if r && block.height % DIFFICULTY_INTERVAL == 0 && transitionTime == 0 { r := false; }
    if r && block.height % DIFFICULTY_INTERVAL == 0 {
      var target := Retarget(previous.value.target, previous.value.timestamp - transitionTime);
      if block.target != target { r := false; }
    } else if r && block.target != previous.value.target {
      r := false;
    }
  }

  /** At a transition, a block is accepted only with the target that the exact rule prescribes. */
  lemma TransitionTargetIsExact(block: Block, previous: Block, transitionTime: nat)
    requires block.height % DIFFICULTY_INTERVAL == 0
    requires SizeOf(previous.target) >= 4 && MantissaOf(previous.target) >= 0x200
    requires Acceptable(block, Some(previous), transitionTime)
    ensures block.target == ToCompact(Min(ScaledValue(previous.target, previous.timestamp - transitionTime),
                                          CompactValue(MAX_PROOF_OF_WORK)))
  {
    NormalisedTargetsKeepPrecision(previous.target, previous.timestamp - transitionTime);
    RetargetExact(previous.target, previous.timestamp - transitionTime);
  }
}
