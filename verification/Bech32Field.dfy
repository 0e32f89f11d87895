/** What the polymod macro of core/support/BRBech32.c computes: BIP173 defines its checksum over GF(32), as
    the remainder of a polynomial division, and so any small change of an address is noticed. */
module Bech32Field {
  import opened Bech32Checksum
  import opened Bitwise
  import opened Positional

  // ---- The field with 32 elements

  /** The multiple of a by the generator of the field, whose fifth power is its cube plus one. */
  function Doubled(a: Symbol): Symbol {
    if a < 16 then 2 * a else (Below32(2 * a - 32, 9); Xor(2 * a - 32, 9))
  }

  /** The product in GF(32), bit by bit. */
  function Times(a: Symbol, b: nat): Symbol
    decreases b
  {
    if b == 0 then 0 else (Below32(If(b, a), Times(Doubled(a), b / 2)); Xor(If(b, a), Times(Doubled(a), b / 2)))
  }

  lemma Below32(a: nat, b: nat)
    requires a < 32 && b < 32
    ensures Xor(a, b) < 32
  {
    Weights();
    XorBound(a, b, 5);
  }

  /** 18 + 29x + 21x^2 + 20x^3 + 22x^4 + 29x^5 + x^6, without its leading term. */
  const MODULUS: seq<Symbol> := [18, 29, 21, 20, 22, 29]

  function Bits(a: nat, b: nat, c: nat, d: nat, e: nat): nat {
    2 * (2 * (2 * (2 * a + b) + c) + d) + e
  }

  function Differ(a: nat, b: nat): nat { if a != b then 1 else 0 }

  lemma BitsXor(a: nat, b: nat, c: nat, d: nat, e: nat, a': nat, b': nat, c': nat, d': nat, e': nat)
    requires a < 2 && b < 2 && c < 2 && d < 2 && e < 2 && a' < 2 && b' < 2 && c' < 2 && d' < 2 && e' < 2
    ensures Xor(Bits(a, b, c, d, e), Bits(a', b', c', d', e'))
            == Bits(Differ(a, a'), Differ(b, b'), Differ(c, c'), Differ(d, d'), Differ(e, e'))
  {
    hide Xor;
    XorZero(0);
    XorPair(0, a, 0, a');
    XorPair(a, b, a', b');
    XorPair(2 * a + b, c, 2 * a' + b', c');
    XorPair(2 * (2 * a + b) + c, d, 2 * (2 * a' + b') + c', d');
    XorPair(2 * (2 * (2 * a + b) + c) + d, e, 2 * (2 * (2 * a' + b') + c') + d', e');
  }

  /** All the multiples by powers of two that the generators are made of. */
  lemma Doublings()
    ensures Doubled(18) == 13 && Doubled(13) == 26 && Doubled(26) == 29 && Doubled(29) == 19 && Doubled(19) == 15
    ensures Doubled(15) == 30 && Doubled(30) == 21 && Doubled(21) == 3 && Doubled(3) == 6 && Doubled(6) == 12 && Doubled(12) == 24
    ensures Doubled(22) == 5 && Doubled(5) == 10 && Doubled(10) == 20 && Doubled(20) == 1
    ensures Doubled(1) == 2 && Doubled(2) == 4 && Doubled(4) == 8
  {
    hide Xor;
    BitsXor(0, 0, 1, 0, 0, 0, 1, 0, 0, 1);
    BitsXor(1, 0, 1, 0, 0, 0, 1, 0, 0, 1);
    BitsXor(1, 1, 0, 1, 0, 0, 1, 0, 0, 1);
    BitsXor(0, 0, 1, 1, 0, 0, 1, 0, 0, 1);
    BitsXor(1, 1, 1, 0, 0, 0, 1, 0, 0, 1);
    BitsXor(0, 1, 0, 1, 0, 0, 1, 0, 0, 1);
    BitsXor(0, 1, 1, 0, 0, 0, 1, 0, 0, 1);
    BitsXor(0, 1, 0, 0, 0, 0, 1, 0, 0, 1);
  }

  lemma Sums()
    ensures Xor(18, 13) == 31 && Xor(18, 26) == 8 && Xor(31, 26) == 5 && Xor(13, 26) == 23 && Xor(29, 19) == 14
  {
    hide Xor;
    BitsXor(1, 0, 0, 1, 0, 0, 1, 1, 0, 1);
    BitsXor(1, 0, 0, 1, 0, 1, 1, 0, 1, 0);
    BitsXor(1, 1, 1, 1, 1, 1, 1, 0, 1, 0);
    BitsXor(0, 1, 1, 0, 1, 1, 1, 0, 1, 0);
    BitsXor(1, 1, 1, 0, 1, 1, 0, 0, 1, 1);
  }

  lemma TimesStep(c: Symbol, b: nat)
    ensures Times(c, b) == Xor(If(b, c), Times(Doubled(c), b / 2))
  {
    if b == 0 { XorZero(0); }
  }

  /** None of 18, 13, 26, 29 and 19 is a sum of the others. */
  lemma Independent(a: nat, b: nat, c: nat, d: nat, e: nat)
    requires a in {0, 18} && b in {0, 13} && c in {0, 26} && d in {0, 29} && e in {0, 19}
    requires Xor(a, Xor(b, Xor(c, Xor(d, e)))) == 0
    ensures a == b == c == d == e == 0
  {
    Sums();
    XorCommutes(13, 18);
    XorCommutes(26, 18);
    XorCommutes(26, 31);
    XorCommutes(26, 13);
    hide Xor;
    XorZero(e);
    XorZero(d);
    XorZero(a);
    XorZero(b);
    XorZero(c);
    XorSelf(a);
    XorSelf(b);
    XorSelf(c);
    var s3 := Xor(d, e);
    var s2 := Xor(c, s3);
    var s1 := Xor(b, s2);
    XorMove(a, s1, 0);
    assert s1 in {0, 18};
    XorZero(b);
    XorMove(b, s2, s1);
    XorCommutes(b, s1);
    assert s2 in {0, 13, 18, 31};
    XorMove(c, s3, s2);
    XorCommutes(c, s2);
    XorZero(s2);
    assert s3 in {0, 13, 18, 31, 26, 23, 8, 5};
    assert s3 in {0, 29, 19, 14};
  }

  /** The bits of t select independent multiples of 18. */
  lemma NoZeroProduct(t: Symbol)
    requires Times(18, t) == 0
    ensures t == 0
  {
    assert Times(Doubled(19), 0) == 0;
    var t1 := t / 2;
    var t2 := t1 / 2;
    var t3 := t2 / 2;
    var t4 := t3 / 2;
    assert t4 / 2 == 0;
    Doublings();
    hide Times, Xor, Doubled, If;
    TimesStep(18, t);
    TimesStep(13, t1);
    TimesStep(26, t2);
    TimesStep(29, t3);
    TimesStep(19, t4);
    XorZero(If(t4, 19));
    EachIf(t, 18);
    EachIf(t1, 13);
    EachIf(t2, 26);
    EachIf(t3, 29);
    EachIf(t4, 19);
    Independent(If(t, 18), If(t1, 13), If(t2, 26), If(t3, 29), If(t4, 19));
  }

  lemma EachIf(bit: nat, c: nat)
    ensures If(bit, c) in {0, c} && (If(bit, c) == 0 && c > 0 ==> bit == 2 * (bit / 2))
  {}

  lemma TimesZero(c: Symbol)
    ensures Times(c, 0) == 0
  {}

  lemma XorMove(a: nat, b: nat, c: nat)
    requires Xor(a, b) == c
    ensures b == Xor(a, c)
  {
    XorAssociates(a, a, b);
    XorSelf(a);
    XorZero(b);
  }

  // ---- A word as a polynomial

  /** The coefficient of x^k of the polynomial that a word stands for. */
  function Coefficient(w: nat, k: nat): Symbol {
    if k == 0 then w % 32 else Coefficient(w / 32, k - 1)
  }

  lemma XorParts(a: nat, b: nat)
    ensures Xor(a, b) / 32 == Xor(a / 32, b / 32) && Xor(a, b) % 32 == Xor(a % 32, b % 32)
  {
    hide Xor, Shift, Pow;
    Weights();
    Euclid(a, 32);
    Euclid(b, 32);
    XorSplit(a / 32, a % 32, b / 32, b % 32, 5);
    ShiftMultiplies(a / 32, 5);
    ShiftMultiplies(b / 32, 5);
    ShiftMultiplies(Xor(a / 32, b / 32), 5);
    Below32(a % 32, b % 32);
    DivMod(Xor(a / 32, b / 32), Xor(a % 32, b % 32), 32);
  }

  /** Words add up coefficient by coefficient. */
  lemma {:induction false} CoefficientAdds(a: nat, b: nat, k: nat)
    ensures Coefficient(Xor(a, b), k) == Xor(Coefficient(a, k), Coefficient(b, k))
    decreases k
  {
    XorParts(a, b);
    if k > 0 { CoefficientAdds(a / 32, b / 32, k - 1); }
  }

  lemma {:induction false} CoefficientSplit(top: nat, low: nat, n: nat, k: nat)
    requires k <= n && low < Pow(32, n)
    ensures Coefficient(top * Pow(32, n) + low, k) == if k < n then Coefficient(low, k) else top % 32
    decreases n
  {
    var w := top * Pow(32, n) + low;
    if n > 0 {
      assert w == 32 * (top * Pow(32, n - 1)) + low by { Associate(32, top, Pow(32, n - 1)); Associate(top, 32, Pow(32, n - 1)); }
      Euclid(low, 32);
      DivMod(top * Pow(32, n - 1) + low / 32, low % 32, 32);
      if k > 0 { CoefficientSplit(top, low / 32, n - 1, k - 1); }
    }
  }

  lemma {:induction false} CoefficientOfZero(k: nat)
    ensures Coefficient(0, k) == 0
  {
    if k > 0 { CoefficientOfZero(k - 1); }
  }

  /** A word is given by its coefficients. */
  lemma {:induction false} AllZero(w: nat, n: nat)
    requires w < Pow(32, n) && forall k :: 0 <= k < n ==> Coefficient(w, k) == 0
    ensures w == 0
  {
    if n > 0 {
      assert Coefficient(w, 0) == 0;
      forall k | 0 <= k < n - 1 ensures Coefficient(w / 32, k) == 0 { assert Coefficient(w, k + 1) == 0; }
      AllZero(w / 32, n - 1);
    }
  }

  // ---- A step multiplies by x

  /** Generator i is 2^i times the given coefficients, in the field. */
  ghost predicate Multiples(generators: seq<nat>, c: Symbol, k: nat)
    decreases generators
  {
    generators == [] || (Coefficient(generators[0], k) == c && Multiples(generators[1..], Doubled(c), k))
  }

  lemma FiveMultiples(g: seq<nat>, c: Symbol, k: nat)
    requires |g| == 5 && Coefficient(g[0], k) == c && Coefficient(g[1], k) == Doubled(c)
    requires Coefficient(g[2], k) == Doubled(Doubled(c)) && Coefficient(g[3], k) == Doubled(Doubled(Doubled(c)))
    requires Coefficient(g[4], k) == Doubled(Doubled(Doubled(Doubled(c))))
    ensures Multiples(g, c, k)
  {
    hide Coefficient, Doubled;
    assert Multiples(g[4..], Doubled(Doubled(Doubled(Doubled(c)))), k);
    assert g[3..][1..] == g[4..] && g[2..][1..] == g[3..] && g[1..][1..] == g[2..];
    assert Multiples(g[3..], Doubled(Doubled(Doubled(c))), k);
    assert Multiples(g[2..], Doubled(Doubled(c)), k);
    assert Multiples(g[1..], Doubled(c), k);
  }

  lemma SixCoefficients(w: nat, c: seq<nat>)
    requires |c| == 6 && (forall k :: 0 <= k < 6 ==> c[k] < 32) && w == c[0] + 32 * (c[1] + 32 * (c[2] + 32 * (c[3] + 32 * (c[4] + 32 * c[5]))))
    ensures forall k :: 0 <= k < 6 ==> Coefficient(w, k) == c[k]
  {
    var w1 := c[1] + 32 * (c[2] + 32 * (c[3] + 32 * (c[4] + 32 * c[5])));
    var w2 := c[2] + 32 * (c[3] + 32 * (c[4] + 32 * c[5]));
    var w3 := c[3] + 32 * (c[4] + 32 * c[5]);
    var w4 := c[4] + 32 * c[5];
    assert Coefficient(c[5], 0) == c[5] && Coefficient(w4, 0) == c[4] && Coefficient(w4, 1) == c[5];
    NextCoefficients(w3, w4, c[3]);
    NextCoefficients(w2, w3, c[2]);
    NextCoefficients(w1, w2, c[1]);
    NextCoefficients(w, w1, c[0]);
    hide Coefficient;
    assert Coefficient(w, 5) == Coefficient(w1, 4) == Coefficient(w2, 3) == Coefficient(w3, 2) == Coefficient(w4, 1);
    assert Coefficient(w, 4) == Coefficient(w1, 3) == Coefficient(w2, 2) == Coefficient(w3, 1) == Coefficient(w4, 0);
    assert Coefficient(w, 3) == Coefficient(w1, 2) == Coefficient(w2, 1) == Coefficient(w3, 0);
    assert Coefficient(w, 2) == Coefficient(w1, 1) == Coefficient(w2, 0);
    assert Coefficient(w, 1) == Coefficient(w1, 0);
  }

  lemma NextCoefficients(w: nat, next: nat, c: nat)
    requires c < 32 && w == c + 32 * next
    ensures Coefficient(w, 0) == c && forall k: nat :: Coefficient(w, k + 1) == Coefficient(next, k)
  {
    assert w / 32 == next;
  }

  lemma GeneratorsMultiply(k: nat)
    requires k < 6
    ensures Multiples(Generators(), MODULUS[k], k)
  {
    hide Multiples, Coefficient, Doubled;
    Doublings();
    SixCoefficients(0x3b6a57b2, [18, 29, 21, 20, 22, 29]);
    SixCoefficients(0x26508e6d, [13, 19, 3, 1, 5, 19]);
    SixCoefficients(0x1ea119fa, [26, 15, 6, 2, 10, 15]);
    SixCoefficients(0x3d4233dd, [29, 30, 12, 4, 20, 30]);
    SixCoefficients(0x2a1462b3, [19, 21, 24, 8, 1, 21]);
    var g, c := Generators(), MODULUS[k];
    if k == 0 {
    } else if k == 1 {
    } else if k == 2 {
    } else if k == 3 {
    } else if k == 4 {
    }
    FiveMultiples(g, c, k);
  }

  lemma {:induction false} ReduceMultiplies(low: nat, top: nat, generators: seq<nat>, c: Symbol, k: nat)
    requires top < Pow(2, |generators|) && Multiples(generators, c, k)
    ensures Coefficient(Reduce(low, top, generators), k) == Xor(Coefficient(low, k), Times(c, top))
    decreases generators
  {
    if generators == [] {
      XorZero(Coefficient(low, k));
    } else {
      var t := If(top, generators[0]);
      ReduceMultiplies(Xor(low, t), top / 2, generators[1..], Doubled(c), k);
      CoefficientAdds(low, t, k);
      CoefficientOfZero(k);
      XorAssociates(Coefficient(low, k), If(top, c), Times(Doubled(c), top / 2));
      TimesStep(c, top);
    }
  }

  /** The polymod of a word is x times the word, modulo the polynomial of BIP173. */
  lemma PolymodMultiplies(w: nat, k: nat)
    requires w < WORD && k < 6
    ensures Coefficient(Polymod(w), k) == Xor(if k > 0 then Coefficient(w, k - 1) else 0, Times(MODULUS[k], Coefficient(w, 5)))
  {
    hide Reduce, Generators, Times, Xor, Multiples;
    WordParts(w);
    GeneratorsMultiply(k);
    assert |Generators()| == 5 by { FiveGenerators(); }
    Weights();
    ReduceMultiplies(w % TOP * 32, w / TOP, Generators(), MODULUS[k], k);
    CoefficientSplit(w / TOP, w % TOP, 5, 5);
    DivMod(w % TOP, 0, 32);
    if k > 0 { CoefficientSplit(w / TOP, w % TOP, 5, k - 1); }
  }

  lemma FiveGenerators()
    ensures |Generators()| == 5
  {}

  lemma WordParts(w: nat)
    requires w < WORD
    ensures w / TOP < 32 && w % TOP < TOP == Pow(32, 5) && w == w / TOP * Pow(32, 5) + w % TOP
  {
    Weights();
    PowOfPow(2, 5, 5);
  }

  // ---- Errors

  /** Sums of words are reduced summand by summand. */
  lemma {:induction false} ReduceLinear(a: nat, b: nat, top: nat, top': nat, generators: seq<nat>)
    ensures Reduce(Xor(a, b), Xor(top, top'), generators) == Xor(Reduce(a, top, generators), Reduce(b, top', generators))
    decreases generators
  {
    if generators != [] {
      var g, rest := generators[0], generators[1..];
      XorStep(top, top');
      SameIf(top, top', g);
      FourSums(a, b, If(top, g), If(top', g));
      ReduceLinear(Xor(a, If(top, g)), Xor(b, If(top', g)), top / 2, top' / 2, rest);
    }
  }

  lemma SameIf(top: nat, top': nat, g: nat)
    ensures If(Xor(top, top'), g) == Xor(If(top, g), If(top', g))
  {
    XorStep(top, top');
    hide Xor;
    XorZero(g);
    XorZero(0);
    XorSelf(g);
  }

  lemma FourSums(a: nat, b: nat, c: nat, d: nat)
    ensures Xor(Xor(a, b), Xor(c, d)) == Xor(Xor(a, c), Xor(b, d))
  {
    XorAssociates(a, b, Xor(c, d));
    XorAssociates(b, c, d);
    XorCommutes(b, c);
    XorAssociates(c, b, d);
    XorAssociates(a, c, Xor(b, d));
  }

  lemma PolymodLinear(a: nat, b: nat)
    ensures Polymod(Xor(a, b)) == Xor(Polymod(a), Polymod(b))
  {
    hide Reduce, Generators;
    XorTop(a, b);
    hide Xor;
    ReduceLinear(a % TOP * 32, b % TOP * 32, a / TOP, b / TOP, Generators());
  }

  lemma XorTop(a: nat, b: nat)
    ensures Xor(a, b) / TOP == Xor(a / TOP, b / TOP)
    ensures Xor(a, b) % TOP * 32 == Xor(a % TOP * 32, b % TOP * 32)
  {
    hide Xor, Shift, Pow;
    Weights();
    Euclid(a, TOP);
    Euclid(b, TOP);
    XorSplit(a / TOP, a % TOP, b / TOP, b % TOP, 25);
    ShiftMultiplies(a / TOP, 25);
    ShiftMultiplies(b / TOP, 25);
    ShiftMultiplies(Xor(a / TOP, b / TOP), 25);
    XorBound(a % TOP, b % TOP, 25);
    DivMod(Xor(a / TOP, b / TOP), Xor(a % TOP, b % TOP), TOP);
    XorShift(a % TOP, b % TOP, 5);
  }

  lemma PolymodOfZero()
    ensures Polymod(0) == 0 && Xor(0, 0) == 0
  {
    XorZero(0);
    PolymodLinear(0, 0);
    XorSelf(Polymod(0));
  }

  /** The constant term of the modulus has an inverse, so a step loses nothing. */
  lemma PolymodNonzero(w: nat)
    requires w < WORD && Polymod(w) == 0
    ensures w == 0
  {
    hide Polymod, Times, Xor;
    Weights();
    PowOfPow(2, 5, 6);
    forall k | 0 <= k < 6 ensures Xor(if k > 0 then Coefficient(w, k - 1) else 0, Times(MODULUS[k], Coefficient(w, 5))) == 0 {
      PolymodMultiplies(w, k);
      CoefficientOfZero(k);
    }
    PolymodMultiplies(w, 0);
    CoefficientOfZero(0);
    XorZero(Times(18, Coefficient(w, 5)));
    NoZeroProduct(Coefficient(w, 5));
    forall k | 0 <= k < 6 ensures Coefficient(w, k) == 0 {
      if k < 5 {
        assert Xor(Coefficient(w, k), Times(MODULUS[k + 1], Coefficient(w, 5))) == 0;
        TimesZero(MODULUS[k + 1]);
        XorZero(Coefficient(w, k));
      }
    }
    AllZero(w, 6);
  }

  function Plus(a: Symbol, b: Symbol): (c: Symbol)
    ensures c == Xor(a, b)
  {
    Below32(a, b);
    Xor(a, b)
  }

  /** The sums of symbols at the same place. */
  function Sum(s: seq<Symbol>, t: seq<Symbol>): (r: seq<Symbol>)
    requires |s| == |t|
    ensures |r| == |s| && forall i :: 0 <= i < |r| ==> r[i] == Xor(s[i], t[i])
  {
    seq(|s|, i requires 0 <= i < |s| => Plus(s[i], t[i]))
  }

  /** Checksums add up too. */
  lemma {:induction false} RunLinear(a: nat, b: nat, s: seq<Symbol>, t: seq<Symbol>)
    requires |s| == |t|
    ensures Run(Xor(a, b), Sum(s, t)) == Xor(Run(a, s), Run(b, t))
    decreases |s|
  {
    hide Xor, Polymod;
    if s != [] {
      var n := |s| - 1;
      RunLinear(a, b, s[..n], t[..n]);
      assert Sum(s, t)[..n] == Sum(s[..n], t[..n]);
      PolymodLinear(Run(a, s[..n]), Run(b, t[..n]));
      FourSums(Polymod(Run(a, s[..n])), Polymod(Run(b, t[..n])), s[n], t[n]);
    }
  }

  lemma {:induction false} RunBound(chk: nat, s: seq<Symbol>)
    requires chk < WORD
    ensures Run(chk, s) < WORD
    decreases |s|
  {
    if s != [] {
      var n := |s| - 1;
      Weights();
      PolymodBound(Run(chk, s[..n]));
      XorBound(Polymod(Run(chk, s[..n])), s[n], 30);
    }
  }

  ghost predicate AllNull(s: seq<Symbol>) { forall i :: 0 <= i < |s| ==> s[i] == 0 }

  /** Without further differences a difference does not go away. */
  lemma {:induction false} DifferenceStays(w: nat, s: seq<Symbol>)
    requires AllNull(s) && w < WORD
    ensures Run(w, s) == 0 <==> w == 0
    decreases |s|
  {
    hide Xor, Polymod;
    if s != [] {
      var before := s[..|s| - 1];
      DifferenceStays(w, before);
      RunBound(w, before);
      XorZero(Polymod(Run(w, before)));
      PolymodOfZero();
      if Polymod(Run(w, before)) == 0 { PolymodNonzero(Run(w, before)); }
    }
  }

  /** Up to six symbols only move up: they are the coefficients of what has been fed. */
  lemma {:induction false} ShortRun(s: seq<Symbol>)
    requires |s| <= 6
    ensures Run(0, s) == Value(s, 32) < Pow(32, |s|)
    decreases |s|
  {
    if s != [] {
      var n := |s| - 1;
      ShortRun(s[..n]);
      hide Xor, Polymod, Pow;
      WordBounds(n);
      PowMonotone(32, n, 5);
      PlainStep(Value(s[..n], 32), s[n]);
      ValueBound(s, 32);
    }
  }

  lemma WordBounds(n: nat)
    ensures Pow(32, 5) == TOP && Pow(32, 6) == WORD
  {
    Weights();
    PowOfPow(2, 5, 5);
    PowOfPow(2, 5, 6);
  }

  lemma PlainStep(w: nat, x: Symbol)
    requires w < TOP
    ensures Xor(Polymod(w), x) == 32 * w + x
  {
    hide Polymod, Xor;
    Weights();
    PolymodOfZero();
    PolymodAdds(0, w);
    XorZero(w);
    XorZero(32 * w);
    XorDisjoint(w, x, 5);
  }

  lemma {:induction false} ValueOfNull(s: seq<Symbol>)
    requires Value(s, 32) == 0
    ensures AllNull(s)
  {
    if s != [] {
      var n := |s| - 1;
      assert Value(s[..n], 32) * 32 + s[n] == 0;
      ValueOfNull(s[..n]);
    }
  }

  lemma NoDifference(s: seq<Symbol>, t: seq<Symbol>, start: nat, end: nat)
    requires |s| == |t| && start <= end <= |s| && Value(Sum(s, t)[start..end], 32) == 0
    requires forall k :: 0 <= k < |s| && !(start <= k < end) ==> s[k] == t[k]
    ensures s == t
  {
    hide Xor, Value;
    var d := Sum(s, t)[start..end];
    ValueOfNull(d);
    forall k | 0 <= k < |s| ensures s[k] == t[k] {
      if start <= k < end {
        assert d[k - start] == Sum(s, t)[k] == 0;
        SameSymbol(s[k], t[k]);
      }
    }
  }

  /** A change of some symbols, the last of them at most five places after the first, changes the checksum. */
  lemma BurstDetected(chk: nat, s: seq<Symbol>, t: seq<Symbol>, i: nat)
    requires |s| == |t| && s != t && chk < WORD
    requires forall k :: 0 <= k < |s| && !(i <= k < i + 6) ==> s[k] == t[k]
    ensures Run(chk, s) != Run(chk, t)
  {
    hide Xor, Polymod, RunWith, Pow, Value;
    var d := Sum(s, t);
    XorSelf(chk);
    RunLinear(chk, chk, s, t);
    var start, end := if i < |s| then i else |s|, if i + 6 < |s| then i + 6 else |s|;
    forall k | 0 <= k < |s| ensures d[k] == 0 <==> s[k] == t[k] { SameSymbol(s[k], t[k]); }
    DifferenceStays(0, d[..start]);
    assert d[..start] + d[start..end] == d[..end] && d[..end] + d[end..] == d;
    RunConcat(Polymod, 0, d[..start], d[start..end]);
    RunConcat(Polymod, 0, d[..end], d[end..]);
    ShortRun(d[start..end]);
    WordBounds(0);
    PowMonotone(32, end - start, 6);
    DifferenceStays(Value(d[start..end], 32), d[end..]);
    if Value(d[start..end], 32) == 0 { NoDifference(s, t, start, end); }
    SameSymbol(Run(chk, s), Run(chk, t));
  }

  lemma SameSymbol(a: nat, b: nat)
    ensures Xor(a, b) == 0 <==> a == b
  {
    XorSelf(a);
    if Xor(a, b) == 0 {
      XorMove(a, b, 0);
      XorZero(a);
    }
  }
}
