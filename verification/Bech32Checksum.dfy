/** The GF(2) checksum of core/support/BRBech32.c (BIP173).  A checksum word has 30 bits, six symbols
    of five bits; it is held in a natural number. */
module Bech32Checksum {
  import opened Bitwise
  import opened Positional

  type Symbol = s: nat | s < 32

  /** 2^25: the weight of the symbol a step shifts out. */
  const TOP: nat := 0x2000000
  const WORD: nat := 0x40000000

  lemma Weights()
    ensures Pow(2, 5) == 32 && Pow(2, 25) == TOP && Pow(2, 30) == WORD
  {
    assert Pow(2, 5) == 32 by {
      assert Pow(2, 3) == 8;
      assert Pow(2, 4) == 16;
    }
    PowAdd(2, 5, 5);
    PowAdd(2, 10, 10);
    PowAdd(2, 20, 5);
    PowAdd(2, 25, 5);
  }

  function If(bit: nat, constant: nat): nat {
    if bit % 2 == 1 then constant else 0
  }

  function Generators(): seq<nat> {
    [0x3b6a57b2, 0x26508e6d, 0x1ea119fa, 0x3d4233dd, 0x2a1462b3]
  }

  /** Reduces a shifted word: each bit of the symbol shifted out adds its generator, lowest bit first. */
  function Reduce(low: nat, top: nat, generators: seq<nat>): nat
    decreases generators
  {
    if generators == [] then low else Reduce(Xor(low, If(top, generators[0])), top / 2, generators[1..])
  }

  /** The polymod macro. */
  function Polymod(x: nat): nat {
    Reduce(x % TOP * 32, x / TOP, Generators())
  }

  /** The running checksum over a symbol sequence, with the step f as a parameter. */
  function RunWith(f: nat -> nat, chk: nat, symbols: seq<Symbol>): nat {
    if symbols == [] then chk else Xor(f(RunWith(f, chk, symbols[..|symbols| - 1])), symbols[|symbols| - 1])
  }

  function Run(chk: nat, symbols: seq<Symbol>): nat {
    RunWith(Polymod, chk, symbols)
  }

  function Repeated(f: nat -> nat, chk: nat, k: nat): nat {
    if k == 0 then chk else f(Repeated(f, chk, k - 1))
  }

  /** A summand that leaves the top symbol alone goes through the step as a plain shift. */
  ghost predicate Additive(f: nat -> nat) {
    forall a: nat, b: nat :: b < TOP ==> f(Xor(a, b)) == Xor(f(a), 32 * b)
  }

  function Symbolic(x: nat): Symbol { x % 32 }

  /** The six groups of a word, highest first. */
  function Groups(c: nat): (r: seq<Symbol>)
    ensures |r| == 6
  {
    [Symbolic(c / 0x2000000), Symbolic(c / 0x100000), Symbolic(c / 0x8000),
     Symbolic(c / 0x400), Symbolic(c / 0x20), Symbolic(c)]
  }

  /** What the encoder appends after symbols whose running checksum is chk: the groups of the checksum
      after six more steps with the last bit flipped. */
  function ChecksumOf(chk: nat): (r: seq<Symbol>)
    ensures |r| == 6
  {
    Groups(Xor(Repeated(Polymod, chk, 6), 1))
  }

  lemma {:induction false} ReduceAdds(low: nat, m: nat, top: nat, generators: seq<nat>)
    ensures Reduce(Xor(low, m), top, generators) == Xor(Reduce(low, top, generators), m)
    decreases generators
  {
    if generators != [] {
      var t := If(top, generators[0]);
      XorSwap(low, m, t);
      ReduceAdds(Xor(low, t), m, top / 2, generators[1..]);
    }
  }

  lemma {:induction false} ReduceBound(low: nat, top: nat, generators: seq<nat>)
    requires low < WORD && forall i :: 0 <= i < |generators| ==> generators[i] < WORD
    ensures Reduce(low, top, generators) < WORD
    decreases generators
  {
    if generators != [] {
      Weights();
      XorBound(low, If(top, generators[0]), 30);
      ReduceBound(Xor(low, If(top, generators[0])), top / 2, generators[1..]);
    }
  }

  lemma TopAndLow(a: nat, b: nat)
    requires b < TOP
    ensures Xor(a, b) / TOP == a / TOP && Xor(a, b) % TOP == Xor(a % TOP, b)
  {
    Weights();
    var q, r := a / TOP, a % TOP;
    XorSplit(q, r, 0, b, 25);
    XorBound(r, b, 25);
    XorZero(q);
    ShiftMultiplies(q, 25);
    ShiftMultiplies(0, 25);
  }

  lemma PolymodAdds(a: nat, b: nat)
    requires b < TOP
    ensures Polymod(Xor(a, b)) == Xor(Polymod(a), 32 * b)
  {
    hide Reduce, Xor, Generators;
    Weights();
    TopAndLow(a, b);
    XorShift(a % TOP, b, 5);
    ReduceAdds(a % TOP * 32, b * 32, a / TOP, Generators());
  }

  lemma PolymodBound(x: nat)
    ensures Polymod(x) < WORD
  {
    ReduceBound(x % TOP * 32, x / TOP, Generators());
  }

  lemma RunSnoc(f: nat -> nat, chk: nat, symbols: seq<Symbol>, s: Symbol)
    ensures RunWith(f, chk, symbols + [s]) == Xor(f(RunWith(f, chk, symbols)), s)
  {
    assert (symbols + [s])[..|symbols|] == symbols;
  }

  lemma {:induction false} RunConcat(f: nat -> nat, chk: nat, s: seq<Symbol>, t: seq<Symbol>)
    ensures RunWith(f, chk, s + t) == RunWith(f, RunWith(f, chk, s), t)
  {
    if t == [] {
      assert s + t == s;
    } else {
      var t', x := t[..|t| - 1], t[|t| - 1];
      assert s + t == (s + t') + [x];
      RunConcat(f, chk, s, t');
      RunSnoc(f, chk, s + t', x);
    }
  }

  lemma Joins(p: nat, q: nat, g: Symbol)
    ensures Xor(Xor(p, 32 * q), g) == Xor(p, 32 * q + g)
  {
    Weights();
    XorAssociates(p, 32 * q, g);
    XorDisjoint(q, g, 5);
  }

  /** leading[k] is the number the first k of the groups denote. */
  ghost predicate Accumulates(groups: seq<Symbol>, leading: seq<nat>) {
    && |leading| == |groups| + 1 && leading[0] == 0
    && forall k :: 0 <= k < |groups| ==> leading[k] < TOP && leading[k + 1] == 32 * leading[k] + groups[k]
  }

  lemma Quotients(c: nat)
    requires c < WORD
    ensures c / 0x2000000 < 32 && c / 0x100000 < 0x400 && c / 0x8000 < 0x8000 && c / 0x400 < 0x100000
    ensures c / 0x20 < TOP
    ensures c / 0x100000 / 32 == c / 0x2000000 && c / 0x8000 / 32 == c / 0x100000
    ensures c / 0x400 / 32 == c / 0x8000 && c / 0x20 / 32 == c / 0x400
  {}

  function Leading(c: nat): seq<nat> {
    [0, c / 0x2000000, c / 0x100000, c / 0x8000, c / 0x400, c / 0x20, c]
  }

  lemma GroupsAccumulate(c: nat)
    requires c < WORD
    ensures Accumulates(Groups(c), Leading(c))
  {
    Quotients(c);
    forall k | 0 <= k < 6
      ensures Leading(c)[k] < TOP && Leading(c)[k + 1] == 32 * Leading(c)[k] + Groups(c)[k]
    {
      Euclid(Leading(c)[k + 1], 32);
      assert Groups(c)[k] == Leading(c)[k + 1] % 32;
      assert Leading(c)[k] == Leading(c)[k + 1] / 32;
    }
  }

  lemma Adds(f: nat -> nat, a: nat, q: nat, g: Symbol)
    requires Additive(f) && q < TOP
    ensures Xor(f(Xor(a, q)), g) == Xor(f(a), 32 * q + g)
  {
    Joins(f(a), q, g);
  }

  /** The running word after some groups: the bare steps plus the groups fed in. */
  lemma {:induction false} FeedGroups(f: nat -> nat, chk: nat, groups: seq<Symbol>, leading: seq<nat>)
    requires Additive(f) && Accumulates(groups, leading)
    ensures RunWith(f, chk, groups) == Xor(Repeated(f, chk, |groups|), leading[|groups|])
    decreases groups
  {
    if groups == [] {
      XorZero(chk);
    } else {
      var k := |groups| - 1;
      FeedGroups(f, chk, groups[..k], leading[..k + 1]);
      Adds(f, Repeated(f, chk, k), leading[k], groups[k]);
    }
  }

  lemma SixGroups(f: nat -> nat, chk: nat)
    requires Additive(f) && Repeated(f, chk, 6) < WORD
    ensures RunWith(f, chk, Groups(Xor(Repeated(f, chk, 6), 1))) == 1
  {
    var p := Repeated(f, chk, 6);
    var c := Xor(p, 1);
    Weights();
    XorBound(p, 1, 30);
    GroupsAccumulate(c);
    FeedGroups(f, chk, Groups(c), Leading(c));
    XorAssociates(p, p, 1);
    XorSelf(p);
    XorZero(1);
  }

  lemma PolymodAdditive()
    ensures Additive(Polymod)
  {
    forall a: nat, b: nat | b < TOP ensures Polymod(Xor(a, b)) == Xor(Polymod(a), 32 * b) {
      PolymodAdds(a, b);
    }
  }

  /** Appending the six computed symbols brings the running polymod to one. */
  lemma ChecksumCompletes(symbols: seq<Symbol>)
    ensures Run(1, symbols + ChecksumOf(Run(1, symbols))) == 1
  {
    var chk := Run(1, symbols);
    PolymodAdditive();
    PolymodBound(Repeated(Polymod, chk, 5));
    SixGroups(Polymod, chk);
    RunConcat(Polymod, 1, symbols, ChecksumOf(chk));
  }

  /** Group j of a word is what a shift by five times 5 - j leaves in the low bits. */
  lemma GroupAt(c: nat, j: nat)
    requires j < 6
    ensures Pow(2, (5 - j) * 5) > 0
    ensures c / Pow(2, (5 - j) * 5) % 32 == Groups(c)[j]
  {
    Weights();
    assert Pow(2, 0) == 1;
    PowAdd(2, 5, 5);
    PowAdd(2, 10, 5);
    PowAdd(2, 10, 10);
    assert Pow(2, 20) == 0x100000 && Pow(2, 15) == 0x8000 && Pow(2, 10) == 0x400;
  }
}
