/** Bitwise operations on unsigned words, as operations on natural numbers. */
module Bitwise {
  import opened Positional

  function And(a: nat, b: nat): nat {
    if a == 0 then 0 else a % 2 * (b % 2) + 2 * And(a / 2, b / 2)
  }

  function Or(a: nat, b: nat): nat
    decreases a + b
  {
    if a == 0 && b == 0 then 0 else (if a % 2 == 1 || b % 2 == 1 then 1 else 0) + 2 * Or(a / 2, b / 2)
  }

  function Xor(a: nat, b: nat): nat
    decreases a + b
  {
    if a == 0 && b == 0 then 0 else (if a % 2 != b % 2 then 1 else 0) + 2 * Xor(a / 2, b / 2)
  }

  lemma {:induction false} AndSelf(a: nat)
    ensures And(a, a) == a
  {
    if a > 0 { AndSelf(a / 2); }
  }

  lemma {:induction false} XorZero(a: nat)
    ensures Xor(a, 0) == a && Xor(0, a) == a
  {
    if a > 0 { XorZero(a / 2); }
  }

  lemma {:induction false} XorSelf(a: nat)
    ensures Xor(a, a) == 0
  {
    if a > 0 { XorSelf(a / 2); }
  }

  lemma {:induction false} XorCommutes(a: nat, b: nat)
    ensures Xor(a, b) == Xor(b, a)
    decreases a + b
  {
    if a + b > 0 { XorCommutes(a / 2, b / 2); }
  }

  lemma XorStep(a: nat, b: nat)
    ensures Xor(a, b) % 2 == (if a % 2 != b % 2 then 1 else 0) && Xor(a, b) / 2 == Xor(a / 2, b / 2)
  {}

  lemma {:induction false} XorAssociates(a: nat, b: nat, c: nat)
    ensures Xor(Xor(a, b), c) == Xor(a, Xor(b, c))
    decreases a + b + c
  {
    if a + b + c > 0 {
      XorStep(a, b);
      XorStep(b, c);
      XorStep(Xor(a, b), c);
      XorStep(a, Xor(b, c));
      XorAssociates(a / 2, b / 2, c / 2);
    }
  }

  lemma XorSwap(a: nat, b: nat, c: nat)
    ensures Xor(Xor(a, b), c) == Xor(Xor(a, c), b)
  {
    XorAssociates(a, b, c);
    XorAssociates(a, c, b);
    XorCommutes(b, c);
  }

  lemma XorPair(a: nat, x: nat, b: nat, y: nat)
    requires x < 2 && y < 2
    ensures Xor(2 * a + x, 2 * b + y) == 2 * Xor(a, b) + (if x != y then 1 else 0)
  {}

  lemma OrPair(a: nat, x: nat, b: nat, y: nat)
    requires x < 2 && y < 2
    ensures Or(2 * a + x, 2 * b + y) == 2 * Or(a, b) + (if x == 1 || y == 1 then 1 else 0)
  {}

  /** q followed by k zero bits. */
  function Shift(q: nat, k: nat): nat {
    if k == 0 then q else 2 * Shift(q, k - 1)
  }

  lemma {:induction false} ShiftMultiplies(q: nat, k: nat)
    ensures Shift(q, k) == q * Pow(2, k)
  {
    if k > 0 {
      ShiftMultiplies(q, k - 1);
      Twice(q, Pow(2, k - 1));
    }
  }

  lemma Twice(q: nat, p: nat)
    ensures q * (2 * p) == 2 * (q * p)
  {}

  lemma {:induction false} XorBound(a: nat, b: nat, k: nat)
    requires a < Pow(2, k) && b < Pow(2, k)
    ensures Xor(a, b) < Pow(2, k)
    decreases k
  {
    if k > 0 {
      XorBound(a / 2, b / 2, k - 1);
      XorPair(a / 2, a % 2, b / 2, b % 2);
    }
  }

  /** Exclusive or works on the bits below k and from k on separately. */
  lemma {:induction false} XorSplit(q: nat, r: nat, q': nat, r': nat, k: nat)
    requires r < Pow(2, k) && r' < Pow(2, k)
    ensures Xor(Shift(q, k) + r, Shift(q', k) + r') == Shift(Xor(q, q'), k) + Xor(r, r')
    decreases k
  {
    if k > 0 {
      XorSplit(q, r / 2, q', r' / 2, k - 1);
      XorLevel(Shift(q, k - 1), r, Shift(q', k - 1), r', Shift(Xor(q, q'), k - 1));
    }
  }

  lemma XorLevel(a: nat, r: nat, b: nat, r': nat, m: nat)
    requires Xor(a + r / 2, b + r' / 2) == m + Xor(r / 2, r' / 2)
    ensures Xor(2 * a + r, 2 * b + r') == 2 * m + Xor(r, r')
  {
    XorPair(a + r / 2, r % 2, b + r' / 2, r' % 2);
    XorPair(r / 2, r % 2, r' / 2, r' % 2);
  }

  lemma XorShift(a: nat, b: nat, k: nat)
    ensures Xor(a * Pow(2, k), b * Pow(2, k)) == Xor(a, b) * Pow(2, k)
  {
    PowPositive(2, k);
    XorSplit(a, 0, b, 0, k);
    ShiftMultiplies(a, k);
    ShiftMultiplies(b, k);
    ShiftMultiplies(Xor(a, b), k);
  }

  /** Words without a common bit position just add up. */
  lemma XorDisjoint(q: nat, r: nat, k: nat)
    requires r < Pow(2, k)
    ensures Xor(q * Pow(2, k), r) == q * Pow(2, k) + r
  {
    XorSplit(q, 0, 0, r, k);
    XorZero(q);
    XorZero(r);
    ShiftMultiplies(q, k);
    ShiftMultiplies(0, k);
  }

  lemma {:induction false} OrDisjoint(q: nat, r: nat, k: nat)
    requires r < Pow(2, k)
    ensures Or(q * Pow(2, k), r) == q * Pow(2, k) + r
  {
    OrShifted(q, r, k);
    ShiftMultiplies(q, k);
  }

  lemma {:induction false} OrShifted(q: nat, r: nat, k: nat)
    requires r < Pow(2, k)
    ensures Or(Shift(q, k), r) == Shift(q, k) + r
    decreases k
  {
    if k == 0 {
      OrZero(q);
    } else {
      OrShifted(q, r / 2, k - 1);
      OrPair(Shift(q, k - 1), 0, r / 2, r % 2);
    }
  }

  lemma {:induction false} OrZero(a: nat)
    ensures Or(a, 0) == a && Or(0, a) == a
  {
    if a > 0 { OrZero(a / 2); }
  }
}
