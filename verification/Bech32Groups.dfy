/** Regrouping between 8-bit and 5-bit digits, as core/support/BRBech32.c does it with shifts: both
    directions are described as one number written in two bases. */
module Bech32Groups {
  import opened Bech32Checksum
  import opened Bitwise
  import opened Positional

  /** The five-bit groups of a byte string, the last one padded with zero bits. */
  ghost function Packed(bytes: seq<Byte>): (s: seq<Symbol>)
    ensures |s| == (8 * |bytes| + 4) / 5
  {
    var count := (8 * |bytes| + 4) / 5;
    Fixed(Shift(Value(bytes, 256), 5 * count - 8 * |bytes|), 32, count)
  }

  /** The bytes that fit in a symbol string; leftover bits are dropped. */
  ghost function Unpacked(symbols: seq<Symbol>): (b: seq<Byte>)
    ensures |b| == 5 * |symbols| / 8
  {
    PowPositive(2, 5 * |symbols| % 8);
    Remainder(Value(symbols, 32), Pow(2, 5 * |symbols| % 8));
    Fixed(Value(symbols, 32) / Pow(2, 5 * |symbols| % 8), 256, 5 * |symbols| / 8)
  }

  lemma Bases(n: nat, m: nat)
    ensures Pow(256, n) == Pow(2, 8 * n) && Pow(32, m) == Pow(2, 5 * m)
  {
    SmallPowers();
    PowOfPow(2, 8, n);
    PowOfPow(2, 5, m);
  }

  lemma SmallPowers()
    ensures Pow(2, 0) == 1 && Pow(2, 1) == 2 && Pow(2, 2) == 4 && Pow(2, 3) == 8 && Pow(2, 4) == 16
    ensures Pow(2, 5) == 32 && Pow(2, 6) == 64 && Pow(2, 7) == 128 && Pow(2, 8) == 256
    ensures Pow(2, 9) == 512 && Pow(2, 10) == 1024 && Pow(2, 11) == 2048
  {}

  lemma PaddedBound(bytes: seq<Byte>, count: nat, pad: nat)
    requires 5 * count == 8 * |bytes| + pad
    ensures Shift(Value(bytes, 256), pad) < Pow(32, count)
  {
    ValueBound(bytes, 256);
    Bases(|bytes|, count);
    PowAdd(2, 8 * |bytes|, pad);
    PowPositive(2, pad);
    ShiftMultiplies(Value(bytes, 256), pad);
    MulLess(Value(bytes, 256), Pow(2, pad), Pow(2, 8 * |bytes|), Pow(2, pad));
  }

  /** Regrouping to symbols and back gives the same bytes. */
  lemma UnpackedPacked(bytes: seq<Byte>)
    ensures Unpacked(Packed(bytes)) == bytes
  {
    var v, m := Value(bytes, 256), |Packed(bytes)|;
    var pad := 5 * m - 8 * |bytes|;
    assert 5 * m / 8 == |bytes| && 5 * m % 8 == pad;
    PaddedBound(bytes, m, pad);
    ValueOfFixed(Shift(v, pad), 32, m);
    ShiftMultiplies(v, pad);
    PowPositive(2, pad);
    DivMod(v, 0, Pow(2, pad));
    FixedOfValue(bytes, 256);
  }

  /** A symbol string with this length and this number is the packed form. */
  lemma IsPacked(bytes: seq<Byte>, symbols: seq<Symbol>, pad: nat)
    requires |symbols| == (8 * |bytes| + 4) / 5 && pad == 5 * |symbols| - 8 * |bytes|
    requires Value(symbols, 32) == Shift(Value(bytes, 256), pad)
    ensures symbols == Packed(bytes)
  {
    FixedOfValue(symbols, 32);
  }

  /** A byte string with this length and this number is the unpacked form. */
  lemma IsUnpacked(symbols: seq<Symbol>, bytes: seq<Byte>, rest: nat)
    requires |bytes| == 5 * |symbols| / 8 && rest < Pow(2, 5 * |symbols| % 8)
    requires Value(symbols, 32) == Value(bytes, 256) * Pow(2, 5 * |symbols| % 8) + rest
    ensures bytes == Unpacked(symbols)
  {
    DivMod(Value(bytes, 256), rest, Pow(2, 5 * |symbols| % 8));
    FixedOfValue(bytes, 256);
  }

  // ---- One step of the encoder.  The symbols so far denote v, the bytes so far w, of which the low
  // ---- x bits of the last byte a are still to come out; b is the next byte.

  /** 2^k for the shift distances that occur. */
  function Two(k: nat): (p: nat)
    requires k <= 11
    ensures p > 0
  {
    if k == 0 then 1 else if k == 1 then 2 else if k == 2 then 4 else if k == 3 then 8
    else if k == 4 then 16 else if k == 5 then 32 else if k == 6 then 64 else if k == 7 then 128
    else if k == 8 then 256 else if k == 9 then 512 else if k == 10 then 1024 else 2048
  }

  lemma ShiftTwo(v: nat, k: nat)
    requires k <= 11
    ensures Shift(v, k) == v * Two(k)
  {
    SmallPowers();
    ShiftMultiplies(v, k);
  }

  lemma OrAt(a: nat, t: nat, k: nat)
    requires k <= 11 && t < Two(k)
    ensures Or(a * Two(k), t) == a * Two(k) + t
  {
    SmallPowers();
    OrDisjoint(a, t, k);
  }

  /** The x low bits of a and the high bits of b. */
  function HighGroup(a: Byte, b: Byte, x: nat): Symbol
    requires x < 5
  {
    Or(a * Two(5 - x), b / Two(3 + x)) % 32
  }

  /** The next five bits of b. */
  function LowGroup(b: Byte, x: nat): Symbol
    requires 2 <= x < 5
  {
    b / Two(x - 2) % 32
  }

  lemma HighGroupValue(a: Byte, b: Byte, x: nat)
    requires x < 5
    ensures HighGroup(a, b, x) == a % Two(x) * Two(5 - x) + b / Two(3 + x)
  {
    HighBits(b, x);
    OrAt(a, b / Two(3 + x), 5 - x);
    LowBits(a, b / Two(3 + x), x);
  }

  lemma HighBits(b: Byte, x: nat)
    requires x < 5
    ensures b / Two(3 + x) < Two(5 - x)
  {}

  lemma LowOne(a: nat, t: nat)
    requires t < 16
    ensures (a * 16 + t) % 32 == a % 2 * 16 + t
  {}

  lemma LowTwo(a: nat, t: nat)
    requires t < 8
    ensures (a * 8 + t) % 32 == a % 4 * 8 + t
  {}

  lemma LowThreeBits(a: nat, t: nat)
    requires t < 4
    ensures (a * 4 + t) % 32 == a % 8 * 4 + t
  {}

  lemma LowFourBits(a: nat, t: nat)
    requires t < 2
    ensures (a * 2 + t) % 32 == a % 16 * 2 + t
  {}

  lemma LowBits(a: nat, t: nat, x: nat)
    requires x < 5 && t < Two(5 - x)
    ensures (a * Two(5 - x) + t) % 32 == a % Two(x) * Two(5 - x) + t
  {
    match x {
      case 0 =>
      case 1 => LowOne(a, t);
      case 2 => LowTwo(a, t);
      case 3 => LowThreeBits(a, t);
      case 4 => LowFourBits(a, t);
    }
  }

  lemma HighStep(v: nat, w: nat, a: Byte, b: Byte, x: nat)
    requires x < 5 && v * Two(x) + a % Two(x) == w
    ensures (32 * v + (a % Two(x) * Two(5 - x) + b / Two(3 + x))) * Two(3 + x) + b % Two(3 + x) == 256 * w + b
  {
    match x {
      case 0 =>
      case 1 =>
      case 2 =>
      case 3 =>
      case 4 =>
    }
  }

  lemma LowThree(b: nat)
    ensures b / 2 % 32 * 2 + b % 2 == b % 64
  {}

  lemma LowFour(b: nat)
    ensures b / 4 % 32 * 4 + b % 4 == b % 128
  {}

  lemma LowGroupValue(b: nat, x: nat)
    requires 2 <= x < 5
    ensures b / Two(x - 2) % 32 * Two(x - 2) + b % Two(x - 2) == b % Two(x + 3)
  {
    match x {
      case 2 =>
      case 3 => LowThree(b);
      case 4 => LowFour(b);
    }
  }

  lemma LowStep(v: nat, b: Byte, x: nat)
    requires 2 <= x < 5
    ensures (32 * v + b / Two(x - 2) % 32) * Two(x - 2) + b % Two(x - 2) == v * Two(x + 3) + b % Two(x + 3)
  {
    LowGroupValue(b, x);
    Widen(v, b / Two(x - 2) % 32, x);
  }

  lemma Widen(v: nat, c: nat, x: nat)
    requires 2 <= x < 5
    ensures (32 * v + c) * Two(x - 2) == v * Two(x + 3) + c * Two(x - 2)
  {
    match x {
      case 2 =>
      case 3 =>
      case 4 =>
    }
  }

  /** The symbols hold all but the last 8 * |bytes| % 5 bits of the bytes. */
  ghost predicate Encoding(symbols: seq<Symbol>, bytes: seq<Byte>, last: Byte, x: nat) {
    && x == 8 * |bytes| % 5 && |symbols| == 8 * |bytes| / 5
    && Shift(Value(symbols, 32), x) + last % Two(x) == Value(bytes, 256)
  }

  lemma EncodeHigh(symbols: seq<Symbol>, bytes: seq<Byte>, a: Byte, b: Byte, x: nat)
    requires x < 5 && Encoding(symbols, bytes, a, x)
    ensures Shift(Value(symbols + [HighGroup(a, b, x)], 32), 3 + x) + b % Two(3 + x) == Value(bytes + [b], 256)
  {
    HighGroupValue(a, b, x);
    ValueSnoc(symbols, HighGroup(a, b, x), 32);
    ValueSnoc(bytes, b, 256);
    ShiftTwo(Value(symbols, 32), x);
    ShiftTwo(Value(symbols + [HighGroup(a, b, x)], 32), 3 + x);
    HighStep(Value(symbols, 32), Value(bytes, 256), a, b, x);
  }

  lemma EncodeOne(symbols: seq<Symbol>, bytes: seq<Byte>, a: Byte, b: Byte, x: nat)
    requires x < 2 && Encoding(symbols, bytes, a, x)
    ensures Encoding(symbols + [HighGroup(a, b, x)], bytes + [b], b, x + 3)
  {
    EncodeHigh(symbols, bytes, a, b, x);
  }

  lemma EncodeLow(one: seq<Symbol>, b: Byte, x: nat, w: nat)
    requires 2 <= x < 5 && Shift(Value(one, 32), x + 3) + b % Two(x + 3) == w
    ensures Shift(Value(one + [LowGroup(b, x)], 32), x - 2) + b % Two(x - 2) == w
  {
    ValueSnoc(one, LowGroup(b, x), 32);
    ShiftTwo(Value(one, 32), x + 3);
    ShiftTwo(Value(one + [LowGroup(b, x)], 32), x - 2);
    LowStep(Value(one, 32), b, x);
  }

  lemma Counts(n: nat, x: nat)
    requires x == 8 * n % 5
    ensures x < 2 ==> 8 * (n + 1) % 5 == x + 3 && 8 * (n + 1) / 5 == 8 * n / 5 + 1
    ensures x >= 2 ==> 8 * (n + 1) % 5 == x - 2 && 8 * (n + 1) / 5 == 8 * n / 5 + 2
  {}

  lemma EncodeTwo(symbols: seq<Symbol>, bytes: seq<Byte>, a: Byte, b: Byte, x: nat)
    requires 2 <= x < 5 && Encoding(symbols, bytes, a, x)
    ensures Encoding(symbols + [HighGroup(a, b, x)] + [LowGroup(b, x)], bytes + [b], b, x - 2)
  {
    Counts(|bytes|, x);
    EncodeHigh(symbols, bytes, a, b, x);
    var w := Value(bytes + [b], 256);
    var one := symbols + [HighGroup(a, b, x)];
    EncodeLow(one, b, x, w);
    var two := one + [LowGroup(b, x)];
    assert |two| == 8 * |bytes + [b]| / 5;
  }

  lemma EncodeDone(symbols: seq<Symbol>, bytes: seq<Byte>, a: Byte)
    requires Encoding(symbols, bytes, a, 0)
    ensures symbols == Packed(bytes)
  {
    IsPacked(bytes, symbols, 0);
  }

  lemma EncodeRest(symbols: seq<Symbol>, bytes: seq<Byte>, a: Byte, x: nat)
    requires 0 < x < 5 && Encoding(symbols, bytes, a, x)
    ensures symbols + [HighGroup(a, 0, x)] == Packed(bytes)
  {
    var v := Value(symbols, 32);
    HighGroupValue(a, 0, x);
    ValueSnoc(symbols, HighGroup(a, 0, x), 32);
    ShiftTwo(Value(bytes, 256), 5 - x);
    ShiftTwo(v, x);
    RestValue(v, a, x);
    IsPacked(bytes, symbols + [HighGroup(a, 0, x)], 5 - x);
  }

  lemma RestValue(v: nat, a: nat, x: nat)
    requires 0 < x < 5
    ensures v * 32 + a % Two(x) * Two(5 - x) == (v * Two(x) + a % Two(x)) * Two(5 - x)
  {
    match x {
      case 1 =>
      case 2 =>
      case 3 =>
      case 4 =>
    }
  }

  // ---- One step of the decoder.  The symbols so far denote v; the bytes before the current one
  // ---- denote u, the current byte h holds x bits and zeros; c is the next symbol.

  lemma Aligned(u: nat, h: nat, v: nat, x: nat) returns (q: nat)
    requires x < 8 && u * 256 + h == v * Two(8 - x)
    ensures h == q * Two(8 - x)
  {
    match x {
      case 0 => q := v - u;
      case 1 => q := v - 2 * u;
      case 2 => q := v - 4 * u;
      case 3 => q := v - 8 * u;
      case 4 => q := v - 16 * u;
      case 5 => q := v - 32 * u;
      case 6 => q := v - 64 * u;
      case 7 => q := v - 128 * u;
    }
  }

  lemma Part(c: Symbol, x: nat)
    requires x < 8
    ensures c * 8 / Two(x) < Two(8 - x)
    ensures x <= 3 ==> c * 8 / Two(x) == c * Two(3 - x)
    ensures x > 3 ==> c * 8 / Two(x) * 256 + c * Two(11 - x) % 256 == c * Two(11 - x)
  {
    match x {
      case 0 =>
      case 1 =>
      case 2 =>
      case 3 =>
      case 4 =>
      case 5 =>
      case 6 =>
      case 7 =>
    }
  }

  lemma Fill(u: nat, h: Byte, v: nat, c: Symbol, x: nat)
    requires x < 8 && u * 256 + h == Shift(v, 8 - x)
    ensures Or(h, c * 8 / Two(x)) == h + c * 8 / Two(x) < 256
  {
    ShiftTwo(v, 8 - x);
    var q := Aligned(u, h, v, x);
    Part(c, x);
    FillAligned(h, q, c * 8 / Two(x), 8 - x);
  }

  lemma FillAligned(h: Byte, q: nat, t: nat, k: nat)
    requires 0 < k <= 8 && h == q * Two(k) && t < Two(k)
    ensures Or(h, t) == h + t < 256
  {
    OrAt(q, t, k);
    Room(h, q, t, k);
  }

  lemma Room(h: Byte, q: nat, t: nat, k: nat)
    requires 0 < k <= 8 && h == q * Two(k) && t < Two(k)
    ensures h + t < 256
  {
    match k {
      case 1 =>
      case 2 =>
      case 3 =>
      case 4 =>
      case 5 =>
      case 6 =>
      case 7 =>
      case 8 =>
    }
  }

  lemma FillWithin(u: nat, h: Byte, v: nat, c: Symbol, x: nat)
    requires x <= 3 && u * 256 + h == Shift(v, 8 - x)
    ensures u * 256 + (h + c * 8 / Two(x)) == Shift(32 * v + c, 3 - x)
  {
    ShiftTwo(v, 8 - x);
    ShiftTwo(32 * v + c, 3 - x);
    Part(c, x);
    match x {
      case 0 =>
      case 1 =>
      case 2 =>
      case 3 =>
    }
  }

  lemma FillAcross(u: nat, h: Byte, v: nat, c: Symbol, x: nat)
    requires 3 < x < 8 && u * 256 + h == Shift(v, 8 - x)
    ensures (u * 256 + (h + c * 8 / Two(x))) * 256 + c * Two(11 - x) % 256 == Shift(32 * v + c, 11 - x)
  {
    ShiftTwo(v, 8 - x);
    ShiftTwo(32 * v + c, 11 - x);
    Part(c, x);
    match x {
      case 4 =>
      case 5 =>
      case 6 =>
      case 7 =>
    }
  }

  /** buf holds the bits of the symbols: the first k bytes are complete, the top x bits of the next
      are filled, and everything after is zero. */
  ghost predicate Decoding(buf: seq<Byte>, symbols: seq<Symbol>, k: nat, x: nat) {
    && k == 5 * |symbols| / 8 && x == 5 * |symbols| % 8 && k < |buf| && x < 8
    && Value(buf[..k], 256) * 256 + buf[k] == Shift(Value(symbols, 32), 8 - x)
    && forall i :: k < i < |buf| ==> buf[i] == 0
  }

  /** The byte the decoder ors the high part of a symbol into. */
  function Filled(h: Byte, c: Symbol, x: nat): nat
    requires x < 8
  {
    Or(h, c * 8 / Two(x))
  }

  /** What spills over into the byte after it. */
  function Spilled(l: Byte, c: Symbol, x: nat): Byte
    requires 3 < x < 8
  {
    Or(l, c * Two(11 - x)) % 256
  }

  lemma WithinByte(u: nat, h: Byte, v: nat, c: Symbol, x: nat)
    requires x <= 3 && u * 256 + h == Shift(v, 8 - x)
    ensures Filled(h, c, x) < 256 && u * 256 + Filled(h, c, x) == Shift(32 * v + c, 3 - x)
  {
    Fill(u, h, v, c, x);
    FillWithin(u, h, v, c, x);
  }

  lemma AcrossBytes(u: nat, h: Byte, v: nat, c: Symbol, x: nat)
    requires 3 < x < 8 && u * 256 + h == Shift(v, 8 - x)
    ensures Filled(h, c, x) < 256
    ensures (u * 256 + Filled(h, c, x)) * 256 + Spilled(0, c, x) == Shift(32 * v + c, 11 - x)
  {
    OrZero(c * Two(11 - x));
    Fill(u, h, v, c, x);
    FillAcross(u, h, v, c, x);
  }

  lemma BitCounts(m: nat, k: nat, x: nat)
    requires k == 5 * m / 8 && x == 5 * m % 8
    ensures x < 3 ==> 5 * (m + 1) / 8 == k && 5 * (m + 1) % 8 == x + 5
    ensures x >= 3 ==> 5 * (m + 1) / 8 == k + 1 && 5 * (m + 1) % 8 == x - 3
  {}

  lemma DecodeWithin(buf: seq<Byte>, symbols: seq<Symbol>, c: Symbol, k: nat, x: nat)
    requires x < 3 && Decoding(buf, symbols, k, x)
    ensures Filled(buf[k], c, x) < 256
    ensures Decoding(buf[k := Filled(buf[k], c, x)], symbols + [c], k, x + 5)
  {
    WithinByte(Value(buf[..k], 256), buf[k], Value(symbols, 32), c, x);
    BitCounts(|symbols|, k, x);
    ValueSnoc(symbols, c, 32);
    assert buf[k := Filled(buf[k], c, x)][..k] == buf[..k];
  }

  /** Appending a complete byte to the part of the buffer that is read as a number. */
  lemma Complete(buf: seq<Byte>, k: nat, h: Byte)
    requires k < |buf|
    ensures Value(buf[k := h][..k + 1], 256) == Value(buf[..k], 256) * 256 + h
  {
    assert buf[k := h][..k + 1] == buf[..k] + [h];
    ValueSnoc(buf[..k], h, 256);
  }

  lemma DecodeExactly(buf: seq<Byte>, symbols: seq<Symbol>, c: Symbol, k: nat)
    requires Decoding(buf, symbols, k, 3) && k + 1 < |buf|
    ensures Filled(buf[k], c, 3) < 256
    ensures Decoding(buf[k := Filled(buf[k], c, 3)], symbols + [c], k + 1, 0)
  {
    WithinByte(Value(buf[..k], 256), buf[k], Value(symbols, 32), c, 3);
    BitCounts(|symbols|, k, 3);
    ValueSnoc(symbols, c, 32);
    Complete(buf, k, Filled(buf[k], c, 3));
    ShiftTwo(32 * Value(symbols, 32) + c, 8);
  }

  lemma DecodeAcross(buf: seq<Byte>, symbols: seq<Symbol>, c: Symbol, k: nat, x: nat)
    requires 3 < x < 8 && Decoding(buf, symbols, k, x) && k + 1 < |buf|
    ensures Filled(buf[k], c, x) < 256
    ensures Decoding(buf[k := Filled(buf[k], c, x)][k + 1 := Spilled(buf[k + 1], c, x)], symbols + [c], k + 1, x - 3)
  {
    AcrossBytes(Value(buf[..k], 256), buf[k], Value(symbols, 32), c, x);
    BitCounts(|symbols|, k, x);
    ValueSnoc(symbols, c, 32);
    var h := Filled(buf[k], c, x);
    Complete(buf, k, h);
    assert buf[k := h][k + 1 := Spilled(0, c, x)][..k + 1] == buf[k := h][..k + 1];
  }

  /** The buffer after the decoder stored a symbol with x bits of byte k taken. */
  function Stored(buf: seq<Byte>, c: Symbol, k: nat, x: nat): seq<Byte>
    requires x < 8 && k + 1 < |buf| && Filled(buf[k], c, x) < 256
  {
    var high := buf[k := Filled(buf[k], c, x)];
    if x > 3 then high[k + 1 := Spilled(buf[k + 1], c, x)] else high
  }

  lemma DecodeNext(buf: seq<Byte>, symbols: seq<Symbol>, c: Symbol, k: nat, x: nat)
    requires x < 8 && Decoding(buf, symbols, k, x) && k + 1 < |buf|
    ensures Filled(buf[k], c, x) < 256
    ensures Decoding(Stored(buf, c, k, x), symbols + [c], 5 * (|symbols| + 1) / 8, 5 * (|symbols| + 1) % 8)
  {
    if x < 3 {
      DecodeWithin(buf, symbols, c, k, x);
    } else if x == 3 {
      DecodeExactly(buf, symbols, c, k);
    } else {
      DecodeAcross(buf, symbols, c, k, x);
    }
  }

  lemma DecodeDone(buf: seq<Byte>, symbols: seq<Symbol>, k: nat, x: nat)
    requires x < 8 && Decoding(buf, symbols, k, x)
    ensures buf[..k] == Unpacked(symbols)
  {
    var u, v := Value(buf[..k], 256), Value(symbols, 32);
    ShiftTwo(v, 8 - x);
    var q := Aligned(u, buf[k], v, x);
    SmallPowers();
    RestOfByte(u, buf[k], v, q, x);
    IsUnpacked(symbols, buf[..k], q);
  }

  lemma RestOfByte(u: nat, h: Byte, v: nat, q: nat, x: nat)
    requires x < 8 && u * 256 + h == v * Two(8 - x) && h == q * Two(8 - x)
    ensures v == u * Two(x) + q && q < Two(x)
  {
    match x {
      case 0 =>
      case 1 =>
      case 2 =>
      case 3 =>
      case 4 =>
      case 5 =>
      case 6 =>
      case 7 =>
    }
  }
}
