/** Little-endian integers and the variable-length integers of core/support/BRAddress.c. */
module VarInt {
  import opened Positional

  const VAR_INT16_HEADER: nat := 0xfd
  const VAR_INT32_HEADER: nat := 0xfe
  const VAR_INT64_HEADER: nat := 0xff

  type U32 = n: nat | n < 0x1_0000_0000
  type U64 = n: nat | n < 0x1_0000_0000_0000_0000

  /** v in n bytes, lowest first. */
  function LittleEndian(v: nat, n: nat): (s: seq<Byte>)
    ensures |s| == n
    decreases n
  {
    if n == 0 then [] else [v % 256] + LittleEndian(v / 256, n - 1)
  }

  function FromLittleEndian(s: seq<Byte>): nat {
    if s == [] then 0 else s[0] + 256 * FromLittleEndian(s[1..])
  }

  lemma {:induction false} LittleEndianValue(v: nat, n: nat)
    requires v < Pow(256, n)
    ensures FromLittleEndian(LittleEndian(v, n)) == v
    decreases n
  {
    if n > 0 { LittleEndianValue(v / 256, n - 1); }
  }

  function Reversed(s: seq<Byte>): (r: seq<Byte>)
    ensures |r| == |s| && forall i :: 0 <= i < |s| ==> r[i] == s[|s| - 1 - i]
  {
    seq(|s|, i requires 0 <= i < |s| => s[|s| - 1 - i])
  }

  /** Read backwards, the bytes are the digits of v. */
  lemma {:induction false} LittleEndianIs(v: nat, n: nat)
    requires v < Pow(256, n)
    ensures Value(Reversed(LittleEndian(v, n)), 256) == v
    decreases n
  {
    if n > 0 {
      LittleEndianIs(v / 256, n - 1);
      var high, low := LittleEndian(v / 256, n - 1), v % 256;
      assert Reversed([low] + high) == Reversed(high) + [low];
      ValueSnoc(Reversed(high), low, 256);
    }
  }

  lemma Widths()
    ensures Pow(256, 2) == 0x1_0000 && Pow(256, 4) == 0x1_0000_0000 && Pow(256, 8) == 0x1_0000_0000_0000_0000
  {
    assert Pow(256, 2) == 0x1_0000;
    PowAdd(256, 2, 2);
    PowAdd(256, 4, 4);
  }

  lemma {:induction false} LittleEndianOf(s: seq<Byte>)
    ensures FromLittleEndian(s) < Pow(256, |s|) && LittleEndian(FromLittleEndian(s), |s|) == s
  {
    if s != [] {
      LittleEndianOf(s[1..]);
      var v := FromLittleEndian(s);
      assert v % 256 == s[0] && v / 256 == FromLittleEndian(s[1..]);
      assert s == [s[0]] + s[1..];
    }
  }

  /** The bytes BRVarIntSet writes for i. */
  function Encoded(i: U64): (s: seq<Byte>)
    ensures s != []
  {
    if i < VAR_INT16_HEADER then [i]
    else if i < 0x1_0000 then [VAR_INT16_HEADER] + LittleEndian(i, 2)
    else if i < 0x1_0000_0000 then [VAR_INT32_HEADER] + LittleEndian(i, 4)
    else [VAR_INT64_HEADER] + LittleEndian(i, 8)
  }

  datatype Read = Read(value: U64, length: nat)

  /** buf continues with a at off. */
  ghost predicate Holds(buf: seq<Byte>, off: nat, a: seq<Byte>)
    decreases |a|
  {
    if a == [] then off <= |buf| else off < |buf| && buf[off] == a[0] && Holds(buf, off + 1, a[1..])
  }

  lemma {:induction false} HoldsSlice(buf: seq<Byte>, off: nat, a: seq<Byte>)
    ensures Holds(buf, off, a) <==> off + |a| <= |buf| && buf[off..off + |a|] == a
    decreases |a|
  {
    if a != [] {
      HoldsSlice(buf, off + 1, a[1..]);
      if off + |a| <= |buf| {
        assert buf[off..off + |a|] == [buf[off]] + buf[off + 1..off + |a|];
      }
    }
  }

  lemma {:induction false} HoldsParts(buf: seq<Byte>, off: nat, a: seq<Byte>, b: seq<Byte>)
    requires Holds(buf, off, a + b)
    ensures Holds(buf, off, a) && Holds(buf, off + |a|, b)
    decreases |a|
  {
    if a == [] {
      assert a + b == b;
      HoldsSlice(buf, off, b);
    } else {
      assert (a + b)[1..] == a[1..] + b;
      HoldsParts(buf, off + 1, a[1..], b);
    }
  }

  /** A slice of what is held is a slice of the buffer. */
  lemma HeldSlice(buf: seq<Byte>, off: nat, a: seq<Byte>, i: nat, j: nat)
    requires Holds(buf, off, a) && i <= j <= |a|
    ensures off + |a| <= |buf| && buf[off + i..off + j] == a[i..j]
  {
    HoldsSlice(buf, off, a);
    forall k | 0 <= k < j - i ensures buf[off + i..off + j][k] == a[i..j][k] {
      assert buf[off..off + |a|][i + k] == a[i + k];
    }
  }

  /** The n-byte integer at off, zero when it does not fit in the buffer. */
  function NumberAt(buf: seq<Byte>, off: nat, n: nat): (r: U64)
    requires n <= 8
    ensures r < Pow(256, n)
  {
    if off + n <= |buf| then
      (LittleEndianOf(buf[off..off + n]); Widths(); PowMonotone(256, n, 8); FromLittleEndian(buf[off..off + n]))
    else (PowPositive(256, n); 0)
  }

  function Number32At(buf: seq<Byte>, off: nat): U32 {
    Widths();
    NumberAt(buf, off, 4)
  }

  lemma NumberHeld(buf: seq<Byte>, off: nat, v: nat, n: nat)
    requires n <= 8 && v < Pow(256, n) && Holds(buf, off, LittleEndian(v, n))
    ensures NumberAt(buf, off, n) == v && off + n <= |buf|
  {
    HoldsSlice(buf, off, LittleEndian(v, n));
    LittleEndianValue(v, n);
  }

  /** BRVarInt on the buffer from off on: the value and what it stores in intLen. */
  function DecodedAt(buf: seq<Byte>, off: nat): (r: Read)
    ensures 1 <= r.length <= 9
  {
    var h := if off < |buf| then buf[off] else 0;
    if h == VAR_INT16_HEADER then Read(NumberAt(buf, off + 1, 2), 3)
    else if h == VAR_INT32_HEADER then Read(NumberAt(buf, off + 1, 4), 5)
    else if h == VAR_INT64_HEADER then Read(NumberAt(buf, off + 1, 8), 9)
    else Read(h, 1)
  }

  /** Reading an encoded integer gives it back. */
  lemma DecodeEncode(buf: seq<Byte>, off: nat, i: U64)
    requires Holds(buf, off, Encoded(i))
    ensures DecodedAt(buf, off) == Read(i, |Encoded(i)|)
  {
    Widths();
    var e := Encoded(i);
    if i >= VAR_INT16_HEADER {
      var n := if i < 0x1_0000 then 2 else if i < 0x1_0000_0000 then 4 else 8;
      HoldsParts(buf, off, [e[0]], LittleEndian(i, n));
      NumberHeld(buf, off + 1, i, n);
    }
  }

  /** An integer that fits in w is read the same where a larger buffer holds w. */
  lemma DecodeHeld(buf: seq<Byte>, off: nat, w: seq<Byte>, woff: nat)
    requires Holds(buf, off, w) && woff < |w| && woff + DecodedAt(w, woff).length <= |w|
    ensures DecodedAt(buf, off + woff) == DecodedAt(w, woff)
  {
    var n := DecodedAt(w, woff).length;
    HeldSlice(buf, off, w, woff, woff + 1);
    assert buf[off + woff] == buf[off + woff..off + woff + 1][0] == w[woff..woff + 1][0];
    HeldSlice(buf, off, w, woff + 1, woff + n);
  }

  lemma EncodedSize(i: U64)
    ensures |Encoded(i)| >= 1 && (|Encoded(i)| == 1 <==> i < VAR_INT16_HEADER)
  {}

  /** The shortest of four forms: the number itself below 253, and otherwise a header that tells the width,
      followed by the digits with the lowest first. */
  lemma EncodedIs(i: U64)
    ensures var s := Encoded(i);
         if i < 253 then s == [i] else
           && |s| == (if i < 0x1_0000 then 3 else if i < 0x1_0000_0000 then 5 else 9)
           && s[0] == (if |s| == 3 then 253 else if |s| == 5 then 254 else 255)
           && Value(Reversed(s[1..]), 256) == i
  {
    hide LittleEndian;
    Widths();
    if i < 253 {
    } else if i < 0x1_0000 {
      LittleEndianIs(i, 2);
    } else if i < 0x1_0000_0000 {
      LittleEndianIs(i, 4);
    } else {
      LittleEndianIs(i, 8);
    }
  }
}
