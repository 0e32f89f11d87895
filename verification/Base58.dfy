/** The base58 codec of core/support/BRBase58.c: a positional change of base, with leading zero
    digits carried over one for one. */
module Base58 {
  import opened Positional

  /** The encoder's character table, written run by run. */
  const ALPHABET: string := "123456789" + "ABCDEFGH" + "JKLMN" + "PQRSTUVWXYZ" + "abcdefghijk" + "mnopqrstuvwxyz"

  /** What the decoder sets carry to when a character is not a base58 digit. */
  const NOT_A_DIGIT: nat := 0xffff_ffff

  /** The decoder's switch from a character to its digit. */
  function DigitOf(c: char): nat {
    var n := c as nat;
    if '1' <= c <= '9' then n - '1' as nat
    else if 'A' <= c <= 'H' then n - 'A' as nat + 9
    else if 'J' <= c <= 'N' then n - 'J' as nat + 17
    else if 'P' <= c <= 'Z' then n - 'P' as nat + 22
    else if 'a' <= c <= 'k' then n - 'a' as nat + 33
    else if 'm' <= c <= 'z' then n - 'm' as nat + 44
    else NOT_A_DIGIT
  }

  predicate ValidDigit(c: char) { DigitOf(c) < 58 }

  predicate ValidString(str: string) {
    forall i :: 0 <= i < |str| ==> ValidDigit(str[i])
  }

  ghost predicate Run(s: string, first: char) {
    forall i :: 0 <= i < |s| ==> s[i] as nat == first as nat + i
  }

  lemma Runs()
    ensures Run("123456789", '1') && Run("ABCDEFGH", 'A') && Run("JKLMN", 'J')
    ensures Run("PQRSTUVWXYZ", 'P') && Run("abcdefghijk", 'a') && Run("mnopqrstuvwxyz", 'm')
  {}

  /** The encoder's table and the decoder's switch are inverse to each other. */
  lemma AlphabetAt(d: nat)
    requires d < 58
    ensures |ALPHABET| == 58 && DigitOf(ALPHABET[d]) == d
  {
    Runs();
  }

  lemma AlphabetOf(c: char)
    requires ValidDigit(c)
    ensures |ALPHABET| == 58 && ALPHABET[DigitOf(c)] == c
  {
    Runs();
  }

  lemma DigitsRise(c: char, d: char)
    requires DigitOf(c) < DigitOf(d) < 58
    ensures c < d
  {}

  /** Digits and letters in the order of their codes, without the four that look alike. */
  lemma AlphabetIs(c: char)
    ensures |ALPHABET| == 58 && forall i, j :: 0 <= i < j < 58 ==> ALPHABET[i] < ALPHABET[j]
    ensures c in ALPHABET <==> ('0' <= c <= '9' || 'A' <= c <= 'Z' || 'a' <= c <= 'z') && c !in ['0', 'O', 'I', 'l']
  {
    assert |ALPHABET| == 58 by { Runs(); }
    assert ValidDigit(c) <==> ('0' <= c <= '9' || 'A' <= c <= 'Z' || 'a' <= c <= 'z') && c !in ['0', 'O', 'I', 'l'];
    hide DigitOf;
    forall i, j | 0 <= i < j < 58 ensures ALPHABET[i] < ALPHABET[j] {
      AlphabetAt(i);
      AlphabetAt(j);
      DigitsRise(ALPHABET[i], ALPHABET[j]);
    }
    if c in ALPHABET {
      var d :| 0 <= d < |ALPHABET| && ALPHABET[d] == c;
      AlphabetAt(d);
    }
    if ValidDigit(c) { AlphabetOf(c); }
  }

  function Chars(digits: seq<nat>): (str: string)
    requires InBase(digits, 58)
  {
    seq(|digits|, i requires 0 <= i < |digits| => (AlphabetAt(digits[i]); ALPHABET[digits[i]]))
  }

  /** How many characters the decoder reads: it stops at the first one that is not a digit. */
  function ReadLength(str: string): (n: nat)
    ensures n <= |str| && ValidString(str[..n]) && (n < |str| ==> !ValidDigit(str[n]))
  {
    if str == [] || !ValidDigit(str[0]) then 0 else
      var n := 1 + ReadLength(str[1..]);
      assert str[..n] == [str[0]] + str[1..][..n - 1];
      n
  }

  lemma {:induction false} ReadLengthIs(str: string, n: nat)
    requires n <= |str| && (forall i :: 0 <= i < n ==> ValidDigit(str[i])) && (n < |str| ==> !ValidDigit(str[n]))
    ensures ReadLength(str) == n
  {
    if n > 0 { ReadLengthIs(str[1..], n - 1); }
  }

  function DigitsOf(str: string): (digits: seq<nat>)
    requires ValidString(str)
    ensures InBase(digits, 58)
  {
    seq(|str|, i requires 0 <= i < |str| => DigitOf(str[i]))
  }

  function DigitsRead(str: string): (digits: seq<nat>)
    ensures InBase(digits, 58)
  {
    DigitsOf(str[..ReadLength(str)])
  }

  function LeadingZeroCount(s: seq<nat>): (n: nat)
    ensures n <= |s| && s[..n] == Zeros(n) && (n < |s| ==> s[n] != 0)
  {
    if s == [] || s[0] != 0 then 0 else 1 + LeadingZeroCount(s[1..])
  }

  /** Change of base: leading zeros stay, the rest is the canonical notation of the same number. */
  ghost function Convert(s: seq<nat>, from: nat, to: nat): (r: seq<nat>)
    requires to > 1
    ensures InBase(r, to)
  {
    Zeros(LeadingZeroCount(s)) + Digits(Value(s, from), to)
  }

  ghost function Encoded(data: seq<Byte>): string { Chars(Convert(data, 256, 58)) }

  ghost function Decoded(str: string): seq<nat> { Convert(DigitsRead(str), 58, 256) }

  lemma {:induction false} LeadingZeroCountIs(k: nat, s: seq<nat>)
    requires s != [] ==> s[0] != 0
    ensures LeadingZeroCount(Zeros(k) + s) == k
  {
    if k > 0 {
      assert (Zeros(k) + s)[1..] == Zeros(k - 1) + s;
      LeadingZeroCountIs(k - 1, s);
    } else {
      assert Zeros(0) + s == s;
    }
  }

  /** Changing base and back is the identity on every digit sequence, leading zeros included. */
  lemma ConvertInverse(s: seq<nat>, from: nat, to: nat)
    requires from > 1 && to > 1 && InBase(s, from)
    ensures Convert(Convert(s, from, to), to, from) == s
  {
    var k := LeadingZeroCount(s);
    var rest := s[k..];
    assert s == Zeros(k) + rest;
    LeadingZeros(k, rest, from);
    var v := Value(rest, from);
    LeadingZeroCountIs(k, Digits(v, to));
    LeadingZeros(k, Digits(v, to), to);
    DigitsValue(v, to);
    DigitsCanonical(rest, from);
  }

  lemma CharsDigits(digits: seq<nat>)
    requires InBase(digits, 58)
    ensures ValidString(Chars(digits)) && DigitsRead(Chars(digits)) == digits
  {
    var str := Chars(digits);
    forall i | 0 <= i < |str| ensures DigitOf(str[i]) == digits[i] { AlphabetAt(digits[i]); }
    assert str[..ReadLength(str)] == str;
  }

  lemma DigitsChars(str: string)
    requires ValidString(str)
    ensures DigitsRead(str) == DigitsOf(str) && Chars(DigitsOf(str)) == str
  {
    assert str[..ReadLength(str)] == str;
    forall i | 0 <= i < |str| ensures ALPHABET[DigitsOf(str)[i]] == str[i] { AlphabetOf(str[i]); }
  }

  /** Decoding undoes encoding for every byte string. */
  lemma DecodeEncode(data: seq<Byte>)
    ensures ValidString(Encoded(data)) && Decoded(Encoded(data)) == data
  {
    CharsDigits(Convert(data, 256, 58));
    ConvertInverse(data, 256, 58);
  }

  /** Encoding undoes decoding for every string of base58 digits. */
  lemma EncodeDecode(str: string)
    requires ValidString(str)
    ensures Encoded(Decoded(str)) == str
  {
    ConvertInverse(DigitsRead(str), 58, 256);
    DigitsChars(str);
  }

  /** n bytes fit in the encoder's buffer of n*138/100 + 1 base58 digits. */
  lemma EncodeBufferSuffices(n: nat)
    ensures Pow(256, n) <= Pow(58, n * 138 / 100 + 1)
  {
    assert Pow(256, 8) <= Pow(58, 11) by {
      assert Pow(256, 4) == 0x1_0000_0000 && Pow(58, 4) == 11316496;
      PowAdd(256, 4, 4);
      PowAdd(58, 4, 4);
      PowAdd(58, 8, 3);
      assert Pow(58, 3) == 195112;
    }
    PowCompare(256, 8, 58, 11, n, n * 138 / 100 + 1);
  }

  /** m base58 digits fit in the decoder's buffer of m*733/1000 + 1 bytes. */
  lemma DecodeBufferSuffices(m: nat)
    ensures Pow(58, m) <= Pow(256, m * 733 / 1000 + 1)
  {
    Pow58To71();
    PowCompare(58, 71, 256, 52, m, m * 733 / 1000 + 1);
  }

  lemma Pow58To71()
    ensures Pow(58, 71) <= Pow(256, 52)
  {
    Pow58To32();
    Pow256To52();
    PowAdd(58, 32, 32);
    PowAdd(58, 64, 7);
  }

  lemma Pow58To32()
    ensures Pow(58, 7) == 2207984167552
    ensures Pow(58, 32) == 268965015114358137726910587140455987105619365599731777536
  {
    assert Pow(58, 4) == 11316496;
    assert Pow(58, 3) == 195112;
    PowAdd(58, 4, 3);
    PowAdd(58, 4, 4);
    assert Pow(58, 8) == 128063081718016;
    PowAdd(58, 8, 8);
    assert Pow(58, 16) == 16400152899115243850138976256;
    PowAdd(58, 16, 16);
  }

  lemma Pow256To52()
    ensures Pow(256, 52) == 169230328010303641331690318856389386196071598838855992136870091590247882556495704531248437872567112920983350278405979725889536
  {
    assert Pow(256, 4) == 4294967296;
    PowAdd(256, 4, 4);
    assert Pow(256, 8) == 18446744073709551616;
    PowAdd(256, 8, 8);
    assert Pow(256, 16) == 340282366920938463463374607431768211456;
    PowAdd(256, 16, 16);
    PowAdd(256, 32, 16);
    PowAdd(256, 48, 4);
  }

  /** old times factor plus digit equals new with carry left over, for two digit strings of one length. */
  ghost predicate Carried(before: seq<nat>, after: seq<nat>, base: nat, factor: nat, digit: nat, carry: nat) {
    && |before| == |after|
    && Value(before, base) * factor + digit == carry * Pow(base, |after|) + Value(after, base)
  }

  lemma PlaceSum(v: nat, factor: nat, digit: nat, carryIn: nat, p: nat, w: nat, x: nat, base: nat, carryOut: nat, y: nat)
    requires v * factor + digit == carryIn * p + w
    requires carryIn + x * factor == carryOut * base + y
    ensures (x * p + v) * factor + digit == carryOut * (base * p) + (y * p + w)
  {
    calc {
      (x * p + v) * factor + digit;
      x * p * factor + carryIn * p + w;
      { assert x * p * factor == x * factor * p; }
      (x * factor + carryIn) * p + w;
      (carryOut * base + y) * p + w;
      { assert carryOut * base * p == carryOut * (base * p); }
      carryOut * (base * p) + y * p + w;
    }
  }

  lemma CarriedStep(before: seq<nat>, x: nat, after: seq<nat>, y: nat,
                    base: nat, factor: nat, digit: nat, carryIn: nat, carryOut: nat)
    requires Carried(before, after, base, factor, digit, carryIn)
    requires carryIn + x * factor == carryOut * base + y
    ensures Carried([x] + before, [y] + after, base, factor, digit, carryOut)
  {
    ValueConcat([x], before, base);
    ValueConcat([y], after, base);
    PlaceSum(Value(before, base), factor, digit, carryIn, Pow(base, |after|), Value(after, base), x, base, carryOut, y);
  }

  lemma NoCarry(before: seq<nat>, after: seq<nat>, base: nat, factor: nat, digit: nat, carry: nat)
    requires Carried(before, after, base, factor, digit, carry)
    requires Value(before, base) * factor + digit < Pow(base, |after|)
    ensures carry == 0 && Value(after, base) == Value(before, base) * factor + digit
  {
    hide Value, Pow, InBase;
    CarryOut(Pow(base, |after|), carry, Value(after, base));
  }

  lemma CarryOut(modulus: nat, carry: nat, low: nat)
    ensures carry > 0 ==> carry * modulus + low >= modulus
  {
    if carry > 0 { Scale(modulus, carry); }
  }

  /** The inner loop of the encoder: multiply the number in buf by 256 and add a byte. */
  method MulAdd58(buf: array<nat>, digit: nat)
    requires digit < 256 && InBase(buf[..], 58)
    requires Value(buf[..], 58) * 256 + digit < Pow(58, buf.Length)
    modifies buf
    ensures InBase(buf[..], 58)
    ensures Value(buf[..], 58) == Value(old(buf[..]), 58) * 256 + digit
  {
    ghost var was := buf[..];
    var carry := digit;
    var j := buf.Length;
    while j > 0
      invariant 0 <= j <= buf.Length && carry < 256
      invariant buf[..j] == was[..j] && InBase(buf[..], 58)
      invariant Carried(was[j..], buf[j..], 58, 256, digit, carry)
    {
      ghost var tail, carryIn := buf[j..], carry;
      carry := carry + buf[j - 1] * 256;
      buf[j - 1] := carry % 58;
      carry := carry / 58;
      assert was[j - 1..] == [was[j - 1]] + was[j..] && buf[j - 1..] == [buf[j - 1]] + tail;
      CarriedStep(was[j..], was[j - 1], tail, buf[j - 1], 58, 256, digit, carryIn, carry);
      j := j - 1;
    }
    assert was[0..] == was && buf[0..] == buf[..];
    NoCarry(was, buf[..], 58, 256, digit, carry);
  }

  /** The inner loop of the decoder: multiply the number in buf by 58 and add a digit. */
  method MulAdd256(buf: array<nat>, digit: nat)
    requires digit < 58 && InBase(buf[..], 256)
    requires Value(buf[..], 256) * 58 + digit < Pow(256, buf.Length)
    modifies buf
    ensures InBase(buf[..], 256)
    ensures Value(buf[..], 256) == Value(old(buf[..]), 256) * 58 + digit
  {
    ghost var was := buf[..];
    var carry := digit;
    var j := buf.Length;
    while j > 0
      invariant 0 <= j <= buf.Length && carry < 58
      invariant buf[..j] == was[..j] && InBase(buf[..], 256)
      invariant Carried(was[j..], buf[j..], 256, 58, digit, carry)
    {
      ghost var tail, carryIn := buf[j..], carry;
      carry := carry + buf[j - 1] * 58;
      buf[j - 1] := carry % 256;
      carry := carry / 256;
      assert was[j - 1..] == [was[j - 1]] + was[j..] && buf[j - 1..] == [buf[j - 1]] + tail;
      CarriedStep(was[j..], was[j - 1], tail, buf[j - 1], 256, 58, digit, carryIn, carry);
      j := j - 1;
    }
    assert was[0..] == was && buf[0..] == buf[..];
    NoCarry(was, buf[..], 256, 58, digit, carry);
  }

  /** The suffix of a buffer after its leading zeros is the canonical notation of its value. */
  lemma Stripped(buf: seq<nat>, i: nat, base: nat)
    requires base > 1 && InBase(buf, base) && i <= |buf|
    requires (forall k :: 0 <= k < i ==> buf[k] == 0) && (i < |buf| ==> buf[i] != 0)
    ensures buf[i..] == Digits(Value(buf, base), base)
  {
    assert buf == Zeros(i) + buf[i..];
    LeadingZeros(i, buf[i..], base);
    DigitsCanonical(buf[i..], base);
  }

  method SkipZeros(buf: array<nat>) returns (i: nat)
    ensures i <= buf.Length && (forall k :: 0 <= k < i ==> buf[k] == 0) && (i < buf.Length ==> buf[i] != 0)
  {
    i := 0;
    while i < buf.Length && buf[i] == 0
      invariant i <= buf.Length && forall k :: 0 <= k < i ==> buf[k] == 0
    {
      i := i + 1;
    }
  }

  /** The buffer sizes of both codecs leave every inner loop with no carry. */
  lemma Room(digits: seq<nat>, i: nat, from: nat, to: nat, size: nat)
    requires i < |digits| && from > 0 && InBase(digits, from) && Pow(from, |digits|) <= Pow(to, size)
    ensures Value(digits[..i + 1], from) == Value(digits[..i], from) * from + digits[i] < Pow(to, size)
  {
    assert digits[..i + 1] == digits[..i] + [digits[i]];
    ValueSnoc(digits[..i], digits[i], from);
    ValueBound(digits[..i + 1], from);
    PowMonotone(from, i + 1, |digits|);
  }

  /** The encoder's outer loop over the bytes after the leading zeros. */
  method AccumulateBytes(data: seq<Byte>) returns (buf: array<nat>)
    ensures fresh(buf) && InBase(buf[..], 58) && Value(buf[..], 58) == Value(data, 256)
  {
    buf := new nat[|data| * 138 / 100 + 1](_ => 0);
    assert buf[..] == Zeros(buf.Length);
    ZerosValue(buf.Length, 58);
    EncodeBufferSuffices(|data|);
    var i := 0;
    while i < |data|
      invariant i <= |data| && fresh(buf) && buf.Length == |data| * 138 / 100 + 1 && InBase(buf[..], 58)
      invariant Value(buf[..], 58) == Value(data[..i], 256)
    {
      Room(data, i, 256, 58, buf.Length);
      MulAdd58(buf, data[i]);
      i := i + 1;
    }
    assert data[..i] == data;
  }

  method Encode(data: seq<Byte>) returns (str: string)
    ensures str == Encoded(data)
  {
    var zcount := 0;
    while zcount < |data| && data[zcount] == 0
      invariant zcount <= |data| && data[..zcount] == Zeros(zcount)
    {
      zcount := zcount + 1;
    }
    var buf := AccumulateBytes(data[zcount..]);
    var i := SkipZeros(buf);
    Stripped(buf[..], i, 58);
    Split(data, zcount, 256);
    str := Chars(Zeros(zcount) + buf[i..]);
  }

  lemma Split(s: seq<nat>, k: nat, base: nat)
    requires k <= |s| && s[..k] == Zeros(k) && (k < |s| ==> s[k] != 0)
    ensures LeadingZeroCount(s) == k && Value(s, base) == Value(s[k..], base)
  {
    assert s == Zeros(k) + s[k..];
    LeadingZeroCountIs(k, s[k..]);
    LeadingZeros(k, s[k..], base);
  }

  /** The decoder's loop over the characters after the leading ones. */
  lemma DigitsAt(str: string, i: nat)
    requires i < |str| && forall k :: 0 <= k <= i ==> ValidDigit(str[k])
    ensures i < |DigitsRead(str)| && DigitsRead(str)[i] == DigitOf(str[i])
  {
    hide ValidDigit, DigitOf;
  }

  lemma DigitsEnd(str: string, i: nat)
    requires i <= |str| && (forall k :: 0 <= k < i ==> ValidDigit(str[k])) && (i < |str| ==> !ValidDigit(str[i]))
    ensures |DigitsRead(str)| == i
  {
    hide ValidDigit, DigitOf;
    ReadLengthIs(str, i);
  }

  method AccumulateDigits(str: string) returns (buf: array<nat>)
    ensures fresh(buf) && InBase(buf[..], 256) && Value(buf[..], 256) == Value(DigitsRead(str), 58)
  {
    assert Value([], 58) == 0;
    hide Value, Pow, DigitOf, ValidDigit, DigitsRead, ReadLength, InBase;
    buf := new nat[|str| * 733 / 1000 + 1](_ => 0);
    assert buf[..] == Zeros(buf.Length);
    ZerosValue(buf.Length, 256);
    ghost var digits := DigitsRead(str);
    DecodeBufferSuffices(|str|);
    PowMonotone(58, |digits|, |str|);
    var i := 0;
    while i < |str| && ValidDigit(str[i])
      invariant i <= |digits| && (forall k :: 0 <= k < i ==> ValidDigit(str[k]))
      invariant fresh(buf) && buf.Length == |str| * 733 / 1000 + 1 && InBase(buf[..], 256)
      invariant Value(buf[..], 256) == Value(digits[..i], 58)
    {
      DigitsAt(str, i);
      Room(digits, i, 58, 256, buf.Length);
      MulAdd256(buf, DigitOf(str[i]));
      i := i + 1;
    }
    DigitsEnd(str, i);
    assert digits[..i] == digits;
  }

  method Decode(str: string) returns (data: seq<nat>)
    ensures data == Decoded(str)
  {
    var zcount := 0;
    while zcount < |str| && str[zcount] == '1'
      invariant zcount <= |str| && forall k :: 0 <= k < zcount ==> str[k] == '1'
    {
      zcount := zcount + 1;
    }
    var buf := AccumulateDigits(str[zcount..]);
    var i := SkipZeros(buf);
    Stripped(buf[..], i, 256);
    LeadingOnes(str, zcount);
    Split(DigitsRead(str), zcount, 58);
    data := Zeros(zcount) + buf[i..];
  }

  lemma LeadingOnes(str: string, k: nat)
    requires k <= |str| && (forall i :: 0 <= i < k ==> str[i] == '1') && (k < |str| ==> str[k] != '1')
    ensures var digits := DigitsRead(str);
         k <= |digits| && digits[..k] == Zeros(k) && (k < |digits| ==> digits[k] != 0) && digits[k..] == DigitsRead(str[k..])
  {
    var n, m := ReadLength(str), ReadLength(str[k..]);
    forall i | k <= i < k + m ensures ValidDigit(str[i]) { assert str[k..][..m][i - k] == str[i]; }
    ReadLengthIs(str, k + m);
    assert str[..n][k..] == str[k..][..m];
    if k < n { AlphabetOf(str[k]); AlphabetAt(0); }
  }
}
