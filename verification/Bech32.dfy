/** The Bech32 address codec of core/support/BRBech32.c (BIP173): a human readable prefix and a witness
    program against a checksummed string. */
module Bech32 {
  import opened Bech32Checksum
  import opened Bech32Field
  import opened Bech32Groups
  import opened Bitwise
  import opened Blocks
  import opened Positional

  const CHARS: string := "qpzry9x8gf2tvdw0s3jn54khce6mua7l"

  /** What the decoder's switch has no case for. */
  const NOT_A_SYMBOL: nat := 32

  const OP_1: nat := 0x51

  const ADDRESS_BUFFER: nat := 91

  datatype Address = Address(hrp: string, data: seq<Byte>)

  // ---- Characters

  function SymbolOf(c: char): (s: nat)
    ensures s <= NOT_A_SYMBOL
  {
    match c
    case 'q' => 0  case 'p' => 1  case 'z' => 2  case 'r' => 3
    case 'y' => 4  case '9' => 5  case 'x' => 6  case '8' => 7
    case 'g' => 8  case 'f' => 9  case '2' => 10 case 't' => 11
    case 'v' => 12 case 'd' => 13 case 'w' => 14 case '0' => 15
    case 's' => 16 case '3' => 17 case 'j' => 18 case 'n' => 19
    case '5' => 20 case '4' => 21 case 'k' => 22 case 'h' => 23
    case 'c' => 24 case 'e' => 25 case '6' => 26 case 'm' => 27
    case 'u' => 28 case 'a' => 29 case '7' => 30 case 'l' => 31
    case _ => NOT_A_SYMBOL
  }

  predicate IsUpper(c: char) { 'A' <= c <= 'Z' }

  predicate IsLower(c: char) { 'a' <= c <= 'z' }

  function Lower(c: char): char {
    if IsUpper(c) then ((c as int) + 32) as char else c
  }

  predicate IsPrintable(c: char) { 33 <= c as int <= 126 }

  predicate Printable(s: string) { forall i :: 0 <= i < |s| ==> IsPrintable(s[i]) }

  /** The encoder's table and the decoder's switch are inverse to each other. */
  lemma CharOf(s: Symbol)
    ensures |CHARS| == 32 && SymbolOf(CHARS[s]) == s
    ensures IsPrintable(CHARS[s]) && !IsUpper(CHARS[s]) && CHARS[s] != '1'
  {}

  function Char(s: Symbol): (c: char)
    ensures SymbolOf(c) == s && IsPrintable(c) && !IsUpper(c) && c != '1'
  {
    CharOf(s);
    CHARS[s]
  }

  function Chars(symbols: seq<Symbol>): (str: string)
    ensures |str| == |symbols| && forall i :: 0 <= i < |str| ==> str[i] == Char(symbols[i])
  {
    seq(|symbols|, i requires 0 <= i < |symbols| => Char(symbols[i]))
  }

  function Lowered(s: string): (r: string)
    ensures |r| == |s| && forall i :: 0 <= i < |s| ==> r[i] == Lower(s[i])
  {
    seq(|s|, i requires 0 <= i < |s| => Lower(s[i]))
  }

  predicate AllSymbols(s: string) { forall i :: 0 <= i < |s| ==> SymbolOf(s[i]) < NOT_A_SYMBOL }

  function Symbols(s: string): (r: seq<Symbol>)
    requires AllSymbols(s)
    ensures |r| == |s| && forall i :: 0 <= i < |s| ==> r[i] == SymbolOf(s[i])
  {
    seq(|s|, i requires 0 <= i < |s| => SymbolOf(s[i]))
  }

  // ---- The prefix as symbols

  function HighBits(hrp: string): (r: seq<Symbol>)
    requires Printable(hrp)
    ensures |r| == |hrp| && forall i :: 0 <= i < |r| ==> r[i] == hrp[i] as nat / 32
  {
    seq(|hrp|, i requires 0 <= i < |hrp| => hrp[i] as nat / 32)
  }

  function LowBits(hrp: string): (r: seq<Symbol>)
    ensures |r| == |hrp| && forall i :: 0 <= i < |r| ==> r[i] == hrp[i] as nat % 32
  {
    seq(|hrp|, i requires 0 <= i < |hrp| => hrp[i] as nat % 32)
  }

  /** What the checksum covers in place of the prefix. */
  function Expanded(hrp: string): seq<Symbol>
    requires Printable(hrp)
  {
    HighBits(hrp) + [0] + LowBits(hrp)
  }

  // ---- The two directions as functions

  predicate HasUpper(s: string) { exists i :: 0 <= i < |s| && IsUpper(s[i]) }

  predicate HasLower(s: string) { exists i :: 0 <= i < |s| && IsLower(s[i]) }

  predicate ValidPrefix(hrp: string) {
    |hrp| <= 84 && Printable(hrp) && !HasUpper(hrp)
  }

  function VersionByte(version: nat): Byte
    requires version <= 16
  {
    if version == 0 then 0 else version + OP_1 - 1
  }

  /** A witness program as a script: version opcode, length, program. */
  predicate ValidProgram(data: seq<Byte>) {
    && |data| >= 2 && (data[0] == 0 || OP_1 <= data[0] <= OP_1 + 15)
    && 2 <= data[1] <= 40 && |data| >= 2 + data[1]
  }

  function Version(data: seq<Byte>): (v: nat)
    requires ValidProgram(data)
    ensures v <= 16 && VersionByte(v) == data[0]
  {
    if data[0] >= OP_1 then data[0] + 1 - OP_1 else 0
  }

  function Program(data: seq<Byte>): (p: seq<Byte>)
    requires ValidProgram(data)
    ensures 2 <= |p| <= 40 && 2 + |p| <= |data| && data[..2 + |p|] == [data[0], |p|] + p
  {
    data[2..2 + data[1]]
  }

  ghost function Body(data: seq<Byte>): seq<Symbol>
    requires ValidProgram(data)
  {
    [Version(data)] + Packed(Program(data))
  }

  /** The symbols after the separator: body and checksum. */
  function Completed(hrp: string, body: seq<Symbol>): (r: seq<Symbol>)
    requires Printable(hrp)
    ensures |r| == |body| + 6 && r[..|body|] == body
  {
    body + ChecksumOf(Run(1, Expanded(hrp) + body))
  }

  /** What the encoder accepts; its length check counts program bytes, not symbols. */
  predicate Encodable(hrp: string, data: seq<Byte>) {
    ValidPrefix(hrp) && ValidProgram(data) && |hrp| + 8 + data[1] < ADDRESS_BUFFER
  }

  /** The address the encoder writes for a program. */
  ghost function Encoded(hrp: string, data: seq<Byte>): string
    requires Encodable(hrp, data)
  {
    hrp + "1" + Chars(Completed(hrp, Body(data)))
  }

  /** Index of the last '1', or zero. */
  function Separator(addr: string): (sep: nat)
    ensures sep <= |addr| && (sep > 0 ==> sep < |addr| && addr[sep] == '1')
    ensures forall i :: sep < i < |addr| ==> addr[i] != '1'
  {
    if addr == [] then 0
    else if addr[|addr| - 1] == '1' then |addr| - 1
    else Separator(addr[..|addr| - 1])
  }

  predicate WellFormed(addr: string) {
    var sep := Separator(addr);
    && Printable(addr) && !(HasUpper(addr) && HasLower(addr))
    && 8 <= |addr| <= 90 && 1 <= sep && sep + 8 <= |addr| && AllSymbols(Lowered(addr[sep + 1..]))
  }

  /** The checks after the last symbol has been read. */
  function Judged(hrp: string, chk: nat, version: nat, program: seq<Byte>): Option<Address> {
    if chk != 1 || version > 16 || |program| < 2 || |program| > 40 then None
    else Some(Address(hrp, [VersionByte(version), |program|] + program))
  }

  ghost function Decoded(addr: string): Option<Address> {
    if !WellFormed(addr) then None else
    var sep := Separator(addr);
    var hrp := Lowered(addr[..sep]);
    var symbols := Symbols(Lowered(addr[sep + 1..]));
    Judged(hrp, Run(1, Expanded(hrp) + symbols), symbols[0], Unpacked(symbols[1..|symbols| - 6]))
  }

  // ---- Round trip

  lemma {:induction false} SeparatorAt(hrp: string, rest: string)
    requires forall i :: 0 <= i < |rest| ==> rest[i] != '1'
    ensures Separator(hrp + "1" + rest) == |hrp|
    decreases |rest|
  {
    var addr, n := hrp + "1" + rest, |rest|;
    if n == 0 {
      assert addr == hrp + "1";
    } else {
      SeparatorAt(hrp, rest[..n - 1]);
      assert addr[|addr| - 1] == rest[n - 1];
      assert addr[..|addr| - 1] == hrp + "1" + rest[..n - 1];
    }
  }

  lemma LoweredSame(s: string)
    requires !HasUpper(s)
    ensures Lowered(s) == s
  {
    forall i | 0 <= i < |s| ensures Lower(s[i]) == s[i] {
      assert !IsUpper(s[i]);
    }
  }

  lemma CharsAreSymbols(symbols: seq<Symbol>)
    ensures Lowered(Chars(symbols)) == Chars(symbols)
    ensures AllSymbols(Chars(symbols)) && Symbols(Chars(symbols)) == symbols
  {}

  lemma EncodedWellFormed(hrp: string, symbols: seq<Symbol>)
    requires ValidPrefix(hrp) && |hrp| >= 1 && |symbols| >= 7
    ensures var addr := hrp + "1" + Chars(symbols);
            && Separator(addr) == |hrp| && addr[..|hrp|] == hrp && addr[|hrp| + 1..] == Chars(symbols)
            && (WellFormed(addr) <==> |addr| <= 90)
  {
    var addr := hrp + "1" + Chars(symbols);
    SeparatorAt(hrp, Chars(symbols));
    CharsAreSymbols(symbols);
    assert addr[|hrp| + 1..] == Chars(symbols);
    forall i | 0 <= i < |addr| ensures IsPrintable(addr[i]) && !IsUpper(addr[i]) {
      if i < |hrp| {
        assert addr[i] == hrp[i] && !IsUpper(hrp[i]);
      } else if i > |hrp| {
        assert addr[i] == Chars(symbols)[i - |hrp| - 1];
      }
    }
  }

  lemma CompletedSum(hrp: string, body: seq<Symbol>)
    requires Printable(hrp)
    ensures Run(1, Expanded(hrp) + Completed(hrp, body)) == 1
  {
    hide Run, ChecksumOf;
    var covered := Expanded(hrp) + body;
    ChecksumCompletes(covered);
    assert Expanded(hrp) + Completed(hrp, body) == covered + ChecksumOf(Run(1, covered));
  }

  lemma DecodeSymbols(hrp: string, symbols: seq<Symbol>, program: seq<Byte>)
    requires ValidPrefix(hrp) && |hrp| >= 1 && |symbols| >= 7 && symbols[0] <= 16
    requires Run(1, Expanded(hrp) + symbols) == 1
    requires program == Unpacked(symbols[1..|symbols| - 6]) && 2 <= |program| <= 40
    ensures Decoded(hrp + "1" + Chars(symbols))
            == if |hrp| + 1 + |symbols| <= 90
               then Some(Address(hrp, [VersionByte(symbols[0]), |program|] + program)) else None
  {
    hide Run, Unpacked, SymbolOf, Separator;
    EncodedWellFormed(hrp, symbols);
    LoweredSame(hrp);
    CharsAreSymbols(symbols);
  }

  lemma ProgramSymbols(hrp: string, version: Symbol, program: seq<Byte>)
    requires Printable(hrp)
    ensures var symbols := Completed(hrp, [version] + Packed(program));
            symbols[0] == version && Unpacked(symbols[1..|symbols| - 6]) == program
  {
    var body := [version] + Packed(program);
    var symbols := Completed(hrp, body);
    assert symbols[1..|symbols| - 6] == symbols[..|body|][1..] == Packed(program);
    UnpackedPacked(program);
  }

  lemma DecodeCompleted(hrp: string, version: Symbol, program: seq<Byte>)
    requires ValidPrefix(hrp) && |hrp| >= 1 && version <= 16 && 2 <= |program| <= 40
    ensures Decoded(hrp + "1" + Chars(Completed(hrp, [version] + Packed(program))))
            == if |hrp| + 8 + |Packed(program)| <= 90
               then Some(Address(hrp, [VersionByte(version), |program|] + program)) else None
  {
    CompletedSum(hrp, [version] + Packed(program));
    ProgramSymbols(hrp, version, program);
    DecodeSymbols(hrp, Completed(hrp, [version] + Packed(program)), program);
  }

  lemma ScriptOf(data: seq<Byte>)
    requires ValidProgram(data)
    ensures [VersionByte(Version(data)), |Program(data)|] + Program(data) == data[..2 + |Program(data)|]
  {}

  /** One symbol for the version, 8n/5 rounded up for n program bytes, and six for the checksum. */
  lemma EncodedLength(hrp: string, data: seq<Byte>, n: nat)
    requires Encodable(hrp, data) && n == |Program(data)|
    ensures |Encoded(hrp, data)| == |hrp| + 8 + (8 * n + 4) / 5
  {
    hide Run;
    assert |Packed(Program(data))| == (8 * n + 4) / 5;
  }

  lemma NoPrefix(symbols: seq<Symbol>)
    ensures Decoded("" + "1" + Chars(symbols)) == None
  {
    SeparatorAt("", Chars(symbols));
    hide Run, Unpacked;
  }

  /** Decoding an encoded program gives the prefix and the program back exactly when there is a prefix
      and the address fits in 90 characters. */
  lemma DecodeEncode(hrp: string, data: seq<Byte>, n: nat)
    requires Encodable(hrp, data) && n == |Program(data)|
    ensures Decoded(Encoded(hrp, data))
            == if |hrp| >= 1 && |hrp| + 8 + (8 * n + 4) / 5 <= 90 then Some(Address(hrp, data[..2 + n])) else None
  {
    hide Run, Decoded, Packed, Completed;
    if hrp == "" {
      NoPrefix(Completed(hrp, Body(data)));
    } else {
      ScriptOf(data);
      assert |Packed(Program(data))| == (8 * n + 4) / 5;
      DecodeCompleted(hrp, Version(data), Program(data));
    }
  }

  /** The encoder accepts a 42-character prefix and a program of 40 bytes, but the address has 114
      characters, more than its buffer of 91 holds, and is not decoded. */
  lemma LongAddressExample(hrp: string, program: seq<Byte>)
    requires |hrp| == 42 && (forall i :: 0 <= i < 42 ==> hrp[i] == 'b') && |program| == 40
    ensures var data := [0, 40] + program;
            Encodable(hrp, data) && |Encoded(hrp, data)| == 114 && Decoded(Encoded(hrp, data)) == None
  {
    var data := [0, 40] + program;
    assert ValidProgram(data) && Program(data) == program;
    EncodedLength(hrp, data, 40);
    DecodeEncode(hrp, data, 40);
    hide Decoded, Encoded;
  }

  // ---- The first example of BIP173

  lemma PrefixValue(s: seq<nat>, base: nat, i: nat)
    requires i < |s|
    ensures Value(s[..i + 1], base) == Value(s[..i], base) * base + s[i]
  {
    assert s[..i + 1] == s[..i] + [s[i]];
    ValueSnoc(s[..i], s[i], base);
  }

  function FiveBytes(b: seq<nat>): nat
    requires |b| == 5
  {
    (((b[0] * 256 + b[1]) * 256 + b[2]) * 256 + b[3]) * 256 + b[4]
  }

  function EightSymbols(s: seq<nat>): nat
    requires |s| == 8
  {
    ((((((s[0] * 32 + s[1]) * 32 + s[2]) * 32 + s[3]) * 32 + s[4]) * 32 + s[5]) * 32 + s[6]) * 32 + s[7]
  }

  lemma BlockValues(b: seq<nat>, s: seq<nat>)
    requires |b| == 5 && |s| == 8
    ensures Value(b, 256) == FiveBytes(b) && Value(s, 32) == EightSymbols(s)
  {
    assert Value(b[..0], 256) == 0 && b[..5] == b && Value(s[..0], 32) == 0 && s[..8] == s;
    hide Value;
    PrefixValue(b, 256, 0);
    PrefixValue(b, 256, 1);
    PrefixValue(b, 256, 2);
    PrefixValue(b, 256, 3);
    PrefixValue(b, 256, 4);
    PrefixValue(s, 32, 0);
    PrefixValue(s, 32, 1);
    PrefixValue(s, 32, 2);
    PrefixValue(s, 32, 3);
    PrefixValue(s, 32, 4);
    PrefixValue(s, 32, 5);
    PrefixValue(s, 32, 6);
    PrefixValue(s, 32, 7);
  }

  /** bytes, symbols and characters say the same. */
  ghost predicate Written5(bytes: seq<Byte>, symbols: seq<Symbol>, chars: string) {
    8 * |bytes| == 5 * |symbols| && Value(bytes, 256) == Value(symbols, 32) && Chars(symbols) == chars
  }

  lemma EightChars(s: seq<Symbol>, c: string)
    requires |s| == |c| && forall k :: 0 <= k < |s| ==> SymbolOf(c[k]) == s[k]
    ensures Chars(s) == c
  {
    forall k | 0 <= k < |s| ensures Char(s[k]) == c[k] { SymbolIsUnique(Char(s[k]), c[k]); }
  }

  /** Five bytes, eight symbols and eight characters that say the same. */
  ghost predicate SameBlock(b: seq<Byte>, s: seq<Symbol>, c: string) {
    |b| == 5 && |s| == |c| == 8 && FiveBytes(b) == EightSymbols(s) && forall k :: 0 <= k < 8 ==> SymbolOf(c[k]) == s[k]
  }

  lemma NextBlock(bytes: seq<Byte>, symbols: seq<Symbol>, chars: string, b: seq<Byte>, s: seq<Symbol>, c: string)
    requires Written5(bytes, symbols, chars) && SameBlock(b, s, c)
    ensures Written5(bytes + b, symbols + s, chars + c)
  {
    BlockValues(b, s);
    EightChars(s, c);
    CharsConcat(symbols, s);
    hide Chars, SymbolOf, Value, FiveBytes, EightSymbols;
    ValueConcat(bytes, b, 256);
    ValueConcat(symbols, s, 32);
    Bases(5, 8);
  }

  lemma BlockOne()
    ensures SameBlock([117, 30, 118, 232, 25], [14, 20, 15, 7, 13, 26, 0, 25], "w508d6qe")
  {}

  lemma BlockTwo()
    ensures SameBlock([145, 150, 212, 84, 148], [18, 6, 11, 13, 8, 21, 4, 20], "jxtdg4y5")
  {}

  lemma BlockThree()
    ensures SameBlock([28, 69, 209, 179, 163], [3, 17, 2, 29, 3, 12, 29, 3], "r3zarvar")
  {}

  lemma BlockFour()
    ensures SameBlock([35, 241, 67, 59, 214], [4, 15, 24, 20, 6, 14, 30, 22], "y0c5xw7k")
  {}

  lemma FourBlocks(b: seq<seq<Byte>>, s: seq<seq<Symbol>>, c: seq<string>)
    requires |b| == |s| == |c| == 4 && forall k :: 0 <= k < 4 ==> SameBlock(b[k], s[k], c[k])
    ensures Chars([0] + Packed(b[0] + b[1] + b[2] + b[3])) == "q" + (c[0] + c[1] + c[2] + c[3])
  {
    assert Written5([], [], "") by { assert Chars([]) == ""; }
    hide Written5, SameBlock, Packed, Chars;
    NextBlock([], [], "", b[0], s[0], c[0]);
    assert [] + b[0] == b[0] && [] + s[0] == s[0] && "" + c[0] == c[0];
    NextBlock(b[0], s[0], c[0], b[1], s[1], c[1]);
    NextBlock(b[0] + b[1], s[0] + s[1], c[0] + c[1], b[2], s[2], c[2]);
    NextBlock(b[0] + b[1] + b[2], s[0] + s[1] + s[2], c[0] + c[1] + c[2], b[3], s[3], c[3]);
    WholeProgram(b[0] + b[1] + b[2] + b[3], s[0] + s[1] + s[2] + s[3], c[0] + c[1] + c[2] + c[3]);
  }

  /** Its program, and the characters of its address between separator and checksum. */
  lemma BodyExample()
    ensures Chars([0] + Packed([117, 30, 118, 232, 25] + [145, 150, 212, 84, 148]
                               + [28, 69, 209, 179, 163] + [35, 241, 67, 59, 214]))
            == "q" + ("w508d6qe" + "jxtdg4y5" + "r3zarvar" + "y0c5xw7k")
  {
    BlockOne();
    BlockTwo();
    BlockThree();
    BlockFour();
    hide *;
    FourBlocks([[117, 30, 118, 232, 25], [145, 150, 212, 84, 148],
                [28, 69, 209, 179, 163], [35, 241, 67, 59, 214]],
               [[14, 20, 15, 7, 13, 26, 0, 25], [18, 6, 11, 13, 8, 21, 4, 20],
                [3, 17, 2, 29, 3, 12, 29, 3], [4, 15, 24, 20, 6, 14, 30, 22]],
               ["w508d6qe", "jxtdg4y5", "r3zarvar", "y0c5xw7k"]);
  }

  lemma WholeProgram(bytes: seq<Byte>, symbols: seq<Symbol>, chars: string)
    requires Written5(bytes, symbols, chars)
    ensures Chars([0] + Packed(bytes)) == "q" + chars
  {
    hide Value;
    FixedOfValue(symbols, 32);
    CharsConcat([0], symbols);
    assert Char(0) == 'q' by { SymbolIsUnique(Char(0), 'q'); }
  }

  // ---- Mistyped addresses

  lemma SymbolIsUnique(c: char, c': char)
    requires SymbolOf(c) == SymbolOf(c') < NOT_A_SYMBOL
    ensures c == c'
  {}

  /** With the same part up to the separator, and no other '1' behind it, the separator is the same. */
  lemma SeparatorStays(addr: string, addr': string)
    requires |addr| == |addr'| && Separator(addr) > 0
    requires addr'[..Separator(addr) + 1] == addr[..Separator(addr) + 1]
    requires forall k :: Separator(addr) < k < |addr| ==> addr'[k] != '1'
    ensures Separator(addr') == Separator(addr)
  {
    var sep := Separator(addr);
    assert addr'[..sep + 1][sep] == addr[..sep + 1][sep];
    var hrp, rest := addr'[..sep], addr'[sep + 1..];
    assert addr' == hrp + "1" + rest;
    SeparatorAt(hrp, rest);
  }

  /** An address with up to six neighbouring characters behind the separator replaced, by any characters but
      the separator's, does not decode unless only the case of letters changed. */
  lemma ErrorDetected(addr: string, addr': string, i: nat)
    requires Decoded(addr).Some? && |addr'| == |addr| && Separator(addr) < i
    requires forall k :: 0 <= k < |addr| && !(i <= k < i + 6) ==> addr'[k] == addr[k]
    requires forall k :: i <= k < |addr| ==> addr'[k] != '1'
    requires Lowered(addr') != Lowered(addr)
    ensures Decoded(addr') == None
  {
    hide *;
    if Decoded(addr').Some? {
      var sep := Separator(addr);
      DecodedSum(addr);
      DecodedSum(addr');
      assert addr'[..sep + 1] == addr[..sep + 1];
      SeparatorStays(addr, addr');
      assert addr'[..sep] == addr[..sep];
      var s, s' := Symbols(Lowered(addr[sep + 1..])), Symbols(Lowered(addr'[sep + 1..]));
      WindowStays(addr, addr', sep, i);
      if s == s' {
        SameSymbols(addr, addr', sep);
      } else {
        PartsDiffer(Expanded(Lowered(addr[..sep])), s, s', i - sep - 1);
      }
    }
  }

  lemma WindowStays(addr: string, addr': string, sep: nat, i: nat)
    requires |addr| == |addr'| && sep < i && sep < |addr|
    requires forall k :: 0 <= k < |addr| && !(i <= k < i + 6) ==> addr'[k] == addr[k]
    requires AllSymbols(Lowered(addr[sep + 1..])) && AllSymbols(Lowered(addr'[sep + 1..]))
    ensures var s, s' := Symbols(Lowered(addr[sep + 1..])), Symbols(Lowered(addr'[sep + 1..]));
         |s| == |s'| && forall k :: 0 <= k < |s| && !(i - sep - 1 <= k < i - sep + 5) ==> s[k] == s'[k]
  {
    hide SymbolOf, Lower;
    var a, a' := addr[sep + 1..], addr'[sep + 1..];
    forall k | 0 <= k < |a| && !(i - sep - 1 <= k < i - sep + 5) ensures a[k] == a'[k] {
      assert a[k] == addr[sep + 1 + k] && a'[k] == addr'[sep + 1 + k];
    }
  }

  lemma PartsDiffer(covered: seq<Symbol>, s: seq<Symbol>, s': seq<Symbol>, i: nat)
    requires |s| == |s'| && s != s' && forall k :: 0 <= k < |s| && !(i <= k < i + 6) ==> s[k] == s'[k]
    ensures Run(1, covered + s) != Run(1, covered + s')
  {
    hide Run;
    assert s == (covered + s)[|covered|..] && s' == (covered + s')[|covered|..];
    BurstDetected(1, covered + s, covered + s', |covered| + i);
  }

  lemma DecodedSum(addr: string)
    requires Decoded(addr).Some?
    ensures var sep := Separator(addr);
         && Printable(addr) && 0 < sep < |addr| && AllSymbols(Lowered(addr[sep + 1..]))
         && Printable(Lowered(addr[..sep])) && Run(1, Expanded(Lowered(addr[..sep])) + Symbols(Lowered(addr[sep + 1..]))) == 1
  {
    hide Run, Unpacked, SymbolOf, Separator, Expanded, WellFormed, AllSymbols, Printable;
    PartsOf(addr);
  }

  lemma PartsOf(addr: string)
    requires WellFormed(addr)
    ensures var sep := Separator(addr);
         && Printable(addr) && 0 < sep && sep + 8 <= |addr| && AllSymbols(Lowered(addr[sep + 1..])) && Printable(Lowered(addr[..sep]))
  {
    hide SymbolOf, Separator, HasUpper, HasLower;
    forall i | 0 <= i < Separator(addr) ensures IsPrintable(Lower(addr[i])) { assert IsPrintable(addr[i]); }
  }

  lemma SameSymbols(addr: string, addr': string, sep: nat)
    requires |addr| == |addr'| && sep < |addr| && addr'[..sep + 1] == addr[..sep + 1]
    requires AllSymbols(Lowered(addr[sep + 1..])) && AllSymbols(Lowered(addr'[sep + 1..]))
    requires Symbols(Lowered(addr[sep + 1..])) == Symbols(Lowered(addr'[sep + 1..]))
    ensures Lowered(addr') == Lowered(addr)
  {
    hide SymbolOf, Lower;
    var s, s' := Lowered(addr[sep + 1..]), Lowered(addr'[sep + 1..]);
    forall k | 0 <= k < |addr| ensures Lower(addr'[k]) == Lower(addr[k]) {
      if k <= sep {
        assert addr'[..sep + 1][k] == addr[..sep + 1][k];
      } else {
        assert s[k - sep - 1] == Lower(addr[k]) && s'[k - sep - 1] == Lower(addr'[k]);
        assert Symbols(s)[k - sep - 1] == Symbols(s')[k - sep - 1];
        SymbolIsUnique(s[k - sep - 1], s'[k - sep - 1]);
      }
    }
  }

  // ---- The encoder

  /** chk = polymod(chk) ^ s, for a running checksum over the symbols fed so far. */
  method Feed(chk: nat, s: Symbol, ghost fed: seq<Symbol>) returns (r: nat)
    requires chk == Run(1, fed)
    ensures r == Run(1, fed + [s])
  {
    RunSnoc(Polymod, 1, fed, s);
    r := Xor(Polymod(chk), s);
  }

  lemma RunNone(hrp: string)
    ensures Printable(hrp[..0]) && HighBits(hrp[..0]) == [] && Run(1, HighBits(hrp[..0])) == 1
  {}

  /** The encoder's first loop: validates and copies the prefix and feeds its high bits. */
  method CopyPrefix(hrp: string) returns (ok: bool, chk: nat, addr: string)
    ensures ok <==> ValidPrefix(hrp)
    ensures ok ==> addr == hrp && chk == Run(1, HighBits(hrp))
  {
    hide Run;
    RunNone(hrp);
    chk, addr := 1, "";
    var i := 0;
    while i < |hrp|
      invariant i <= |hrp| && i <= 84 && addr == hrp[..i]
      invariant Printable(hrp[..i]) && forall k :: 0 <= k < i ==> !IsUpper(hrp[k])
      invariant chk == Run(1, HighBits(hrp[..i]))
    {
      if i > 83 || (hrp[i] as int) < 33 || hrp[i] as int > 126 || IsUpper(hrp[i]) { return false, chk, addr; }
      chk := Feed(chk, hrp[i] as nat / 32, HighBits(hrp[..i]));
      addr := addr + [hrp[i]];
      i := i + 1;
      assert HighBits(hrp[..i]) == HighBits(hrp[..i - 1]) + [hrp[i - 1] as nat / 32];
    }
    assert hrp[..i] == hrp;
    ok := true;
  }

  lemma ZeroSymbol(high: seq<Symbol>)
    ensures Run(1, high + [0]) == Polymod(Run(1, high))
  {
    RunSnoc(Polymod, 1, high, 0);
    XorZero(Polymod(Run(1, high)));
  }

  /** The loop over the low bits of the prefix, the same in both directions. */
  method FeedLow(chk0: nat, hrp: string, ghost fed: seq<Symbol>) returns (chk: nat)
    requires chk0 == Run(1, fed)
    ensures chk == Run(1, fed + LowBits(hrp))
  {
    hide Run;
    chk := chk0;
    assert fed + LowBits(hrp[..0]) == fed;
    var j := 0;
    while j < |hrp|
      invariant j <= |hrp| && chk == Run(1, fed + LowBits(hrp[..j]))
    {
      chk := Feed(chk, hrp[j] as nat % 32, fed + LowBits(hrp[..j]));
      j := j + 1;
      assert fed + LowBits(hrp[..j]) == fed + LowBits(hrp[..j - 1]) + [hrp[j - 1] as nat % 32];
    }
    assert hrp[..j] == hrp;
  }

  /** The bits left over in the previous byte when byte j is read. */
  lemma BitOffset(j: nat)
    ensures 0 <= 8 * j % 5 < 5 && j % 5 * 8 - j % 5 * 8 / 5 * 5 == 8 * j % 5
    ensures j % 5 > 0 <==> 8 * j % 5 > 0
  {}

  /** The checksum and the address after writing some symbols. */
  ghost predicate Written(chk: nat, addr: string, fed: seq<Symbol>, start: string, done: seq<Symbol>) {
    chk == Run(1, fed + done) && addr == start + Chars(done)
  }

  /** chk = polymod(chk) ^ c, addr[i++] = chars[c] */
  method Emit(chk: nat, addr: string, c: Symbol, ghost fed: seq<Symbol>, ghost start: string, ghost done: seq<Symbol>)
    returns (chk': nat, addr': string)
    requires Written(chk, addr, fed, start, done)
    ensures Written(chk', addr', fed, start, done + [c])
  {
    assert fed + (done + [c]) == fed + done + [c];
    chk' := Feed(chk, c, fed + done);
    addr' := addr + [Char(c)];
  }

  function NextByte(program: seq<Byte>, j: nat): Byte {
    if j < |program| then program[j] else 0
  }

  /** The symbols written once byte j has been read. */
  ghost function After(done: seq<Symbol>, program: seq<Byte>, j: nat, a: Byte): seq<Symbol> {
    var b, x := NextByte(program, j), 8 * j % 5;
    if j < |program| then
      if x < 2 then done + [HighGroup(a, b, x)] else done + [HighGroup(a, b, x)] + [LowGroup(b, x)]
    else if x > 0 then done + [HighGroup(a, b, x)] else done
  }

  lemma AfterByte(done: seq<Symbol>, program: seq<Byte>, j: nat, a: Byte)
    requires j < |program| && Encoding(done, program[..j], a, 8 * j % 5)
    ensures Encoding(After(done, program, j, a), program[..j + 1], program[j], 8 * (j + 1) % 5)
  {
    var x := 8 * j % 5;
    Counts(j, x);
    assert program[..j + 1] == program[..j] + [program[j]];
    if x < 2 {
      EncodeOne(done, program[..j], a, program[j], x);
    } else {
      EncodeTwo(done, program[..j], a, program[j], x);
    }
  }

  lemma AfterAll(done: seq<Symbol>, program: seq<Byte>, a: Byte)
    requires Encoding(done, program, a, 8 * |program| % 5)
    ensures After(done, program, |program|, a) == Packed(program)
  {
    var x := 8 * |program| % 5;
    if x == 0 {
      EncodeDone(done, program, a);
    } else {
      EncodeRest(done, program, a, x);
    }
  }

  /** One round of the encoder's loop over the program: one symbol for the bits left over and the high
      bits of the next byte, and a second one when five more bits are complete. */
  method EncodeByte(program: seq<Byte>, j: nat, a: Byte, chk0: nat, addr0: string,
                    ghost fed: seq<Symbol>, ghost start: string, ghost done: seq<Symbol>)
    returns (b: Byte, chk: nat, addr: string)
    requires j <= |program| && Written(chk0, addr0, fed, start, done)
    ensures b == NextByte(program, j) && Written(chk, addr, fed, start, After(done, program, j, a))
  {
    hide Written, HighGroup, LowGroup;
    chk, addr := chk0, addr0;
    b := if j < |program| then program[j] else 0;
    BitOffset(j);
    var x := j % 5 * 8 - j % 5 * 8 / 5 * 5;
    var c := HighGroup(a, b, x);
    if j < |program| || j % 5 > 0 { chk, addr := Emit(chk, addr, c, fed, start, done); }
    if x >= 2 { c := LowGroup(b, x); }
    if x >= 2 && j < |program| { chk, addr := Emit(chk, addr, c, fed, start, done + [HighGroup(a, b, x)]); }
  }

  method EncodeProgram(chk0: nat, start: string, program: seq<Byte>, ghost fed: seq<Symbol>)
    returns (chk: nat, addr: string)
    requires chk0 == Run(1, fed)
    ensures Written(chk, addr, fed, start, Packed(program))
  {
    var b: Byte := 0;
    ghost var done: seq<Symbol> := [];
    chk, addr := chk0, start;
    assert fed + [] == fed;
    var j := 0;
    while j <= |program|
      invariant j <= |program| + 1 && Written(chk, addr, fed, start, done)
      invariant j <= |program| ==> Encoding(done, program[..j], b, 8 * j % 5)
      invariant j == |program| + 1 ==> done == Packed(program)
    {
      var a := b;
      b, chk, addr := EncodeByte(program, j, a, chk, addr, fed, start, done);
      if j < |program| {
        AfterByte(done, program, j, a);
      } else {
        assert program[..j] == program;
        AfterAll(done, program, a);
      }
      done := After(done, program, j, a);
      j := j + 1;
    }
  }

  /** Six more steps, the last bit flipped, and the six groups as characters. */
  method EncodeChecksum(chk0: nat, addr0: string) returns (addr: string)
    ensures addr == addr0 + Chars(ChecksumOf(chk0))
  {
    hide Polymod, Xor, Pow, Char;
    var chk, j := chk0, 0;
    while j < 6
      invariant j <= 6 && chk == Repeated(Polymod, chk0, j)
    {
      chk := Polymod(chk);
      j := j + 1;
    }
    chk := Xor(chk, 1);
    ghost var groups := Groups(chk);
    addr, j := addr0, 0;
    while j < 6
      invariant j <= 6 && addr == addr0 + Chars(groups[..j])
    {
      GroupAt(chk, j);
      addr := addr + [Char(chk / Pow(2, (5 - j) * 5) % 32)];
      j := j + 1;
    }
    assert groups[..6] == groups;
  }

  method EncodePrefix(hrp: string) returns (ok: bool, chk: nat, addr: string)
    ensures ok <==> ValidPrefix(hrp)
    ensures ok ==> addr == hrp + "1" && chk == Run(1, Expanded(hrp))
  {
    ok, chk, addr := CopyPrefix(hrp);
    if !ok { return; }
    ZeroSymbol(HighBits(hrp));
    chk := Polymod(chk);
    chk := FeedLow(chk, hrp, HighBits(hrp) + [0]);
    addr := addr + "1";
  }

  /** The encoder; overrun says that the address with its end mark is longer than the code's array. */
  method Encode(hrp: string, data: seq<Byte>) returns (r: Option<string>, overrun: bool)
    requires |data| >= 2 && (2 <= data[1] <= 40 ==> |data| >= 2 + data[1])
    ensures r == if Encodable(hrp, data) then Some(Encoded(hrp, data)) else None
    ensures overrun <==> Encodable(hrp, data) && |hrp| + 8 + (8 * |Program(data)| + 4) / 5 > 90
  {
    hide Run, Completed, Packed;
    overrun := false;
    var ok, chk, addr := EncodePrefix(hrp);
    if !ok { return None, false; }
    if data[0] > 0 && data[0] < OP_1 { return None, false; }
    var ver: nat := if data[0] >= OP_1 then data[0] + 1 - OP_1 else 0;
    var len: nat := data[1];
    if ver > 16 || len < 2 || len > 40 || |addr| + 1 + len + 6 >= ADDRESS_BUFFER { return None, false; }
    addr := EncodeBody(hrp, ver, data[2..2 + len], chk, addr);
    EncodedLength(hrp, data, len);
    r, overrun := Some(addr), |addr| + 1 > ADDRESS_BUFFER;
  }

  method EncodeBody(hrp: string, ver: Symbol, program: seq<Byte>, chk0: nat, addr0: string) returns (addr: string)
    requires Printable(hrp) && chk0 == Run(1, Expanded(hrp)) && addr0 == hrp + "1"
    ensures addr == hrp + "1" + Chars(Completed(hrp, [ver] + Packed(program)))
  {
    var chk := Feed(chk0, ver, Expanded(hrp));
    addr := addr0 + [Char(ver)];
    chk, addr := EncodeProgram(chk, addr, program, Expanded(hrp) + [ver]);
    addr := EncodeChecksum(chk, addr);
    AddressParts(hrp, ver, Packed(program));
  }

  lemma CharsConcat(s: seq<Symbol>, t: seq<Symbol>)
    ensures Chars(s + t) == Chars(s) + Chars(t)
  {}

  lemma AddressParts(hrp: string, ver: Symbol, packed: seq<Symbol>)
    requires Printable(hrp)
    ensures hrp + "1" + Chars(Completed(hrp, [ver] + packed))
            == hrp + "1" + [Char(ver)] + Chars(packed) + Chars(ChecksumOf(Run(1, Expanded(hrp) + [ver] + packed)))
  {
    hide Run, ChecksumOf, Chars;
    assert Expanded(hrp) + ([ver] + packed) == Expanded(hrp) + [ver] + packed;
    var check := ChecksumOf(Run(1, Expanded(hrp) + [ver] + packed));
    CharsConcat([ver] + packed, check);
    CharsConcat([ver], packed);
    assert Chars([ver]) == [Char(ver)];
  }

  // ---- The decoder

  /** The decoder's first loop. */
  method Scan(addr: string) returns (ok: bool, upper: bool, lower: bool)
    ensures ok <==> Printable(addr)
    ensures ok ==> upper == HasUpper(addr) && lower == HasLower(addr)
  {
    upper, lower := false, false;
    var i := 0;
    while i < |addr|
      invariant i <= |addr| && Printable(addr[..i])
      invariant upper <==> exists k :: 0 <= k < i && IsUpper(addr[k])
      invariant lower <==> exists k :: 0 <= k < i && IsLower(addr[k])
    {
      if (addr[i] as int) < 33 || addr[i] as int > 126 { return false, upper, lower; }
      if IsLower(addr[i]) { lower := true; }
      if IsUpper(addr[i]) { upper := true; }
      i := i + 1;
    }
    assert addr[..i] == addr;
    ok := true;
  }

  /** The search for the last '1', which starts at the terminating zero byte. */
  method FindSeparator(addr: string) returns (sep: nat)
    ensures sep == Separator(addr)
  {
    sep := |addr|;
    while sep > 0 && (sep == |addr| || addr[sep] != '1')
      invariant sep <= |addr| && forall i :: sep < i < |addr| ==> addr[i] != '1'
    {
      sep := sep - 1;
    }
  }

  lemma LowerKeepsLowBits(s: string)
    ensures LowBits(Lowered(s)) == LowBits(s)
  {}

  method PrefixChecksum(prefix: string) returns (chk: nat)
    requires Printable(prefix)
    ensures chk == Run(1, Expanded(Lowered(prefix)))
  {
    hide Run;
    assert Lowered(prefix[..0]) == prefix[..0];
    RunNone(prefix);
    chk := 1;
    var i := 0;
    while i < |prefix|
      invariant i <= |prefix| && chk == Run(1, HighBits(Lowered(prefix[..i])))
    {
      chk := Feed(chk, Lower(prefix[i]) as nat / 32, HighBits(Lowered(prefix[..i])));
      i := i + 1;
      assert HighBits(Lowered(prefix[..i]))
          == HighBits(Lowered(prefix[..i - 1])) + [Lower(prefix[i - 1]) as nat / 32];
    }
    assert prefix[..i] == prefix;
    ZeroSymbol(HighBits(Lowered(prefix)));
    chk := Polymod(chk);
    LowerKeepsLowBits(prefix);
    chk := FeedLow(chk, prefix, HighBits(Lowered(prefix)) + [0]);
  }

  lemma BytePosition(j: nat)
    ensures j / 8 * 5 + j % 8 * 5 / 8 == 5 * j / 8
    ensures 0 <= 5 * j % 8 < 8 && j % 8 * 5 - j % 8 * 5 / 8 * 8 == 5 * j % 8
  {}

  /** Stores the decoder's symbol j in buf. */
  method Place(buf: array<Byte>, c: Symbol, j: nat, ghost done: seq<Symbol>)
    requires j == |done| <= 80 && buf.Length == 52 && Decoding(buf[..], done, 5 * j / 8, 5 * j % 8)
    modifies buf
    ensures Decoding(buf[..], done + [c], 5 * (j + 1) / 8, 5 * (j + 1) % 8)
  {
    BytePosition(j);
    var x := j % 8 * 5 - j % 8 * 5 / 8 * 8;
    var k := j / 8 * 5 + j % 8 * 5 / 8;
    DecodeNext(buf[..], done, c, k, x);
    ghost var stored := Stored(buf[..], c, k, x);
    buf[k] := Filled(buf[k], c, x);
    if x > 3 { buf[k + 1] := Spilled(buf[k + 1], c, x); }
    assert buf[..] == stored;
  }

  /** The program part of the first symbols of n: without the version and the checksum. */
  function ProgramPart(done: seq<Symbol>, n: nat): (r: seq<Symbol>)
    requires 7 <= n && |done| <= n
    ensures |r| <= n - 7
  {
    if |done| <= 1 then [] else if |done| <= n - 6 then done[1..] else done[1..n - 6]
  }

  lemma PartGrows(done: seq<Symbol>, c: Symbol, n: nat)
    requires 7 <= n && |done| < n
    ensures ProgramPart(done + [c], n)
            == if |done| == 0 || |done| + 6 >= n then ProgramPart(done, n) else ProgramPart(done, n) + [c]
  {}

  ghost predicate Holds(buf: seq<Byte>, program: seq<Symbol>) {
    |buf| == 52 && Decoding(buf, program, 5 * |program| / 8, 5 * |program| % 8)
  }

  /** The decoder's variables after some of the n symbols. */
  ghost predicate Reading(buf: seq<Byte>, chk: nat, ver: nat, fed: seq<Symbol>, done: seq<Symbol>, n: nat) {
    && 7 <= n <= 88 && |done| <= n && chk == Run(1, fed + done) && (|done| > 0 ==> ver == done[0])
    && Holds(buf, ProgramPart(done, n))
  }

  /** One round of the decoder's loop: j is -1 for the version symbol, and the last six symbols are
      only fed to the checksum. */
  method ReadSymbol(c: Symbol, i: nat, j: int, addrLen: nat, chk0: nat, ver0: nat, buf: array<Byte>,
                    ghost fed: seq<Symbol>, ghost done: seq<Symbol>, ghost n: nat)
    returns (chk: nat, ver: nat)
    requires i < addrLen && |done| + addrLen == i + n && j == |done| - 1
    requires Reading(buf[..], chk0, ver0, fed, done, n)
    modifies buf
    ensures Reading(buf[..], chk, ver, fed, done + [c], n)
  {
    hide Run;
    assert fed + done + [c] == fed + (done + [c]);
    PartGrows(done, c, n);
    ver := ver0;
    chk := Feed(chk0, c, fed + done);
    if j == -1 { ver := c; }
    if j == -1 || i + 6 >= addrLen { return; }
    Place(buf, c, j, ProgramPart(done, n));
  }

  lemma ReadingStarts(buf: seq<Byte>, chk: nat, fed: seq<Symbol>, n: nat)
    requires 7 <= n <= 88 && chk == Run(1, fed) && |buf| == 52 && forall k :: 0 <= k < 52 ==> buf[k] == 0
    ensures Reading(buf, chk, 0xff, fed, [], n)
  {
    assert fed + [] == fed;
  }

  lemma SymbolsAre(done: seq<Symbol>, text: string)
    requires |done| == |text| && forall k :: 0 <= k < |text| ==> done[k] == SymbolOf(text[k])
    ensures AllSymbols(text) && done == Symbols(text)
  {}

  /** The decoder's loop over the characters after the separator. */
  method ReadSymbols(addr: string, sep: nat, chk0: nat, buf: array<Byte>, ghost fed: seq<Symbol>, ghost text: string)
    returns (ok: bool, chk: nat, ver: nat)
    requires sep + 8 <= |addr| <= 89 + sep && chk0 == Run(1, fed) && text == Lowered(addr[sep + 1..])
    requires buf.Length == 52 && forall k :: 0 <= k < 52 ==> buf[k] == 0
    modifies buf
    ensures ok <==> AllSymbols(text)
    ensures ok ==> Reading(buf[..], chk, ver, fed, Symbols(text), |text|)
  {
    hide Reading, Run, SymbolOf;
    ReadingStarts(buf[..], chk0, fed, |text|);
    ghost var done: seq<Symbol> := [];
    chk, ver := chk0, 0xff;
    var i, j := sep + 1, -1;
    while i < |addr|
      invariant sep + 1 <= i <= |addr| && j == i - sep - 2 && |done| == i - sep - 1
      invariant forall k :: 0 <= k < |done| ==> done[k] == SymbolOf(text[k])
      invariant Reading(buf[..], chk, ver, fed, done, |text|)
    {
      var c := SymbolOf(Lower(addr[i]));
      assert text[i - sep - 1] == Lower(addr[i]);
      if c == NOT_A_SYMBOL { return false, chk, ver; }
      chk, ver := ReadSymbol(c, i, j, |addr|, chk, ver, buf, fed, done, |text|);
      done := done + [c];
      i, j := i + 1, j + 1;
    }
    ok := true;
    SymbolsAre(done, text);
  }

  lemma ReadingDone(buf: seq<Byte>, chk: nat, ver: nat, fed: seq<Symbol>, symbols: seq<Symbol>)
    requires Reading(buf, chk, ver, fed, symbols, |symbols|)
    ensures buf[..5 * (|symbols| - 7) / 8] == Unpacked(symbols[1..|symbols| - 6])
    ensures chk == Run(1, fed + symbols) && ver == symbols[0]
  {
    var program := symbols[1..|symbols| - 6];
    assert ProgramPart(symbols, |symbols|) == program;
    DecodeDone(buf, program, 5 * |program| / 8, 5 * |program| % 8);
  }

  method Decode(addr: string) returns (r: Option<Address>)
    ensures r == Decoded(addr)
  {
    var ok, upper, lower := Scan(addr);
    if !ok { return None; }
    var sep := FindSeparator(addr);
    if |addr| < 8 || |addr| > 90 || sep < 1 || sep + 2 + 6 > |addr| || (upper && lower) { return None; }
    r := DecodeParts(addr, sep);
  }

  method DecodeParts(addr: string, sep: nat) returns (r: Option<Address>)
    requires 1 <= sep && sep + 8 <= |addr| <= 90 && Printable(addr)
    ensures var hrp, text := Lowered(addr[..sep]), Lowered(addr[sep + 1..]);
            r == if !AllSymbols(text) then None else
                 var symbols := Symbols(text);
                 Judged(hrp, Run(1, Expanded(hrp) + symbols), symbols[0], Unpacked(symbols[1..|symbols| - 6]))
  {
    hide Run, Reading, SymbolOf, Unpacked, HighBits, LowBits;
    ghost var hrp, text := Lowered(addr[..sep]), Lowered(addr[sep + 1..]);
    var chk := PrefixChecksum(addr[..sep]);
    var buf := new Byte[52](_ => 0);
    var ok: bool, ver: nat;
    ok, chk, ver := ReadSymbols(addr, sep, chk, buf, Expanded(hrp), text);
    if !ok { return None; }
    ReadingDone(buf[..], chk, ver, Expanded(hrp), Symbols(text));
    var bufLen := (|addr| - (sep + 2 + 6)) * 5 / 8;
    if chk != 1 || ver > 16 || bufLen < 2 || bufLen > 40 { return None; }
    r := Some(Address(Lowered(addr[..sep]), [VersionByte(ver), bufLen] + buf[..bufLen]));
  }
}
