/**
 Text as the Rust standard library sees it: UTF-8 bytes, White_Space trimming and decimal numbers.
 */
module Text {
  import opened Wrappers

  type Byte = b: nat | b < 256

  // ---- UTF-8 (section 4 of RFC 3629) ----

  predicate Continues(s: seq<Byte>, i: nat) {
    i < |s| && 0x80 <= s[i] <= 0xBF
  }

  function Low6(s: seq<Byte>, i: nat): nat
    requires Continues(s, i)
  {
    s[i] - 0x80
  }

  // The first character of `s` and the number of bytes it takes; None where str::from_utf8 fails.
  function DecodeFirst(s: seq<Byte>): (r: Option<(char, nat)>)
    requires s != []
    ensures r.Some? ==> 1 <= r.value.1 <= |s|
  {
    var b: int := s[0];
    if b < 0x80 then Some((b as char, 1))
    else if 0xC2 <= b <= 0xDF && Continues(s, 1) then
      Some((((b - 0xC0) * 64 + Low6(s, 1)) as char, 2))
    else if 0xE0 <= b <= 0xEF && Continues(s, 1) && Continues(s, 2)
            && (b == 0xE0 ==> s[1] >= 0xA0) && (b == 0xED ==> s[1] <= 0x9F) then
      Some((((b - 0xE0) * 4096 + Low6(s, 1) * 64 + Low6(s, 2)) as char, 3))
    else if 0xF0 <= b <= 0xF4 && Continues(s, 1) && Continues(s, 2) && Continues(s, 3)
            && (b == 0xF0 ==> s[1] >= 0x90) && (b == 0xF4 ==> s[1] <= 0x8F) then
      Some((((b - 0xF0) * 262144 + Low6(s, 1) * 4096 + Low6(s, 2) * 64 + Low6(s, 3)) as char, 4))
    else None
  }

  function Decode(s: seq<Byte>): Option<string> {
    if s == [] then Some([])
    else
      match DecodeFirst(s)
      case None => None
      case Some((c, n)) =>
        match Decode(s[n..])
        case None => None
        case Some(rest) => Some([c] + rest)
  }

  predicate IsUtf8(s: seq<Byte>) {
    Decode(s).Some?
  }

  // The bytes of a character, as the RFC's table has them.
  function EncodeChar(c: char): seq<Byte> {
    var n: int := c as int;
    if n < 0x80 then [n]
    else if n < 0x800 then [0xC0 + n / 64, 0x80 + n % 64]
    else if n < 0x1_0000 then [0xE0 + n / 4096, 0x80 + n / 64 % 64, 0x80 + n % 64]
    else [0xF0 + n / 262144, 0x80 + n / 4096 % 64, 0x80 + n / 64 % 64, 0x80 + n % 64]
  }

  function Encode(s: string): seq<Byte> {
    if s == "" then [] else EncodeChar(s[0]) + Encode(s[1..])
  }

  // A number in base 64.
  lemma Base64(n: nat)
    ensures n == 64 * (n / 64) + n % 64
    ensures n / 64 == 64 * (n / 4096) + n / 64 % 64
    ensures n / 4096 == 64 * (n / 262144) + n / 4096 % 64
  {
    Shifts(n);
  }

  lemma FromBase64(a: nat, b: nat, c: nat, d: nat)
    requires b < 64 && c < 64 && d < 64
    ensures var n := a * 262144 + b * 4096 + c * 64 + d;
            n / 262144 == a && n / 4096 == a * 64 + b && n / 4096 % 64 == b && n / 64 % 64 == c && n % 64 == d
  {
    var n := a * 262144 + b * 4096 + c * 64 + d;
    LastDigit(a * 4096 + b * 64 + c, d);
    LastDigit(a * 64 + b, c);
    LastDigit(a, b);
    Shifts(n);
  }

  lemma LastDigit(q: nat, r: nat)
    requires r < 64
    ensures (q * 64 + r) / 64 == q && (q * 64 + r) % 64 == r
  {
  }

  lemma Shifts(n: nat)
    ensures n / 64 / 64 == n / 4096 && n / 4096 / 64 == n / 262144
  {
  }

  lemma FirstDecoded(c: char, rest: seq<Byte>)
    ensures DecodeFirst(EncodeChar(c) + rest) == Some((c, |EncodeChar(c)|))
  {
    var n, s := c as int, EncodeChar(c) + rest;
    Base64(n);
    if n >= 0x1_0000 {
      FourDecoded(s, n / 262144, n / 4096 % 64, n / 64 % 64, n % 64);
    } else if n >= 0x800 {
      ThreeDecoded(s, n / 4096, n / 64 % 64, n % 64);
    } else if n >= 0x80 {
      TwoDecoded(s, n / 64, n % 64);
    }
  }

  lemma TwoDecoded(s: seq<Byte>, a: nat, b: nat)
    requires |s| >= 2 && 2 <= a < 32 && b < 64 && s[0] == 0xC0 + a && s[1] == 0x80 + b
    ensures DecodeFirst(s) == Some(((a * 64 + b) as char, 2))
  {
  }

  lemma ThreeDecoded(s: seq<Byte>, a: nat, b: nat, c: nat)
    requires |s| >= 3 && a < 16 && b < 64 && c < 64
    requires s[0] == 0xE0 + a && s[1] == 0x80 + b && s[2] == 0x80 + c
    requires var n := a * 4096 + b * 64 + c; n >= 0x800 && !(0xD800 <= n <= 0xDFFF)
    ensures DecodeFirst(s) == Some(((a * 4096 + b * 64 + c) as char, 3))
  {
  }

  lemma FourDecoded(s: seq<Byte>, a: nat, b: nat, c: nat, d: nat)
    requires |s| >= 4 && a < 5 && b < 64 && c < 64 && d < 64
    requires s[0] == 0xF0 + a && s[1] == 0x80 + b && s[2] == 0x80 + c && s[3] == 0x80 + d
    requires 0x1_0000 <= a * 262144 + b * 4096 + c * 64 + d < 0x11_0000
    ensures DecodeFirst(s) == Some(((a * 262144 + b * 4096 + c * 64 + d) as char, 4))
  {
  }

  lemma FirstEncoded(s: seq<Byte>)
    requires s != [] && DecodeFirst(s).Some?
    ensures s[..DecodeFirst(s).value.1] == EncodeChar(DecodeFirst(s).value.0)
  {
    var n := DecodeFirst(s).value.1;
    if n == 4 {
      FourEncoded(s);
    } else if n == 3 {
      ThreeEncoded(s);
    } else if n == 2 {
      FromBase64(0, 0, s[0] - 0xC0, Low6(s, 1));
    }
  }

  lemma ThreeEncoded(s: seq<Byte>)
    requires s != [] && DecodeFirst(s).Some? && DecodeFirst(s).value.1 == 3
    ensures s[..3] == EncodeChar(DecodeFirst(s).value.0)
  {
    FromBase64(0, s[0] - 0xE0, Low6(s, 1), Low6(s, 2));
  }

  lemma FourEncoded(s: seq<Byte>)
    requires s != [] && DecodeFirst(s).Some? && DecodeFirst(s).value.1 == 4
    ensures s[..4] == EncodeChar(DecodeFirst(s).value.0)
  {
    FromBase64(s[0] - 0xF0, Low6(s, 1), Low6(s, 2), Low6(s, 3));
  }

  lemma {:induction false} DecodingUndoesEncoding(t: string)
    ensures Decode(Encode(t)) == Some(t)
  {
    if t != "" {
      var rest := Encode(t[1..]);
      DecodingUndoesEncoding(t[1..]);
      FirstDecoded(t[0], rest);
      assert (EncodeChar(t[0]) + rest)[|EncodeChar(t[0])|..] == rest;
      assert [t[0]] + t[1..] == t;
    }
  }

  lemma EncodeMore(c: char, t: string)
    ensures Encode([c] + t) == EncodeChar(c) + Encode(t)
  {
    assert ([c] + t)[1..] == t;
  }

  lemma DecodeMore(s: seq<Byte>, c: char, n: nat, rest: seq<Byte>)
    requires s != [] && Decode(s).Some? && DecodeFirst(s) == Some((c, n)) && rest == s[n..]
    ensures Decode(rest).Some? && Decode(s).value == [c] + Decode(rest).value
  {
  }

  lemma {:induction false} EncodingUndoesDecoding(s: seq<Byte>)
    requires Decode(s).Some?
    ensures Encode(Decode(s).value) == s
  {
    if s != [] {
      var (c, n) := DecodeFirst(s).value;
      var rest := s[n..];
      DecodeMore(s, c, n, rest);
      EncodingUndoesDecoding(rest);
      FirstEncoded(s);
      EncodeMore(c, Decode(rest).value);
      assert s == s[..n] + rest;
    }
  }

  // Bytes decode to a text if and only if they are its encoding, so what no text encodes to is not UTF-8.
  lemma DecodesIff(s: seq<Byte>, t: string)
    ensures Decode(s) == Some(t) <==> s == Encode(t)
  {
    DecodingUndoesEncoding(t);
    if Decode(s).Some? {
      EncodingUndoesDecoding(s);
    }
  }

  predicate IsAscii(s: string) {
    forall i :: 0 <= i < |s| ==> s[i] < 128 as char
  }

  function AsciiBytes(s: string): (r: seq<Byte>)
    requires IsAscii(s)
    ensures |r| == |s| && forall i :: 0 <= i < |s| ==> r[i] == s[i] as nat
  {
    seq(|s|, i requires 0 <= i < |s| => s[i] as nat)
  }

  // str::len of one character.
  function Utf8Length(c: char): nat {
    if c < 0x80 as char then 1 else if c < 0x800 as char then 2 else if c < 0x1_0000 as char then 3 else 4
  }

  function ByteLength(s: string): nat {
    if s == [] then 0 else Utf8Length(s[0]) + ByteLength(s[1..])
  }

  // It is the length of the encoding.
  lemma {:induction false} ByteLengthIsEncoded(s: string)
    ensures ByteLength(s) == |Encode(s)|
  {
    if s != "" {
      ByteLengthIsEncoded(s[1..]);
    }
  }

  lemma {:induction false} DecodeAscii(s: string)
    requires IsAscii(s)
    ensures Decode(AsciiBytes(s)) == Some(s)
  {
    if s != [] {
      assert AsciiBytes(s)[1..] == AsciiBytes(s[1..]);
      DecodeAscii(s[1..]);
      assert [s[0]] + s[1..] == s;
    }
  }

  lemma AsciiIsEncoded(s: string)
    requires IsAscii(s)
    ensures AsciiBytes(s) == Encode(s)
  {
    DecodeAscii(s);
    EncodingUndoesDecoding(AsciiBytes(s));
  }

  lemma AsciiConcat(a: string, b: string)
    requires IsAscii(a) && IsAscii(b)
    ensures IsAscii(a + b) && AsciiBytes(a + b) == AsciiBytes(a) + AsciiBytes(b)
  {
  }

  // ---- lines ----

  const LF: Byte := 10

  // The length of the first line, its line feed included.
  function LineLength(s: seq<Byte>): (n: nat)
    ensures n <= |s| && (s != [] ==> n > 0)
  {
    if s == [] then 0 else if s[0] == LF then 1 else 1 + LineLength(s[1..])
  }

  ghost predicate IsLine(s: seq<Byte>) {
    s != [] && s[|s| - 1] == LF && LF !in s[..|s| - 1]
  }

  lemma {:induction false} LineLengthAt(line: seq<Byte>, rest: seq<Byte>)
    requires IsLine(line)
    ensures LineLength(line + rest) == |line|
  {
    if |line| == 1 {
      assert (line + rest)[0] == LF;
    } else {
      assert (line + rest)[1..] == line[1..] + rest;
      assert line[1..][..|line[1..]| - 1] == line[..|line| - 1][1..];
      assert line[0] in line[..|line| - 1];
      LineLengthAt(line[1..], rest);
    }
  }

  lemma {:induction false} LastLineLength(s: seq<Byte>)
    requires LF !in s
    ensures LineLength(s) == |s|
  {
    if s != [] {
      LastLineLength(s[1..]);
    }
  }

  // ---- whitespace ----

  // The White_Space property of Unicode.
  predicate IsWhitespace(c: char) {
    var n := c as nat;
    || 0x09 <= n <= 0x0D || n == 0x20 || n == 0x85 || n == 0xA0 || n == 0x1680 || 0x2000 <= n <= 0x200A
    || n == 0x2028 || n == 0x2029 || n == 0x202F || n == 0x205F || n == 0x3000
  }

  function TrimStart(s: string): string {
    if s == [] || !IsWhitespace(s[0]) then s else TrimStart(s[1..])
  }

  function TrimEnd(s: string): string {
    if s == [] || !IsWhitespace(s[|s| - 1]) then s else TrimEnd(s[..|s| - 1])
  }

  function Trim(s: string): string {
    TrimEnd(TrimStart(s))
  }

  lemma {:induction false} TrimStartCuts(s: string) returns (n: nat)
    ensures n <= |s| && TrimStart(s) == s[n..]
    ensures forall i :: 0 <= i < n ==> IsWhitespace(s[i])
    ensures n < |s| ==> !IsWhitespace(s[n])
  {
    if s == [] || !IsWhitespace(s[0]) {
      n := 0;
    } else {
      n := TrimStartCuts(s[1..]);
      n := n + 1;
    }
  }

  lemma {:induction false} TrimEndCuts(s: string) returns (n: nat)
    ensures n <= |s| && TrimEnd(s) == s[..n]
    ensures forall i :: n <= i < |s| ==> IsWhitespace(s[i])
    ensures n > 0 ==> !IsWhitespace(s[n - 1])
  {
    if s == [] || !IsWhitespace(s[|s| - 1]) {
      n := |s|;
    } else {
      n := TrimEndCuts(s[..|s| - 1]);
    }
  }

  // Trimming cuts whitespace off both ends and nothing else: what is left starts and ends with
  // something else.
  lemma TrimCutsBothEnds(s: string) returns (before: nat, after: nat)
    ensures before + |Trim(s)| + after == |s|
    ensures s[before..|s| - after] == Trim(s)
    ensures forall i :: 0 <= i < before ==> IsWhitespace(s[i])
    ensures forall i :: |s| - after <= i < |s| ==> IsWhitespace(s[i])
    ensures Trim(s) != [] ==> !IsWhitespace(Trim(s)[0]) && !IsWhitespace(Trim(s)[|Trim(s)| - 1])
  {
    before := TrimStartCuts(s);
    var t := s[before..];
    var n := TrimEndCuts(t);
    after := |t| - n;
    forall i | |s| - after <= i < |s| ensures IsWhitespace(s[i]) {
      assert s[i] == t[i - before];
    }
  }

  // Trimming again changes nothing.
  lemma TrimIdempotent(s: string)
    ensures Trim(Trim(s)) == Trim(s)
  {
    var before, after := TrimCutsBothEnds(s);
  }

  ghost predicate IsBlank(s: string) {
    forall i :: 0 <= i < |s| ==> IsWhitespace(s[i])
  }

  // What is left of a text in blanks.
  lemma TrimExactly(left: string, core: string, right: string)
    requires IsBlank(left) && IsBlank(right)
    requires core != "" && !IsWhitespace(core[0]) && !IsWhitespace(core[|core| - 1])
    ensures Trim(left + core + right) == core
  {
    var s := left + core + right;
    var before, after := TrimCutsBothEnds(s);
    assert s[|left|] == core[0] && s[|left| + |core| - 1] == core[|core| - 1];
    assert before <= |left| && after <= |right|;
    assert Trim(s) != "" && s[before] == Trim(s)[0] && s[|s| - after - 1] == Trim(s)[|Trim(s)| - 1];
    assert before == |left| && after == |right|;
    assert s[|left|..|left| + |core|] == core;
  }

  lemma BlankTrims(s: string)
    ensures Trim(s) == "" <==> IsBlank(s)
  {
    var before, after := TrimCutsBothEnds(s);
  }

  // ---- decimal numbers ----

  predicate IsDigit(c: char) {
    '0' <= c <= '9'
  }

  function Digit(d: nat): (c: char)
    requires d < 10
    ensures IsDigit(c) && DigitValue(c) == d
  {
    ('0' as nat + d) as char
  }

  function DigitValue(c: char): nat
    requires IsDigit(c)
  {
    c as nat - '0' as nat
  }

  // Display for an unsigned integer.
  function Print(n: nat): (s: string)
    ensures s != [] && forall i :: 0 <= i < |s| ==> IsDigit(s[i])
  {
    if n < 10 then [Digit(n)] else Print(n / 10) + [Digit(n % 10)]
  }

  function ParseDigits(s: string): Option<nat> {
    if s == [] || !IsDigit(s[|s| - 1]) then None
    else if |s| == 1 then Some(DigitValue(s[0]))
    else
      match ParseDigits(s[..|s| - 1])
      case None => None
      case Some(n) => Some(10 * n + DigitValue(s[|s| - 1]))
  }

  // str::parse::<usize>: an optional plus sign, then digits whose value fits 64 bits.
  function ParseUsize(s: string): Option<nat> {
    var digits := if s != [] && s[0] == '+' then s[1..] else s;
    match ParseDigits(digits)
    case Some(n) => if n <= U64_MAX then Some(n) else None
    case None => None
  }

  lemma {:induction false} ParsePrinted(n: nat)
    ensures ParseDigits(Print(n)) == Some(n)
  {
    if n >= 10 {
      ParsePrinted(n / 10);
      assert Print(n)[..|Print(n)| - 1] == Print(n / 10);
    }
  }

  // Printing a 64-bit number and parsing it gives it back.
  lemma UsizeRoundTrip(n: nat)
    requires n <= U64_MAX
    ensures ParseUsize(Print(n)) == Some(n)
  {
    ParsePrinted(n);
    assert IsDigit(Print(n)[0]);
  }

  // A plus sign and leading zeros are read over; a number that does not fit 64 bits is refused.
  lemma PaddedNumber(plus: string, zeros: string, n: nat)
    requires plus in {"", "+"} && forall i :: 0 <= i < |zeros| ==> zeros[i] == '0'
    ensures ParseUsize(plus + (zeros + Print(n))) == if n < 0x1_0000_0000_0000_0000 then Some(n) else None
  {
    var digits := zeros + Print(n);
    ZerosInFront(zeros, n);
    assert IsDigit(digits[0]);
    assert plus == "+" ==> (plus + digits)[1..] == digits;
    assert plus == "" ==> plus + digits == digits;
  }

  lemma {:induction false} ZerosAlone(zeros: seq<char>)
    requires zeros != [] && forall i :: 0 <= i < |zeros| ==> zeros[i] == '0'
    ensures ParseDigits(zeros) == Some(0)
  {
    if |zeros| > 1 {
      ZerosAlone(zeros[..|zeros| - 1]);
    }
  }

  lemma {:induction false} ZerosInFront(zeros: seq<char>, n: nat)
    requires forall i :: 0 <= i < |zeros| ==> zeros[i] == '0'
    ensures ParseDigits(zeros + Print(n)) == Some(n)
  {
    var s := zeros + Print(n);
    if n >= 10 {
      ZerosInFront(zeros, n / 10);
      assert s[..|s| - 1] == zeros + Print(n / 10);
    } else if zeros != [] {
      ZerosAlone(zeros);
      assert s[..|s| - 1] == zeros;
    }
  }

  // Anything else is no number.
  lemma {:induction false} OnlyDigitsParse(s: string)
    ensures ParseDigits(s).Some? <==> s != "" && forall i :: 0 <= i < |s| ==> '0' <= s[i] <= '9'
  {
    if s != "" {
      OnlyDigitsParse(s[..|s| - 1]);
      assert s == s[..|s| - 1] + [s[|s| - 1]];
    }
  }

  lemma PrintInjective(m: nat, n: nat)
    requires Print(m) == Print(n)
    ensures m == n
  {
    ParsePrinted(m);
    ParsePrinted(n);
  }
}
