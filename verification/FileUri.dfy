/**
 File paths as percent-encoded file URIs (src-tauri/src/code_intel_lsp.rs; section 2.1 of RFC 3986),
 on platforms other than Windows. A path is a Rust string, that is, valid UTF-8.
 */
module FileUri {
  import opened Wrappers
  import opened Text

  const SLASH: Byte := 47
  const BACKSLASH: Byte := 92
  const PERCENT: Byte := 37

  // "file://"
  const SCHEME: seq<Byte> := [102, 105, 108, 101, 58, 47, 47]

  predicate IsAlphanumeric(b: Byte) {
    48 <= b <= 57 || 65 <= b <= 90 || 97 <= b <= 122
  }

  // Letters, digits and / : - _ . ~ stand for themselves.
  predicate IsPlain(b: Byte) {
    IsAlphanumeric(b) || b in {SLASH, 58, 45, 95, 46, 126}
  }

  function HexDigit(d: nat): (b: Byte)
    requires d < 16
    ensures HexValue(b) == Some(d) && b != PERCENT
  {
    if d < 10 then 48 + d else 55 + d
  }

  function HexValue(b: Byte): (r: Option<nat>)
    ensures r.Some? ==> r.value < 16
  {
    var n: int := b;
    if 48 <= n <= 57 then Some(n - 48)
    else if 97 <= n <= 102 then Some(n - 97 + 10)
    else if 65 <= n <= 70 then Some(n - 65 + 10)
    else None
  }

  function EncodeByte(b: Byte): seq<Byte> {
    if IsPlain(b) then [b] else [PERCENT, HexDigit(b / 16), HexDigit(b % 16)]
  }

  function PercentEncode(s: seq<Byte>): seq<Byte> {
    if s == [] then [] else EncodeByte(s[0]) + PercentEncode(s[1..])
  }

  // None where percent_decode_path gives up: a percent sign without two hexadecimal digits behind it.
  function PercentDecode(s: seq<Byte>): Option<seq<Byte>> {
    if s == [] then Some([])
    else if s[0] != PERCENT then
      match PercentDecode(s[1..])
      case None => None
      case Some(rest) => Some([s[0]] + rest)
    else if |s| < 3 then None
    else
      match (HexValue(s[1]), HexValue(s[2]), PercentDecode(s[3..]))
      case (Some(high), Some(low), Some(rest)) => Some([(16 * high + low) as Byte] + rest)
      case _ => None
  }

  method PercentEncodePath(path: seq<Byte>) returns (encoded: seq<Byte>)
    ensures encoded == PercentEncode(path)
  {
    encoded := [];
    for i := 0 to |path|
      invariant encoded + PercentEncode(path[i..]) == PercentEncode(path)
    {
      ghost var before := encoded;
      encoded := encoded + EncodeByte(path[i]);
      assert path[i..][1..] == path[i + 1..];
      assert encoded + PercentEncode(path[i + 1..]) == before + (EncodeByte(path[i]) + PercentEncode(path[i + 1..]));
    }
    assert path[|path|..] == [];
  }

  // What decoding yields when `sofar` has been decoded and `rest` is still to come.
  function Continued(sofar: seq<Byte>, rest: seq<Byte>): Option<seq<Byte>> {
    match PercentDecode(rest)
    case None => None
    case Some(r) => Some(sofar + r)
  }

  lemma ContinuedByOne(sofar: seq<Byte>, b: Byte, rest: seq<Byte>, later: seq<Byte>)
    requires PercentDecode(rest) == match PercentDecode(later) case None => None case Some(r) => Some([b] + r)
    ensures Continued(sofar, rest) == Continued(sofar + [b], later)
  {
    if PercentDecode(later).Some? {
      var r := PercentDecode(later).value;
      assert sofar + ([b] + r) == sofar + [b] + r;
    }
  }

  method PercentDecodePath(value: seq<Byte>) returns (path: Option<seq<Byte>>)
    ensures path == match PercentDecode(value) case Some(s) => if IsUtf8(s) then Some(s) else None case None => None
  {
    var decoded: seq<Byte> := [];
    var index := 0;
    assert value[0..] == value;
    assert Continued([], value) == PercentDecode(value) by {
      if PercentDecode(value).Some? { assert [] + PercentDecode(value).value == PercentDecode(value).value; }
    }
    while index < |value|
      invariant index <= |value|
      invariant Continued(decoded, value[index..]) == PercentDecode(value)
    {
      ghost var rest := value[index..];
      if value[index] == PERCENT {
        if index + 2 >= |value| {
          return None;
        }
        var high, low := HexValue(value[index + 1]), HexValue(value[index + 2]);
        if high == None || low == None {
          return None;
        }
        assert rest[3..] == value[index + 3..];
        ContinuedByOne(decoded, (16 * high.value + low.value) as Byte, rest, rest[3..]);
        decoded := decoded + [(16 * high.value + low.value) as Byte];
        index := index + 3;
      } else {
        assert rest[1..] == value[index + 1..];
        ContinuedByOne(decoded, value[index], rest, rest[1..]);
        decoded := decoded + [value[index]];
        index := index + 1;
      }
    }
    assert value[|value|..] == [] && decoded + [] == decoded;
    path := if IsUtf8(decoded) then Some(decoded) else None;
  }

  // str::replace('\\', "/")
  function Normalize(path: seq<Byte>): (r: seq<Byte>)
    ensures |r| == |path|
    ensures forall i :: 0 <= i < |path| ==> r[i] == if path[i] == BACKSLASH then SLASH else path[i]
  {
    seq(|path|, i requires 0 <= i < |path| => if path[i] == BACKSLASH then SLASH else path[i])
  }

  predicate IsAbsolute(path: seq<Byte>) {
    path != [] && path[0] == SLASH
  }

  function UriPath(normalized: seq<Byte>): seq<Byte> {
    if IsAbsolute(normalized) then PercentEncode(normalized) else [SLASH] + PercentEncode(normalized)
  }

  function PathToUri(path: seq<Byte>): seq<Byte> {
    SCHEME + UriPath(Normalize(path))
  }

  function UriToPath(uri: seq<Byte>): Option<seq<Byte>> {
    if |uri| < |SCHEME| || uri[..|SCHEME|] != SCHEME then None
    else
      match PercentDecode(uri[|SCHEME|..])
      case Some(path) => if IsUtf8(path) then Some(path) else None
      case None => None
  }

  // ---- the percent codec ----

  lemma {:induction false} DecodeAfterByte(b: Byte, rest: seq<Byte>)
    ensures PercentDecode(EncodeByte(b) + rest)
         == match PercentDecode(rest) case None => None case Some(r) => Some([b] + r)
  {
    var s := EncodeByte(b) + rest;
    if IsPlain(b) {
      assert s[1..] == rest;
    } else {
      assert s[3..] == rest;
      assert 16 * (b / 16) + b % 16 == b;
    }
  }

  // Decoding undoes encoding, byte for byte, whatever the bytes are.
  lemma {:induction false} DecodingUndoesEncoding(s: seq<Byte>)
    ensures PercentDecode(PercentEncode(s)) == Some(s)
  {
    if s != [] {
      DecodingUndoesEncoding(s[1..]);
      DecodeAfterByte(s[0], PercentEncode(s[1..]));
      assert [s[0]] + s[1..] == s;
    }
  }

  // An encoded path uses only characters a URI path may hold: plain ones and percent triplets.
  lemma {:induction false} EncodedIsPlain(s: seq<Byte>)
    ensures forall i :: 0 <= i < |PercentEncode(s)| ==> IsPlain(PercentEncode(s)[i]) || PercentEncode(s)[i] == PERCENT
    ensures forall i :: 0 <= i < |PercentEncode(s)| && PercentEncode(s)[i] == PERCENT ==>
              i + 2 < |PercentEncode(s)| && HexValue(PercentEncode(s)[i + 1]).Some?
                  && HexValue(PercentEncode(s)[i + 2]).Some?
  {
    if s != [] {
      EncodedIsPlain(s[1..]);
      assert PercentEncode(s) == EncodeByte(s[0]) + PercentEncode(s[1..]);
    }
  }

  const UPPER := "0123456789ABCDEF"
  const LOWER := "0123456789abcdef"

  // Each byte is encoded for itself: a letter, a digit or one of /:-_.~ as it is, any other as a percent
  // sign and its two upper-case hexadecimal digits.
  lemma EncodesByteByByte(a: seq<Byte>, b: Byte, c: seq<Byte>)
    ensures var plain := 'A' as int <= b <= 'Z' as int || 'a' as int <= b <= 'z' as int || '0' as int <= b <= '9' as int
                         || (exists i :: 0 <= i < 6 && b == "/:-_.~"[i] as int);
            var shown := if plain then [b] else ['%' as Byte, UPPER[b / 16] as Byte, UPPER[b % 16] as Byte];
            PercentEncode(a + [b] + c) == PercentEncode(a) + shown + PercentEncode(c)
  {
    ByteShown(b);
    EncodeConcat(a + [b], c);
    EncodeConcat(a, [b]);
    assert PercentEncode([b]) == EncodeByte(b) + PercentEncode([b][1..]) == EncodeByte(b);
  }

  lemma {:induction false} EncodeConcat(a: seq<Byte>, b: seq<Byte>)
    ensures PercentEncode(a + b) == PercentEncode(a) + PercentEncode(b)
  {
    if a == [] {
      assert a + b == b;
    } else {
      assert (a + b)[1..] == a[1..] + b;
      EncodeConcat(a[1..], b);
    }
  }

  lemma ByteShown(b: Byte)
    ensures var plain := 'A' as int <= b <= 'Z' as int || 'a' as int <= b <= 'z' as int || '0' as int <= b <= '9' as int
                         || (exists i :: 0 <= i < 6 && b == "/:-_.~"[i] as int);
            EncodeByte(b) == if plain then [b] else ['%' as Byte, UPPER[b / 16] as Byte, UPPER[b % 16] as Byte]
  {
    HexShown(b / 16);
    HexShown(b % 16);
    PlainShown(b);
  }

  lemma HexShown(d: nat)
    requires d < 16
    ensures HexDigit(d) == UPPER[d] as int
  {
    if d < 8 {
      assert d in {0, 1, 2, 3, 4, 5, 6, 7};
    } else {
      assert d in {8, 9, 10, 11, 12, 13, 14, 15};
    }
  }

  lemma PlainShown(b: Byte)
    ensures b in {47, 58, 45, 95, 46, 126} <==> exists i :: 0 <= i < 6 && b == "/:-_.~"[i] as int
  {
    var signs := "/:-_.~";
    assert signs[0] as int == 47 && signs[1] as int == 58 && signs[2] as int == 45;
    assert signs[3] as int == 95 && signs[4] as int == 46 && signs[5] as int == 126;
  }

  // Hexadecimal digits are read in either case.
  lemma HexValueIff(b: Byte, d: nat)
    ensures HexValue(b) == Some(d) <==> d < 16 && (b == UPPER[d] as int || b == LOWER[d] as int)
  {
    if d < 16 {
      HexShown(d);
      assert LOWER[d] as int == if d < 10 then 48 + d else 87 + d by {
        assert d in {0, 1, 2, 3, 4, 5, 6, 7, 8, 9, 10, 11, 12, 13, 14, 15};
      }
    }
  }

  // A percent sign without two hexadecimal digits behind it.
  predicate BadTriplet(s: seq<Byte>, i: nat) {
    i < |s| && s[i] == '%' as int && (|s| < i + 3 || HexValue(s[i + 1]) == None || HexValue(s[i + 2]) == None)
  }

  // Decoding gives up if and only if there is one anywhere.
  lemma {:induction false} DecodeFailsIff(s: seq<Byte>)
    ensures PercentDecode(s) == None <==> exists i :: BadTriplet(s, i)
  {
    if s != [] {
      var n := if s[0] == PERCENT then 3 else 1;
      if BadTriplet(s, 0) {
      } else {
        DecodeFailsIff(s[n..]);
        BadTripletLater(s, n);
      }
    }
  }

  lemma BadTripletLater(s: seq<Byte>, n: nat)
    requires s != [] && !BadTriplet(s, 0) && n == if s[0] == PERCENT then 3 else 1
    ensures n <= |s| && ((exists i :: BadTriplet(s, i)) <==> exists i :: BadTriplet(s[n..], i))
  {
    if i: nat :| BadTriplet(s, i) {
      assert i >= n;
      assert BadTriplet(s[n..], i - n);
    }
    if i: nat :| BadTriplet(s[n..], i) {
      assert BadTriplet(s, n + i);
    }
  }

  // ---- the file URI ----

  // Replacing backslashes by slashes keeps a string valid UTF-8: both are single bytes.
  lemma {:induction false} NormalizeKeepsUtf8(s: seq<Byte>)
    requires IsUtf8(s)
    ensures IsUtf8(Normalize(s))
  {
    if s != [] {
      var n := DecodeFirst(s).value.1;
      NormalizeKeepsUtf8(s[n..]);
      assert Normalize(s)[n..] == Normalize(s[n..]);
      NormalizeKeepsFirst(s);
    }
  }

  lemma NormalizeKeepsFirst(s: seq<Byte>)
    requires s != [] && DecodeFirst(s).Some?
    ensures DecodeFirst(Normalize(s)).Some? && DecodeFirst(Normalize(s)).value.1 == DecodeFirst(s).value.1
  {
    var t := Normalize(s);
    assert forall i :: 0 <= i < |s| ==> (Continues(s, i) <==> Continues(t, i)) && (s[i] >= 0x80 ==> t[i] == s[i]);
  }

  lemma SlashKeepsUtf8(s: seq<Byte>)
    requires IsUtf8(s)
    ensures IsUtf8([SLASH] + s)
  {
    assert ([SLASH] + s)[1..] == s;
  }

  lemma UriPathDecodes(normalized: seq<Byte>)
    ensures PercentDecode(UriPath(normalized))
            == Some(if IsAbsolute(normalized) then normalized else [SLASH] + normalized)
  {
    DecodingUndoesEncoding(normalized);
    DecodeAfterByte(SLASH, PercentEncode(normalized));
  }

  // A URI gives a path if and only if it starts with file:// and what follows decodes to UTF-8.
  lemma UriGivesPathIff(uri: seq<Byte>, path: seq<Byte>)
    ensures UriToPath(uri) == Some(path)
            <==> exists rest :: uri == AsciiBytes("file://") + rest && PercentDecode(rest) == Some(path) && IsUtf8(path)
  {
    var scheme := "file://";
    assert AsciiBytes(scheme) == SCHEME;
    if UriToPath(uri) == Some(path) {
      assert uri == SCHEME + uri[7..];
    }
    if rest :| uri == AsciiBytes(scheme) + rest && PercentDecode(rest) == Some(path) && IsUtf8(path) {
      assert uri[7..] == rest && uri[..7] == SCHEME;
    }
  }

  // Every path comes back from its URI with backslashes turned into slashes and, if that leaves it
  // relative, a slash in front.
  lemma UriRoundTrip(path: seq<Byte>)
    requires IsUtf8(path)
    ensures var normalized := Normalize(path);
            UriToPath(PathToUri(path)) == Some(if IsAbsolute(normalized) then normalized else [SLASH] + normalized)
  {
    var rest := UriPath(Normalize(path));
    NormalizeKeepsUtf8(path);
    SlashKeepsUtf8(Normalize(path));
    UriPathDecodes(Normalize(path));
    assert (SCHEME + rest)[..|SCHEME|] == SCHEME && (SCHEME + rest)[|SCHEME|..] == rest;
  }

  // So a path survives unchanged exactly when it is absolute and holds no backslash.
  lemma LosslessExactly(path: seq<Byte>)
    requires IsUtf8(path)
    ensures UriToPath(PathToUri(path)) == Some(path) <==> IsAbsolute(path) && BACKSLASH !in path
  {
    UriRoundTrip(path);
    var normalized := Normalize(path);
    if BACKSLASH !in path {
      assert normalized == path;
    } else {
      var i :| 0 <= i < |path| && path[i] == BACKSLASH;
      assert normalized[i] != path[i];
    }
    if !IsAbsolute(normalized) {
      assert |[SLASH] + normalized| != |path|;
    }
  }

  // A concrete path that does not come back: a backslash is a legal character of a Unix file name.
  lemma BackslashIsLost()
    ensures IsUtf8([SLASH, BACKSLASH]) && UriToPath(PathToUri([SLASH, BACKSLASH])) == Some([SLASH, SLASH])
  {
    assert [SLASH, BACKSLASH][1..] == [BACKSLASH];
    assert IsUtf8([BACKSLASH][1..]);
    UriRoundTrip([SLASH, BACKSLASH]);
    assert Normalize([SLASH, BACKSLASH]) == [SLASH, SLASH];
  }
}
