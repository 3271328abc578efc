/**
 The visitor cookie in response headers and in its file (src-tauri/src/baidu_tongji.rs).

 A header is its text, or None where the value is not visible ASCII.
 */
module HmacCookie {
  import opened Wrappers
  import opened Text

  const MAX_HMAC_COUNT_BYTES: nat := 128
  const COOKIE_NAME := "HMACCOUNT"

  type Cookie = Option<string>

  predicate IsAlphanumeric(c: char) {
    'a' <= c <= 'z' || 'A' <= c <= 'Z' || '0' <= c <= '9'
  }

  predicate ValidHmacCount(value: string) {
    && 0 < |value| <= MAX_HMAC_COUNT_BYTES
    && forall i :: 0 <= i < |value| ==> IsAlphanumeric(value[i]) || value[i] in {'-', '_', '.'}
  }

  predicate ValidCookie(c: Cookie) {
    c.Some? ==> ValidHmacCount(c.value)
  }

  // ---- splitting: str::split and str::split_once on one character ----

  function Split(s: string, separator: char): (parts: seq<string>)
    ensures parts != []
  {
    if s == "" then [""]
    else
      var rest := Split(s[1..], separator);
      if s[0] == separator then [""] + rest else [[s[0]] + rest[0]] + rest[1..]
  }

  function JoinWith(parts: seq<string>, separator: char): string
    requires parts != []
  {
    if |parts| == 1 then parts[0] else parts[0] + [separator] + JoinWith(parts[1..], separator)
  }

  // Splitting cuts at every separator and nowhere else: the parts hold none, and joining them with it
  // gives the text back.
  lemma {:induction false} SplitIsExact(s: string, separator: char)
    ensures JoinWith(Split(s, separator), separator) == s
    ensures forall p :: p in Split(s, separator) ==> separator !in p
  {
    if s != "" {
      SplitIsExact(s[1..], separator);
      var rest := Split(s[1..], separator);
      if s[0] != separator {
        FirstPartGrows(rest, s[0], separator);
      }
    }
  }

  lemma FirstPartGrows(rest: seq<string>, c: char, separator: char)
    requires rest != []
    ensures var grown := [[c] + rest[0]] + rest[1..];
            JoinWith(grown, separator) == [c] + JoinWith(rest, separator)
  {
    var grown := [[c] + rest[0]] + rest[1..];
    if |rest| > 1 {
      assert grown[1..] == rest[1..];
    }
  }

  function SplitOnce(s: string, separator: char): Option<(string, string)> {
    if s == "" then None
    else if s[0] == separator then Some(("", s[1..]))
    else
      match SplitOnce(s[1..], separator)
      case None => None
      case Some((name, value)) => Some(([s[0]] + name, value))
  }

  // It cuts at the first separator, if there is one.
  lemma {:induction false} SplitOnceIsExact(s: string, separator: char)
    ensures SplitOnce(s, separator) == None <==> separator !in s
    ensures match SplitOnce(s, separator)
            case None => true
            case Some((name, value)) => s == name + [separator] + value && separator !in name
  {
    if s != "" {
      SplitOnceIsExact(s[1..], separator);
      assert s == [s[0]] + s[1..];
    }
  }

  // ---- extract_hmac_count ----

  function AsciiUpper(c: char): char {
    if 'a' <= c <= 'z' then (c as nat - 32) as char else c
  }

  predicate EqIgnoreAsciiCase(a: string, b: string) {
    |a| == |b| && forall i :: 0 <= i < |a| ==> AsciiUpper(a[i]) == AsciiUpper(b[i])
  }

  // The cookie one part of a header sets, if it is the visitor cookie and well formed.
  function HmacOf(part: string): Cookie {
    match SplitOnce(Trim(part), '=')
    case None => None
    case Some((name, value)) =>
      if EqIgnoreAsciiCase(name, COOKIE_NAME) && ValidHmacCount(value) then Some(value) else None
  }

  // Split at semicolons, then each part at commas.
  function PartsOf(pieces: seq<string>): seq<string> {
    if pieces == [] then [] else Split(pieces[0], ',') + PartsOf(pieces[1..])
  }

  function HeaderParts(headers: seq<Option<string>>): seq<string> {
    if headers == [] then []
    else (if headers[0].Some? then PartsOf(Split(headers[0].value, ';')) else []) + HeaderParts(headers[1..])
  }

  function FirstHmac(parts: seq<string>): Cookie {
    if parts == [] then None
    else if HmacOf(parts[0]).Some? then HmacOf(parts[0])
    else FirstHmac(parts[1..])
  }

  lemma {:induction false} FirstHmacOfConcat(a: seq<string>, b: seq<string>)
    ensures FirstHmac(a + b) == if FirstHmac(a).Some? then FirstHmac(a) else FirstHmac(b)
  {
    if a == [] {
      assert a + b == b;
    } else {
      assert (a + b)[1..] == a[1..] + b;
      FirstHmacOfConcat(a[1..], b);
    }
  }

  // The loops of extract_hmac_count.
  method ExtractHmacCount(headers: seq<Option<string>>) returns (cookie: Cookie)
    ensures cookie == FirstHmac(HeaderParts(headers))
  {
    var left := headers;
    while left != []
      invariant FirstHmac(HeaderParts(left)) == FirstHmac(HeaderParts(headers))
      decreases |left|
    {
      if left[0].Some? {
        var parts := PartsOf(Split(left[0].value, ';'));
        FirstHmacOfConcat(parts, HeaderParts(left[1..]));
        var found := SearchParts(parts);
        if found.Some? {
          return found;
        }
      } else {
        assert [] + HeaderParts(left[1..]) == HeaderParts(left[1..]);
      }
      left := left[1..];
    }
    cookie := None;
  }

  method SearchParts(parts: seq<string>) returns (cookie: Cookie)
    ensures cookie == FirstHmac(parts)
  {
    for i := 0 to |parts|
      invariant FirstHmac(parts[i..]) == FirstHmac(parts)
    {
      assert parts[i..][1..] == parts[i + 1..];
      var split := SplitOnce(Trim(parts[i]), '=');
      if split.None? {
        continue;
      }
      var (name, value) := split.value;
      if EqIgnoreAsciiCase(name, COOKIE_NAME) && ValidHmacCount(value) {
        return Some(value);
      }
    }
    cookie := None;
  }

  // What is extracted is the value of the first part that sets a well-formed visitor cookie, and
  // nothing is extracted if and only if no part does.
  lemma {:induction false} ExtractedIsFirstValid(parts: seq<string>) returns (k: nat)
    ensures FirstHmac(parts) == None <==> k == |parts|
    ensures k <= |parts| && forall i :: 0 <= i < k ==> HmacOf(parts[i]) == None
    ensures k < |parts| ==> FirstHmac(parts) == HmacOf(parts[k]) && HmacOf(parts[k]).Some?
    ensures ValidCookie(FirstHmac(parts))
  {
    if parts == [] || HmacOf(parts[0]).Some? {
      k := 0;
    } else {
      k := ExtractedIsFirstValid(parts[1..]);
      k := k + 1;
    }
  }

  // ---- the stored cookie ----

  // The file may be missing, hold something else, or hold a record with or without a value.
  datatype StoredFile = Missing | Unreadable | Record(hmacCount: Option<string>)

  // load_visitor_cookie: a record that is not valid is moved aside, as if it had been missing.
  function LoadVisitorCookie(file: StoredFile): (cookie: Cookie)
    ensures ValidCookie(cookie)
    ensures cookie.Some? <==> file.Record? && file.hmacCount.Some? && ValidHmacCount(file.hmacCount.value)
    ensures cookie.Some? ==> cookie == file.hmacCount
  {
    match file
    case Record(Some(value)) => if ValidHmacCount(value) then Some(value) else None
    case _ => None
  }

  // ---- which headers set the cookie ----

  // A well-formed value: 1 to 128 ASCII letters, digits, hyphens, underscores and full stops.
  lemma ValidExactly(value: string)
    ensures ValidHmacCount(value)
            <==> 1 <= |value| <= 128 && forall i :: 0 <= i < |value| ==>
                   var n := value[i] as int; 48 <= n <= 57 || 65 <= n <= 90 || 97 <= n <= 122 || n in {45, 46, 95}
  {
    forall i | 0 <= i < |value|
      ensures var n := value[i] as int;
              IsAlphanumeric(value[i]) || value[i] in {'-', '_', '.'}
              <==> 48 <= n <= 57 || 65 <= n <= 90 || 97 <= n <= 122 || n in {45, 46, 95}
    {
    }
  }

  // The cookie's name in any case.
  ghost predicate IsName(name: string) {
    |name| == 9 && forall i :: 0 <= i < 9 ==> name[i] == "HMACCOUNT"[i] || name[i] == "hmaccount"[i]
  }

  lemma NameIff(name: string)
    ensures EqIgnoreAsciiCase(name, COOKIE_NAME) <==> IsName(name)
  {
    var lower := "hmaccount";
    forall i | 0 <= i < 9 && i < |name|
      ensures AsciiUpper(name[i]) == AsciiUpper(COOKIE_NAME[i]) <==> name[i] == COOKIE_NAME[i] || name[i] == lower[i]
    {
      assert i in {0, 1, 2, 3, 4, 5, 6, 7, 8};
    }
  }

  lemma {:induction false} CutAtFirst(name: string, separator: char, value: string)
    requires separator !in name
    ensures SplitOnce(name + [separator] + value, separator) == Some((name, value))
  {
    var s := name + [separator] + value;
    if name != "" {
      assert s[1..] == name[1..] + [separator] + value;
      CutAtFirst(name[1..], separator, value);
      assert [name[0]] + name[1..] == name;
    } else {
      assert s[1..] == value;
    }
  }

  // A part written like this sets the cookie to this value,
  lemma PartSetsCookie(left: string, name: string, value: string, right: string)
    requires IsBlank(left) && IsBlank(right) && IsName(name) && ValidHmacCount(value)
    ensures HmacOf(left + (name + "=" + value) + right) == Some(value)
  {
    NameEnds(name, value);
    TrimExactly(left, name + "=" + value, right);
    NoEquals(name);
    CutAtFirst(name, '=', value);
    assert name + ['='] + value == name + "=" + value;
    NameIff(name);
  }

  lemma NameEnds(name: string, value: string)
    requires IsName(name) && ValidHmacCount(value)
    ensures !IsWhitespace((name + "=" + value)[0]) && !IsWhitespace((name + "=" + value)[|name| + |value|])
  {
    var s := name + "=" + value;
    assert s[0] == name[0] && s[|s| - 1] == value[|value| - 1];
    assert IsAlphanumeric(value[|value| - 1]) || value[|value| - 1] in {'-', '_', '.'};
  }

  lemma NoEquals(name: string)
    requires IsName(name)
    ensures '=' !in name
  {
    var upper, lower := "HMACCOUNT", "hmaccount";
    forall i | 0 <= i < 9 ensures upper[i] != '=' && lower[i] != '=' {
      assert i in {0, 1, 2, 3, 4, 5, 6, 7, 8};
    }
  }

  // and no other part sets it.
  lemma OnlyPartSetsCookie(part: string) returns (left: string, name: string, right: string)
    requires HmacOf(part).Some?
    ensures IsBlank(left) && IsBlank(right) && IsName(name) && ValidHmacCount(HmacOf(part).value)
    ensures part == left + (name + "=" + HmacOf(part).value) + right
  {
    var before, after := TrimCutsBothEnds(part);
    left, right := part[..before], part[|part| - after..];
    SplitOnceIsExact(Trim(part), '=');
    name := SplitOnce(Trim(part), '=').value.0;
    NameIff(name);
    assert part == left + Trim(part) + right;
  }

  // ---- which parts the headers have ----

  lemma {:induction false} SplitAtSeparator(a: string, separator: char, b: string)
    ensures Split(a + [separator] + b, separator) == Split(a, separator) + Split(b, separator)
  {
    var s := a + [separator] + b;
    if a != "" {
      assert s[1..] == a[1..] + [separator] + b;
      SplitAtSeparator(a[1..], separator, b);
    } else {
      assert s[1..] == b;
    }
  }

  // Two lists of pieces, the last of one run together with the first of the other.
  function Joint(p: seq<string>, q: seq<string>): seq<string>
    requires p != [] && q != []
  {
    p[..|p| - 1] + [p[|p| - 1] + q[0]] + q[1..]
  }

  lemma JointBehind(piece: string, p: seq<string>, q: seq<string>)
    requires p != [] && q != []
    ensures Joint([piece] + p, q) == [piece] + Joint(p, q)
  {
    assert ([piece] + p)[..|p|] == [piece] + p[..|p| - 1];
  }

  lemma JointGrown(c: char, p: seq<string>, q: seq<string>)
    requires p != [] && q != []
    ensures var j := Joint(p, q); Joint([[c] + p[0]] + p[1..], q) == [[c] + j[0]] + j[1..]
  {
    if |p| == 1 {
      assert [c] + p[0] + q[0] == [c] + (p[0] + q[0]);
    } else {
      assert p == [p[0]] + p[1..];
      JointBehind(p[0], p[1..], q);
      JointBehind([c] + p[0], p[1..], q);
    }
  }

  lemma {:induction false} SplitBetween(a: string, separator: char, b: string)
    ensures Split(a + b, separator) == Joint(Split(a, separator), Split(b, separator))
  {
    if a == "" {
      assert a + b == b;
      var q := Split(b, separator);
      assert "" + q[0] == q[0] && [q[0]] + q[1..] == q;
    } else {
      assert (a + b)[1..] == a[1..] + b;
      SplitBetween(a[1..], separator, b);
      JointBehind("", Split(a[1..], separator), Split(b, separator));
      JointGrown(a[0], Split(a[1..], separator), Split(b, separator));
    }
  }

  lemma {:induction false} PartsConcat(p: seq<string>, q: seq<string>)
    ensures PartsOf(p + q) == PartsOf(p) + PartsOf(q)
  {
    if p == [] {
      assert p + q == q;
    } else {
      assert (p + q)[1..] == p[1..] + q;
      PartsConcat(p[1..], q);
    }
  }

  lemma OnePart(piece: string)
    ensures PartsOf([piece]) == Split(piece, ',')
  {
    assert [piece][1..] == [];
  }

  // A comma is no place to cut at semicolons.
  lemma CommaStays(b: string)
    ensures var q := Split(b, ';'); Split("," + b, ';') == ["," + q[0]] + q[1..]
  {
    assert ("," + b)[1..] == b;
  }

  lemma PartsAtComma(a: string, b: string)
    ensures PartsOf(Split(a + "," + b, ';')) == PartsOf(Split(a, ';')) + PartsOf(Split(b, ';'))
  {
    var p, q := Split(a, ';'), Split(b, ';');
    CommaStays(b);
    SplitBetween(a, ';', "," + b);
    assert a + "," + b == a + ("," + b);
    PartsAround(p, q);
    assert (["," + q[0]] + q[1..])[1..] == q[1..];
  }

  lemma PartsAround(p: seq<string>, q: seq<string>)
    requires p != [] && q != []
    ensures PartsOf(Joint(p, ["," + q[0]] + q[1..])) == PartsOf(p) + PartsOf(q)
  {
    var front, last, rest := p[..|p| - 1], p[|p| - 1], q[1..];
    var middle := last + ("," + q[0]);
    assert Joint(p, ["," + q[0]] + rest) == front + [middle] + rest;
    MiddleParts(front, middle, rest);
    assert middle == last + [','] + q[0];
    SplitAtSeparator(last, ',', q[0]);
    PartsConcat(front, [last]);
    OnePart(last);
    assert p == front + [last];
    Regroup(PartsOf(front), Split(last, ','), Split(q[0], ','), PartsOf(rest));
  }

  lemma MiddleParts(front: seq<string>, middle: string, rest: seq<string>)
    ensures PartsOf(front + [middle] + rest) == PartsOf(front) + Split(middle, ',') + PartsOf(rest)
  {
    PartsConcat(front + [middle], rest);
    PartsConcat(front, [middle]);
    OnePart(middle);
  }

  lemma Regroup(a: seq<string>, b: seq<string>, c: seq<string>, d: seq<string>)
    ensures a + (b + c) + d == a + b + (c + d)
  {
  }

  // The parts of the headers: every readable header is cut at each semicolon and each comma, and nowhere
  // else.
  lemma PartsExact(a: string, separator: char, b: string, h: string)
    requires separator in {';', ','} && ';' !in h && ',' !in h
    ensures HeaderParts([Some(a + [separator] + b)]) == HeaderParts([Some(a)]) + HeaderParts([Some(b)])
    ensures HeaderParts([Some(h)]) == [h]
  {
    OneHeader(a + [separator] + b);
    OneHeader(a);
    OneHeader(b);
    OneHeader(h);
    if separator == ';' {
      SplitAtSeparator(a, ';', b);
      PartsConcat(Split(a, ';'), Split(b, ';'));
    } else {
      assert a + [separator] + b == a + "," + b;
      PartsAtComma(a, b);
    }
    NothingToCut(h, ';');
    NothingToCut(h, ',');
    OnePart(h);
  }

  lemma OneHeader(h: string)
    ensures HeaderParts([Some(h)]) == PartsOf(Split(h, ';'))
  {
    assert [Some(h)][1..] == [];
    assert HeaderParts([Some(h)][1..]) == [];
  }

  lemma {:induction false} NothingToCut(h: string, separator: char)
    requires separator !in h
    ensures Split(h, separator) == [h]
  {
    if h != "" {
      NothingToCut(h[1..], separator);
      assert [h[0]] + h[1..] == h;
    }
  }

  lemma {:induction false} HeadersConcat(a: seq<Option<string>>, b: seq<Option<string>>)
    ensures HeaderParts(a + b) == HeaderParts(a) + HeaderParts(b)
    ensures HeaderParts([None]) == []
  {
    if a == [] {
      assert a + b == b;
    } else {
      assert (a + b)[1..] == a[1..] + b;
      HeadersConcat(a[1..], b);
    }
    var unreadable: seq<Option<string>> := [None];
    assert unreadable[1..] == [];
  }
}
