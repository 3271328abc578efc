/**
 A JSONL file that ends inside a line when it is read (src-tauri/src/backend_budget.rs).

 The cursor then lies inside the line, and the next read takes the rest of it for a line of its own. A
 line is skipped when it holds Unicode white space only; a JSON parser skips less than that.
 */
module JsonlCutLine {
  import opened Wrappers
  import opened Text
  import opened JsonlCursor

  // ---- lines ----

  // The text of a line, and whether it is skipped.
  function TextOf(line: seq<Byte>): Option<string> {
    Decode(StripLineEnd(line))
  }

  predicate IsBlank(line: seq<Byte>) {
    TextOf(line).Some? && Trim(TextOf(line).value) == ""
  }

  // The rest of a line: up to its line feed with anything behind it, or up to the end of the file.
  predicate EndsLine(piece: seq<Byte>, rest: seq<Byte>) {
    piece != [] && LF !in piece[..|piece| - 1] && (piece[|piece| - 1] == LF || rest == [])
  }

  lemma EndsLineLength(piece: seq<Byte>, rest: seq<Byte>)
    requires EndsLine(piece, rest)
    ensures LineLength(piece + rest) == |piece|
  {
    if piece[|piece| - 1] == LF {
      LineLengthAt(piece, rest);
    } else {
      assert piece + rest == piece;
      assert LF !in piece by { assert piece == piece[..|piece| - 1] + [piece[|piece| - 1]]; }
      LastLineLength(piece);
    }
  }

  // The records of one line.
  function LineRecords<T>(line: seq<Byte>, parse: string -> Option<T>): Result<seq<T>, ReadError> {
    match ParseLine(line, parse)
    case Bad(e) => Err(e)
    case Blank => Ok([])
    case Record(r) => Ok([r])
  }

  function TextRecords<T>(text: string, parse: string -> Option<T>): Result<seq<T>, ReadError> {
    if Trim(text) == "" then Ok([])
    else match parse(text) case Some(r) => Ok([r]) case None => Err(LineNotJson)
  }

  lemma LineThenRest<T>(content: seq<Byte>, line: seq<Byte>, rest: seq<Byte>, parse: string -> Option<T>)
    requires content == line + rest && EndsLine(line, rest)
    ensures Records(content, parse)
         == match LineRecords(line, parse)
            case Ok(records) => Prepend(records, Records(rest, parse))
            case Err(e) => Err(e)
  {
    EndsLineLength(line, rest);
    FirstLine(content, parse);
    assert content[..|line|] == line && content[|line|..] == rest;
    PrependNothing(Records(rest, parse));
  }

  lemma TailAndPieceAreLine(tail: seq<Byte>, piece: seq<Byte>, rest: seq<Byte>)
    requires tail != [] && LF !in tail && EndsLine(piece, rest)
    ensures EndsLine(tail, []) && EndsLine(tail + piece, rest)
  {
    var line := tail + piece;
    assert line[|line| - 1] == piece[|piece| - 1];
    assert line[..|line| - 1] == tail + piece[..|piece| - 1];
    assert LF !in tail[..|tail| - 1];
  }

  // ---- texts ----

  // A text in front of one that may not decode.
  function Then(front: string, rest: Option<string>): Option<string> {
    match rest case Some(t) => Some(front + t) case None => None
  }

  lemma ThenTwice(a: string, b: string, rest: Option<string>)
    ensures Then(a, Then(b, rest)) == Then(a + b, rest)
  {
    if rest.Some? { assert a + (b + rest.value) == a + b + rest.value; }
  }

  lemma DecodeStep(s: seq<Byte>, c: char, n: nat)
    requires s != [] && n <= |s| && DecodeFirst(s) == Some((c, n))
    ensures Decode(s) == Then([c], Decode(s[n..]))
  {
  }

  lemma {:induction false} DecodeSplits(a: seq<Byte>, b: seq<Byte>)
    requires IsUtf8(a)
    ensures Decode(a + b) == Then(Decode(a).value, Decode(b))
  {
    if a == [] {
      assert a + b == b;
      if Decode(b).Some? { assert [] + Decode(b).value == Decode(b).value; }
    } else {
      var (c, n) := DecodeFirst(a).value;
      DecodeSplits(a[n..], b);
      DecodeFirstOfSum(a, b);
      assert (a + b)[n..] == a[n..] + b;
      SameFirst(a, a + b, c, n, Decode(b));
    }
  }

  // Texts with the same first character differ as what comes after it does.
  lemma {:induction false} SameFirst(a: seq<Byte>, s: seq<Byte>, c: char, n: nat, added: Option<string>)
    requires a != [] && s != [] && n <= |a| && n <= |s| && IsUtf8(a)
    requires DecodeFirst(a) == Some((c, n)) && DecodeFirst(s) == Some((c, n))
    requires IsUtf8(a[n..]) && Decode(s[n..]) == Then(Decode(a[n..]).value, added)
    ensures Decode(s) == Then(Decode(a).value, added)
  {
    DecodeStep(a, c, n);
    DecodeStep(s, c, n);
    ThenTwice([c], Decode(a[n..]).value, added);
  }

  lemma DecodeFirstOfSum(a: seq<Byte>, b: seq<Byte>)
    requires a != [] && DecodeFirst(a).Some?
    ensures DecodeFirst(a + b) == DecodeFirst(a)
  {
    var s := a + b;
    assert s[0] == a[0];
    assert forall i :: 0 <= i < |a| ==> s[i] == a[i];
  }

  // The text of the whole line is that of its two parts, but for a carriage return the line feed takes
  // along.
  lemma TextOfJoined(tail: seq<Byte>, piece: seq<Byte>)
    requires LF !in tail && tail != [] && piece != [] && TextOf(tail).Some? && TextOf(piece).Some?
    ensures TextOf(tail + piece).Some?
    ensures var a, p, f := TextOf(tail).value, TextOf(piece).value, TextOf(tail + piece).value;
            f == a + p || (p == "" && a == f + "\r")
  {
    var line := tail + piece;
    assert line[|line| - 1] == piece[|piece| - 1];
    assert tail[|tail| - 1] in tail;
    assert StripLineEnd(tail) == tail;
    if piece == [LF] && tail[|tail| - 1] == 13 {
      var front := tail[..|tail| - 1];
      assert line[..|line| - 1] == tail && StripLineEnd(line) == front;
      CarriageReturnLast(tail);
    } else {
      JoinedBody(tail, piece);
      DecodeSplits(tail, StripLineEnd(piece));
    }
  }

  lemma JoinedBody(tail: seq<Byte>, piece: seq<Byte>)
    requires tail != [] && piece != [] && !(piece == [LF] && tail[|tail| - 1] == 13)
    ensures StripLineEnd(tail + piece) == tail + StripLineEnd(piece)
  {
    var line := tail + piece;
    assert line[|line| - 1] == piece[|piece| - 1];
    if piece[|piece| - 1] == LF {
      var body := piece[..|piece| - 1];
      assert line[..|line| - 1] == tail + body;
      if body == [] {
        assert tail + body == tail;
      } else {
        assert (tail + body)[|tail + body| - 1] == body[|body| - 1];
        assert (tail + body)[..|tail + body| - 1] == tail + body[..|body| - 1];
      }
    }
  }

  lemma CarriageReturnLast(s: seq<Byte>)
    requires s != [] && s[|s| - 1] == 13 && IsUtf8(s)
    ensures IsUtf8(s[..|s| - 1]) && Decode(s).value == Decode(s[..|s| - 1]).value + "\r"
  {
    var front := s[..|s| - 1];
    FrontIsUtf8(s);
    assert s == front + [13] && AsciiBytes("\r") == [13];
    DecodeAscii("\r");
    DecodeSplits(front, [13]);
  }

  lemma {:induction false} FrontIsUtf8(s: seq<Byte>)
    requires s != [] && s[|s| - 1] == 13 && IsUtf8(s)
    ensures IsUtf8(s[..|s| - 1])
  {
    if |s| > 1 {
      var n := DecodeFirst(s).value.1;
      FirstBeforeReturn(s);
      FrontIsUtf8(s[n..]);
      assert s[n..][..|s[n..]| - 1] == s[..|s| - 1][n..];
      assert s[..|s| - 1] + [13] == s;
      DecodeFirstOfSum(s[..|s| - 1], [13]);
    }
  }

  // A carriage return is no continuation byte, so the first character ends before it.
  lemma FirstBeforeReturn(s: seq<Byte>)
    requires |s| > 1 && s[|s| - 1] == 13 && DecodeFirst(s).Some?
    ensures DecodeFirst(s).value.1 < |s| && DecodeFirst(s[..|s| - 1]).Some?
  {
    var front := s[..|s| - 1];
    assert forall i :: 0 <= i < |front| ==> front[i] == s[i];
    assert !Continues(s, |s| - 1);
  }

  lemma BlankAround(a: string, p: string)
    requires Trim(a) == "" && Trim(p) == ""
    ensures Trim(a + p) == ""
  {
    AllWhite(a);
    AllWhite(p);
    WhiteIsBlank(a + p);
  }

  lemma AllWhite(s: string)
    requires Trim(s) == ""
    ensures forall i :: 0 <= i < |s| ==> IsWhitespace(s[i])
  {
    var before, after := TrimCutsBothEnds(s);
  }

  lemma {:induction false} WhiteIsBlank(s: string)
    requires forall i :: 0 <= i < |s| ==> IsWhitespace(s[i])
    ensures Trim(s) == ""
  {
    if s != "" {
      WhiteIsBlank(s[1..]);
    }
  }

  lemma BlankNeedsBoth(a: string, p: string)
    requires Trim(a + p) == ""
    ensures Trim(a) == "" && Trim(p) == ""
  {
    AllWhite(a + p);
    assert forall i :: 0 <= i < |a| ==> (a + p)[i] == a[i];
    assert forall i :: 0 <= i < |p| ==> (a + p)[|a| + i] == p[i];
    WhiteIsBlank(a);
    WhiteIsBlank(p);
  }

  // ---- what the parser makes of blanks ----

  predicate IsJsonBlank(c: char) {
    c == ' ' || c == '\t' || c == '\r' || c == '\n'
  }

  predicate JsonBlanks(s: string) {
    forall i :: 0 <= i < |s| ==> IsJsonBlank(s[i])
  }

  // White space that is not JSON's.
  predicate IsOtherBlank(c: char) {
    IsWhitespace(c) && !IsJsonBlank(c)
  }

  // As a JSON parser does: blanks around a text are skipped, and other white space at either end of it
  // is an error.
  ghost predicate ReadsLikeJson<T(!new)>(parse: string -> Option<T>) {
    && (forall a, s, b :: JsonBlanks(a) && JsonBlanks(b) ==> parse(a + s + b) == parse(s))
    && (forall s :: s != "" && (IsOtherBlank(s[0]) || IsOtherBlank(s[|s| - 1])) ==> parse(s) == None)
  }

  lemma JsonBlanksAreBlank(s: string)
    requires JsonBlanks(s)
    ensures Trim(s) == ""
  {
    WhiteIsBlank(s);
  }

  lemma {:induction false} FirstOther(s: string) returns (n: nat)
    requires !JsonBlanks(s)
    ensures n < |s| && JsonBlanks(s[..n]) && !IsJsonBlank(s[n])
  {
    if !IsJsonBlank(s[0]) {
      n := 0;
    } else {
      n := FirstOther(s[1..]);
      n := n + 1;
      assert forall i :: 1 <= i < n ==> s[..n][i] == s[1..][..n - 1][i - 1];
    }
  }

  lemma {:induction false} LastOther(s: string) returns (n: nat)
    requires !JsonBlanks(s)
    ensures n < |s| && JsonBlanks(s[n + 1..]) && !IsJsonBlank(s[n])
  {
    var last := |s| - 1;
    if !IsJsonBlank(s[last]) {
      n := last;
    } else {
      n := LastOther(s[..last]);
      assert s[n + 1..] == s[..last][n + 1..] + [s[last]];
    }
  }

  // A blank in front of a text is skipped if it is JSON's, and an error otherwise.
  lemma BlankInFront<T(!new)>(a: string, p: string, parse: string -> Option<T>)
    requires ReadsLikeJson(parse) && Trim(a) == ""
    ensures parse(a + p) == if JsonBlanks(a) then parse(p) else None
  {
    if JsonBlanks(a) {
      assert a + p + "" == a + p;
    } else {
      var n := FirstOther(a);
      AllWhite(a);
      var s := a[n..] + p;
      assert a + p == a[..n] + s + "" && s[0] == a[n];
      assert parse(s) == None;
    }
  }

  lemma BlankBehind<T(!new)>(a: string, p: string, parse: string -> Option<T>)
    requires ReadsLikeJson(parse) && Trim(p) == ""
    ensures parse(a + p) == if JsonBlanks(p) then parse(a) else None
  {
    if JsonBlanks(p) {
      assert "" + a + p == a + p;
    } else {
      var n := LastOther(p);
      AllWhite(p);
      var s := a + p[..n + 1];
      assert a + p == "" + s + p[n + 1..] && s[|s| - 1] == p[n];
      assert parse(s) == None;
    }
  }

  // ---- a line and its two parts ----

  // The two texts yield what they yield as one if and only if both are blank, or one is JSON blanks.
  lemma PartsOfText<T(!new)>(a: string, p: string, parse: string -> Option<T>)
    requires ReadsLikeJson(parse) && TextRecords(a, parse).Ok? && TextRecords(p, parse).Ok?
    ensures TextRecords(a + p, parse) == Ok(TextRecords(a, parse).value + TextRecords(p, parse).value)
            <==> (Trim(a) == "" && Trim(p) == "") || JsonBlanks(a) || JsonBlanks(p)
  {
    if JsonBlanks(a) { JsonBlanksAreBlank(a); }
    if JsonBlanks(p) { JsonBlanksAreBlank(p); }
    if Trim(a + p) == "" { BlankNeedsBoth(a, p); }
    if Trim(a) == "" && Trim(p) == "" {
      BlankAround(a, p);
    } else if Trim(a) == "" {
      BlankInFront(a, p, parse);
      assert [] + TextRecords(p, parse).value == TextRecords(p, parse).value;
    } else if Trim(p) == "" {
      BlankBehind(a, p, parse);
      assert TextRecords(a, parse).value + [] == TextRecords(a, parse).value;
    } else {
      assert |TextRecords(a, parse).value + TextRecords(p, parse).value| == 2;
    }
  }

  // The carriage return before a line feed belongs to the line end only when both arrive together.
  lemma ReturnChangesNothing<T(!new)>(f: string, parse: string -> Option<T>)
    requires ReadsLikeJson(parse)
    ensures TextRecords(f + "\r", parse) == TextRecords(f, parse)
  {
    JsonBlanksAreBlank("\r");
    BlankBehind(f, "\r", parse);
    if Trim(f + "\r") == "" { BlankNeedsBoth(f, "\r"); }
    if Trim(f) == "" { BlankAround(f, "\r"); }
  }

  // Nothing but JSON blanks.
  predicate IsJsonBlankLine(line: seq<Byte>) {
    TextOf(line).Some? && JsonBlanks(TextOf(line).value)
  }

  // Both parts are blank, or one is nothing but JSON blanks.
  predicate HarmlessCut(tail: seq<Byte>, piece: seq<Byte>) {
    (IsBlank(tail) && IsBlank(piece)) || IsJsonBlankLine(tail) || IsJsonBlankLine(piece)
  }

  lemma LineIsText<T>(line: seq<Byte>, parse: string -> Option<T>)
    ensures LineRecords(line, parse)
         == match TextOf(line) case Some(text) => TextRecords(text, parse) case None => Err(LineNotUtf8)
  {
  }

  lemma PartsOfLine<T(!new)>(tail: seq<Byte>, piece: seq<Byte>, parse: string -> Option<T>)
    requires LF !in tail && tail != [] && piece != [] && ReadsLikeJson(parse)
    requires LineRecords(tail, parse).Ok? && LineRecords(piece, parse).Ok?
    ensures LineRecords(tail + piece, parse) == Ok(LineRecords(tail, parse).value + LineRecords(piece, parse).value)
            <==> HarmlessCut(tail, piece)
  {
    LineIsText(tail, parse);
    LineIsText(piece, parse);
    LineIsText(tail + piece, parse);
    TextOfJoined(tail, piece);
    var a, p, f := TextOf(tail).value, TextOf(piece).value, TextOf(tail + piece).value;
    if f == a + p {
      PartsOfText(a, p, parse);
    } else {
      ReturnChangesNothing(f, parse);
      assert Trim("") == "" && TextRecords(f, parse).value + [] == TextRecords(f, parse).value;
    }
  }

  // A line both parts of which hold a record holds at most one.
  lemma TwoForOne<T>(tail: seq<Byte>, piece: seq<Byte>, parse: string -> Option<T>)
    requires !IsBlank(tail) && !IsBlank(piece)
    requires LineRecords(tail, parse).Ok? && LineRecords(piece, parse).Ok? && LineRecords(tail + piece, parse).Ok?
    requires LF !in tail && tail != [] && piece != []
    ensures |LineRecords(tail, parse).value + LineRecords(piece, parse).value|
            == |LineRecords(tail + piece, parse).value| + 1
  {
    TextOfJoined(tail, piece);
    var a, p, f := TextOf(tail).value, TextOf(piece).value, TextOf(tail + piece).value;
    if Trim(f) == "" {
      if f == a + p { BlankNeedsBoth(a, p); }
      assert false;
    }
  }

  // ---- the file ----

  // The file `was` ends inside a line, in `tail`; `added` completes the line with `piece`.
  datatype Cut = Cut(head: seq<Byte>, tail: seq<Byte>, piece: seq<Byte>, rest: seq<Byte>)

  ghost predicate CutLine(was: seq<Byte>, added: seq<Byte>, c: Cut) {
    && was == c.head + c.tail && added == c.piece + c.rest
    && EndsAtLine(c.head) && c.tail != [] && LF !in c.tail && EndsLine(c.piece, c.rest)
  }

  // A file that ends inside a line is read, grows by the rest of that line and more, and is read again
  // from the cursor; both reads succeed. Together they are the full read if and only if both parts of
  // the line are blank or one of them is nothing but JSON blanks. Otherwise the full read fails, or
  // holds one record less where both parts hold one.
  lemma CursorInsideLineIff<T(!new)>(was: seq<Byte>, added: seq<Byte>, c: Cut, parse: string -> Option<T>)
    requires CutLine(was, added, c) && ReadsLikeJson(parse)
    requires Records(was, parse).Ok? && Records(added, parse).Ok?
    ensures var before, now := SnapshotOf(was, None, None), SnapshotOf(was + added, None, None);
            var first := ReadFrom(before, None, None, parse);
            var second := ReadFrom(now, Some(CursorAfter(before)), None, parse);
            && first.Ok? && second.Ok?
            && var both := first.value.records + second.value.records;
            && (Records(was + added, parse) == Ok(both) <==> HarmlessCut(c.tail, c.piece))
            && (!HarmlessCut(c.tail, c.piece) && Records(was + added, parse).Ok? ==>
                  |both| == |Records(was + added, parse).value| + 1)
  {
    TwoReads(was, added, parse);
    PartsAgainstFull(was, added, c, parse);
  }

  lemma PartsAgainstFull<T(!new)>(was: seq<Byte>, added: seq<Byte>, c: Cut, parse: string -> Option<T>)
    requires CutLine(was, added, c) && ReadsLikeJson(parse)
    requires Records(was, parse).Ok? && Records(added, parse).Ok?
    ensures var both := Records(was, parse).value + Records(added, parse).value;
            && (Records(was + added, parse) == Ok(both) <==> HarmlessCut(c.tail, c.piece))
            && (!HarmlessCut(c.tail, c.piece) && Records(was + added, parse).Ok? ==>
                  |both| == |Records(was + added, parse).value| + 1)
  {
    var line := c.tail + c.piece;
    PartsRead(was, added, c, parse);
    FullRead(was, added, c, parse);
    PartsOfLine(c.tail, c.piece, parse);
    if LineRecords(line, parse).Ok? {
      if !HarmlessCut(c.tail, c.piece) { HarmOfLine(c.tail, c.piece, parse); }
      SameAround(Records(c.head, parse).value, LineRecords(c.tail, parse).value, LineRecords(c.piece, parse).value,
                 LineRecords(line, parse).value, Records(c.rest, parse).value);
    }
  }

  lemma PartsRead<T>(was: seq<Byte>, added: seq<Byte>, c: Cut, parse: string -> Option<T>)
    requires CutLine(was, added, c) && Records(was, parse).Ok? && Records(added, parse).Ok?
    ensures Records(c.head, parse).Ok? && Records(c.rest, parse).Ok?
    ensures LineRecords(c.tail, parse).Ok? && LineRecords(c.piece, parse).Ok?
    ensures Records(was, parse).value == Records(c.head, parse).value + LineRecords(c.tail, parse).value + []
    ensures Records(added, parse).value == LineRecords(c.piece, parse).value + Records(c.rest, parse).value
  {
    SameBytes(was, added, c);
    TailAndPieceAreLine(c.tail, c.piece, c.rest);
    HeadLineRest(was, c.head, c.tail, [], parse);
    LineThenRest(added, c.piece, c.rest, parse);
  }

  lemma FullRead<T>(was: seq<Byte>, added: seq<Byte>, c: Cut, parse: string -> Option<T>)
    requires CutLine(was, added, c) && Records(c.head, parse).Ok? && Records(c.rest, parse).Ok?
    ensures Records(was + added, parse)
         == match LineRecords(c.tail + c.piece, parse)
            case Ok(records) => Ok(Records(c.head, parse).value + records + Records(c.rest, parse).value)
            case Err(e) => Err(e)
  {
    SameBytes(was, added, c);
    TailAndPieceAreLine(c.tail, c.piece, c.rest);
    HeadLineRest(was + added, c.head, c.tail + c.piece, c.rest, parse);
  }

  // A harmful cut of a line that can be read cuts between two records.
  lemma HarmOfLine<T(!new)>(tail: seq<Byte>, piece: seq<Byte>, parse: string -> Option<T>)
    requires LF !in tail && tail != [] && piece != [] && ReadsLikeJson(parse) && !HarmlessCut(tail, piece)
    requires LineRecords(tail, parse).Ok? && LineRecords(piece, parse).Ok? && LineRecords(tail + piece, parse).Ok?
    ensures |LineRecords(tail, parse).value + LineRecords(piece, parse).value|
            == |LineRecords(tail + piece, parse).value| + 1
  {
    if IsBlank(tail) || IsBlank(piece) {
      OneBlankPart(tail, piece, parse);
      assert false;
    }
    TwoForOne(tail, piece, parse);
  }

  // With one part blank, but not as JSON has it, and the other a record, the line cannot be read.
  lemma OneBlankPart<T(!new)>(tail: seq<Byte>, piece: seq<Byte>, parse: string -> Option<T>)
    requires LF !in tail && tail != [] && piece != [] && ReadsLikeJson(parse) && !HarmlessCut(tail, piece)
    requires LineRecords(tail, parse).Ok? && LineRecords(piece, parse).Ok? && (IsBlank(tail) || IsBlank(piece))
    ensures LineRecords(tail + piece, parse) == Err(LineNotJson)
  {
    LineIsText(tail + piece, parse);
    TextOfJoined(tail, piece);
    var a, p, f := TextOf(tail).value, TextOf(piece).value, TextOf(tail + piece).value;
    assert JsonBlanks("") && f == a + p;
    if Trim(f) == "" { BlankNeedsBoth(a, p); }
    if IsBlank(tail) { BlankInFront(a, p, parse); } else { BlankBehind(a, p, parse); }
  }

  lemma SameBytes(was: seq<Byte>, added: seq<Byte>, c: Cut)
    requires CutLine(was, added, c)
    ensures was == c.head + (c.tail + []) && was + added == c.head + (c.tail + c.piece + c.rest)
  {
  }

  lemma SameAround<T>(h: seq<T>, a: seq<T>, p: seq<T>, whole: seq<T>, r: seq<T>)
    ensures h + a + [] + (p + r) == h + whole + r <==> a + p == whole
    ensures |h + a + [] + (p + r)| - |h + whole + r| == |a + p| - |whole|
  {
    assert h + a + [] + (p + r) == h + (a + p) + r;
    if h + (a + p) + r == h + whole + r {
      assert |a + p| == |whole|;
      assert (h + (a + p) + r)[|h|..|h| + |whole|] == a + p && (h + whole + r)[|h|..|h| + |whole|] == whole;
    }
  }

  // The first read takes the file as it was, the second what lies behind the cursor.
  lemma TwoReads<T>(was: seq<Byte>, added: seq<Byte>, parse: string -> Option<T>)
    requires Records(was, parse).Ok? && Records(added, parse).Ok?
    ensures var before, now := SnapshotOf(was, None, None), SnapshotOf(was + added, None, None);
            && ReadFrom(before, None, None, parse)
                == Ok(Read(FullRescan, CursorAfter(before), Records(was, parse).value))
            && ReadFrom(now, Some(CursorAfter(before)), None, parse)
               == Ok(Read(AppendOnly, CursorAfter(now), Records(added, parse).value))
  {
    NoCursorIsFullRead(SnapshotOf(was, None, None), None, parse);
    assert From(was + added, |was|) == added;
    FittingRead(SnapshotOf(was + added, None, None), CursorAfter(SnapshotOf(was, None, None)), None, parse);
  }

  lemma HeadLineRest<T>(
      content: seq<Byte>, head: seq<Byte>, line: seq<Byte>, rest: seq<Byte>, parse: string -> Option<T>)
    requires content == head + (line + rest) && EndsAtLine(head) && EndsLine(line, rest)
    requires Records(rest, parse).Ok? && (Records(content, parse).Ok? || Records(head, parse).Ok?)
    ensures Records(head, parse).Ok?
    ensures Records(content, parse)
         == match LineRecords(line, parse)
            case Ok(records) => Ok(Records(head, parse).value + records + Records(rest, parse).value)
            case Err(e) => Err(e)
  {
    RecordsSplitAtLineEnd(head, line + rest, parse);
    LineThenRest(line + rest, line, rest, parse);
    if LineRecords(line, parse).Ok? && Records(head, parse).Ok? {
      Associative(Records(head, parse).value, LineRecords(line, parse).value, Records(rest, parse).value);
    }
  }

  lemma Associative<T>(a: seq<T>, b: seq<T>, c: seq<T>)
    ensures a + (b + c) == a + b + c
  {
  }

  // ---- two files ----

  // A cursor inside a line can split one record in two: "1" read first, "2" appended, where the whole
  // line reads 12.
  lemma CursorInsideLineSplits<T>(parse: string -> Option<T>)
    requires parse("1").Some? && parse("2").Some? && parse("12").Some?
    ensures var cursor := Cursor(1, 1, None, None);
            && ReadFrom(SnapshotOf([49], None, None), None, None, parse)
                == Ok(Read(FullRescan, cursor, [parse("1").value]))
            && ReadFrom(SnapshotOf([49, 50, LF], None, None), Some(cursor), None, parse)
               == Ok(Read(AppendOnly, Cursor(3, 3, None, None), [parse("2").value]))
            && Records([49, 50, LF], parse) == Ok([parse("12").value])
  {
    ShortLine([49], "1", parse);
    ShortLine([50, LF], "2", parse);
    ShortLine([49, 50, LF], "12", parse);
    NoCursorIsFullRead(SnapshotOf([49], None, None), None, parse);
    assert From([49, 50, LF], 1) == [50, LF];
    FittingRead(SnapshotOf([49, 50, LF], None, None), Cursor(1, 1, None, None), None, parse);
  }

  lemma ShortLine<T>(line: seq<Byte>, text: string, parse: string -> Option<T>)
    requires line != [] && IsAscii(text) && text != "" && !IsWhitespace(text[0]) && !IsWhitespace(text[|text| - 1])
    requires StripLineEnd(line) == AsciiBytes(text) && LineLength(line) == |line| && parse(text).Some?
    ensures Records(line, parse) == Ok([parse(text).value])
  {
    ShortLineParses(line, text, parse);
    FirstLine(line, parse);
    assert line[..|line|] == line && line[|line|..] == [];
    assert [parse(text).value] + [] == [parse(text).value];
  }

  lemma ShortLineParses<T>(line: seq<Byte>, text: string, parse: string -> Option<T>)
    requires IsAscii(text) && text != "" && !IsWhitespace(text[0]) && !IsWhitespace(text[|text| - 1])
    requires StripLineEnd(line) == AsciiBytes(text) && parse(text).Some?
    ensures ParseLine(line, parse) == Record(parse(text).value)
  {
    DecodeAscii(text);
    assert TrimStart(text) == text && TrimEnd(text) == text;
  }

  // The smallest file with a blank on one side of the cursor whose full read fails: a no-break space,
  // then "1". The two reads skip the blank and return the record.
  lemma NoBreakSpaceHidesFailure<T>(parse: string -> Option<T>)
    requires parse("1").Some? && parse("\U{A0}1") == None
    ensures ReadFrom(SnapshotOf([0xC2, 0xA0], None, None), None, None, parse)
         == Ok(Read(FullRescan, Cursor(2, 2, None, None), []))
    ensures ReadFrom(SnapshotOf([0xC2, 0xA0, 49, LF], None, None), Some(Cursor(2, 2, None, None)), None, parse)
         == Ok(Read(AppendOnly, Cursor(4, 4, None, None), [parse("1").value]))
    ensures Records([0xC2, 0xA0, 49, LF], parse) == Err(LineNotJson)
  {
    NoBreakSpaceLines(parse);
    ShortLine([49, LF], "1", parse);
    NoCursorIsFullRead(SnapshotOf([0xC2, 0xA0], None, None), None, parse);
    assert From([0xC2, 0xA0, 49, LF], 2) == [49, LF];
    FittingRead(SnapshotOf([0xC2, 0xA0, 49, LF], None, None), Cursor(2, 2, None, None), None, parse);
  }

  lemma NoBreakSpaceLines<T>(parse: string -> Option<T>)
    requires parse("\U{A0}1") == None
    ensures Records([0xC2, 0xA0], parse) == Ok([]) && Records([0xC2, 0xA0, 49, LF], parse) == Err(LineNotJson)
  {
    var blank, line: seq<Byte> := [0xC2, 0xA0], [0xC2, 0xA0, 49, LF];
    NoBreakSpaceTexts();
    LineIsText(blank, parse);
    LineIsText(line, parse);
    WhiteIsBlank("\U{A0}");
    assert "\U{A0}1"[1] == '1' && !IsWhitespace('1');
    if Trim("\U{A0}1") == "" {
      AllWhite("\U{A0}1");
      assert false;
    }
    assert blank[..1] == [0xC2] && line[..3] == [0xC2, 0xA0, 49];
    LineThenRest(blank, blank, [], parse);
    LineThenRest(line, line, [], parse);
  }

  lemma NoBreakSpaceTexts()
    ensures TextOf([0xC2, 0xA0]) == Some("\U{A0}") && TextOf([0xC2, 0xA0, 49, LF]) == Some("\U{A0}1")
  {
    var blank, body: seq<Byte> := [0xC2, 0xA0], [0xC2, 0xA0, 49];
    assert [0xC2, 0xA0, 49, LF][..3] == body;
    assert blank[2..] == [] && body[2..] == [49] && AsciiBytes("1") == [49];
    DecodeAscii("1");
    DecodeStep(blank, '\U{A0}', 2);
    DecodeStep(body, '\U{A0}', 2);
    assert "\U{A0}" + "1" == "\U{A0}1" && "\U{A0}" + "" == "\U{A0}";
  }
}
