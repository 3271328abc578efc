/**
 Content-Length framing of language-server messages (src-tauri/src/code_intel_lsp.rs), the "Base
 Protocol" of LSP 3.17. The JSON codec is a pair of functions on payload bytes.
 */
module LspFraming {
  import opened Wrappers
  import opened Text

  const CONTENT_LENGTH := "Content-Length:"

  datatype ReadError = HeaderNotUtf8 | EofInHeader | InvalidLength | MissingLength | PayloadTooShort | InvalidJson

  datatype Outcome<V> = Eof | Message(value: V, rest: seq<Byte>) | Failed(error: ReadError)

  // ---- writing: write_lsp_value ----

  const LENGTH_HEADER := "Content-Length: "

  function LengthLine(digits: string, ending: string): string {
    LENGTH_HEADER + digits + ending
  }

  predicate AllDigits(s: string) {
    s != "" && forall i :: 0 <= i < |s| ==> IsDigit(s[i])
  }

  predicate AllLineEnds(s: string) {
    forall i :: 0 <= i < |s| ==> s[i] == '\r' || s[i] == '\n'
  }

  lemma LengthLineAscii(digits: string, ending: string)
    requires AllDigits(digits) && AllLineEnds(ending)
    ensures IsAscii(LengthLine(digits, ending))
  {
    assert IsAscii(LENGTH_HEADER) && IsAscii(digits) && IsAscii(ending);
    AsciiConcat(LENGTH_HEADER, digits);
    AsciiConcat(LENGTH_HEADER + digits, ending);
  }

  // Header, blank line, payload.
  function Frame(payload: seq<Byte>): seq<Byte> {
    LengthLineAscii(Print(|payload|), "\r\n");
    AsciiBytes(LengthLine(Print(|payload|), "\r\n")) + AsciiBytes("\r\n") + payload
  }

  // A frame is this text's bytes, and the payload.
  function HeaderText(n: nat): string {
    "Content-Length: " + Print(n) + "\r\n\r\n"
  }

  lemma FrameIsText(payload: seq<Byte>)
    ensures Frame(payload) == Encode(HeaderText(|payload|)) + payload
  {
    var text := LengthLine(Print(|payload|), "\r\n");
    LengthLineAscii(Print(|payload|), "\r\n");
    TwoLineEnds(Print(|payload|), text);
    AsciiConcat(text, "\r\n");
    AsciiIsEncoded(text + "\r\n");
  }

  lemma TwoLineEnds(digits: string, text: string)
    requires text == LengthLine(digits, "\r\n")
    ensures text + "\r\n" == "Content-Length: " + digits + "\r\n\r\n"
  {
  }

  // What goes down the pipe for a list of values; None if one of them does not serialize.
  function Wire<V>(values: seq<V>, encode: V -> Option<seq<Byte>>): Option<seq<Byte>> {
    if values == [] then Some([])
    else
      match (encode(values[0]), Wire(values[1..], encode))
      case (Some(payload), Some(rest)) => Some(Frame(payload) + rest)
      case _ => None
  }

  // ---- reading: read_lsp_message ----

  function TrimLineEnd(s: string): string {
    if s != [] && (s[|s| - 1] == '\r' || s[|s| - 1] == '\n') then TrimLineEnd(s[..|s| - 1]) else s
  }

  predicate HasPrefix(s: string, p: string) {
    |p| <= |s| && s[..|p|] == p
  }

  datatype Header = NotUtf8 | Blank | Length(n: nat) | BadLength | Other

  function ParseHeader(line: seq<Byte>): Header {
    match Decode(line)
    case None => NotUtf8
    case Some(text) =>
      var header := TrimLineEnd(text);
      if header == "" then Blank
      else if HasPrefix(header, CONTENT_LENGTH) then
        match ParseUsize(Trim(header[|CONTENT_LENGTH|..]))
        case Some(n) => Length(n)
        case None => BadLength
      else Other
  }

  function ReadPayload<V>(input: seq<Byte>, length: Option<nat>, decode: seq<Byte> -> Option<V>): Outcome<V> {
    match length
    case None => Failed(MissingLength)
    case Some(n) =>
      if |input| < n then Failed(PayloadTooShort)
      else
        match decode(input[..n])
        case Some(v) => Message(v, input[n..])
        case None => Failed(InvalidJson)
  }

  function ReadHeaders<V>(input: seq<Byte>, length: Option<nat>, decode: seq<Byte> -> Option<V>): Outcome<V>
    decreases |input|
  {
    if input == [] then (if length == None then Eof else Failed(EofInHeader))
    else
      var n := LineLength(input);
      match ParseHeader(input[..n])
      case NotUtf8 => Failed(HeaderNotUtf8)
      case Blank => ReadPayload(input[n..], length, decode)
      case Length(k) => ReadHeaders(input[n..], Some(k), decode)
      case BadLength => Failed(InvalidLength)
      case Other => ReadHeaders(input[n..], length, decode)
  }

  // The loop of read_lsp_message.
  method ReadLspMessage<V>(input: seq<Byte>, decode: seq<Byte> -> Option<V>) returns (r: Outcome<V>)
    ensures r == ReadHeaders(input, None, decode)
  {
    var contentLength: Option<nat> := None;
    var rest := input;
    while true
      invariant ReadHeaders(rest, contentLength, decode) == ReadHeaders(input, None, decode)
      decreases |rest|
    {
      if rest == [] {
        return if contentLength == None then Eof else Failed(EofInHeader);
      }
      var n := LineLength(rest);
      var header := ParseHeader(rest[..n]);
      rest := rest[n..];
      match header {
        case NotUtf8 => return Failed(HeaderNotUtf8);
        case BadLength => return Failed(InvalidLength);
        case Blank => break;
        case Length(k) => contentLength := Some(k);
        case Other =>
      }
    }
    r := ReadPayload(rest, contentLength, decode);
  }

  lemma ReadTakesFromFront<V>(input: seq<Byte>, length: Option<nat>, decode: seq<Byte> -> Option<V>)
    ensures var r := ReadHeaders(input, length, decode);
            r.Message? ==> |r.rest| <= |input| && (input != [] ==> |r.rest| < |input|)
    decreases |input|
  {
    if input != [] {
      var n := LineLength(input);
      match ParseHeader(input[..n])
      case Length(k) => ReadTakesFromFront(input[n..], Some(k), decode);
      case Other => ReadTakesFromFront(input[n..], length, decode);
      case _ =>
    }
  }

  // read_server_messages: every message until end of input or an error.
  function ReadAll<V>(input: seq<Byte>, decode: seq<Byte> -> Option<V>): (seq<V>, Option<ReadError>)
    decreases |input|
  {
    ReadTakesFromFront(input, None, decode);
    match ReadHeaders(input, None, decode)
    case Eof => ([], None)
    case Failed(e) => ([], Some(e))
    case Message(v, rest) =>
      if input == [] then ([], None)
      else
        var (values, error) := ReadAll(rest, decode);
        ([v] + values, error)
  }

  // ---- round trip ----

  lemma ReadLine<V>(line: seq<Byte>, rest: seq<Byte>, length: Option<nat>, decode: seq<Byte> -> Option<V>)
    requires IsLine(line)
    ensures ReadHeaders(line + rest, length, decode)
         == match ParseHeader(line)
            case NotUtf8 => Failed(HeaderNotUtf8)
            case Blank => ReadPayload(rest, length, decode)
            case Length(k) => ReadHeaders(rest, Some(k), decode)
            case BadLength => Failed(InvalidLength)
            case Other => ReadHeaders(rest, length, decode)
  {
    LineLengthAt(line, rest);
    assert (line + rest)[..|line|] == line && (line + rest)[|line|..] == rest;
  }

  lemma {:induction false} TrimLineEndStops(s: string, ending: string)
    requires s == "" || (s[|s| - 1] != '\r' && s[|s| - 1] != '\n')
    requires AllLineEnds(ending)
    ensures TrimLineEnd(s + ending) == s
  {
    if ending == "" {
      assert s + ending == s;
    } else {
      assert (s + ending)[..|s + ending| - 1] == s + ending[..|ending| - 1];
      TrimLineEndStops(s, ending[..|ending| - 1]);
    }
  }

  lemma TrimLeadingBlank(s: string)
    requires AllDigits(s)
    ensures Trim(" " + s) == s
  {
    assert (" " + s)[1..] == s;
    assert !IsWhitespace(s[0]) && !IsWhitespace(s[|s| - 1]);
    assert TrimStart(" " + s) == TrimStart(s) == s;
  }

  // A Content-Length line parses to its number, whatever line ending follows.
  lemma LengthLineParses(digits: string, ending: string)
    requires AllDigits(digits) && AllLineEnds(ending)
    ensures IsAscii(LengthLine(digits, ending))
    ensures var h := ParseHeader(AsciiBytes(LengthLine(digits, ending)));
            match ParseUsize(digits) case Some(n) => h == Length(n) case None => h == BadLength
  {
    var header := LENGTH_HEADER + digits;
    LengthLineAscii(digits, ending);
    DecodeAscii(LengthLine(digits, ending));
    assert header[|header| - 1] == digits[|digits| - 1];
    TrimLineEndStops(header, ending);
    assert header[..15] == CONTENT_LENGTH && header[15..] == " " + digits;
    TrimLeadingBlank(digits);
  }

  lemma LengthLineIsLine(digits: string)
    requires AllDigits(digits)
    ensures IsAscii(LengthLine(digits, "\r\n")) && IsLine(AsciiBytes(LengthLine(digits, "\r\n")))
  {
    var text := LengthLine(digits, "\r\n");
    LengthLineAscii(digits, "\r\n");
    forall i | 0 <= i < |text| - 1 ensures text[i] != '\n' {
      if 16 <= i < |text| - 2 { assert text[i] == digits[i - 16]; }
    }
  }

  lemma BlankLineParses(ending: string)
    requires AllLineEnds(ending)
    ensures IsAscii(ending) && ParseHeader(AsciiBytes(ending)) == Blank
  {
    DecodeAscii(ending);
    TrimLineEndStops("", ending);
    assert "" + ending == ending;
  }

  lemma ReadsBlankAndPayload<V>(payload: seq<Byte>, rest: seq<Byte>, decode: seq<Byte> -> Option<V>)
    ensures ReadHeaders(AsciiBytes("\r\n") + (payload + rest), Some(|payload|), decode)
         == match decode(payload) case Some(v) => Message(v, rest) case None => Failed(InvalidJson)
  {
    BlankLineParses("\r\n");
    assert AsciiBytes("\r\n") == [13, LF];
    ReadLine(AsciiBytes("\r\n"), payload + rest, Some(|payload|), decode);
    assert (payload + rest)[..|payload|] == payload && (payload + rest)[|payload|..] == rest;
  }

  lemma Regroup(a: seq<Byte>, b: seq<Byte>, c: seq<Byte>, d: seq<Byte>)
    ensures a + b + c + d == a + (b + (c + d))
  {
  }

  lemma ReadsLengthLine<V>(n: nat, tail: seq<Byte>, decode: seq<Byte> -> Option<V>)
    requires n <= U64_MAX
    ensures IsAscii(LengthLine(Print(n), "\r\n"))
    ensures ReadHeaders(AsciiBytes(LengthLine(Print(n), "\r\n")) + tail, None, decode)
            == ReadHeaders(tail, Some(n), decode)
  {
    LengthLineIsLine(Print(n));
    LengthLineParses(Print(n), "\r\n");
    UsizeRoundTrip(n);
    ReadLine(AsciiBytes(LengthLine(Print(n), "\r\n")), tail, None, decode);
  }

  // Reading a frame off the front of any input yields its payload and the rest.
  lemma ReadsFrame<V>(payload: seq<Byte>, rest: seq<Byte>, decode: seq<Byte> -> Option<V>)
    requires |payload| <= U64_MAX
    ensures ReadHeaders(Frame(payload) + rest, None, decode)
         == match decode(payload) case Some(v) => Message(v, rest) case None => Failed(InvalidJson)
  {
    var tail := AsciiBytes("\r\n") + (payload + rest);
    ReadsLengthLine(|payload|, tail, decode);
    Regroup(AsciiBytes(LengthLine(Print(|payload|), "\r\n")), AsciiBytes("\r\n"), payload, rest);
    ReadsBlankAndPayload(payload, rest, decode);
  }

  // For any codec that is lossless on the values sent, reading the written stream yields exactly
  // those values, in order, and then a clean end.
  lemma {:induction false} ReadingUndoesWriting<V>(
      values: seq<V>, encode: V -> Option<seq<Byte>>, decode: seq<Byte> -> Option<V>)
    requires forall v :: v in values ==>
               encode(v).Some? && |encode(v).value| <= U64_MAX && decode(encode(v).value) == Some(v)
    ensures Wire(values, encode).Some? && ReadAll(Wire(values, encode).value, decode) == (values, None)
  {
    if values != [] {
      ReadingUndoesWriting(values[1..], encode, decode);
      var payload, rest := encode(values[0]).value, Wire(values[1..], encode).value;
      ReadsFrame(payload, rest, decode);
      assert ReadHeaders(Wire(values, encode).value, None, decode) == Message(values[0], rest);
      assert [values[0]] + values[1..] == values;
    }
  }

  // ---- any header line ----

  // What a header line is, once its line end is taken off.
  lemma HeaderRead(line: seq<Byte>, header: string, ending: string)
    requires Decode(line) == Some(header + ending) && AllLineEnds(ending)
    requires header == "" || (header[|header| - 1] != '\r' && header[|header| - 1] != '\n')
    ensures ParseHeader(line)
         == if header == "" then Blank
            else if !("Content-Length:" <= header) then Other
            else match ParseUsize(Trim(header[15..])) case Some(n) => Length(n) case None => BadLength
  {
    TrimLineEndStops(header, ending);
    if "Content-Length:" <= header {
      assert header[..15] == CONTENT_LENGTH;
    }
  }

  // Header lines other than Content-Length are skipped wherever they stand.
  lemma OtherHeadersIgnored<V>(
      line: seq<Byte>, header: string, ending: string, rest: seq<Byte>, length: Option<nat>,
      decode: seq<Byte> -> Option<V>)
    requires IsLine(line) && Decode(line) == Some(header + ending) && AllLineEnds(ending)
    requires header != "" && header[|header| - 1] != '\r' && header[|header| - 1] != '\n'
    requires !("Content-Length:" <= header)
    ensures ReadHeaders(line + rest, length, decode) == ReadHeaders(rest, length, decode)
  {
    HeaderRead(line, header, ending);
    ReadLine(line, rest, length, decode);
  }

  // A Content-Length line counts whatever blanks surround its number, and over any earlier one; without
  // a number of 64 bits it fails the message.
  lemma LengthHeaderRead<V>(
      line: seq<Byte>, left: string, value: string, right: string, rest: seq<Byte>, length: Option<nat>,
      decode: seq<Byte> -> Option<V>)
    requires IsLine(line) && Decode(line) == Some("Content-Length:" + (left + value + right) + "\r\n")
    requires (forall i :: 0 <= i < |left| ==> left[i] == ' ') && (forall i :: 0 <= i < |right| ==> right[i] == ' ')
    requires value != "" && !IsWhitespace(value[0]) && !IsWhitespace(value[|value| - 1])
    ensures ReadHeaders(line + rest, length, decode)
         == match ParseUsize(value)
            case Some(n) => ReadHeaders(rest, Some(n), decode)
            case None => Failed(InvalidLength)
  {
    var shown := left + value + right;
    var header := "Content-Length:" + shown;
    assert header[15..] == shown;
    assert header[|header| - 1] == shown[|shown| - 1];
    assert right == "" ==> shown[|shown| - 1] == value[|value| - 1];
    TrimExactly(left, value, right);
    HeaderRead(line, header, "\r\n");
    ReadLine(line, rest, length, decode);
  }

  // A blank line before any length fails the message, whichever line end it has.
  lemma LengthIsNeeded<V>(blank: seq<Byte>, rest: seq<Byte>, decode: seq<Byte> -> Option<V>)
    requires blank == [10] || blank == [13, 10]
    ensures ReadHeaders(blank + rest, None, decode) == Failed(MissingLength)
  {
    BlankLineParses("\r\n");
    BlankLineParses("\n");
    assert AsciiBytes("\r\n") == [13, 10] && AsciiBytes("\n") == [10];
    ReadLine(blank, rest, None, decode);
  }

  // A payload that does not arrive whole, and an end of input behind a length, do too.
  lemma PayloadIsNeeded<V>(blank: seq<Byte>, rest: seq<Byte>, n: nat, decode: seq<Byte> -> Option<V>)
    requires blank == [10] || blank == [13, 10]
    ensures |rest| < n ==> ReadHeaders(blank + rest, Some(n), decode) == Failed(PayloadTooShort)
    ensures ReadHeaders([], Some(n), decode) == Failed(EofInHeader) && ReadHeaders([], None, decode) == Eof
  {
    BlankLineParses("\r\n");
    BlankLineParses("\n");
    assert AsciiBytes("\r\n") == [13, 10] && AsciiBytes("\n") == [10];
    ReadLine(blank, rest, Some(n), decode);
  }

  // So does a header line that is the encoding of no text.
  lemma HeaderIsText<V>(line: seq<Byte>, rest: seq<Byte>, length: Option<nat>, decode: seq<Byte> -> Option<V>)
    requires IsLine(line) && forall text :: line != Encode(text)
    ensures ReadHeaders(line + rest, length, decode) == Failed(HeaderNotUtf8)
  {
    if Decode(line).Some? {
      EncodingUndoesDecoding(line);
    }
    ReadLine(line, rest, length, decode);
  }

  // ---- a server that dies in the middle of a frame ----

  lemma ReadLastLine<V>(line: seq<Byte>, length: Option<nat>, decode: seq<Byte> -> Option<V>)
    requires line != [] && LF !in line
    ensures ReadHeaders(line, length, decode)
         == match ParseHeader(line)
            case NotUtf8 => Failed(HeaderNotUtf8)
            case Blank => ReadPayload([], length, decode)
            case Length(k) => Failed(EofInHeader)
            case BadLength => Failed(InvalidLength)
            case Other => if length == None then Eof else Failed(EofInHeader)
  {
    LastLineLength(line);
    assert line[..|line|] == line && line[|line|..] == [];
  }

  // Cut inside the header name, the header is an unknown one; cut behind it, a bad or a short one.
  lemma CutLengthLine(digits: string, n: nat)
    requires AllDigits(digits) && 0 < n < |LengthLine(digits, "\r\n")|
    ensures IsAscii(LengthLine(digits, "\r\n")[..n]) && LF !in AsciiBytes(LengthLine(digits, "\r\n")[..n])
    ensures var h := ParseHeader(AsciiBytes(LengthLine(digits, "\r\n")[..n]));
            if n < 15 then h == Other else h == BadLength || h.Length?
  {
    var text := LengthLine(digits, "\r\n");
    LengthLineIsLine(digits);
    assert forall i :: 0 <= i < n ==> AsciiBytes(text)[..|text| - 1][i] == AsciiBytes(text)[i];
    if n <= 16 {
      CutHeaderName(digits, n);
    } else if n <= 16 + |digits| {
      assert text[..n] == LengthLine(digits[..n - 16], "");
      LengthLineParses(digits[..n - 16], "");
    } else {
      assert text[..n] == LengthLine(digits, "\r");
      LengthLineParses(digits, "\r");
    }
  }

  lemma CutHeaderName(digits: string, n: nat)
    requires AllDigits(digits) && 0 < n <= 16
    ensures IsAscii(LengthLine(digits, "\r\n")[..n])
    ensures ParseHeader(AsciiBytes(LengthLine(digits, "\r\n")[..n])) == if n < 15 then Other else BadLength
  {
    var cut := LENGTH_HEADER[..n];
    assert LengthLine(digits, "\r\n")[..n] == cut;
    DecodeAscii(cut);
    CutNameKept(n);
    CutNumberIsBad(n);
  }

  lemma CutNameKept(n: nat)
    requires 0 < n <= 16
    ensures TrimLineEnd(LENGTH_HEADER[..n]) == LENGTH_HEADER[..n] != ""
    ensures HasPrefix(LENGTH_HEADER[..n], CONTENT_LENGTH) <==> n >= 15
  {
    assert LENGTH_HEADER[..n][n - 1] == LENGTH_HEADER[n - 1];
    assert n >= 15 ==> LENGTH_HEADER[..n][..15] == CONTENT_LENGTH;
  }

  lemma CutNumberIsBad(n: nat)
    requires n <= 16
    ensures n >= 15 ==> ParseUsize(Trim(LENGTH_HEADER[..n][15..])) == None
  {
    assert n >= 15 ==> LENGTH_HEADER[..n][15..] == if n == 15 then "" else " ";
    assert " "[1..] == "";
    assert TrimStart(" ") == TrimStart("") == "";
  }

  // A frame cut short anywhere never yields a message (no JSON text is empty). The reader takes the cut
  // for a clean end of input exactly when fewer than the 15 bytes of "Content-Length:" arrived, and
  // reports it otherwise.
  lemma CutFrameIsNoMessage<V>(payload: seq<Byte>, n: nat, decode: seq<Byte> -> Option<V>)
    requires 0 < |payload| <= U64_MAX && n < |Frame(payload)|
    ensures var r := ReadHeaders(Frame(payload)[..n], None, decode);
            !r.Message? && (r == Eof <==> n < |CONTENT_LENGTH|)
  {
    var text := LengthLine(Print(|payload|), "\r\n");
    LengthLineAscii(Print(|payload|), "\r\n");
    var line, cut := AsciiBytes(text), Frame(payload)[..n];
    if n == 0 {
      assert cut == [];
    } else if n < |line| {
      CutLengthLine(Print(|payload|), n);
      assert cut == AsciiBytes(text[..n]);
      ReadLastLine(cut, None, decode);
    } else {
      var tail := (AsciiBytes("\r\n") + payload)[..n - |line|];
      assert Frame(payload) == line + (AsciiBytes("\r\n") + payload);
      assert cut == line + tail;
      ReadsLengthLine(|payload|, tail, decode);
      CutPayload(payload, n - |line|, decode);
    }
  }

  lemma CutPayload<V>(payload: seq<Byte>, n: nat, decode: seq<Byte> -> Option<V>)
    requires payload != [] && n < 2 + |payload|
    ensures ReadHeaders((AsciiBytes("\r\n") + payload)[..n], Some(|payload|), decode).Failed?
  {
    var cut := (AsciiBytes("\r\n") + payload)[..n];
    assert AsciiBytes("\r\n") == [13, LF];
    if n == 1 {
      BlankLineParses("\r");
      assert cut == AsciiBytes("\r");
      ReadLastLine(cut, Some(|payload|), decode);
    } else if n >= 2 {
      BlankLineParses("\r\n");
      assert cut == [13, LF] + payload[..n - 2];
      ReadLine([13, LF], payload[..n - 2], Some(|payload|), decode);
    }
  }

  // How many frames of the stream are whole among its first n bytes, and how many bytes of the next one
  // follow.
  function Arrived<V>(values: seq<V>, encode: V -> Option<seq<Byte>>, n: nat): (r: (nat, nat))
    ensures r.0 <= |values|
  {
    if values == [] || encode(values[0]).None? || n < |Frame(encode(values[0]).value)| then (0, n)
    else
      var (whole, more) := Arrived(values[1..], encode, n - |Frame(encode(values[0]).value)|);
      (1 + whole, more)
  }

  // The codec is lossless on these values, and no payload is empty.
  ghost predicate Lossless<V>(values: seq<V>, encode: V -> Option<seq<Byte>>, decode: seq<Byte> -> Option<V>) {
    forall v :: v in values ==>
      encode(v).Some? && 0 < |encode(v).value| <= U64_MAX && decode(encode(v).value) == Some(v)
  }

  // Reading these bytes yields that many of the values, and a clean end if and only if fewer than 15
  // bytes come behind them.
  ghost predicate Yields<V>(input: seq<Byte>, values: seq<V>, arrived: (nat, nat), decode: seq<Byte> -> Option<V>)
    requires arrived.0 <= |values|
  {
    var (read, error) := ReadAll(input, decode);
    read == values[..arrived.0] && (error == None <==> arrived.1 < |CONTENT_LENGTH|)
  }

  // What a stream that breaks off after n bytes yields: exactly the values whose frames arrived whole.
  // The reader ends as if the server had exited cleanly if and only if fewer than 15 bytes of the next
  // frame arrived.
  lemma {:induction false} CutStreamYieldsWholeFrames<V>(
      values: seq<V>, n: nat, encode: V -> Option<seq<Byte>>, decode: seq<Byte> -> Option<V>)
    requires Lossless(values, encode, decode)
    ensures Wire(values, encode).Some?
    ensures n <= |Wire(values, encode).value| ==>
              Yields(Wire(values, encode).value[..n], values, Arrived(values, encode, n), decode)
  {
    if values == [] {
      assert n == 0 ==> Wire(values, encode).value[..n] == [];
    } else {
      var payload := encode(values[0]).value;
      var m := if n < |Frame(payload)| then 0 else n - |Frame(payload)|;
      CutStreamYieldsWholeFrames(values[1..], m, encode, decode);
      CutOfFrameAndRest(Frame(payload), Wire(values[1..], encode).value, n);
      if n < |Frame(payload)| {
        CutFrameYieldsNothing(payload, n, decode);
      } else if n <= |Wire(values, encode).value| {
        OneFrameMore(values, payload, Wire(values[1..], encode).value[..m], Arrived(values[1..], encode, m), decode);
      }
    }
  }

  lemma CutOfFrameAndRest(frame: seq<Byte>, rest: seq<Byte>, n: nat)
    ensures n < |frame| ==> (frame + rest)[..n] == frame[..n]
    ensures |frame| <= n <= |frame + rest| ==> (frame + rest)[..n] == frame + rest[..n - |frame|]
  {
  }

  lemma OneFrameMore<V>(
      values: seq<V>, payload: seq<Byte>, input: seq<Byte>, arrived: (nat, nat), decode: seq<Byte> -> Option<V>)
    requires values != [] && |payload| <= U64_MAX && decode(payload) == Some(values[0])
    requires arrived.0 <= |values[1..]| && Yields(input, values[1..], arrived, decode)
    ensures Yields(Frame(payload) + input, values, (1 + arrived.0, arrived.1), decode)
  {
    WholeFrameYieldsValue(values[0], payload, input, decode);
    assert [values[0]] + values[1..][..arrived.0] == values[..1 + arrived.0];
  }

  lemma CutFrameYieldsNothing<V>(payload: seq<Byte>, n: nat, decode: seq<Byte> -> Option<V>)
    requires 0 < |payload| <= U64_MAX && n < |Frame(payload)|
    ensures var (read, error) := ReadAll(Frame(payload)[..n], decode);
            read == [] && (error == None <==> n < |CONTENT_LENGTH|)
  {
    CutFrameIsNoMessage(payload, n, decode);
  }

  lemma WholeFrameYieldsValue<V>(v: V, payload: seq<Byte>, input: seq<Byte>, decode: seq<Byte> -> Option<V>)
    requires |payload| <= U64_MAX && decode(payload) == Some(v)
    ensures var (read, error) := ReadAll(input, decode);
            ReadAll(Frame(payload) + input, decode) == ([v] + read, error)
  {
    ReadsFrame(payload, input, decode);
    assert Frame(payload) + input != [];
  }
}
