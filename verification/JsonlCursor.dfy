/**
 Reading a JSONL file from an append cursor (src-tauri/src/backend_budget.rs), with the Unix test for
 whether a cursor still fits.

 A call first reads the metadata and then the file, which may have grown in between: a `Snapshot`
 holds what each of the two saw. `parse` is the JSON decoder for one line.
 */
module JsonlCursor {
  import opened Wrappers
  import opened Text

  datatype Cursor = Cursor(offset: nat, len: nat, modifiedMs: Option<nat>, sourceId: Option<nat>)

  datatype ReadState = AppendOnly | FullRescan | CorruptFallback

  datatype ReadError = NoMetadata | LineNotUtf8 | LineNotJson

  datatype Read<T> = Read(state: ReadState, cursor: Cursor, records: seq<T>)

  datatype Snapshot = Snapshot(len: nat, modifiedMs: Option<nat>, sourceId: Option<nat>, content: seq<Byte>)

  predicate IsCompatible(cursor: Cursor, s: Snapshot) {
    cursor.offset <= s.len && cursor.len <= s.len && cursor.sourceId == s.sourceId
  }

  // ---- lines and records ----

  // BufRead::lines strips the line feed and one carriage return before it.
  function StripLineEnd(line: seq<Byte>): seq<Byte> {
    if line != [] && line[|line| - 1] == LF then
      var body := line[..|line| - 1];
      if body != [] && body[|body| - 1] == 13 then body[..|body| - 1] else body
    else line
  }

  datatype Line<T> = Blank | Record(record: T) | Bad(error: ReadError)

  function ParseLine<T>(line: seq<Byte>, parse: string -> Option<T>): Line<T> {
    match Decode(StripLineEnd(line))
    case None => Bad(LineNotUtf8)
    case Some(text) =>
      if Trim(text) == "" then Blank
      else match parse(text) case Some(r) => Record(r) case None => Bad(LineNotJson)
  }

  // The records of all lines, or the error of the first bad one.
  function Records<T>(content: seq<Byte>, parse: string -> Option<T>): Result<seq<T>, ReadError> {
    if content == [] then Ok([])
    else
      var n := LineLength(content);
      match ParseLine(content[..n], parse)
      case Bad(e) => Err(e)
      case Blank => Records(content[n..], parse)
      case Record(r) => Prepend([r], Records(content[n..], parse))
  }

  function Prepend<T>(front: seq<T>, rest: Result<seq<T>, ReadError>): Result<seq<T>, ReadError> {
    match rest case Ok(records) => Ok(front + records) case Err(e) => Err(e)
  }

  method ReadRecords<T>(content: seq<Byte>, parse: string -> Option<T>) returns (r: Result<seq<T>, ReadError>)
    ensures r == Records(content, parse)
  {
    var records: seq<T> := [];
    var rest := content;
    PrependNothing(Records(rest, parse));
    while rest != []
      invariant Prepend(records, Records(rest, parse)) == Records(content, parse)
      decreases |rest|
    {
      var n := LineLength(rest);
      var line := ParseLine(rest[..n], parse);
      rest := rest[n..];
      match line {
        case Bad(e) => return Err(e);
        case Blank =>
        case Record(record) =>
          PrependTwice(records, [record], Records(rest, parse));
          records := records + [record];
      }
    }
    r := Ok(records);
    assert records + [] == records;
  }

  lemma PrependNothing<T>(rest: Result<seq<T>, ReadError>)
    ensures Prepend([], rest) == rest
  {
    if rest.Ok? {
      assert [] + rest.value == rest.value;
    }
  }

  lemma PrependTwice<T>(a: seq<T>, b: seq<T>, rest: Result<seq<T>, ReadError>)
    ensures Prepend(a, Prepend(b, rest)) == Prepend(a + b, rest)
  {
    if rest.Ok? {
      assert a + (b + rest.value) == a + b + rest.value;
    }
  }

  // ---- read_jsonl_append_only ----

  function CursorAfter(s: Snapshot): Cursor {
    Cursor(s.len, s.len, s.modifiedMs, s.sourceId)
  }

  function Start(s: Snapshot, previous: Option<Cursor>): nat {
    if previous.Some? && IsCompatible(previous.value, s) then previous.value.offset else 0
  }

  function From(content: seq<Byte>, offset: nat): seq<Byte> {
    if offset <= |content| then content[offset..] else []
  }

  // A read of the whole file: the call with no cursor.
  function FullRead<T>(s: Snapshot, parse: string -> Option<T>): Result<Read<T>, ReadError> {
    match Records(s.content, parse)
    case Ok(records) => Ok(Read(FullRescan, CursorAfter(s), records))
    case Err(e) => Err(e)
  }

  // `again` is what the fallback sees when it opens the file once more.
  function ReadFrom<T>(s: Snapshot, previous: Option<Cursor>, again: Option<Snapshot>, parse: string -> Option<T>)
    : Result<Read<T>, ReadError>
  {
    var start := Start(s, previous);
    match Records(From(s.content, start), parse)
    case Ok(records) =>
      var state := if previous.Some? && IsCompatible(previous.value, s) then AppendOnly else FullRescan;
      Ok(Read(state, CursorAfter(s), records))
    case Err(e) =>
      if e == LineNotJson && start > 0 then Fallback(again, parse) else Err(e)
  }

  function Fallback<T>(again: Option<Snapshot>, parse: string -> Option<T>): Result<Read<T>, ReadError> {
    match again
    case None => Err(NoMetadata)
    case Some(s) => match FullRead(s, parse) case Ok(full) => Ok(full.(state := CorruptFallback)) case Err(e) => Err(e)
  }

  method ReadJsonlAppendOnly<T>(
      snapshot: Option<Snapshot>, previous: Option<Cursor>, again: Option<Snapshot>, parse: string -> Option<T>)
    returns (r: Result<Read<T>, ReadError>)
    ensures r == match snapshot case None => Err(NoMetadata) case Some(s) => ReadFrom(s, previous, again, parse)
    decreases previous.Some?
  {
    if snapshot.None? {
      return Err(NoMetadata);
    }
    var s := snapshot.value;
    var state, startOffset := FullRescan, 0;
    if previous.Some? && IsCompatible(previous.value, s) {
      state, startOffset := AppendOnly, previous.value.offset;
    }
    assert From(s.content, 0) == s.content;
    var records := ReadRecords(From(s.content, startOffset), parse);
    match records {
      case Ok(found) =>
        r := Ok(Read(state, CursorAfter(s), found));
      case Err(e) =>
        if e == LineNotJson && startOffset > 0 {
          // the one recursion: without a cursor the call starts at 0 and cannot come here
          var full := ReadJsonlAppendOnly(again, None, None, parse);
          if again.Some? { NoCursorIsFullRead(again.value, None, parse); }
          r := match full case Ok(f) => Ok(f.(state := CorruptFallback)) case Err(error) => Err(error);
        } else {
          r := Err(e);
        }
    }
  }

  lemma NoCursorIsFullRead<T>(s: Snapshot, again: Option<Snapshot>, parse: string -> Option<T>)
    ensures ReadFrom(s, None, again, parse) == FullRead(s, parse)
  {
    assert From(s.content, 0) == s.content;
  }

  // A cursor into another file, or into one that is shorter now, changes nothing: the whole file is
  // parsed. Any other cursor is read on from, or given up for a corrupt line.
  lemma MisfitIsFullRead<T>(s: Snapshot, cursor: Cursor, again: Option<Snapshot>, parse: string -> Option<T>)
    ensures var r := ReadFrom(s, Some(cursor), again, parse);
            var misfit := cursor.sourceId != s.sourceId || s.len < cursor.offset || s.len < cursor.len;
            && (misfit ==> r == FullRead(s, parse))
            && (!misfit && r.Ok? ==> r.value.state == AppendOnly || r.value.state == CorruptFallback)
  {
    assert From(s.content, 0) == s.content;
  }

  // A fitting cursor: the records behind it, if all lines there parse; a line that is not UTF-8 fails
  // the read, a line that is not JSON does so at offset 0 and otherwise makes it read all over again.
  lemma FitIsReadOn<T>(s: Snapshot, cursor: Cursor, again: Option<Snapshot>, parse: string -> Option<T>)
    requires cursor.sourceId == s.sourceId && cursor.offset <= s.len && cursor.len <= s.len
    ensures var r, end := ReadFrom(s, Some(cursor), again, parse), Cursor(s.len, s.len, s.modifiedMs, s.sourceId);
            match Records(From(s.content, cursor.offset), parse)
            case Ok(records) => r == Ok(Read(AppendOnly, end, records))
            case Err(e) =>
              if e == LineNotUtf8 || cursor.offset == 0 then r == Err(e)
              else if again == None then r == Err(NoMetadata)
              else match FullRead(again.value, parse)
                   case Ok(full) => r == Ok(Read(CorruptFallback, full.cursor, full.records))
                   case Err(error) => r == Err(error)
  {
    FailureIsALine(From(s.content, cursor.offset), parse);
  }

  lemma {:induction false} FailureIsALine<T>(content: seq<Byte>, parse: string -> Option<T>)
    ensures Records(content, parse).Err? ==> Records(content, parse).error != NoMetadata
    decreases |content|
  {
    if content != [] {
      FailureIsALine(content[LineLength(content)..], parse);
    }
  }

  // A line is its text's bytes and either line end, or none: blank, a record, or no JSON.
  lemma LineRead<T>(text: string, ending: seq<Byte>, parse: string -> Option<T>)
    requires ending in {[], [10], [13, 10]} && (text == "" || text[|text| - 1] != '\r')
    requires ending == [] ==> text == "" || text[|text| - 1] != '\n'
    ensures ParseLine(Encode(text) + ending, parse)
         == if Trim(text) == "" then Blank
            else match parse(text) case Some(r) => Record(r) case None => Bad(LineNotJson)
  {
    var body := Encode(text);
    LastByte(text);
    EndStripped(body, ending);
    DecodesIff(body, text);
    TextParsed(body + ending, text, parse);
  }

  lemma TextParsed<T>(line: seq<Byte>, text: string, parse: string -> Option<T>)
    requires Decode(StripLineEnd(line)) == Some(text)
    ensures ParseLine(line, parse)
         == if Trim(text) == "" then Blank
            else match parse(text) case Some(r) => Record(r) case None => Bad(LineNotJson)
  {
  }

  lemma EndStripped(body: seq<Byte>, ending: seq<Byte>)
    requires ending in {[], [10], [13, 10]} && (body == [] || body[|body| - 1] != 13)
    requires ending == [] ==> body == [] || body[|body| - 1] != 10
    ensures StripLineEnd(body + ending) == body
  {
    if ending == [10] {
      assert (body + [10])[..|body|] == body;
    } else if ending == [13, 10] {
      assert (body + [13, 10])[..|body| + 1] == body + [13] && (body + [13])[..|body|] == body;
    } else {
      assert body + [] == body;
    }
  }

  // A text's last byte is an ASCII character's only if the text ends with it.
  lemma {:induction false} LastByte(text: string)
    ensures text != "" ==> Encode(text) != []
    ensures text != "" && Encode(text)[|Encode(text)| - 1] < 128 ==>
              text[|text| - 1] as int == Encode(text)[|Encode(text)| - 1]
    decreases |text|
  {
    if |text| == 1 {
      assert Encode(text) == EncodeChar(text[0]) + Encode(text[1..]) == EncodeChar(text[0]);
    } else if text != "" {
      LastByte(text[1..]);
    }
  }

  // What no text encodes to is no line.
  lemma LineIsText<T>(line: seq<Byte>, parse: string -> Option<T>)
    requires forall text :: StripLineEnd(line) != Encode(text)
    ensures ParseLine(line, parse) == Bad(LineNotUtf8)
  {
    if Decode(StripLineEnd(line)).Some? {
      EncodingUndoesDecoding(StripLineEnd(line));
    }
  }

  // The state tells how the records came about, and a fallback holds exactly what a full read of the
  // file as found again yields.
  lemma StateTellsOrigin<T>(s: Snapshot, previous: Option<Cursor>, again: Option<Snapshot>, parse: string -> Option<T>)
    requires ReadFrom(s, previous, again, parse).Ok?
    ensures var r := ReadFrom(s, previous, again, parse).value;
            match r.state
            case AppendOnly => previous.Some? && IsCompatible(previous.value, s)
                               && Ok(r.records) == Records(From(s.content, previous.value.offset), parse)
            case FullRescan => Ok(r) == FullRead(s, parse)
            case CorruptFallback => again.Some? && FullRead(again.value, parse) == Ok(r.(state := FullRescan))
                                    && previous.Some?
                                    && Records(From(s.content, previous.value.offset), parse) == Err(LineNotJson)
  {
    assert From(s.content, 0) == s.content;
  }

  // ---- appending whole lines ----

  predicate EndsAtLine(content: seq<Byte>) {
    content == [] || content[|content| - 1] == LF
  }

  // Lines before a line end and behind it are read independently of each other.
  lemma {:induction false} RecordsSplitAtLineEnd<T>(a: seq<Byte>, b: seq<Byte>, parse: string -> Option<T>)
    requires EndsAtLine(a)
    ensures Records(a + b, parse)
         == match Records(a, parse) case Ok(front) => Prepend(front, Records(b, parse)) case Err(e) => Err(e)
    decreases |a|
  {
    if a == [] {
      assert a + b == b;
      PrependNothing(Records(b, parse));
    } else {
      var n := LineLength(a);
      LineOfSum(a, b);
      assert (a + b)[..n] == a[..n] && (a + b)[n..] == a[n..] + b;
      assert EndsAtLine(a[n..]);
      RecordsSplitAtLineEnd(a[n..], b, parse);
      FirstLine(a + b, parse);
      FirstLine(a, parse);
      var line := ParseLine(a[..n], parse);
      if line.Record? && Records(a[n..], parse).Ok? {
        PrependTwice([line.record], Records(a[n..], parse).value, Records(b, parse));
      }
    }
  }

  lemma FirstLine<T>(content: seq<Byte>, parse: string -> Option<T>)
    requires content != []
    ensures Records(content, parse)
         == match ParseLine(content[..LineLength(content)], parse)
            case Bad(e) => Err(e)
            case Blank => Records(content[LineLength(content)..], parse)
            case Record(r) => Prepend([r], Records(content[LineLength(content)..], parse))
  {
  }

  lemma {:induction false} LineOfSum(a: seq<Byte>, b: seq<Byte>)
    requires a != [] && EndsAtLine(a)
    ensures LineLength(a + b) == LineLength(a)
  {
    assert (a + b)[0] == a[0];
    if a[0] != LF {
      assert (a + b)[1..] == a[1..] + b;
      LineOfSum(a[1..], b);
    }
  }

  lemma FittingRead<T>(s: Snapshot, cursor: Cursor, again: Option<Snapshot>, parse: string -> Option<T>)
    requires IsCompatible(cursor, s) && Records(From(s.content, cursor.offset), parse).Ok?
    ensures ReadFrom(s, Some(cursor), again, parse)
         == Ok(Read(AppendOnly, CursorAfter(s), Records(From(s.content, cursor.offset), parse).value))
  {
  }

  // One quiet read behind a cursor at a line end yields exactly the records that were appended.
  lemma AppendedRecordsExact<T>(
      before: seq<Byte>, appended: seq<Byte>, s: Snapshot, cursor: Cursor, again: Option<Snapshot>,
      parse: string -> Option<T>)
    requires EndsAtLine(before) && Records(before, parse).Ok? && Records(appended, parse).Ok?
    requires s.content == before + appended && s.len == |s.content|
    requires cursor.offset == cursor.len == |before| && cursor.sourceId == s.sourceId
    ensures ReadFrom(s, Some(cursor), again, parse)
            == Ok(Read(AppendOnly, CursorAfter(s), Records(appended, parse).value))
    ensures Records(s.content, parse) == Ok(Records(before, parse).value + Records(appended, parse).value)
  {
    assert From(s.content, |before|) == appended;
    FittingRead(s, cursor, again, parse);
    RecordsSplitAtLineEnd(before, appended, parse);
  }

  function Concat(chunks: seq<seq<Byte>>): seq<Byte> {
    if chunks == [] then [] else Concat(chunks[..|chunks| - 1]) + chunks[|chunks| - 1]
  }

  // Whole, newline-terminated, parsable lines.
  predicate WholeLines<T(==)>(chunk: seq<Byte>, parse: string -> Option<T>) {
    EndsAtLine(chunk) && Records(chunk, parse).Ok?
  }

  function SnapshotOf(content: seq<Byte>, modifiedMs: Option<nat>, sourceId: Option<nat>): Snapshot {
    Snapshot(|content|, modifiedMs, sourceId, content)
  }

  datatype Followed<T> = Followed(records: seq<T>, cursor: Cursor)

  // One more read from the last cursor; None once a read fails or is not append-only.
  function FollowOn<T>(before: Option<Followed<T>>, s: Snapshot, parse: string -> Option<T>): Option<Followed<T>> {
    match before
    case None => None
    case Some(f) =>
      match ReadFrom(s, Some(f.cursor), None, parse)
      case Ok(r) => if r.state == AppendOnly then Some(Followed(f.records + r.records, r.cursor)) else None
      case Err(_) => None
  }

  // A reader that follows the file: one read after each append, each from the cursor of the one
  // before, the first from none. All records read, and the last cursor.
  function Follow<T>(
      chunks: seq<seq<Byte>>, times: nat -> Option<nat>, sourceId: Option<nat>, parse: string -> Option<T>)
    : Option<Followed<T>>
    requires chunks != []
  {
    var s := SnapshotOf(Concat(chunks), times(|chunks|), sourceId);
    if |chunks| == 1 then
      match ReadFrom(s, None, None, parse)
      case Ok(r) => Some(Followed(r.records, r.cursor))
      case Err(_) => None
    else FollowOn(Follow(chunks[..|chunks| - 1], times, sourceId, parse), s, parse)
  }

  // For a file that grows only by whole parsable lines, the successive reads concatenate to exactly
  // one full read of the final file.
  lemma {:induction false} FollowingIsOneFullRead<T>(
      chunks: seq<seq<Byte>>, times: nat -> Option<nat>, sourceId: Option<nat>, parse: string -> Option<T>)
    requires chunks != [] && forall i :: 0 <= i < |chunks| ==> WholeLines(chunks[i], parse)
    ensures EndsAtLine(Concat(chunks)) && Records(Concat(chunks), parse).Ok?
    ensures Follow(chunks, times, sourceId, parse)
         == Some(Followed(Records(Concat(chunks), parse).value,
             CursorAfter(SnapshotOf(Concat(chunks), times(|chunks|), sourceId))))
  {
    var front, last := chunks[..|chunks| - 1], chunks[|chunks| - 1];
    if |chunks| == 1 {
      assert Concat(front) == [] && Concat(chunks) == last;
      NoCursorIsFullRead(SnapshotOf(last, times(1), sourceId), None, parse);
    } else {
      FollowingIsOneFullRead(front, times, sourceId, parse);
      FollowOneMore(Concat(front), last, times(|front|), times(|chunks|), sourceId, parse);
    }
  }

  lemma FollowOneMore<T>(
      before: seq<Byte>, chunk: seq<Byte>, t0: Option<nat>, t1: Option<nat>, sourceId: Option<nat>,
      parse: string -> Option<T>)
    requires WholeLines(before, parse) && WholeLines(chunk, parse)
    ensures WholeLines(before + chunk, parse)
    ensures FollowOn(Some(Followed(Records(before, parse).value, CursorAfter(SnapshotOf(before, t0, sourceId)))),
                     SnapshotOf(before + chunk, t1, sourceId), parse)
         == Some(Followed(Records(before + chunk, parse).value, CursorAfter(SnapshotOf(before + chunk, t1, sourceId))))
  {
    AppendedRecordsExact(before, chunk, SnapshotOf(before + chunk, t1, sourceId),
                         CursorAfter(SnapshotOf(before, t0, sourceId)), None, parse);
  }

  // ---- where the cursor is not exact ----

  // Lines appended between the metadata and the read are returned now and once more by the next read:
  // the cursor only covers the length the metadata gave.
  lemma GrowthDuringReadDuplicates<T>(a: seq<Byte>, b: seq<Byte>, parse: string -> Option<T>, sourceId: Option<nat>)
    requires WholeLines(a, parse) && WholeLines(b, parse)
    ensures var cursor := Cursor(|a|, |a|, None, sourceId);
            && ReadFrom(Snapshot(|a|, None, sourceId, a + b), None, None, parse)
               == Ok(Read(FullRescan, cursor, Records(a, parse).value + Records(b, parse).value))
            && ReadFrom(SnapshotOf(a + b, None, sourceId), Some(cursor), None, parse)
               == Ok(Read(AppendOnly, CursorAfter(SnapshotOf(a + b, None, sourceId)), Records(b, parse).value))
            && Records(a + b, parse) == Ok(Records(a, parse).value + Records(b, parse).value)
  {
    NoCursorIsFullRead(Snapshot(|a|, None, sourceId, a + b), None, parse);
    AppendedRecordsExact(a, b, SnapshotOf(a + b, None, sourceId), Cursor(|a|, |a|, None, sourceId), None, parse);
  }

  // Whatever the file held when its length was taken and whatever was appended before it was read, half
  // lines included: the two reads together are one full read if and only if what was appended holds no
  // record.
  lemma GrowthDuringReadExactIff<T>(
      a: seq<Byte>, b: seq<Byte>, times: (Option<nat>, Option<nat>), sourceId: Option<nat>, again: Option<Snapshot>,
      parse: string -> Option<T>, first: Read<T>, second: Read<T>)
    requires ReadFrom(Snapshot(|a|, times.0, sourceId, a + b), None, again, parse) == Ok(first)
    requires ReadFrom(SnapshotOf(a + b, times.1, sourceId), Some(first.cursor), again, parse) == Ok(second)
    requires second.state == AppendOnly
    ensures Ok(first.records + second.records) == Records(a + b, parse) <==> Records(b, parse) == Ok([])
  {
    NoCursorIsFullRead(Snapshot(|a|, times.0, sourceId, a + b), again, parse);
    assert From(a + b, |a|) == b;
    StateTellsOrigin(SnapshotOf(a + b, times.1, sourceId), Some(first.cursor), again, parse);
    assert |first.records + second.records| == |first.records| + |second.records|;
    assert second.records == [] ==> first.records + second.records == first.records;
  }
}
