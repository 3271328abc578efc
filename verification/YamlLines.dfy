/**
 Which lines of a YAML document hold a property key (src-tauri/src/code_intel.rs).

 YamlKeys parses a line; here a line that holds a key is written out part by part, and the two are
 proved to agree.
 */
module YamlLines {
  import opened Wrappers
  import opened Text
  import opened YamlKeys

  // Indentation, list marker, blanks, the key in its quotes, blanks, a colon and what follows it.
  datatype Parts = Parts(
    spaces: nat, marked: bool, left: string, quote: string, name: string, right: string, value: string)

  function Spaces(n: nat): (s: string)
    ensures |s| == n && forall i :: 0 <= i < n ==> s[i] == ' '
  {
    seq(n, i => ' ')
  }

  function Marker(p: Parts): string {
    if p.marked then "- " else ""
  }

  function Core(p: Parts): string {
    p.quote + p.name + p.quote
  }

  function Zone(p: Parts): string {
    p.left + Core(p) + p.right
  }

  function Written(p: Parts): string {
    Spaces(p.spaces) + Marker(p) + (Zone(p) + ":" + p.value)
  }

  ghost predicate IsName(s: string) {
    s != "" && forall i :: 0 <= i < |s| ==> IsKeyChar(s[i])
  }

  // Without a marker all leading spaces are indentation, and a bare "-" key before a space would be
  // read as the marker.
  ghost predicate IsKeyLine(p: Parts) {
    && IsName(p.name) && IsBlank(p.left) && IsBlank(p.right)
    && p.quote in {"", "\"", "'"}
    && (!p.marked ==> p.left == "" || p.left[0] != ' ')
    && (!p.marked && p.left + p.quote == "" && p.name == "-" ==> p.right == "" || p.right[0] != ' ')
  }

  // A key is made of ASCII digits and letters, hyphens, full stops and underscores.
  lemma KeyCharacters(c: char)
    ensures var n := c as int;
            IsKeyChar(c) <==> 48 <= n <= 57 || 65 <= n <= 90 || 97 <= n <= 122 || n in {45, 46, 95}
  {
  }

  // ---- trimming ----

  // The part of `raw` in front of the carriage returns it ends with.
  lemma {:induction false} ReturnsCut(raw: string)
    ensures TrimCarriageReturns(raw) <= raw
    ensures forall i :: |TrimCarriageReturns(raw)| <= i < |raw| ==> raw[i] == '\r'
  {
    if raw != "" && raw[|raw| - 1] == '\r' {
      ReturnsCut(raw[..|raw| - 1]);
    }
  }

  lemma {:induction false} ReturnsBehind(front: string, value: string)
    requires front != "" && front[|front| - 1] != '\r'
    ensures TrimCarriageReturns(front + value) == front + TrimCarriageReturns(value)
  {
    if value == "" {
      assert front + value == front;
    } else if value[|value| - 1] == '\r' {
      assert (front + value)[..|front + value| - 1] == front + value[..|value| - 1];
      ReturnsBehind(front, value[..|value| - 1]);
    }
  }

  lemma ReturnsAreBlank(value: string)
    ensures Trim(TrimCarriageReturns(value)) == Trim(value)
  {
    var v := TrimCarriageReturns(value);
    ReturnsCut(value);
    var ends := value[|v|..];
    assert value == v + ends && IsBlank(ends);
    var before, after := TrimCutsBothEnds(v);
    BlankTrims(v);
    if Trim(v) == "" {
      BlankTrims(value);
    } else {
      assert v == v[..before] + Trim(v) + v[|v| - after..];
      assert value == v[..before] + Trim(v) + (v[|v| - after..] + ends);
      TrimExactly(v[..before], Trim(v), v[|v| - after..] + ends);
    }
  }

  // ---- a written key is parsed ----

  lemma {:induction false} LeadingExactly(n: nat, rest: string)
    requires rest == "" || rest[0] != ' '
    ensures LeadingSpaces(Spaces(n) + rest) == n
  {
    if n == 0 {
      assert Spaces(n) + rest == rest;
    } else {
      assert (Spaces(n) + rest)[1..] == Spaces(n - 1) + rest;
      LeadingExactly(n - 1, rest);
    }
  }

  lemma CoreEnds(p: Parts)
    requires IsKeyLine(p)
    ensures Core(p) != "" && !IsWhitespace(Core(p)[0]) && !IsWhitespace(Core(p)[|Core(p)| - 1])
    ensures Core(p)[0] != '#' && Core(p)[0] != ' '
    ensures forall i :: 0 <= i < |Core(p)| ==> Core(p)[i] != ':'
    ensures Unquoted(Core(p)) == p.name && Quote(Core(p)) == |p.quote|
  {
    var core := Core(p);
    assert IsKeyChar(p.name[0]) && IsKeyChar(p.name[|p.name| - 1]);
    if p.quote == "" {
      assert core == p.name;
    } else {
      assert core[1..|core| - 1] == p.name;
    }
  }

  lemma ZoneTrims(p: Parts)
    requires IsKeyLine(p)
    ensures Trim(Zone(p)) == Core(p)
  {
    CoreEnds(p);
    TrimExactly(p.left, Core(p), p.right);
  }

  lemma ZoneStart(p: Parts, indent: nat)
    requires IsKeyLine(p)
    ensures KeyStart(indent, Zone(p), Core(p)) == indent + ByteLength(p.left) + |p.quote|
  {
    CoreEnds(p);
    CoreFound(p.left, Core(p), p.right);
    StartOfCore(indent, Zone(p), Core(p), p.left);
  }

  lemma ZoneParsed(p: Parts, indent: nat, zone: string, core: string, opens: bool)
    requires IsName(p.name) && Unquoted(core) == p.name && Trim(zone) == core
    requires KeyStart(indent, zone, core) == indent + ByteLength(p.left) + |p.quote|
    ensures KeyFrom(indent, zone, Trim(zone), opens) == Some(KeyIn(p, indent, opens))
  {
    KeyOfCore(indent, zone, core, p.name, KeyStart(indent, zone, core), opens);
  }

  // The key in those bytes.
  function KeyIn(p: Parts, indent: nat, opens: bool): Key {
    var start := indent + ByteLength(p.left) + |p.quote|;
    Key(indent, p.name, start, start + |p.name|, opens)
  }

  lemma CoreFound(left: string, core: string, right: string)
    requires IsBlank(left) && core != "" && !IsWhitespace(core[0])
    ensures Find(left + core + right, core) == Some(|left|)
  {
    assert (left + core + right)[|left|..] == core + right;
    FindAt(left + core + right, core, |left|);
  }

  lemma StartOfCore(indent: nat, zone: string, core: string, left: string)
    requires Find(zone, core) == Some(|left|) && |left| <= |zone| && zone[..|left|] == left
    ensures KeyStart(indent, zone, core) == indent + ByteLength(left) + Quote(core)
  {
  }

  lemma KeyOfCore(indent: nat, zone: string, core: string, name: string, start: nat, opens: bool)
    requires Unquoted(core) == name && IsName(name) && start == KeyStart(indent, zone, core)
    ensures KeyFrom(indent, zone, core, opens) == Some(Key(indent, name, start, start + |name|, opens))
  {
  }

  lemma SegmentParsed(p: Parts, indent: nat, value: string)
    requires IsKeyLine(p)
    ensures ParseSegment(indent, Zone(p) + ":" + value) == Some(KeyIn(p, indent, OpensSection(Trim(value))))
  {
    NoColon(p);
    FirstColon(indent, Zone(p), value);
    CoreEnds(p);
    ZoneTrims(p);
    ZoneStart(p, indent);
    ZoneParsed(p, indent, Zone(p), Core(p), OpensSection(Trim(value)));
  }

  lemma NoColon(p: Parts)
    requires IsKeyLine(p)
    ensures forall i :: 0 <= i < |Zone(p)| ==> Zone(p)[i] != ':'
  {
    CoreEnds(p);
  }

  lemma FirstColon(indent: nat, zone: string, value: string)
    requires forall i :: 0 <= i < |zone| ==> zone[i] != ':'
    ensures ParseSegment(indent, zone + ":" + value)
         == KeyFrom(indent, zone, Trim(zone), OpensSection(Trim(value)))
  {
    var segment := zone + ":" + value;
    assert segment[|zone|..] == ":" + value && segment[..|zone|] == zone && segment[|zone| + 1..] == value;
    FindAt(segment, ":", |zone|);
  }

  // How the text behind the indentation starts: neither with a space nor a comment, and with a list
  // marker only if there is one.
  lemma BodyStarts(p: Parts, rest: string)
    requires IsKeyLine(p)
    ensures var body := Zone(p) + ":" + rest;
            && body[0] != '#'
            && (!p.marked ==> body[0] != ' ' && !("- " <= body))
  {
    var body, core := Zone(p) + ":" + rest, Core(p);
    CoreEnds(p);
    if p.left != "" {
      assert body[0] == p.left[0] && IsWhitespace(body[0]);
    } else {
      assert body[0] == core[0];
      if "- " <= body && !p.marked {
        assert body[0] == '-' && body[1] == ' ';
        BareDash(p, body);
      }
    }
  }

  // Only a bare "-" key can look like a list marker.
  lemma BareDash(p: Parts, body: string)
    requires IsKeyLine(p) && p.left == "" && Zone(p) + ":" <= body
    requires body[0] == '-' && body[1] == ' '
    ensures p.quote == "" && p.name == "-" && p.right != "" && p.right[0] == ' '
  {
    var shown := Core(p) + (p.right + ":");
    assert shown == Zone(p) + ":";
    assert body[0] == shown[0] && body[1] == shown[1];
    if p.quote == "" {
      assert Core(p) == p.name;
      DashName(p.name, p.right + ":", shown);
    }
  }

  lemma DashName(name: string, rest: string, shown: string)
    requires IsName(name) && rest != "" && shown == name + rest && shown[0] == '-' && shown[1] == ' '
    ensures name == "-" && rest[0] == ' '
  {
  }

  lemma LineKeyFrom(line: string, n: nat, marked: bool, body: string)
    requires LeadingSpaces(line) == n && line[n..] == (if marked then "- " + body else body)
    requires body != "" && body[0] != '#' && (!marked ==> !("- " <= body)) && Trim(line) != ""
    ensures LineKey(line) == ParseSegment(if marked then n + 2 else n, body)
  {
    SegmentFrom(line, n, line[n..], marked, body);
    assert line[n..][0] != '#';
    var (indent, segment) := Segment(line);
    assert indent == (if marked then n + 2 else n) && segment == body;
  }

  lemma SegmentFrom(line: string, n: nat, rest: string, marked: bool, body: string)
    requires LeadingSpaces(line) == n && rest == line[n..]
    requires rest == (if marked then "- " + body else body) && (!marked ==> !("- " <= body))
    ensures Segment(line) == (if marked then n + 2 else n, body)
  {
    if marked {
      assert rest[2..] == body;
    }
  }

  lemma LineParsed(p: Parts, body: string, value: string, line: string)
    requires IsKeyLine(p) && body == Zone(p) + ":" + value && line == Spaces(p.spaces) + (Marker(p) + body)
    ensures LineKey(line) == ParseSegment(if p.marked then p.spaces + 2 else p.spaces, body)
  {
    BodyStarts(p, value);
    LeadingExactly(p.spaces, Marker(p) + body);
    assert line[p.spaces..] == Marker(p) + body;
    assert line[|line| - |value| - 1] == ':';
    BlankTrims(line);
    LineKeyFrom(line, p.spaces, p.marked, body);
  }

  // What a line written like that holds: a key at that indentation, over those bytes, that opens a
  // section if nothing but a comment or a block mark follows the colon.
  function KeyOf(p: Parts): Key {
    var value := Trim(p.value);
    KeyIn(p, p.spaces + if p.marked then 2 else 0, "#" <= value || value in {"", "|", ">"})
  }

  lemma KeyLineParses(p: Parts)
    requires IsKeyLine(p)
    ensures ParseLine(Written(p)) == Some(KeyOf(p))
  {
    var v := TrimCarriageReturns(p.value);
    var body := Zone(p) + ":" + v;
    LineWithoutReturns(p, v, Spaces(p.spaces) + (Marker(p) + body));
    BodyParsed(p, v, body, Spaces(p.spaces) + (Marker(p) + body));
  }

  lemma BodyParsed(p: Parts, v: string, body: string, line: string)
    requires IsKeyLine(p) && v == TrimCarriageReturns(p.value)
    requires body == Zone(p) + ":" + v && line == Spaces(p.spaces) + (Marker(p) + body)
    ensures LineKey(line) == Some(KeyOf(p))
  {
    LineParsed(p, body, v, line);
    SegmentParsed(p, if p.marked then p.spaces + 2 else p.spaces, v);
    ReturnsAreBlank(p.value);
  }

  lemma LineWithoutReturns(p: Parts, v: string, line: string)
    requires v == TrimCarriageReturns(p.value) && line == Spaces(p.spaces) + (Marker(p) + (Zone(p) + ":" + v))
    ensures TrimCarriageReturns(Written(p)) == line
  {
    var front := Spaces(p.spaces) + (Marker(p) + (Zone(p) + ":"));
    assert Written(p) == front + p.value;
    assert line == front + v;
    ReturnsBehind(front, p.value);
  }

  // ---- and no other line holds a key ----

  lemma CutZone(zone: string) returns (left: string, right: string)
    ensures zone == left + Trim(zone) + right && IsBlank(left) && IsBlank(right)
  {
    var before, after := TrimCutsBothEnds(zone);
    left, right := zone[..before], zone[|zone| - after..];
  }

  lemma CutCore(trimmed: string) returns (quote: string)
    requires trimmed != ""
    ensures quote in {"", "\"", "'"} && trimmed == quote + Unquoted(trimmed) + quote
  {
    if IsQuoted(trimmed) {
      quote := [trimmed[0]];
    } else {
      quote := "";
    }
  }

  lemma CutSegment(indent: nat, segment: string, spaces: nat, marked: bool) returns (p: Parts)
    requires ParseSegment(indent, segment).Some?
    requires !marked ==> !(" " <= segment) && !("- " <= segment)
    ensures IsKeyLine(p) && p.spaces == spaces && p.marked == marked && segment == Zone(p) + ":" + p.value
  {
    var zone, value := CutAtColon(indent, segment);
    var left, quote, name, right := CutZoneParts(indent, zone, OpensSection(Trim(value)));
    p := Parts(spaces, marked, left, quote, name, right, value);
    if !marked { StartsUnmarked(p, segment); }
  }

  lemma CutAtColon(indent: nat, segment: string) returns (zone: string, value: string)
    requires ParseSegment(indent, segment).Some?
    ensures segment == zone + ":" + value
    ensures KeyFrom(indent, zone, Trim(zone), OpensSection(Trim(value))).Some?
  {
    var colon := Find(segment, ":").value;
    zone, value := segment[..colon], segment[colon + 1..];
  }

  // What an unmarked segment does not start with.
  lemma StartsUnmarked(p: Parts, segment: string)
    requires IsName(p.name) && segment == Zone(p) + ":" + p.value && !(" " <= segment) && !("- " <= segment)
    ensures p.left == "" || p.left[0] != ' '
    ensures p.left + p.quote == "" && p.name == "-" ==> p.right == "" || p.right[0] != ' '
  {
    if p.left != "" {
      assert segment[0] == p.left[0];
    } else if p.quote == "" && p.name == "-" && p.right != "" {
      assert segment[0] == '-' && segment[1] == p.right[0];
    }
  }

  lemma CutZoneParts(indent: nat, zone: string, opens: bool)
    returns (left: string, quote: string, name: string, right: string)
    requires KeyFrom(indent, zone, Trim(zone), opens).Some?
    ensures IsName(name) && IsBlank(left) && IsBlank(right) && quote in {"", "\"", "'"}
    ensures zone == left + (quote + name + quote) + right
  {
    left, right := CutZone(zone);
    KeyFromSpan(indent, zone, Trim(zone), opens);
    name := Unquoted(Trim(zone));
    quote := CutCore(Trim(zone));
  }

  // Every line that holds a key is written like that.
  lemma KeyLineOnly(raw: string) returns (p: Parts)
    requires ParseLine(raw).Some?
    ensures IsKeyLine(p) && Written(p) == raw
  {
    var line := TrimCarriageReturns(raw);
    ReturnsCut(raw);
    LineSegment(line);
    var n := LeadingSpaces(line);
    SegmentStarts(line, n);
    var q := CutSegment(Segment(line).0, Segment(line).1, n, "- " <= line[n..]);
    p := q.(value := q.value + raw[|line|..]);
    WholeLine(p, q, line, raw);
  }

  lemma SegmentStarts(line: string, n: nat)
    requires n == LeadingSpaces(line)
    ensures var marked, segment := "- " <= line[n..], Segment(line).1;
            && line == Spaces(n) + ((if marked then "- " else "") + segment)
            && (!marked ==> !(" " <= segment) && !("- " <= segment))
  {
    assert line == Spaces(n) + line[n..];
    MarkerCut(line, n, line[n..]);
  }

  lemma MarkerCut(line: string, n: nat, rest: string)
    requires n == LeadingSpaces(line) && rest == line[n..]
    ensures rest == (if "- " <= rest then "- " else "") + Segment(line).1
  {
    if "- " <= rest {
      assert rest == "- " + rest[2..];
    }
  }

  lemma WholeLine(p: Parts, q: Parts, line: string, raw: string)
    requires line <= raw && line == Spaces(q.spaces) + (Marker(q) + (Zone(q) + ":" + q.value))
    requires p == q.(value := q.value + raw[|line|..])
    ensures Written(p) == raw
  {
    assert Zone(p) + ":" + p.value == Zone(q) + ":" + q.value + raw[|line|..];
    assert raw == line + raw[|line|..];
  }

  // So a line holds a key if and only if it is written like that.
  lemma HoldsKeyIff(raw: string)
    ensures ParseLine(raw).Some? <==> exists p :: IsKeyLine(p) && Written(p) == raw
  {
    if ParseLine(raw).Some? {
      var p := KeyLineOnly(raw);
    }
    if exists p :: IsKeyLine(p) && Written(p) == raw {
      var p :| IsKeyLine(p) && Written(p) == raw;
      KeyLineParses(p);
    }
  }

  // ---- documents ----

  // The cursor on a key's columns, which have 32 bits, finds it under its full name.
  lemma CursorOnKeyLine(content: string, n: nat, p: Parts, character: nat) returns (i: nat)
    requires |Lines(content)| <= 0x1_0000_0000 && n < |Lines(content)|
    requires IsKeyLine(p) && Lines(content)[n] == Written(p)
    requires KeyOf(p).start % 0x1_0000_0000 <= character <= KeyOf(p).end % 0x1_0000_0000
    ensures i < |ItemsOf(content)| && ItemsOf(content)[i] == Item(n, KeyOf(p))
    ensures KeyAtCursor(Entries(ItemsOf(content)), n, character) == Some(FullKey(ItemsOf(content), i))
  {
    KeyLineParses(p);
    i := KeyHasItem(KeysOf(Lines(content)), n, KeyOf(p));
    CursorOnItem(KeysOf(Lines(content)), n, KeyOf(p), character, i);
  }

  lemma KeyHasItem(keys: seq<Option<Key>>, n: nat, key: Key) returns (i: nat)
    requires n < |keys| && keys[n] == Some(key)
    ensures i < |Items(keys)| && Items(keys)[i] == Item(n, key)
  {
    ItemLinesIncrease(keys);
    assert Item(n, key) in Items(keys);
    i :| 0 <= i < |Items(keys)| && Items(keys)[i] == Item(n, key);
  }

  lemma CursorOnItem(keys: seq<Option<Key>>, n: nat, key: Key, character: nat, i: nat)
    requires n < |keys| <= 0x1_0000_0000
    requires key.start % 0x1_0000_0000 <= character <= key.end % 0x1_0000_0000
    requires i < |Items(keys)| && Items(keys)[i] == Item(n, key)
    ensures KeyAtCursor(Entries(Items(keys)), n, character) == Some(FullKey(Items(keys), i))
  {
    CursorIsUnambiguous(keys, n, character, i);
  }

  ghost predicate NoFeed(s: string) {
    forall i :: 0 <= i < |s| ==> s[i] != '\n'
  }

  function Joined(lines: seq<string>): string {
    if lines == [] then "" else lines[0] + "\n" + Joined(lines[1..])
  }

  lemma {:induction false} LineEndExact(s: string)
    ensures NoFeed(s[..LineEnd(s)]) && (LineEnd(s) < |s| ==> s[LineEnd(s)] == '\n')
  {
    if s != "" && s[0] != '\n' {
      LineEndExact(s[1..]);
      assert s[..LineEnd(s)] == [s[0]] + s[1..][..LineEnd(s) - 1];
    }
  }

  predicate EndsLine(content: string) {
    content == "" || content[|content| - 1] == '\n'
  }

  // A document is its lines, each with a line feed behind it that the last one may lack; no line holds
  // a line feed.
  lemma {:induction false} LinesExact(content: string)
    ensures forall i :: 0 <= i < |Lines(content)| ==> NoFeed(Lines(content)[i])
    ensures Joined(Lines(content)) == if EndsLine(content) then content else content + "\n"
  {
    if content != "" {
      var n := LineEnd(content);
      LineEndExact(content);
      if n < |content| {
        LinesExact(content[n + 1..]);
        FirstLine(content, n, content[n + 1..]);
        LineCutOff(content[..n], content[n + 1..], content, Lines(content[n + 1..]));
      } else {
        LastLine(content);
      }
    }
  }

  lemma FirstLine(content: string, n: nat, rest: string)
    requires n < |content| && n == LineEnd(content) && content[n] == '\n' && rest == content[n + 1..]
    ensures content == content[..n] + "\n" + rest && Lines(content) == [content[..n]] + Lines(rest)
  {
  }

  lemma LineCutOff(first: string, rest: string, content: string, lines: seq<string>)
    requires content == first + "\n" + rest
    requires Joined(lines) == if EndsLine(rest) then rest else rest + "\n"
    ensures Joined([first] + lines) == if EndsLine(content) then content else content + "\n"
  {
    assert ([first] + lines)[1..] == lines;
    assert Joined([first] + lines) == first + "\n" + Joined(lines);
    FeedBehind(first, rest);
  }

  lemma FeedBehind(first: string, rest: string)
    ensures EndsLine(first + "\n" + rest) == EndsLine(rest)
    ensures first + "\n" + (rest + "\n") == first + "\n" + rest + "\n"
  {
  }

  lemma LastLine(content: string)
    requires content != "" && LineEnd(content) == |content| && NoFeed(content[..LineEnd(content)])
    ensures Lines(content) == [content] && Joined([content]) == content + "\n" && !EndsLine(content)
  {
    assert content[..LineEnd(content)] == content && [content][1..] == [];
    assert Joined([]) == "";
  }
}
