/**
 Property keys of a YAML document (src-tauri/src/code_intel.rs).

 The parser keeps a stack of open sections while it walks the lines. The specification names no
 stack: a key's parent is found by looking back over the accepted lines.
 */
module YamlKeys {
  import opened Wrappers
  import opened Text

  // ---- one line ----

  // A line that holds a key: its indentation, the key, its byte span, and whether a section opens.
  datatype Key = Key(indent: nat, name: string, start: nat, end: nat, opens: bool)

  function TrimCarriageReturns(s: string): string {
    if s != "" && s[|s| - 1] == '\r' then TrimCarriageReturns(s[..|s| - 1]) else s
  }

  function LeadingSpaces(s: string): (n: nat)
    ensures n <= |s| && (n < |s| ==> s[n] != ' ') && forall i :: 0 <= i < n ==> s[i] == ' '
  {
    if s == "" || s[0] != ' ' then 0 else 1 + LeadingSpaces(s[1..])
  }

  function Find(s: string, part: string): (r: Option<nat>)
    ensures r.Some? ==> r.value + |part| <= |s| && s[r.value..r.value + |part|] == part
    ensures r.Some? ==> forall i :: 0 <= i < r.value ==> !(part <= s[i..])
  {
    if part <= s then Some(0)
    else if s == "" then None
    else
      match Find(s[1..], part)
      case None => None
      case Some(i) =>
        assert s[1..][i..i + |part|] == s[i + 1..i + 1 + |part|];
        assert forall k :: 1 <= k < i + 1 ==> s[k..] == s[1..][k - 1..];
        Some(i + 1)
  }

  predicate IsKeyChar(c: char) {
    'a' <= c <= 'z' || 'A' <= c <= 'Z' || '0' <= c <= '9' || c == '_' || c == '-' || c == '.'
  }

  predicate IsQuotedBy(s: string, q: char) {
    |s| >= 2 && s[0] == q && s[|s| - 1] == q
  }

  predicate IsQuoted(s: string) {
    IsQuotedBy(s, '"') || IsQuotedBy(s, '\'')
  }

  predicate OpensSection(value: string) {
    value == "" || value[0] == '#' || value == "|" || value == ">"
  }

  // The text of a line behind its indentation, once a "- " list marker has been counted as indentation.
  function Segment(line: string): (nat, string) {
    var indent := LeadingSpaces(line);
    var rest := line[indent..];
    if "- " <= rest then (indent + 2, rest[2..]) else (indent, rest)
  }

  function Unquoted(trimmed: string): string {
    if IsQuoted(trimmed) then trimmed[1..|trimmed| - 1] else trimmed
  }

  function Quote(trimmed: string): nat {
    if IsQuoted(trimmed) then 1 else 0
  }

  // Where the key starts, counted in bytes from the start of the line.
  function KeyStart(indent: nat, zone: string, trimmed: string): nat {
    indent
    + (match Find(zone, trimmed) case Some(i) => ByteLength(zone[..i]) case None => 0)
    + Quote(trimmed)
  }

  function KeyFrom(indent: nat, zone: string, trimmed: string, opens: bool): Option<Key> {
    var name := Unquoted(trimmed);
    if name == "" || exists i :: 0 <= i < |name| && !IsKeyChar(name[i]) then None
    else Some(Key(indent, name, KeyStart(indent, zone, trimmed), KeyStart(indent, zone, trimmed) + |name|, opens))
  }

  function ParseSegment(indent: nat, segment: string): Option<Key> {
    match Find(segment, ":")
    case None => None
    case Some(colon) =>
      var zone := segment[..colon];
      KeyFrom(indent, zone, Trim(zone), OpensSection(Trim(segment[colon + 1..])))
  }

  function ParseLine(raw: string): Option<Key> {
    LineKey(TrimCarriageReturns(raw))
  }

  function LineKey(line: string): Option<Key> {
    if Trim(line) == "" then None
    else if "#" <= line[LeadingSpaces(line)..] then None
    else
      var (indent, segment) := Segment(line);
      if segment == "" || segment[0] == '#' then None else ParseSegment(indent, segment)
  }

  // ---- the whole document ----

  // str::lines, up to the carriage returns every line loses anyway.
  function LineEnd(s: string): (n: nat)
    ensures n <= |s|
  {
    if s == "" || s[0] == '\n' then 0 else 1 + LineEnd(s[1..])
  }

  function Lines(content: string): seq<string> {
    if content == "" then []
    else
      var n := LineEnd(content);
      [content[..n]] + if n < |content| then Lines(content[n + 1..]) else []
  }

  // An accepted line and its number.
  datatype Item = Item(line: nat, key: Key)

  function KeysOf(lines: seq<string>): seq<Option<Key>> {
    seq(|lines|, i requires 0 <= i < |lines| => ParseLine(lines[i]))
  }

  function Items(keys: seq<Option<Key>>): seq<Item> {
    if keys == [] then []
    else
      var front, last := Items(keys[..|keys| - 1]), keys[|keys| - 1];
      if last.Some? then front + [Item(|keys| - 1, last.value)] else front
  }

  function ItemsOf(content: string): seq<Item> {
    Items(KeysOf(Lines(content)))
  }

  // Section j is still open behind the given items: every item since is indented deeper.
  predicate IsOpen(items: seq<Item>, j: int) {
    0 <= j < |items| && items[j].key.opens && forall k :: j < k < |items| ==> items[k].key.indent > items[j].key.indent
  }

  // Section j encloses what comes next at this indentation.
  predicate Encloses(items: seq<Item>, j: int, indent: nat) {
    IsOpen(items, j) && items[j].key.indent < indent
  }

  // The latest of the first n items that encloses what comes next.
  function LatestEnclosing(items: seq<Item>, indent: nat, n: nat): (r: Option<nat>)
    requires n <= |items|
    ensures r.Some? ==> r.value < n && Encloses(items, r.value, indent)
    ensures r.Some? ==> forall j :: r.value < j < n ==> !Encloses(items, j, indent)
    ensures r.None? ==> forall j :: 0 <= j < n ==> !Encloses(items, j, indent)
  {
    if n == 0 then None
    else if Encloses(items, n - 1, indent) then Some(n - 1)
    else LatestEnclosing(items, indent, n - 1)
  }

  // A key's full name: its own behind the full name of the latest section that encloses it.
  function FullKeyOf(before: seq<Item>, key: Key): string
    decreases |before|
  {
    match LatestEnclosing(before, key.indent, |before|)
    case None => key.name
    case Some(j) => FullKeyOf(before[..j], before[j].key) + "." + key.name
  }

  function FullKey(items: seq<Item>, i: nat): string
    requires i < |items|
  {
    FullKeyOf(items[..i], items[i].key)
  }

  function U32(n: nat): nat {
    n % 0x1_0000_0000
  }

  datatype Entry = Entry(fullKey: string, line: nat, keyStart: nat, keyEnd: nat)

  function EntryOf(items: seq<Item>, i: nat): Entry
    requires i < |items|
  {
    Entry(FullKey(items, i), U32(items[i].line), U32(items[i].key.start), U32(items[i].key.end))
  }

  function Entries(items: seq<Item>): seq<Entry> {
    seq(|items|, i requires 0 <= i < |items| => EntryOf(items, i))
  }

  // ---- the parser ----

  datatype Section = Section(indent: nat, fullKey: string)

  method ParseYamlPropertyEntries(content: string) returns (entries: seq<Entry>)
    ensures entries == Entries(ItemsOf(content))
  {
    entries := NameKeys(KeysOf(Lines(content)));
  }

  // The loop over the lines, with what each of them parses to.
  method NameKeys(keys: seq<Option<Key>>) returns (entries: seq<Entry>)
    ensures entries == Entries(Items(keys))
  {
    var stack: seq<Section> := [];
    ghost var open: seq<int> := [];
    entries := [];
    for n := 0 to |keys|
      invariant entries == Entries(Items(keys[..n]))
      invariant StackOk(Items(keys[..n]), stack, open)
    {
      ghost var items := Items(keys[..n]);
      assert keys[..n + 1][..n] == keys[..n];
      if keys[n].Some? {
        var entry;
        entry, stack, open := AcceptKey(items, n, keys[n].value, stack, open);
        entries := entries + [entry];
        EntriesGrow(items, Item(n, keys[n].value));
      }
    }
    assert keys[..|keys|] == keys;
  }

  // What the loop does with an accepted line.
  method AcceptKey(ghost items: seq<Item>, line: nat, key: Key, stack: seq<Section>, ghost open: seq<int>)
    returns (entry: Entry, left: seq<Section>, ghost still: seq<int>)
    requires StackOk(items, stack, open)
    ensures entry == EntryOf(items + [Item(line, key)], |items|)
    ensures StackOk(items + [Item(line, key)], left, still)
  {
    left, still := CloseSections(items, stack, open, key.indent);
    TopIsParent(items, key, left, still);
    var fullKey := if left != [] then left[|left| - 1].fullKey + "." + key.name else key.name;
    entry := Entry(fullKey, U32(line), U32(key.start), U32(key.end));
    assert (items + [Item(line, key)])[..|items|] == items;
    AcceptKeepsStack(items, Item(line, key), left, still, fullKey);
    if key.opens {
      left, still := left + [Section(key.indent, fullKey)], still + [|items|];
    }
  }

  // `open` lists, in order, exactly the items whose sections are open.
  ghost predicate OpenOk(items: seq<Item>, open: seq<int>) {
    && (forall m, o :: 0 <= m < o < |open| ==> open[m] < open[o])
    && (forall j :: j in open <==> IsOpen(items, j))
  }

  // The same, for the sections that enclose what comes next at this indentation.
  ghost predicate EnclosingOk(items: seq<Item>, open: seq<int>, indent: nat) {
    && (forall m, o :: 0 <= m < o < |open| ==> open[m] < open[o])
    && (forall j :: j in open <==> Encloses(items, j, indent))
  }

  function SectionOf(items: seq<Item>, j: int): Section
    requires 0 <= j < |items|
  {
    Section(items[j].key.indent, FullKey(items, j))
  }

  // The stack holds the sections of these items.
  ghost predicate SectionsOf(items: seq<Item>, stack: seq<Section>, open: seq<int>) {
    && |stack| == |open|
    && forall m :: 0 <= m < |open| ==> 0 <= open[m] < |items| && stack[m] == SectionOf(items, open[m])
  }

  ghost predicate StackOk(items: seq<Item>, stack: seq<Section>, open: seq<int>) {
    OpenOk(items, open) && SectionsOf(items, stack, open)
  }

  // The sections on the stack are indented ever deeper.
  lemma StackStrictlyDeeper(items: seq<Item>, stack: seq<Section>, open: seq<int>, m: nat, o: nat)
    requires StackOk(items, stack, open) && m < o < |stack|
    ensures stack[m].indent < stack[o].indent
  {
    assert open[m] in open && open[o] in open;
    assert IsOpen(items, open[m]) && open[m] < open[o] < |items|;
  }

  // The popping loop.
  method CloseSections(ghost items: seq<Item>, stack: seq<Section>, ghost open: seq<int>, indent: nat)
    returns (left: seq<Section>, ghost still: seq<int>)
    requires StackOk(items, stack, open)
    ensures left <= stack && forall m :: 0 <= m < |stack| ==> (m < |left| <==> stack[m].indent < indent)
    ensures EnclosingOk(items, still, indent) && SectionsOf(items, left, still)
  {
    left, still := stack, open;
    while left != [] && indent <= left[|left| - 1].indent
      invariant |left| <= |stack| && left == stack[..|left|] && still == open[..|left|]
      invariant forall m :: |left| <= m < |stack| ==> stack[m].indent >= indent
    {
      left, still := left[..|left| - 1], still[..|still| - 1];
    }
    ShallowerBelow(items, stack, open, indent, |left|);
    CutKeepsEnclosing(items, stack, open, indent, |left|);
  }

  lemma ShallowerBelow(items: seq<Item>, stack: seq<Section>, open: seq<int>, indent: nat, n: nat)
    requires StackOk(items, stack, open) && n <= |stack| && (n > 0 ==> stack[n - 1].indent < indent)
    ensures forall m :: 0 <= m < n ==> stack[m].indent < indent
  {
    forall m | 0 <= m < n ensures stack[m].indent < indent {
      if m < n - 1 { StackStrictlyDeeper(items, stack, open, m, n - 1); }
    }
  }

  lemma CutKeepsEnclosing(items: seq<Item>, stack: seq<Section>, open: seq<int>, indent: nat, n: nat)
    requires StackOk(items, stack, open) && n <= |stack|
    requires forall m :: 0 <= m < n ==> stack[m].indent < indent
    requires forall m :: n <= m < |stack| ==> stack[m].indent >= indent
    ensures EnclosingOk(items, open[..n], indent) && SectionsOf(items, stack[..n], open[..n])
  {
    forall j ensures j in open[..n] <==> Encloses(items, j, indent) {
      if j in open {
        var m :| 0 <= m < |open| && open[m] == j;
        assert stack[m] == SectionOf(items, j);
        assert m < n ==> open[..n][m] == j;
      }
      if j in open[..n] {
        var m :| 0 <= m < n && open[..n][m] == j;
        assert open[m] == j && stack[m] == SectionOf(items, j);
      }
    }
  }

  // The top of the remaining stack is the new key's parent.
  lemma TopIsParent(items: seq<Item>, key: Key, left: seq<Section>, still: seq<int>)
    requires EnclosingOk(items, still, key.indent) && SectionsOf(items, left, still)
    ensures FullKeyOf(items, key)
         == if left != [] then left[|left| - 1].fullKey + "." + key.name else key.name
  {
    if left != [] {
      var top := still[|still| - 1];
      LastIsLatest(items, key.indent, still);
      NamedAfter(items, key, top);
      TopSection(items, left, still);
    } else {
      NothingEncloses(items, key, still);
    }
  }

  lemma TopSection(items: seq<Item>, left: seq<Section>, still: seq<int>)
    requires SectionsOf(items, left, still) && left != []
    ensures var top := still[|still| - 1]; 0 <= top < |items| && left[|left| - 1] == SectionOf(items, top)
  {
  }

  lemma NamedAfter(items: seq<Item>, key: Key, j: int)
    requires 0 <= j < |items|
    requires LatestEnclosing(items, key.indent, |items|).Some? && LatestEnclosing(items, key.indent, |items|).value == j
    ensures FullKeyOf(items, key) == SectionOf(items, j).fullKey + "." + key.name
  {
  }

  lemma NothingEncloses(items: seq<Item>, key: Key, still: seq<int>)
    requires EnclosingOk(items, still, key.indent) && still == []
    ensures FullKeyOf(items, key) == key.name
  {
    assert forall j :: !Encloses(items, j, key.indent);
  }

  // The last of the enclosing sections is the latest.
  lemma LastIsLatest(items: seq<Item>, indent: nat, still: seq<int>)
    requires EnclosingOk(items, still, indent) && still != []
    ensures 0 <= still[|still| - 1] < |items| && LatestEnclosing(items, indent, |items|).Some?
    ensures LatestEnclosing(items, indent, |items|).value == still[|still| - 1]
  {
    var top := still[|still| - 1];
    assert top in still && Encloses(items, top, indent);
    var latest := LatestEnclosing(items, indent, |items|).value;
    assert latest in still;
    var m :| 0 <= m < |still| && still[m] == latest;
  }

  // The stack behind an accepted key, which is pushed when it opens a section.
  lemma AcceptKeepsStack(items: seq<Item>, last: Item, left: seq<Section>, still: seq<int>, fullKey: string)
    requires EnclosingOk(items, still, last.key.indent) && SectionsOf(items, left, still)
    requires fullKey == FullKeyOf(items, last.key)
    ensures StackOk(items + [last],
                    if last.key.opens then left + [Section(last.key.indent, fullKey)] else left,
                    if last.key.opens then still + [|items|] else still)
  {
    AcceptKeepsOpen(items, last, still);
    SectionsKept(items, last, left, still);
    assert (items + [last])[..|items|] == items;
    assert SectionOf(items + [last], |items|) == Section(last.key.indent, fullKey);
    PushSection(items + [last], left, still, |items|);
  }

  lemma SectionsKept(items: seq<Item>, last: Item, left: seq<Section>, still: seq<int>)
    requires SectionsOf(items, left, still)
    ensures SectionsOf(items + [last], left, still)
  {
    AcceptKeepsSections(items, last, still);
  }

  lemma PushSection(items: seq<Item>, left: seq<Section>, still: seq<int>, j: nat)
    requires SectionsOf(items, left, still) && j < |items|
    ensures SectionsOf(items, left + [SectionOf(items, j)], still + [j])
  {
  }

  lemma AcceptKeepsOpen(items: seq<Item>, last: Item, still: seq<int>)
    requires EnclosingOk(items, still, last.key.indent)
    ensures OpenOk(items + [last], if last.key.opens then still + [|items|] else still)
  {
    var grown := items + [last];
    forall j ensures IsOpen(grown, j) <==> (j in still || (j == |items| && last.key.opens)) {
      OpenAfterOne(items, last, j);
    }
    forall m | 0 <= m < |still| ensures still[m] < |items| {
      assert still[m] in still;
    }
  }

  lemma OpenAfterOne(items: seq<Item>, last: Item, j: int)
    ensures IsOpen(items + [last], j) <==> Encloses(items, j, last.key.indent) || (j == |items| && last.key.opens)
  {
    var grown := items + [last];
    if IsOpen(grown, j) && j < |items| {
      assert grown[|items|].key.indent > grown[j].key.indent;
      forall k | j < k < |items| ensures items[k].key.indent > items[j].key.indent {
        assert grown[k] == items[k];
      }
    }
  }

  lemma AcceptKeepsSections(items: seq<Item>, last: Item, still: seq<int>)
    requires forall m :: 0 <= m < |still| ==> 0 <= still[m] < |items|
    ensures forall m :: 0 <= m < |still| ==> SectionOf(items + [last], still[m]) == SectionOf(items, still[m])
  {
    forall m | 0 <= m < |still| ensures SectionOf(items + [last], still[m]) == SectionOf(items, still[m]) {
      assert (items + [last])[..still[m]] == items[..still[m]];
    }
  }

  lemma EntriesGrow(items: seq<Item>, last: Item)
    ensures Entries(items + [last]) == Entries(items) + [EntryOf(items + [last], |items|)]
  {
    forall i | 0 <= i < |items| ensures EntryOf(items + [last], i) == EntryOf(items, i) {
      assert (items + [last])[..i] == items[..i];
    }
  }

  // Section j is where the key of item i belongs: it is indented less, and all between are deeper.
  predicate Holds(items: seq<Item>, j: int, i: int) {
    && 0 <= j < i < |items|
    && items[j].key.opens && items[j].key.indent < items[i].key.indent
    && forall k :: j < k < i ==> items[j].key.indent < items[k].key.indent
  }

  // A full name is the key's own behind that of the latest section it belongs to, or its own alone.
  lemma FullKeyNests(items: seq<Item>, i: nat)
    requires i < |items|
    ensures (forall j :: !Holds(items, j, i)) ==> FullKey(items, i) == items[i].key.name
    ensures forall j: nat :: Holds(items, j, i) && (forall k :: j < k ==> !Holds(items, k, i)) ==>
              FullKey(items, i) == FullKey(items, j) + "." + items[i].key.name
  {
    var before, key := items[..i], items[i].key;
    forall j ensures Encloses(before, j, key.indent) <==> Holds(items, j, i) {
      EnclosesHolds(items, j, i);
    }
    match LatestEnclosing(before, key.indent, i)
    case None => NamedAlone(before, key);
    case Some(latest) =>
      assert Holds(items, latest, i) && before[..latest] == items[..latest];
      NamedAfter(before, key, latest);
  }

  lemma NamedAlone(items: seq<Item>, key: Key)
    requires LatestEnclosing(items, key.indent, |items|) == None
    ensures FullKeyOf(items, key) == key.name
  {
  }

  lemma EnclosesHolds(items: seq<Item>, j: int, i: nat)
    requires i < |items|
    ensures Encloses(items[..i], j, items[i].key.indent) <==> Holds(items, j, i)
  {
    if 0 <= j < i {
      assert forall k :: j < k < i ==> items[..i][k] == items[k];
    }
  }

  // ---- looking up the key under the cursor ----

  function KeyAtCursor(entries: seq<Entry>, line: nat, character: nat): Option<string> {
    if entries == [] then None
    else
      var e := entries[|entries| - 1];
      if e.line == line && e.keyStart <= character <= e.keyEnd then Some(e.fullKey)
      else KeyAtCursor(entries[..|entries| - 1], line, character)
  }

  method YamlKeyAtCursor(content: string, line: nat, character: nat) returns (r: Option<string>)
    ensures r == KeyAtCursor(Entries(ItemsOf(content)), line, character)
  {
    var entries := ParseYamlPropertyEntries(content);
    r := KeyAtCursor(entries, line, character);
  }

  // The items are the lines that hold a key, in order: each such line yields one, no other yields any.
  lemma {:induction false} ItemLinesIncrease(keys: seq<Option<Key>>)
    ensures forall i :: 0 <= i < |Items(keys)| ==>
              Items(keys)[i].line < |keys| && keys[Items(keys)[i].line] == Some(Items(keys)[i].key)
    ensures forall i, j :: 0 <= i < j < |Items(keys)| ==> Items(keys)[i].line < Items(keys)[j].line
    ensures forall n :: 0 <= n < |keys| && keys[n].Some? ==> Item(n, keys[n].value) in Items(keys)
  {
    if keys != [] {
      ItemLinesIncrease(keys[..|keys| - 1]);
    }
  }

  predicate Covers(e: Entry, line: nat, character: nat) {
    e.line == line && e.keyStart <= character <= e.keyEnd
  }

  lemma {:induction false} CursorFindsLast(entries: seq<Entry>, line: nat, character: nat, i: nat) returns (k: nat)
    requires i < |entries| && Covers(entries[i], line, character)
    ensures k < |entries| && Covers(entries[k], line, character)
    ensures KeyAtCursor(entries, line, character) == Some(entries[k].fullKey)
  {
    var last := |entries| - 1;
    if Covers(entries[last], line, character) {
      k := last;
    } else {
      k := CursorFindsLast(entries[..last], line, character, i);
    }
  }

  lemma {:induction false} CursorFindsOnlyCovering(entries: seq<Entry>, line: nat, character: nat)
    requires forall i :: 0 <= i < |entries| ==> !Covers(entries[i], line, character)
    ensures KeyAtCursor(entries, line, character) == None
  {
    if entries != [] {
      CursorFindsOnlyCovering(entries[..|entries| - 1], line, character);
    }
  }

  // The lookup is unambiguous: in a document of at most 2^32 lines it finds a key exactly when the
  // cursor lies in the span of an accepted line's key, and then the key of that one line.
  lemma CursorIsUnambiguous(keys: seq<Option<Key>>, line: nat, character: nat, i: nat)
    requires |keys| <= 0x1_0000_0000 && i < |Items(keys)|
    ensures Covers(EntryOf(Items(keys), i), line, character) ==>
              KeyAtCursor(Entries(Items(keys)), line, character) == Some(FullKey(Items(keys), i))
    ensures KeyAtCursor(Entries(Items(keys)), line, character).Some? ==>
              exists k :: 0 <= k < |Items(keys)| && Covers(EntryOf(Items(keys), k), line, character)
  {
    var entries := Entries(Items(keys));
    if Covers(EntryOf(Items(keys), i), line, character) {
      var k := CursorFindsLast(entries, line, character, i);
      OneItemPerLine(keys, i, k);
    }
    if forall k :: 0 <= k < |entries| ==> !Covers(entries[k], line, character) {
      CursorFindsOnlyCovering(entries, line, character);
    } else {
      var k :| 0 <= k < |entries| && Covers(entries[k], line, character);
      assert Covers(EntryOf(Items(keys), k), line, character);
    }
  }

  lemma OneItemPerLine(keys: seq<Option<Key>>, i: nat, k: nat)
    requires |keys| <= 0x1_0000_0000 && i < |Items(keys)| && k < |Items(keys)|
    requires U32(Items(keys)[i].line) == U32(Items(keys)[k].line)
    ensures i == k
  {
    ItemLinesIncrease(keys);
  }

  // ---- the span points at the key ----

  lemma {:induction false} ByteLengthExact(s: string)
    ensures ByteLength(s) >= |s| && (ByteLength(s) == |s| <==> IsAscii(s))
  {
    if s != "" {
      ByteLengthExact(s[1..]);
    }
  }

  // The trimmed text is found where it starts, behind the leading blanks.
  lemma FindTrimmed(zone: string) returns (before: nat)
    requires Trim(zone) != ""
    ensures Find(zone, Trim(zone)) == Some(before)
    ensures forall i :: 0 <= i < before ==> IsWhitespace(zone[i])
  {
    var after;
    before, after := TrimCutsBothEnds(zone);
    assert zone[before..|zone| - after] == Trim(zone);
    assert Trim(zone) <= zone[before..];
    FindAt(zone, Trim(zone), before);
  }

  lemma {:induction false} FindAt(s: string, part: string, at: nat)
    requires part != "" && at + |part| <= |s| && part <= s[at..]
    requires forall i :: 0 <= i < at ==> s[i] != part[0]
    ensures Find(s, part) == Some(at)
  {
    if at > 0 {
      assert s[1..][at - 1..] == s[at..];
      assert s[0] != part[0];
      FindAt(s[1..], part, at - 1);
    } else {
      assert s[0..] == s;
    }
  }

  ghost predicate StandsAt(s: string, from: nat, part: string) {
    from + |part| <= |s| && forall i :: 0 <= i < |part| ==> part[i] == s[from + i]
  }

  lemma StandsInside(s: string, from: nat, part: string, at: nat, inner: string)
    requires StandsAt(s, from, part) && StandsAt(part, at, inner)
    ensures StandsAt(s, from + at, inner)
  {
    forall i | 0 <= i < |inner| ensures inner[i] == s[from + at + i] {
      assert part[at + i] == s[from + (at + i)];
    }
  }

  lemma FoundStandsAt(zone: string, part: string)
    requires Find(zone, part).Some?
    ensures StandsAt(zone, Find(zone, part).value, part)
  {
  }

  lemma UnquotedStandsAt(trimmed: string)
    ensures StandsAt(trimmed, Quote(trimmed), Unquoted(trimmed))
  {
  }

  lemma StandsDeep(line: string, indent: nat, zone: string, before: nat, trimmed: string, quote: nat, name: string)
    requires StandsAt(line, indent, zone) && StandsAt(zone, before, trimmed) && StandsAt(trimmed, quote, name)
    ensures StandsAt(line, indent + before + quote, name)
  {
    StandsInside(zone, before, trimmed, quote, name);
    StandsInside(line, indent, zone, before + quote, name);
    assert indent + (before + quote) == indent + before + quote;
  }

  lemma {:induction false} ByteLengthConcat(a: string, b: string)
    ensures ByteLength(a + b) == ByteLength(a) + ByteLength(b)
  {
    if a == "" {
      assert a + b == b;
    } else {
      assert (a + b)[1..] == a[1..] + b;
      ByteLengthConcat(a[1..], b);
    }
  }

  lemma QuoteIsAscii(zone: string, blanks: nat, trimmed: string)
    requires StandsAt(zone, blanks, trimmed)
    ensures blanks + Quote(trimmed) <= |zone| && IsAscii(zone[blanks..blanks + Quote(trimmed)])
  {
    if IsQuoted(trimmed) {
      assert zone[blanks + 0] == trimmed[0];
    }
  }

  lemma {:induction false} TrimmedIsPrefix(raw: string)
    ensures TrimCarriageReturns(raw) <= raw
  {
    if raw != "" && raw[|raw| - 1] == '\r' {
      TrimmedIsPrefix(raw[..|raw| - 1]);
    }
  }

  // What lies before the segment is as many ASCII characters as it counts for.
  lemma SegmentStandsAt(line: string)
    ensures var (indent, segment) := Segment(line);
            StandsAt(line, indent, segment) && indent <= |line| && IsAscii(line[..indent])
  {
    var n := LeadingSpaces(line);
    var rest := line[n..];
    if "- " <= rest {
      assert line[n] == rest[0] && line[n + 1] == rest[1];
    }
  }

  // The bytes before the key: the indentation, the blanks and the quote.
  lemma BytesBeforeKey(line: string, indent: nat, zone: string, blanks: nat, quote: nat)
    requires StandsAt(line, indent, zone) && IsAscii(line[..indent]) && blanks + quote <= |zone|
    requires IsAscii(zone[blanks..blanks + quote])
    ensures ByteLength(line[..indent + blanks + quote]) == indent + ByteLength(zone[..blanks]) + quote
  {
    var front, between, mark := line[..indent], zone[..blanks], zone[blanks..blanks + quote];
    assert line[..indent + blanks + quote] == front + between + mark;
    ByteLengthConcat(front + between, mark);
    ByteLengthConcat(front, between);
    ByteLengthExact(front);
    ByteLengthExact(mark);
  }

  // A key found behind its blanks starts at their byte offset.
  lemma StartIsOffset(line: string, indent: nat, zone: string, blanks: nat, trimmed: string)
    requires StandsAt(line, indent, zone) && IsAscii(line[..indent]) && StandsAt(zone, blanks, trimmed)
    ensures var at := indent + blanks + Quote(trimmed);
            && at <= |line| && StandsAt(line, at, Unquoted(trimmed))
            && ByteLength(line[..at]) == indent + ByteLength(zone[..blanks]) + Quote(trimmed)
  {
    QuoteIsAscii(zone, blanks, trimmed);
    BytesBeforeKey(line, indent, zone, blanks, Quote(trimmed));
    UnquotedStandsAt(trimmed);
    StandsDeep(line, indent, zone, blanks, trimmed, Quote(trimmed), Unquoted(trimmed));
  }

  lemma KeyFromSpan(indent: nat, zone: string, trimmed: string, opens: bool)
    requires KeyFrom(indent, zone, trimmed, opens).Some?
    ensures var key := KeyFrom(indent, zone, trimmed, opens).value;
            && key.name == Unquoted(trimmed) != "" && trimmed != ""
            && key.start == KeyStart(indent, zone, trimmed) && key.end == key.start + |key.name|
  {
  }

  lemma FoundTrimmed(zone: string, trimmed: string)
    requires trimmed == Trim(zone) != ""
    ensures Find(zone, trimmed).Some?
  {
    var blanks := FindTrimmed(zone);
  }

  lemma SpanInZone(line: string, indent: nat, zone: string, trimmed: string, opens: bool, key: Key) returns (at: nat)
    requires StandsAt(line, indent, zone) && IsAscii(line[..indent])
    requires trimmed == Trim(zone) && KeyFrom(indent, zone, trimmed, opens) == Some(key)
    ensures at <= |line| && StandsAt(line, at, key.name)
    ensures key.end == key.start + |key.name| && key.start == ByteLength(line[..at])
  {
    KeyFromSpan(indent, zone, trimmed, opens);
    FoundTrimmed(zone, trimmed);
    at := KeyOffset(line, indent, zone, trimmed);
  }

  lemma KeyOffset(line: string, indent: nat, zone: string, trimmed: string) returns (at: nat)
    requires StandsAt(line, indent, zone) && IsAscii(line[..indent]) && Find(zone, trimmed).Some?
    ensures at <= |line| && StandsAt(line, at, Unquoted(trimmed))
            && KeyStart(indent, zone, trimmed) == ByteLength(line[..at])
  {
    var blanks := Find(zone, trimmed).value;
    FoundStandsAt(zone, trimmed);
    StartIsOffset(line, indent, zone, blanks, trimmed);
    at := indent + blanks + Quote(trimmed);
  }

  lemma SpanInSegment(line: string, indent: nat, segment: string) returns (at: nat)
    requires StandsAt(line, indent, segment) && IsAscii(line[..indent]) && ParseSegment(indent, segment).Some?
    ensures at <= |line| && StandsAt(line, at, ParseSegment(indent, segment).value.name)
    ensures var key := ParseSegment(indent, segment).value;
            key.end == key.start + |key.name| && key.start == ByteLength(line[..at])
  {
    var colon := Find(segment, ":").value;
    var zone := segment[..colon];
    ZoneStandsAt(line, indent, segment, colon);
    at := SpanInZone(line, indent, zone, Trim(zone), OpensSection(Trim(segment[colon + 1..])),
                     ParseSegment(indent, segment).value);
  }

  lemma ZoneStandsAt(line: string, indent: nat, segment: string, colon: nat)
    requires StandsAt(line, indent, segment) && colon <= |segment|
    ensures StandsAt(line, indent, segment[..colon])
  {
  }

  lemma LineSegment(line: string)
    requires LineKey(line).Some?
    ensures LineKey(line) == ParseSegment(Segment(line).0, Segment(line).1)
  {
  }

  // The span of every accepted line's key starts at the byte offset of the key and ends with it. So it
  // points at the key's characters if and only if the text before the key is ASCII.
  lemma SpanIsKeyIff(raw: string) returns (at: nat)
    requires ParseLine(raw).Some?
    ensures at <= |raw| && StandsAt(raw, at, ParseLine(raw).value.name)
    ensures var key := ParseLine(raw).value;
            && key.end == key.start + |key.name| && key.start == ByteLength(raw[..at])
            && (key.start == at <==> IsAscii(raw[..at]))
  {
    var line := TrimCarriageReturns(raw);
    TrimmedIsPrefix(raw);
    LineSegment(line);
    SegmentStandsAt(line);
    at := SpanInSegment(line, Segment(line).0, Segment(line).1);
    assert line[..at] == raw[..at];
    ByteLengthExact(raw[..at]);
  }

  // A line whose span misses its key: a no-break space counts for two.
  lemma NoBreakSpaceShiftsSpan()
    ensures ParseLine("\U{A0}a:") == Some(Key(0, "a", 2, 3, true)) && StandsAt("\U{A0}a:", 1, "a")
  {
    var raw := "\U{A0}a:";
    assert raw[0..] == raw && raw[0] != "- "[0] && raw[0] != "#"[0];
    assert Segment(raw) == (0, raw);
    assert Trim(raw) != "" by { var before, after := TrimCutsBothEnds(raw); assert !IsWhitespace(raw[1]); }
    NoBreakSpaceSegment(raw);
  }

  lemma NoBreakSpaceSegment(raw: string)
    requires raw == "\U{A0}a:"
    ensures ParseSegment(0, raw) == Some(Key(0, "a", 2, 3, true))
  {
    var zone := "\U{A0}a";
    assert raw[2..] == ":" && raw[..2] == zone && raw[3..] == "";
    FindAt(raw, ":", 2);
    assert zone[1..] == "a" && zone[..1] == "\U{A0}" && zone[..1][1..] == "";
    assert TrimStart(zone) == TrimStart("a") == "a" && Trim(zone) == "a";
    FindAt(zone, "a", 1);
    assert ByteLength(zone[..1]) == 2;
    assert Trim("") == "";
  }
}
