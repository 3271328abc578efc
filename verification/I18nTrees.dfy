/**
 Flattening a translation tree and rebuilding it (scripts/i18n/extract.ts, scripts/i18n/build-locale.ts).

 An object is its list of entries in Object.entries order. `placeholders` stands for the sorted, joined
 {{placeholder}} matches of a text.
 */
module I18nTrees {
  datatype Node = Text(text: string) | Other(kind: string) | Object(entries: Entries)

  datatype Entries = End | Entry(key: string, value: Node, rest: Entries)

  const PROTO := "__proto__"

  // `out[path] = text` on a plain object: the key "__proto__" names no own property.
  function Assign(out: map<string, string>, path: string, text: string): map<string, string> {
    if path == PROTO then out else out[path := text]
  }

  function Join(prefix: string, key: string): string {
    if prefix == "" then key else prefix + "." + key
  }

  // ---- flatten ----

  function LeafText(node: Node): string
    requires !node.Object?
  {
    if node.Text? then node.text else "__NON_STRING__:" + node.kind
  }

  function FlattenInto(out: map<string, string>, node: Node, prefix: string): map<string, string>
    decreases node, 1
  {
    if node.Object? then FlattenEntries(out, node.entries, prefix) else Assign(out, prefix, LeafText(node))
  }

  function FlattenEntries(out: map<string, string>, entries: Entries, prefix: string): map<string, string>
    decreases entries, 0
  {
    match entries
    case End => out
    case Entry(key, value, rest) => FlattenEntries(FlattenInto(out, value, Join(prefix, key)), rest, prefix)
  }

  function Flat(node: Node): map<string, string> {
    FlattenInto(map[], node, "")
  }

  function DottedIn(node: Node, prefix: string): seq<string> {
    if node.Object? then DottedInEntries(node.entries, prefix) else []
  }

  function DottedInEntries(entries: Entries, prefix: string): seq<string> {
    match entries
    case End => []
    case Entry(key, value, rest) =>
      OwnDotted(key, prefix) + DottedIn(value, Join(prefix, key)) + DottedInEntries(rest, prefix)
  }

  function OwnDotted(key: string, prefix: string): seq<string> {
    if '.' in key then [prefix + ">" + key] else []
  }

  lemma DottedStep(before: seq<string>, left: Entries, prefix: string)
    requires left.Entry?
    ensures before + DottedInEntries(left, prefix)
            == before + OwnDotted(left.key, prefix) + DottedIn(left.value, Join(prefix, left.key))
               + DottedInEntries(left.rest, prefix)
  {
    Regroup(before, OwnDotted(left.key, prefix), DottedIn(left.value, Join(prefix, left.key)),
        DottedInEntries(left.rest, prefix));
  }

  lemma Regroup<T>(a: seq<T>, b: seq<T>, c: seq<T>, d: seq<T>)
    ensures a + (b + c + d) == a + b + c + d
  {
  }

  // The object and the list that flatten writes into.
  class Flattener {
    var out: map<string, string>
    var dottedKeys: seq<string>

    constructor ()
      ensures out == map[] && dottedKeys == []
    {
      out, dottedKeys := map[], [];
    }

    method Flatten(node: Node, prefix: string)
      modifies this
      ensures out == FlattenInto(old(out), node, prefix)
      ensures dottedKeys == old(dottedKeys) + DottedIn(node, prefix)
      decreases node
    {
      if node.Object? {
        var left := node.entries;
        while left.Entry?
          invariant left == node.entries || left < node.entries
          invariant FlattenEntries(out, left, prefix) == FlattenInto(old(out), node, prefix)
          invariant dottedKeys + DottedInEntries(left, prefix) == old(dottedKeys) + DottedIn(node, prefix)
          decreases left
        {
          ghost var before := dottedKeys;
          DottedStep(before, left, prefix);
          if '.' in left.key {
            dottedKeys := dottedKeys + [prefix + ">" + left.key];
          }
          assert dottedKeys == before + OwnDotted(left.key, prefix);
          Flatten(left.value, Join(prefix, left.key));
          left := left.rest;
        }
      } else {
        out := Assign(out, prefix, LeafText(node));
      }
    }
  }

  // ---- build ----

  function Built(node: Node, path: string, flat: map<string, string>): Node {
    match node
    case Text(_) => if path in flat then Text(flat[path]) else node
    case Other(_) => node
    case Object(entries) => Object(BuiltEntries(entries, path, flat))
  }

  function BuiltEntries(entries: Entries, path: string, flat: map<string, string>): Entries {
    match entries
    case End => End
    case Entry(key, value, rest) =>
      var others := BuiltEntries(rest, path, flat);
      if key == PROTO then others else Entry(key, Built(value, Join(path, key), flat), others)
  }

  // The paths of the texts, in the order build visits them.
  function TextPaths(node: Node, path: string): seq<string> {
    match node
    case Text(_) => [path]
    case Other(_) => []
    case Object(entries) => EntryPaths(entries, path)
  }

  function EntryPaths(entries: Entries, path: string): seq<string> {
    match entries
    case End => []
    case Entry(key, value, rest) => TextPaths(value, Join(path, key)) + EntryPaths(rest, path)
  }

  function Missing(paths: seq<string>, flat: map<string, string>): seq<string> {
    if paths == [] then []
    else (if paths[0] in flat then [] else [paths[0]]) + Missing(paths[1..], flat)
  }

  // The paths whose translation carries other placeholders than the English text.
  function BadPaths(node: Node, path: string, flat: map<string, string>, placeholders: string -> string): seq<string> {
    match node
    case Text(text) => if path in flat && placeholders(text) != placeholders(flat[path]) then [path] else []
    case Other(_) => []
    case Object(entries) => BadEntryPaths(entries, path, flat, placeholders)
  }

  function BadEntryPaths(
      entries: Entries, path: string, flat: map<string, string>, placeholders: string -> string): seq<string> {
    match entries
    case End => []
    case Entry(key, value, rest) =>
      BadPaths(value, Join(path, key), flat, placeholders) + BadEntryPaths(rest, path, flat, placeholders)
  }

  function PathSet(paths: seq<string>): set<string> {
    set p | p in paths
  }

  // The translations and what build records on the way.
  class LocaleBuilder {
    const flat: map<string, string>
    const placeholders: string -> string
    var missing: seq<string>
    var badPlaceholders: seq<string>
    var seen: set<string>

    constructor (flat: map<string, string>, placeholders: string -> string)
      ensures this.flat == flat && this.placeholders == placeholders
      ensures missing == [] && badPlaceholders == [] && seen == {}
    {
      this.flat, this.placeholders := flat, placeholders;
      missing, badPlaceholders, seen := [], [], {};
    }

    method Build(node: Node, path: string) returns (built: Node)
      modifies this
      ensures built == Built(node, path, flat)
      ensures missing == old(missing) + Missing(TextPaths(node, path), flat)
      ensures badPlaceholders == old(badPlaceholders) + BadPaths(node, path, flat, placeholders)
      ensures seen == old(seen) + PathSet(TextPaths(node, path))
      decreases node, 1
    {
      match node {
        case Text(text) =>
          seen := seen + {path};
          if path !in flat {
            missing := missing + [path];
            return node;
          }
          if placeholders(text) != placeholders(flat[path]) {
            badPlaceholders := badPlaceholders + [path];
          }
          built := Text(flat[path]);
        case Object(entries) =>
          var out := BuildEntries(entries, path);
          built := Object(out);
        case Other(_) =>
          built := node;
      }
    }

    method BuildEntries(entries: Entries, path: string) returns (built: Entries)
      modifies this
      ensures built == BuiltEntries(entries, path, flat)
      ensures missing == old(missing) + Missing(EntryPaths(entries, path), flat)
      ensures badPlaceholders == old(badPlaceholders) + BadEntryPaths(entries, path, flat, placeholders)
      ensures seen == old(seen) + PathSet(EntryPaths(entries, path))
      decreases entries, 0
    {
      match entries {
        case End =>
          built := End;
        case Entry(key, value, rest) =>
          var first := Build(value, Join(path, key));
          var others := BuildEntries(rest, path);
          built := if key == PROTO then others else Entry(key, first, others);
          EntryStep(old(missing), old(badPlaceholders), old(seen), key, value, rest, path);
      }
    }

    // What an object adds to the records is what its first value adds, then what its other entries add.
    lemma EntryStep(
        missed: seq<string>, bad: seq<string>, met: set<string>, key: string, value: Node, rest: Entries,
        path: string)
      ensures var whole := Entry(key, value, rest); var joined := Join(path, key);
              && missed + Missing(EntryPaths(whole, path), flat)
                 == missed + Missing(TextPaths(value, joined), flat) + Missing(EntryPaths(rest, path), flat)
              && bad + BadEntryPaths(whole, path, flat, placeholders)
                 == bad + BadPaths(value, joined, flat, placeholders) + BadEntryPaths(rest, path, flat, placeholders)
              && met + PathSet(EntryPaths(whole, path))
                 == met + PathSet(TextPaths(value, joined)) + PathSet(EntryPaths(rest, path))
    {
      var joined := Join(path, key);
      MissingConcat(TextPaths(value, joined), EntryPaths(rest, path), flat);
      Associative(missed, Missing(TextPaths(value, joined), flat), Missing(EntryPaths(rest, path), flat));
      Associative(bad, BadPaths(value, joined, flat, placeholders), BadEntryPaths(rest, path, flat, placeholders));
      PathSetConcat(met, TextPaths(value, joined), EntryPaths(rest, path));
    }

    // One object is built per namespace, and the locale spreads them; nothing is written unless nothing
    // is missing, nothing is extra and the placeholders are kept.
    method BuildLocale(en: Entries) returns (ok: bool, locale: Entries)
      requires missing == [] && badPlaceholders == [] && seen == {}
      modifies this
      ensures locale == BuiltEntries(en, "", flat)
      ensures seen == PathSet(EntryPaths(en, "")) && missing == Missing(EntryPaths(en, ""), flat)
      ensures ok <==> (flat.Keys == PathSet(EntryPaths(en, "")) && BadEntryPaths(en, "", flat, placeholders) == [])
    {
      locale := End;
      var left := en;
      while left.Entry?
        invariant Append(locale, BuiltEntries(left, "", flat)) == BuiltEntries(en, "", flat)
        invariant seen + PathSet(EntryPaths(left, "")) == PathSet(EntryPaths(en, ""))
        invariant missing + Missing(EntryPaths(left, ""), flat) == Missing(EntryPaths(en, ""), flat)
        invariant badPlaceholders + BadEntryPaths(left, "", flat, placeholders)
                == BadEntryPaths(en, "", flat, placeholders)
        decreases left
      {
        EntryStep(missing, badPlaceholders, seen, left.key, left.value, left.rest, "");
        OneEntry(left.key, left.value, left.rest, flat, placeholders);
        var built := BuildEntries(Entry(left.key, left.value, End), "");
        AppendAssociative(locale, built, BuiltEntries(left.rest, "", flat));
        locale := Append(locale, built);
        left := left.rest;
      }
      AppendEnd(locale);
      var extra := flat.Keys - seen;
      ok := missing == [] && extra == {} && badPlaceholders == [];
      MissingEmptyIff(EntryPaths(en, ""), flat);
    }
  }

  // `{ ...a, ...b }` for objects without a common key.
  function Append(a: Entries, b: Entries): Entries {
    match a
    case End => b
    case Entry(key, value, rest) => Entry(key, value, Append(rest, b))
  }

  lemma {:induction false} AppendAssociative(a: Entries, b: Entries, c: Entries)
    ensures Append(Append(a, b), c) == Append(a, Append(b, c))
  {
    if a.Entry? {
      AppendAssociative(a.rest, b, c);
    }
  }

  lemma {:induction false} AppendEnd(a: Entries)
    ensures Append(a, End) == a
  {
    if a.Entry? {
      AppendEnd(a.rest);
    }
  }

  lemma OneEntry(key: string, value: Node, rest: Entries, flat: map<string, string>, placeholders: string -> string)
    ensures var one := Entry(key, value, End);
            && EntryPaths(one, "") == TextPaths(value, Join("", key))
            && BadEntryPaths(one, "", flat, placeholders) == BadPaths(value, Join("", key), flat, placeholders)
            && BuiltEntries(Entry(key, value, rest), "", flat)
                == Append(BuiltEntries(one, "", flat), BuiltEntries(rest, "", flat))
  {
  }

  lemma Associative<T>(a: seq<T>, b: seq<T>, c: seq<T>)
    ensures a + (b + c) == a + b + c
  {
  }

  lemma PathSetConcat(met: set<string>, a: seq<string>, b: seq<string>)
    ensures met + PathSet(a + b) == met + PathSet(a) + PathSet(b)
  {
  }

  lemma {:induction false} MissingConcat(a: seq<string>, b: seq<string>, flat: map<string, string>)
    ensures Missing(a + b, flat) == Missing(a, flat) + Missing(b, flat)
  {
    if a == [] {
      assert a + b == b;
    } else {
      assert (a + b)[1..] == a[1..] + b;
      MissingConcat(a[1..], b, flat);
    }
  }

  lemma {:induction false} MissingEmptyIff(paths: seq<string>, flat: map<string, string>)
    ensures Missing(paths, flat) == [] <==> PathSet(paths) <= flat.Keys
  {
    if paths != [] {
      MissingEmptyIff(paths[1..], flat);
      assert PathSet(paths) == {paths[0]} + PathSet(paths[1..]);
    }
  }

  // ---- trees that flatten without loss ----

  // Only texts as leaves; keys are non-empty, dot-free and distinct among siblings.
  predicate WellKeyed(node: Node) {
    match node
    case Text(_) => true
    case Other(_) => false
    case Object(entries) => WellKeyedEntries(entries)
  }

  predicate WellKeyedEntries(entries: Entries) {
    match entries
    case End => true
    case Entry(key, value, rest) =>
      && key != "" && '.' !in key && !HasKey(rest, key)
      && WellKeyed(value) && WellKeyedEntries(rest)
  }

  predicate HasKey(entries: Entries, key: string) {
    match entries case End => false case Entry(k, _, rest) => k == key || HasKey(rest, key)
  }

  predicate NoProto(node: Node) {
    node.Object? ==> NoProtoEntries(node.entries)
  }

  predicate NoProtoEntries(entries: Entries) {
    match entries
    case End => true
    case Entry(key, value, rest) => key != PROTO && NoProto(value) && NoProtoEntries(rest)
  }

  // The paths of the texts that lie under a "__proto__" key.
  function ProtoPaths(node: Node, path: string): seq<string> {
    if node.Object? then ProtoEntryPaths(node.entries, path) else []
  }

  function ProtoEntryPaths(entries: Entries, path: string): seq<string> {
    match entries
    case End => []
    case Entry(key, value, rest) =>
      (if key == PROTO then TextPaths(value, Join(path, key)) else ProtoPaths(value, Join(path, key)))
      + ProtoEntryPaths(rest, path)
  }

  // Every text of the tree stands in the map under its path.
  predicate Agrees(node: Node, path: string, m: map<string, string>) {
    match node
    case Text(text) => path in m && m[path] == text
    case Other(_) => false
    case Object(entries) => EntriesAgree(entries, path, m)
  }

  predicate EntriesAgree(entries: Entries, path: string, m: map<string, string>) {
    match entries
    case End => true
    case Entry(key, value, rest) => Agrees(value, Join(path, key), m) && EntriesAgree(rest, path, m)
  }

  // ---- sibling paths never meet ----

  // `p` is the path of `key` below `prefix`, or leads further down from there.
  predicate Below(p: string, prefix: string, key: string) {
    var joined := Join(prefix, key);
    p == joined || (|joined| < |p| && joined <= p && p[|joined|] == '.')
  }

  function UpToDot(s: string): string {
    if s == "" || s[0] == '.' then "" else [s[0]] + UpToDot(s[1..])
  }

  lemma {:induction false} UpToDotIsKey(key: string, rest: string)
    requires '.' !in key && (rest == "" || rest[0] == '.')
    ensures UpToDot(key + rest) == key
  {
    if key == "" {
      assert key + rest == rest;
    } else {
      assert (key + rest)[1..] == key[1..] + rest;
      UpToDotIsKey(key[1..], rest);
    }
  }

  lemma BelowKey(p: string, prefix: string, key: string)
    requires Below(p, prefix, key) && '.' !in key
    ensures var n := if prefix == "" then 0 else |prefix| + 1; n <= |p| && UpToDot(p[n..]) == key
  {
    var n := if prefix == "" then 0 else |prefix| + 1;
    var rest := p[|Join(prefix, key)|..];
    assert p == Join(prefix, key) + rest;
    assert p[n..] == key + rest;
    UpToDotIsKey(key, rest);
  }

  lemma BelowOneKey(p: string, prefix: string, k: string, l: string)
    requires Below(p, prefix, k) && Below(p, prefix, l) && '.' !in k && '.' !in l
    ensures k == l
  {
    BelowKey(p, prefix, k);
    BelowKey(p, prefix, l);
  }

  lemma BelowDeeper(p: string, prefix: string, key: string, inner: string)
    requires Join(prefix, key) != "" && Below(p, Join(prefix, key), inner)
    ensures Below(p, prefix, key)
  {
    var joined := Join(prefix, key);
    assert Join(joined, inner) == joined + "." + inner;
  }

  lemma {:induction false} PathsBelow(node: Node, prefix: string, key: string, p: string)
    requires key != "" && WellKeyed(node) && p in TextPaths(node, Join(prefix, key))
    ensures Below(p, prefix, key)
    decreases node, 1
  {
    if node.Object? {
      var inner := EntryPathBelow(node.entries, Join(prefix, key), p);
      BelowDeeper(p, prefix, key, inner);
    }
  }

  // Every path of an object lies below one of its keys.
  lemma {:induction false} EntryPathBelow(entries: Entries, path: string, p: string) returns (key: string)
    requires WellKeyedEntries(entries) && p in EntryPaths(entries, path)
    ensures HasKey(entries, key) && key != "" && '.' !in key && Below(p, path, key)
    decreases entries, 0
  {
    if p in TextPaths(entries.value, Join(path, entries.key)) {
      key := entries.key;
      PathsBelow(entries.value, path, key, p);
    } else {
      key := EntryPathBelow(entries.rest, path, p);
    }
  }

  // A path of one sibling is no path of the siblings after it.
  lemma SiblingsDisjoint(key: string, value: Node, rest: Entries, path: string, p: string)
    requires WellKeyedEntries(Entry(key, value, rest)) && p in TextPaths(value, Join(path, key))
    ensures p !in EntryPaths(rest, path)
  {
    PathsBelow(value, path, key, p);
    if p in EntryPaths(rest, path) {
      var other := EntryPathBelow(rest, path, p);
      BelowOneKey(p, path, key, other);
      assert false;
    }
  }

  // ---- flattening and building are inverse ----

  // Flattening touches no key but the tree's own paths.
  lemma {:induction false} FlattenElsewhere(out: map<string, string>, node: Node, path: string, p: string)
    requires WellKeyed(node) && p !in TextPaths(node, path)
    ensures p in FlattenInto(out, node, path) <==> p in out
    ensures p in out ==> FlattenInto(out, node, path)[p] == out[p]
    decreases node, 1
  {
    if node.Object? {
      FlattenEntriesElsewhere(out, node.entries, path, p);
    }
  }

  lemma {:induction false} FlattenEntriesElsewhere(out: map<string, string>, entries: Entries, path: string, p: string)
    requires WellKeyedEntries(entries) && p !in EntryPaths(entries, path)
    ensures p in FlattenEntries(out, entries, path) <==> p in out
    ensures p in out ==> FlattenEntries(out, entries, path)[p] == out[p]
    decreases entries, 0
  {
    if entries.Entry? {
      FlattenElsewhere(out, entries.value, Join(path, entries.key), p);
      FlattenEntriesElsewhere(FlattenInto(out, entries.value, Join(path, entries.key)), entries.rest, path, p);
    }
  }

  // A tree still agrees with a map that has not changed on its paths.
  lemma {:induction false} AgreesStays(node: Node, path: string, m: map<string, string>, n: map<string, string>)
    requires Agrees(node, path, m) && forall p :: p in TextPaths(node, path) && p in m ==> p in n && n[p] == m[p]
    ensures Agrees(node, path, n)
    decreases node, 1
  {
    if node.Object? {
      EntriesAgreeStay(node.entries, path, m, n);
    }
  }

  lemma {:induction false} EntriesAgreeStay(
      entries: Entries, path: string, m: map<string, string>, n: map<string, string>)
    requires EntriesAgree(entries, path, m)
    requires forall p :: p in EntryPaths(entries, path) && p in m ==> p in n && n[p] == m[p]
    ensures EntriesAgree(entries, path, n)
    decreases entries, 0
  {
    if entries.Entry? {
      AgreesStays(entries.value, Join(path, entries.key), m, n);
      EntriesAgreeStay(entries.rest, path, m, n);
    }
  }

  // "__proto__" never becomes a key of the flat map.
  lemma {:induction false} FlattenDropsProto(out: map<string, string>, node: Node, path: string)
    ensures PROTO in FlattenInto(out, node, path) <==> PROTO in out
    decreases node, 1
  {
    if node.Object? {
      FlattenEntriesDropsProto(out, node.entries, path);
    }
  }

  lemma {:induction false} FlattenEntriesDropsProto(out: map<string, string>, entries: Entries, path: string)
    ensures PROTO in FlattenEntries(out, entries, path) <==> PROTO in out
    decreases entries, 0
  {
    if entries.Entry? {
      FlattenDropsProto(out, entries.value, Join(path, entries.key));
      FlattenEntriesDropsProto(FlattenInto(out, entries.value, Join(path, entries.key)), entries.rest, path);
    }
  }

  lemma {:induction false} FlattenAgrees(out: map<string, string>, node: Node, path: string)
    requires WellKeyed(node) && PROTO !in TextPaths(node, path)
    ensures Agrees(node, path, FlattenInto(out, node, path))
    decreases node, 1
  {
    if node.Object? {
      FlattenEntriesAgree(out, node.entries, path);
    }
  }

  lemma {:induction false} FlattenEntriesAgree(out: map<string, string>, entries: Entries, path: string)
    requires WellKeyedEntries(entries) && PROTO !in EntryPaths(entries, path)
    ensures EntriesAgree(entries, path, FlattenEntries(out, entries, path))
    decreases entries, 0
  {
    if entries.Entry? {
      var joined := Join(path, entries.key);
      var first := FlattenInto(out, entries.value, joined);
      var last := FlattenEntries(first, entries.rest, path);
      FlattenAgrees(out, entries.value, joined);
      FlattenEntriesAgree(first, entries.rest, path);
      forall p | p in TextPaths(entries.value, joined) && p in first ensures p in last && last[p] == first[p] {
        SiblingsDisjoint(entries.key, entries.value, entries.rest, path, p);
        FlattenEntriesElsewhere(first, entries.rest, path, p);
      }
      AgreesStays(entries.value, joined, first, last);
    }
  }

  // Building from a map the tree agrees with returns the tree.
  lemma {:induction false} BuildFromAgreeing(node: Node, path: string, m: map<string, string>)
    requires WellKeyed(node) && NoProto(node) && Agrees(node, path, m)
    ensures Built(node, path, m) == node
    decreases node, 1
  {
    if node.Object? {
      BuildEntriesFromAgreeing(node.entries, path, m);
    }
  }

  lemma {:induction false} BuildEntriesFromAgreeing(entries: Entries, path: string, m: map<string, string>)
    requires WellKeyedEntries(entries) && NoProtoEntries(entries) && EntriesAgree(entries, path, m)
    ensures BuiltEntries(entries, path, m) == entries
    decreases entries, 0
  {
    if entries.Entry? {
      BuildFromAgreeing(entries.value, Join(path, entries.key), m);
      BuildEntriesFromAgreeing(entries.rest, path, m);
    }
  }

  lemma {:induction false} BuiltHasNoProto(node: Node, path: string, flat: map<string, string>)
    ensures NoProto(Built(node, path, flat))
    decreases node, 1
  {
    if node.Object? {
      BuiltEntriesHaveNoProto(node.entries, path, flat);
    }
  }

  lemma {:induction false} BuiltEntriesHaveNoProto(entries: Entries, path: string, flat: map<string, string>)
    ensures NoProtoEntries(BuiltEntries(entries, path, flat))
    decreases entries, 0
  {
    if entries.Entry? {
      BuiltHasNoProto(entries.value, Join(path, entries.key), flat);
      BuiltEntriesHaveNoProto(entries.rest, path, flat);
    }
  }

  // Without a "__proto__" key there is no such path.
  lemma NoProtoPath(node: Node)
    requires WellKeyed(node) && NoProto(node)
    ensures PROTO !in TextPaths(node, "")
  {
    if node.Object? && PROTO in EntryPaths(node.entries, "") {
      var key := EntryPathBelow(node.entries, "", PROTO);
      assert forall i :: 0 <= i < |PROTO| ==> PROTO[i] != '.';
      assert key == PROTO;
      NoProtoNoKey(node.entries);
      assert false;
    }
  }

  lemma {:induction false} NoProtoNoKey(entries: Entries)
    requires NoProtoEntries(entries)
    ensures !HasKey(entries, PROTO)
  {
    if entries.Entry? {
      NoProtoNoKey(entries.rest);
    }
  }

  // Building a tree from its own flat map returns the tree, unless a key is "__proto__".
  lemma BuildUndoesFlatten(en: Node)
    requires WellKeyed(en)
    ensures Built(en, "", Flat(en)) == en <==> NoProto(en)
  {
    BuiltHasNoProto(en, "", Flat(en));
    if NoProto(en) {
      NoProtoPath(en);
      FlattenAgrees(map[], en, "");
      BuildFromAgreeing(en, "", Flat(en));
    }
  }

  lemma {:induction false} ProtoPathsAreTextPaths(node: Node, path: string, p: string)
    requires p in ProtoPaths(node, path)
    ensures p in TextPaths(node, path)
    decreases node, 1
  {
    if node.Object? {
      ProtoEntryPathsAreEntryPaths(node.entries, path, p);
    }
  }

  lemma {:induction false} ProtoEntryPathsAreEntryPaths(entries: Entries, path: string, p: string)
    requires p in ProtoEntryPaths(entries, path)
    ensures p in EntryPaths(entries, path)
    decreases entries, 0
  {
    if entries.Entry? {
      var joined := Join(path, entries.key);
      if p in ProtoEntryPaths(entries.rest, path) {
        ProtoEntryPathsAreEntryPaths(entries.rest, path, p);
      } else if entries.key != PROTO {
        ProtoPathsAreTextPaths(entries.value, joined, p);
      }
    }
  }

  // The built tree is well keyed and its texts are the translations.
  lemma {:induction false} BuiltAgrees(node: Node, path: string, flat: map<string, string>)
    requires WellKeyed(node) && forall p :: p in TextPaths(node, path) ==> p in flat
    ensures WellKeyed(Built(node, path, flat)) && Agrees(Built(node, path, flat), path, flat)
    decreases node, 1
  {
    if node.Object? {
      BuiltEntriesAgree(node.entries, path, flat);
    }
  }

  lemma {:induction false} BuiltEntriesAgree(entries: Entries, path: string, flat: map<string, string>)
    requires WellKeyedEntries(entries) && forall p :: p in EntryPaths(entries, path) ==> p in flat
    ensures WellKeyedEntries(BuiltEntries(entries, path, flat))
    ensures EntriesAgree(BuiltEntries(entries, path, flat), path, flat)
    ensures forall k :: HasKey(BuiltEntries(entries, path, flat), k) ==> HasKey(entries, k)
    decreases entries, 0
  {
    if entries.Entry? {
      BuiltAgrees(entries.value, Join(path, entries.key), flat);
      BuiltEntriesAgree(entries.rest, path, flat);
    }
  }

  // The built tree keeps exactly the texts that do not lie under a "__proto__" key.
  lemma {:induction false} BuiltKeepsPaths(node: Node, path: string, flat: map<string, string>, p: string)
    requires WellKeyed(node)
    ensures p in TextPaths(Built(node, path, flat), path)
            <==> p in TextPaths(node, path) && p !in ProtoPaths(node, path)
    decreases node, 1
  {
    if node.Object? {
      BuiltEntriesKeepPaths(node.entries, path, flat, p);
    }
  }

  lemma {:induction false} BuiltEntriesKeepPaths(entries: Entries, path: string, flat: map<string, string>, p: string)
    requires WellKeyedEntries(entries)
    ensures p in EntryPaths(BuiltEntries(entries, path, flat), path)
            <==> p in EntryPaths(entries, path) && p !in ProtoEntryPaths(entries, path)
    decreases entries, 0
  {
    if entries.Entry? {
      var joined := Join(path, entries.key);
      BuiltKeepsPaths(entries.value, joined, flat, p);
      BuiltEntriesKeepPaths(entries.rest, path, flat, p);
      if p in TextPaths(entries.value, joined) {
        SiblingsDisjoint(entries.key, entries.value, entries.rest, path, p);
      }
      if p in ProtoPaths(entries.value, joined) {
        ProtoPathsAreTextPaths(entries.value, joined, p);
      }
      if p in ProtoEntryPaths(entries.rest, path) {
        ProtoEntryPathsAreEntryPaths(entries.rest, path, p);
      }
    }
  }

  // Flattening a tree that agrees with a map writes exactly that map's values at its paths.
  lemma {:induction false} FlattenWritesAgreeing(
      out: map<string, string>, node: Node, path: string, m: map<string, string>, p: string)
    requires WellKeyed(node) && PROTO !in TextPaths(node, path) && Agrees(node, path, m) && p in TextPaths(node, path)
    ensures p in m && p in FlattenInto(out, node, path) && FlattenInto(out, node, path)[p] == m[p]
    decreases node, 1
  {
    if node.Object? {
      FlattenEntriesWriteAgreeing(out, node.entries, path, m, p);
    }
  }

  lemma {:induction false} FlattenEntriesWriteAgreeing(
      out: map<string, string>, entries: Entries, path: string, m: map<string, string>, p: string)
    requires WellKeyedEntries(entries) && PROTO !in EntryPaths(entries, path)
    requires EntriesAgree(entries, path, m) && p in EntryPaths(entries, path)
    ensures p in m && p in FlattenEntries(out, entries, path) && FlattenEntries(out, entries, path)[p] == m[p]
    decreases entries, 0
  {
    var joined := Join(path, entries.key);
    var first := FlattenInto(out, entries.value, joined);
    if p in EntryPaths(entries.rest, path) {
      FlattenEntriesWriteAgreeing(first, entries.rest, path, m, p);
    } else {
      FlattenWritesAgreeing(out, entries.value, joined, m, p);
      FlattenEntriesElsewhere(first, entries.rest, path, p);
    }
  }

  // Flattening a tree that agrees with a map gives the map's entries at the tree's paths.
  lemma FlatIsRestriction(node: Node, m: map<string, string>, p: string)
    requires WellKeyed(node) && PROTO !in TextPaths(node, "") && Agrees(node, "", m)
    ensures p in Flat(node) <==> p in TextPaths(node, "")
    ensures p in Flat(node) ==> p in m && Flat(node)[p] == m[p]
  {
    if p in TextPaths(node, "") {
      FlattenWritesAgreeing(map[], node, "", m, p);
    } else {
      FlattenElsewhere(map[], node, "", p);
    }
  }

  // Flattening what was built from any map with exactly the tree's paths returns that map, less the
  // texts under a "__proto__" key.
  lemma FlattenUndoesBuild(en: Node, flat: map<string, string>)
    requires WellKeyed(en) && flat.Keys == PathSet(TextPaths(en, ""))
    ensures Flat(Built(en, "", flat)) == flat - PathSet(ProtoPaths(en, ""))
  {
    var built := Built(en, "", flat);
    assert forall p :: p in TextPaths(en, "") ==> p in PathSet(TextPaths(en, ""));
    BuiltAgrees(en, "", flat);
    BuiltHasNoProto(en, "", flat);
    NoProtoPath(built);
    forall p
      ensures p in Flat(built) <==> p in flat && p !in ProtoPaths(en, "")
      ensures p in Flat(built) ==> p in flat && Flat(built)[p] == flat[p]
    {
      FlatIsRestriction(built, flat, p);
      BuiltKeepsPaths(en, "", flat, p);
      assert p in flat <==> p in PathSet(TextPaths(en, ""));
    }
  }

  // So exactly when no text lies under such a key, nothing is lost.
  lemma FlattenUndoesBuildIff(en: Node, flat: map<string, string>)
    requires WellKeyed(en) && flat.Keys == PathSet(TextPaths(en, ""))
    ensures Flat(Built(en, "", flat)) == flat <==> ProtoPaths(en, "") == []
  {
    FlattenUndoesBuild(en, flat);
    if ProtoPaths(en, "") != [] {
      var p := ProtoPaths(en, "")[0];
      ProtoPathsAreTextPaths(en, "", p);
      assert p in PathSet(TextPaths(en, "")) && p in PathSet(ProtoPaths(en, ""));
      assert p in flat && p !in flat - PathSet(ProtoPaths(en, ""));
    } else {
      assert PathSet(ProtoPaths(en, "")) == {};
      assert flat - {} == flat;
    }
  }

  // A tree's own flat map passes the validation, unless a text has the path "__proto__".
  lemma OwnMapIsValid(en: Node, placeholders: string -> string)
    requires WellKeyed(en)
    ensures Flat(en).Keys == PathSet(TextPaths(en, "")) && BadPaths(en, "", Flat(en), placeholders) == []
            <==> PROTO !in TextPaths(en, "")
  {
    FlattenDropsProto(map[], en, "");
    if PROTO !in TextPaths(en, "") {
      FlattenAgrees(map[], en, "");
      forall p ensures p in Flat(en) <==> p in PathSet(TextPaths(en, "")) {
        FlatIsRestriction(en, Flat(en), p);
      }
      NothingBadWhereAgreeing(en, "", Flat(en), placeholders);
    } else {
      assert PROTO in PathSet(TextPaths(en, ""));
    }
  }

  lemma {:induction false} NothingBadWhereAgreeing(
      node: Node, path: string, m: map<string, string>, placeholders: string -> string)
    requires Agrees(node, path, m)
    ensures BadPaths(node, path, m, placeholders) == []
    decreases node, 1
  {
    if node.Object? {
      NothingBadInEntries(node.entries, path, m, placeholders);
    }
  }

  lemma {:induction false} NothingBadInEntries(
      entries: Entries, path: string, m: map<string, string>, placeholders: string -> string)
    requires EntriesAgree(entries, path, m)
    ensures BadEntryPaths(entries, path, m, placeholders) == []
    decreases entries, 0
  {
    if entries.Entry? {
      NothingBadWhereAgreeing(entries.value, Join(path, entries.key), m, placeholders);
      NothingBadInEntries(entries.rest, path, m, placeholders);
    }
  }

  // ---- leaf by leaf ----

  // A leaf of the tree at path p, and its text; a leaf that is no text is shown by its kind.
  ghost predicate LeafAt(node: Node, path: string, p: string, text: string) {
    match node
    case Text(t) => p == path && text == t
    case Other(kind) => p == path && text == "__NON_STRING__:" + kind
    case Object(entries) => LeafIn(entries, path, p, text)
  }

  ghost predicate LeafIn(entries: Entries, path: string, p: string, text: string) {
    match entries
    case End => false
    case Entry(key, value, rest) =>
      LeafAt(value, if path == "" then key else path + "." + key, p, text) || LeafIn(rest, path, p, text)
  }

  // What flattening writes is a leaf of the tree.
  lemma {:induction false} FlatComesFromLeaves(out: map<string, string>, node: Node, path: string, p: string)
    requires p in FlattenInto(out, node, path)
    ensures var text := FlattenInto(out, node, path)[p]; (p in out && out[p] == text) || LeafAt(node, path, p, text)
    decreases node, 1
  {
    if node.Object? {
      FlatComesFromLeavesIn(out, node.entries, path, p);
    }
  }

  lemma {:induction false} FlatComesFromLeavesIn(out: map<string, string>, entries: Entries, path: string, p: string)
    requires p in FlattenEntries(out, entries, path)
    ensures var text := FlattenEntries(out, entries, path)[p];
            (p in out && out[p] == text) || LeafIn(entries, path, p, text)
    decreases entries, 0
  {
    if entries.Entry? {
      var first := FlattenInto(out, entries.value, Join(path, entries.key));
      FlatComesFromLeavesIn(first, entries.rest, path, p);
      if p in first {
        FlatComesFromLeaves(out, entries.value, Join(path, entries.key), p);
      }
    }
  }

  // And every leaf's path is a key of the flat map, but for "__proto__".
  lemma {:induction false} LeafIsWritten(out: map<string, string>, node: Node, path: string, p: string, text: string)
    requires p in out || (p != PROTO && LeafAt(node, path, p, text))
    ensures p in FlattenInto(out, node, path)
    decreases node, 1
  {
    if node.Object? {
      LeafInIsWritten(out, node.entries, path, p, text);
    }
  }

  lemma {:induction false} LeafInIsWritten(
      out: map<string, string>, entries: Entries, path: string, p: string, text: string)
    requires p in out || (p != PROTO && LeafIn(entries, path, p, text))
    ensures p in FlattenEntries(out, entries, path)
    decreases entries, 0
  {
    if entries.Entry? {
      var joined := Join(path, entries.key);
      if p in out || LeafAt(entries.value, joined, p, text) {
        LeafIsWritten(out, entries.value, joined, p, text);
      }
      LeafInIsWritten(FlattenInto(out, entries.value, joined), entries.rest, path, p, text);
    }
  }

  // A text of the tree at path p.
  ghost predicate TextAt(node: Node, path: string, p: string, text: string) {
    match node
    case Text(t) => p == path && text == t
    case Other(_) => false
    case Object(entries) => TextIn(entries, path, p, text)
  }

  ghost predicate TextIn(entries: Entries, path: string, p: string, text: string) {
    match entries
    case End => false
    case Entry(key, value, rest) => TextAt(value, Join(path, key), p, text) || TextIn(rest, path, p, text)
  }

  // The bad paths are exactly those of texts whose translation has other placeholders.
  lemma {:induction false} BadPathsExact(
      node: Node, path: string, flat: map<string, string>, placeholders: string -> string, p: string)
    ensures p in BadPaths(node, path, flat, placeholders)
            <==> exists text :: TextAt(node, path, p, text) && p in flat && placeholders(text) != placeholders(flat[p])
    decreases node, 1
  {
    match node
    case Object(entries) =>
      BadEntryPathsExact(entries, path, flat, placeholders, p);
      if exists text :: TextIn(entries, path, p, text) && p in flat && placeholders(text) != placeholders(flat[p]) {
        var text :| TextIn(entries, path, p, text) && p in flat && placeholders(text) != placeholders(flat[p]);
        assert TextAt(node, path, p, text);
      }
    case Text(text) => assert TextAt(node, path, path, text);
    case _ =>
  }

  lemma {:induction false} BadEntryPathsExact(
      entries: Entries, path: string, flat: map<string, string>, placeholders: string -> string, p: string)
    ensures p in BadEntryPaths(entries, path, flat, placeholders)
            <==> exists text ::
                   TextIn(entries, path, p, text) && p in flat && placeholders(text) != placeholders(flat[p])
    decreases entries, 0
  {
    if entries.Entry? {
      BadPathsExact(entries.value, Join(path, entries.key), flat, placeholders, p);
      BadEntryPathsExact(entries.rest, path, flat, placeholders, p);
      BadOneMore(entries, path, flat, placeholders, p);
    }
  }

  lemma BadOneMore(
      entries: Entries, path: string, flat: map<string, string>, placeholders: string -> string, p: string)
    requires entries.Entry?
    ensures (exists text :: TextIn(entries, path, p, text) && p in flat && placeholders(text) != placeholders(flat[p]))
            <==> (|| (exists text :: (&& TextAt(entries.value, Join(path, entries.key), p, text) && p in flat
                                      && placeholders(text) != placeholders(flat[p])))
                  || (exists text :: (&& TextIn(entries.rest, path, p, text) && p in flat
                                      && placeholders(text) != placeholders(flat[p]))))
  {
    if text :| TextAt(entries.value, Join(path, entries.key), p, text) && p in flat
               && placeholders(text) != placeholders(flat[p]) {
      assert TextIn(entries, path, p, text);
    }
    if text :| TextIn(entries.rest, path, p, text) && p in flat && placeholders(text) != placeholders(flat[p]) {
      assert TextIn(entries, path, p, text);
    }
  }

  // So none is bad if and only if every text and its translation have the same placeholders.
  lemma NoneBadIff(node: Node, flat: map<string, string>, placeholders: string -> string)
    ensures BadPaths(node, "", flat, placeholders) == []
            <==> forall p, text ::
                   TextAt(node, "", p, text) && p in flat ==> placeholders(text) == placeholders(flat[p])
  {
    var bad := BadPaths(node, "", flat, placeholders);
    forall p, text | TextAt(node, "", p, text) && p in flat && placeholders(text) != placeholders(flat[p])
      ensures bad != []
    {
      BadPathsExact(node, "", flat, placeholders, p);
    }
    if bad != [] {
      BadPathsExact(node, "", flat, placeholders, bad[0]);
    }
  }

  // Some key of the tree holds a dot.
  ghost predicate HasDot(node: Node) {
    node.Object? && HasDotIn(node.entries)
  }

  ghost predicate HasDotIn(entries: Entries) {
    match entries
    case End => false
    case Entry(key, value, rest) => (exists i :: 0 <= i < |key| && key[i] == '.') || HasDot(value) || HasDotIn(rest)
  }

  // Dotted keys are listed if and only if there are any.
  lemma {:induction false} DottedIff(node: Node, prefix: string)
    ensures DottedIn(node, prefix) != [] <==> HasDot(node)
    decreases node, 1
  {
    if node.Object? {
      DottedEntriesIff(node.entries, prefix);
    }
  }

  lemma {:induction false} DottedEntriesIff(entries: Entries, prefix: string)
    ensures DottedInEntries(entries, prefix) != [] <==> HasDotIn(entries)
    decreases entries, 0
  {
    if entries.Entry? {
      DottedIff(entries.value, Join(prefix, entries.key));
      DottedEntriesIff(entries.rest, prefix);
    }
  }

  // Without a translation everything stays as it was.
  lemma {:induction false} UntranslatedStays(node: Node, path: string)
    requires NoProto(node)
    ensures Built(node, path, map[]) == node
    decreases node, 1
  {
    if node.Object? {
      UntranslatedEntriesStay(node.entries, path);
    }
  }

  lemma {:induction false} UntranslatedEntriesStay(entries: Entries, path: string)
    requires NoProtoEntries(entries)
    ensures BuiltEntries(entries, path, map[]) == entries
    decreases entries, 0
  {
    if entries.Entry? {
      UntranslatedStays(entries.value, Join(path, entries.key));
      UntranslatedEntriesStay(entries.rest, path);
    }
  }
}
