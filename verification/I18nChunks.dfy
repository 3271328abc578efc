/**
 Splitting the flat map into chunk files and merging chunk files back (scripts/i18n/chunk.ts,
 scripts/i18n/merge.ts).

 An object is seen through its entries, as Object.entries lists them and Object.fromEntries takes them.
 */
module I18nChunks {
  import opened Wrappers
  import Text
  import Trees = I18nTrees

  datatype Pair = Pair(key: string, value: string)

  type Files = map<string, seq<Pair>>

  // The entries are those of the map, in some order.
  ghost predicate Lists(entries: seq<Pair>, flat: map<string, string>) {
    && (forall p :: p in entries ==> p.key in flat && flat[p.key] == p.value)
    && (forall k :: k in flat ==> Pair(k, flat[k]) in entries)
  }

  // ---- chunk.ts ----

  // String(n).padStart(2, "0")
  function Padded(n: nat): string {
    var digits := Text.Print(n);
    if |digits| < 2 then "0" + digits else digits
  }

  function ChunkName(n: nat): string {
    "chunk-" + Padded(n) + ".json"
  }

  function Least(a: nat, b: nat): nat {
    if a < b then a else b
  }

  function ChunkFiles(entries: seq<Pair>, size: nat, n: nat): Files
    requires size >= 1
    decreases |entries|
  {
    if entries == [] then map[]
    else
      var cut := Least(size, |entries|);
      map[ChunkName(n) := entries[..cut]] + ChunkFiles(entries[cut..], size, n + 1)
  }

  method WriteChunks(entries: seq<Pair>, size: nat) returns (dir: Files, n: nat)
    requires size >= 1
    ensures dir == ChunkFiles(entries, size, 0)
    ensures entries == [] ==> n == 0
    ensures entries != [] ==> (n - 1) * size < |entries| <= n * size
  {
    dir, n := map[], 0;
    var i := 0;
    ghost var left := entries;
    while i < |entries|
      invariant i == n * size && (n > 0 ==> (n - 1) * size < |entries|) && (entries == [] ==> n == 0)
      invariant left == if i < |entries| then entries[i..] else []
      invariant dir + ChunkFiles(left, size, n) == ChunkFiles(entries, size, 0)
    {
      ChunkStep(dir, left, size, n);
      assert left[..Least(size, |left|)] == entries[i..Least(i + size, |entries|)];
      left := left[Least(size, |left|)..];
      dir := dir[ChunkName(n) := entries[i..Least(i + size, |entries|)]];
      NextProduct(n, size);
      n := n + 1;
      i := i + size;
    }
  }

  lemma ChunkStep(dir: Files, left: seq<Pair>, size: nat, n: nat)
    requires size >= 1 && left != []
    ensures var cut := Least(size, |left|);
            dir[ChunkName(n) := left[..cut]] + ChunkFiles(left[cut..], size, n + 1) == dir + ChunkFiles(left, size, n)
  {
    var cut := Least(size, |left|);
    UpdateThenAdd(dir, ChunkName(n), left[..cut], ChunkFiles(left[cut..], size, n + 1));
  }

  lemma UpdateThenAdd(dir: Files, name: string, file: seq<Pair>, others: Files)
    ensures dir[name := file] + others == dir + (map[name := file] + others)
  {
  }

  lemma NextProduct(n: nat, size: nat)
    ensures (n + 1) * size == n * size + size
  {
  }

  // ---- merge.ts ----

  function AssignAll(merged: map<string, string>, part: seq<Pair>): map<string, string>
    decreases |part|
  {
    if part == [] then merged else AssignAll(Trees.Assign(merged, part[0].key, part[0].value), part[1..])
  }

  function MergeAll(merged: map<string, string>, dir: Files, order: seq<string>): map<string, string>
    requires forall f :: f in order ==> f in dir
    decreases |order|
  {
    if order == [] then merged else MergeAll(AssignAll(merged, dir[order[0]]), dir, order[1..])
  }

  predicate IsJson(name: string) {
    |name| >= 5 && name[|name| - 5..] == ".json"
  }

  // The names readdirSync lists and the filter keeps, in some order.
  ghost predicate IsListing(order: seq<string>, dir: Files) {
    forall f :: f in order <==> f in dir && IsJson(f)
  }

  method MergeFiles(dir: Files, order: seq<string>) returns (merged: map<string, string>)
    requires IsListing(order, dir)
    ensures merged == MergeAll(map[], dir, order)
  {
    merged := map[];
    var left := order;
    while left != []
      invariant forall f :: f in left ==> f in dir
      invariant MergeAll(merged, dir, left) == MergeAll(map[], dir, order)
      decreases |left|
    {
      ghost var before := merged;
      var part := dir[left[0]];
      while part != []
        invariant AssignAll(merged, part) == AssignAll(before, dir[left[0]])
        decreases |part|
      {
        merged := Trees.Assign(merged, part[0].key, part[0].value);
        part := part[1..];
      }
      left := left[1..];
    }
  }

  // ---- chunk files have different names ----

  lemma {:induction false} PaddedParses(n: nat)
    ensures Text.ParseDigits(Padded(n)) == Some(n)
  {
    Text.ParsePrinted(n);
    if n < 10 {
      var s := "0" + Text.Print(n);
      assert s[..1] == "0" && s[|s| - 1] == Text.Digit(n);
      assert Text.ParseDigits("0") == Some(0);
    } else {
      assert Text.Print(n / 10) != [];
    }
  }

  lemma ChunkNamesDiffer(m: nat, n: nat)
    requires ChunkName(m) == ChunkName(n)
    ensures m == n
  {
    var name := ChunkName(m);
    assert name[6..|name| - 5] == Padded(m);
    assert name[6..|name| - 5] == Padded(n);
    PaddedParses(m);
    PaddedParses(n);
  }

  // The files are numbered from n on.
  lemma {:induction false} NameIsNumbered(entries: seq<Pair>, size: nat, n: nat, name: string) returns (m: nat)
    requires size >= 1 && name in ChunkFiles(entries, size, n)
    ensures m >= n && name == ChunkName(m)
    decreases |entries|
  {
    var cut := Least(size, |entries|);
    if name == ChunkName(n) {
      m := n;
    } else {
      m := NameIsNumbered(entries[cut..], size, n + 1, name);
    }
  }

  // No chunk overwrites an earlier one: every entry is in a file.
  lemma {:induction false} EntryIsInAFile(entries: seq<Pair>, size: nat, n: nat, p: Pair) returns (name: string)
    requires size >= 1 && p in entries
    ensures name in ChunkFiles(entries, size, n) && p in ChunkFiles(entries, size, n)[name]
    decreases |entries|
  {
    var cut := Least(size, |entries|);
    assert entries == entries[..cut] + entries[cut..];
    var others := ChunkFiles(entries[cut..], size, n + 1);
    if p in entries[..cut] {
      name := ChunkName(n);
      if name in others {
        var m := NameIsNumbered(entries[cut..], size, n + 1, name);
        ChunkNamesDiffer(m, n);
        assert false;
      }
    } else {
      name := EntryIsInAFile(entries[cut..], size, n + 1, p);
    }
  }

  // A file holds entries only, at least one and at most `size` of them.
  lemma {:induction false} FileHoldsEntries(entries: seq<Pair>, size: nat, n: nat, name: string)
    requires size >= 1 && name in ChunkFiles(entries, size, n)
    ensures var file := ChunkFiles(entries, size, n)[name];
            1 <= |file| <= size && forall p :: p in file ==> p in entries
    decreases |entries|
  {
    var cut := Least(size, |entries|);
    if name in ChunkFiles(entries[cut..], size, n + 1) {
      FileHoldsEntries(entries[cut..], size, n + 1, name);
    }
  }

  lemma ChunkNameIsJson(n: nat)
    ensures IsJson(ChunkName(n))
  {
    assert ChunkName(n)[|ChunkName(n)| - 5..] == ".json";
  }

  // ---- merging ----

  // Every key of the merged map is an entry of some file.
  ghost predicate From(merged: map<string, string>, entries: seq<Pair>) {
    forall k :: k in merged ==> k != Trees.PROTO && Pair(k, merged[k]) in entries
  }

  lemma {:induction false} AssignKeepsFrom(merged: map<string, string>, part: seq<Pair>, entries: seq<Pair>)
    requires From(merged, entries) && forall p :: p in part ==> p in entries
    ensures From(AssignAll(merged, part), entries)
    decreases |part|
  {
    if part != [] {
      assert Pair(part[0].key, part[0].value) == part[0];
      AssignKeepsFrom(Trees.Assign(merged, part[0].key, part[0].value), part[1..], entries);
    }
  }

  lemma {:induction false} MergeKeepsFrom(
      merged: map<string, string>, dir: Files, order: seq<string>, entries: seq<Pair>)
    requires forall f :: f in order ==> f in dir && forall p :: p in dir[f] ==> p in entries
    requires From(merged, entries)
    ensures From(MergeAll(merged, dir, order), entries)
    decreases |order|
  {
    if order != [] {
      AssignKeepsFrom(merged, dir[order[0]], entries);
      MergeKeepsFrom(AssignAll(merged, dir[order[0]]), dir, order[1..], entries);
    }
  }

  // No key is lost again, and every key of a part is there after it, "__proto__" excepted.
  lemma {:induction false} AssignAdds(merged: map<string, string>, part: seq<Pair>, p: Pair)
    requires p.key in merged || (p in part && p.key != Trees.PROTO)
    ensures p.key in AssignAll(merged, part)
    decreases |part|
  {
    if part != [] {
      AssignAdds(Trees.Assign(merged, part[0].key, part[0].value), part[1..], p);
    }
  }

  lemma {:induction false} MergeAdds(merged: map<string, string>, dir: Files, order: seq<string>, name: string, p: Pair)
    requires forall f :: f in order ==> f in dir
    requires p.key in merged || (name in order && p in dir[name] && p.key != Trees.PROTO)
    ensures p.key in MergeAll(merged, dir, order)
    decreases |order|
  {
    if order != [] {
      if p.key in merged || name == order[0] {
        AssignAdds(merged, dir[order[0]], p);
      }
      MergeAdds(AssignAll(merged, dir[order[0]]), dir, order[1..], name, p);
    }
  }

  // Merging the chunk files in any order restores the map, whatever the size, less a "__proto__" key.
  lemma MergeUndoesChunk(flat: map<string, string>, entries: seq<Pair>, size: nat, order: seq<string>)
    requires size >= 1 && Lists(entries, flat) && IsListing(order, ChunkFiles(entries, size, 0))
    ensures MergeAll(map[], ChunkFiles(entries, size, 0), order) == flat - {Trees.PROTO}
  {
    var dir := ChunkFiles(entries, size, 0);
    var merged := MergeAll(map[], dir, order);
    forall f | f in order ensures f in dir && forall p :: p in dir[f] ==> p in entries {
      FileHoldsEntries(entries, size, 0, f);
    }
    MergeKeepsFrom(map[], dir, order, entries);
    forall k | k in flat && k != Trees.PROTO ensures k in merged {
      var p := Pair(k, flat[k]);
      var name := EntryIsInAFile(entries, size, 0, p);
      var n := NameIsNumbered(entries, size, 0, name);
      ChunkNameIsJson(n);
      MergeAdds(map[], dir, order, name, p);
    }
    forall k | k in merged ensures k in flat && k != Trees.PROTO && merged[k] == flat[k] {
      assert Pair(k, merged[k]) in entries;
    }
  }

  // So nothing is lost exactly when "__proto__" is no key.
  lemma MergeUndoesChunkIff(flat: map<string, string>, entries: seq<Pair>, size: nat, order: seq<string>)
    requires size >= 1 && Lists(entries, flat) && IsListing(order, ChunkFiles(entries, size, 0))
    ensures MergeAll(map[], ChunkFiles(entries, size, 0), order) == flat <==> Trees.PROTO !in flat
  {
    MergeUndoesChunk(flat, entries, size, order);
    assert Trees.PROTO !in flat ==> flat - {Trees.PROTO} == flat;
    assert Trees.PROTO !in flat - {Trees.PROTO};
  }

  // ---- which entries are in which file ----

  // `size` entries from one on, or what is left.
  function Slice(entries: seq<Pair>, size: nat, at: nat): seq<Pair>
    requires at < |entries|
  {
    entries[at..if at + size <= |entries| then at + size else |entries|]
  }

  ghost predicate FileIs(entries: seq<Pair>, size: nat, n: nat, m: nat, at: nat)
    requires size >= 1 && at < |entries|
  {
    var dir := ChunkFiles(entries, size, n);
    ChunkName(m) in dir && dir[ChunkName(m)] == Slice(entries, size, at)
  }

  lemma LaterFile(entries: seq<Pair>, size: nat, n: nat, m: nat, at: nat)
    requires 1 <= size <= at < |entries| && n < m && FileIs(entries[size..], size, n + 1, m, at - size)
    ensures FileIs(entries, size, n, m, at)
  {
    SliceBehind(entries, entries[size..], size, at);
  }

  lemma SliceBehind(entries: seq<Pair>, rest: seq<Pair>, size: nat, at: nat)
    requires 1 <= size <= at < |entries| && rest == entries[size..]
    ensures Slice(rest, size, at - size) == Slice(entries, size, at)
  {
    var a, b := Slice(rest, size, at - size), Slice(entries, size, at);
    assert |a| == |b|;
    forall i | 0 <= i < |a| ensures a[i] == b[i] {
      assert a[i] == rest[at - size + i] && b[i] == entries[at + i];
    }
  }

  // The m-th file from the start holds the m-th `size` entries, the last one what is left.
  lemma {:induction false} FileIsSlice(entries: seq<Pair>, size: nat, n: nat, m: nat, at: nat)
    requires size >= 1 && at == m * size < |entries|
    ensures FileIs(entries, size, n, n + m, at)
    decreases m
  {
    if m == 0 {
      FirstFile(entries, size, n);
    } else {
      NextProduct(m - 1, size);
      FileIsSlice(entries[size..], size, n + 1, m - 1, at - size);
      LaterFile(entries, size, n, n + m, at);
    }
  }

  lemma FirstFile(entries: seq<Pair>, size: nat, n: nat)
    requires size >= 1 && entries != []
    ensures ChunkName(n) in ChunkFiles(entries, size, n)
    ensures ChunkFiles(entries, size, n)[ChunkName(n)] == entries[..if size <= |entries| then size else |entries|]
  {
    var others := ChunkFiles(entries[Least(size, |entries|)..], size, n + 1);
    if ChunkName(n) in others {
      var m := NameIsNumbered(entries[Least(size, |entries|)..], size, n + 1, ChunkName(n));
      ChunkNamesDiffer(m, n);
    }
  }

  // Up to a hundred files sort by their names as they were cut.
  lemma TwoDigitNames(n: nat)
    requires n < 100
    ensures ChunkName(n) == "chunk-" + [Text.Digit(n / 10), Text.Digit(n % 10)] + ".json"
  {
    assert n >= 10 ==> Text.Print(n) == [Text.Digit(n / 10)] + [Text.Digit(n % 10)];
  }

  // ---- a key in several files ----

  function PairsOf(dir: Files, order: seq<string>): seq<Pair>
    requires forall f :: f in order ==> f in dir
  {
    if order == [] then [] else dir[order[0]] + PairsOf(dir, order[1..])
  }

  lemma {:induction false} AssignConcat(merged: map<string, string>, a: seq<Pair>, b: seq<Pair>)
    ensures AssignAll(merged, a + b) == AssignAll(AssignAll(merged, a), b)
    decreases |a|
  {
    if a == [] {
      assert a + b == b;
    } else {
      assert (a + b)[1..] == a[1..] + b;
      AssignConcat(Trees.Assign(merged, a[0].key, a[0].value), a[1..], b);
    }
  }

  lemma {:induction false} MergeIsOneAssign(merged: map<string, string>, dir: Files, order: seq<string>)
    requires forall f :: f in order ==> f in dir
    ensures MergeAll(merged, dir, order) == AssignAll(merged, PairsOf(dir, order))
    decreases |order|
  {
    if order != [] {
      MergeIsOneAssign(AssignAll(merged, dir[order[0]]), dir, order[1..]);
      AssignConcat(merged, dir[order[0]], PairsOf(dir, order[1..]));
    }
  }

  lemma {:induction false} LastPairWins(merged: map<string, string>, part: seq<Pair>, i: nat)
    requires i < |part| && part[i].key != "__proto__"
    requires forall j :: i < j < |part| ==> part[j].key != part[i].key
    ensures part[i].key in AssignAll(merged, part) && AssignAll(merged, part)[part[i].key] == part[i].value
    decreases |part|
  {
    var next := Trees.Assign(merged, part[0].key, part[0].value);
    if i > 0 {
      LastPairWins(next, part[1..], i - 1);
    } else {
      OthersKeep(next, part[1..], part[0].key);
    }
  }

  lemma {:induction false} OthersKeep(merged: map<string, string>, part: seq<Pair>, key: string)
    requires key in merged && forall j :: 0 <= j < |part| ==> part[j].key != key
    ensures key in AssignAll(merged, part) && AssignAll(merged, part)[key] == merged[key]
    decreases |part|
  {
    if part != [] {
      OthersKeep(Trees.Assign(merged, part[0].key, part[0].value), part[1..], key);
    }
  }

  // Of a key in several files, or several times in one, the last value in the order of the files wins.
  lemma MergeLastWins(dir: Files, order: seq<string>, i: nat)
    requires forall f :: f in order ==> f in dir
    requires i < |PairsOf(dir, order)| && PairsOf(dir, order)[i].key != "__proto__"
    requires forall j :: i < j < |PairsOf(dir, order)| ==> PairsOf(dir, order)[j].key != PairsOf(dir, order)[i].key
    ensures var p, merged := PairsOf(dir, order)[i], MergeAll(map[], dir, order);
            p.key in merged && merged[p.key] == p.value
  {
    MergeIsOneAssign(map[], dir, order);
    LastPairWins(map[], PairsOf(dir, order), i);
  }
}
