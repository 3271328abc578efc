/**
 The paths a file's diff covers when it was renamed (src-tauri/src/git_utils.rs).

 Git's rename pairs are the input; `None` stands for a repository or status that cannot be read.
 */
module RenameClosure {
  import opened Wrappers
  import opened Text

  datatype Rename = Rename(oldPath: string, newPath: string)

  function NormalizeGitPath(path: string): string {
    seq(|path|, i requires 0 <= i < |path| => if path[i] == '\\' then '/' else path[i])
  }

  // ---- the undirected rename graph ----

  predicate Joins(r: Rename, a: string, b: string) {
    (r.oldPath == a && r.newPath == b) || (r.oldPath == b && r.newPath == a)
  }

  ghost predicate Linked(pairs: seq<Rename>, a: string, b: string) {
    exists i :: 0 <= i < |pairs| && Joins(pairs[i], a, b)
  }

  // A walk of n renames, in either direction, leads from a to b.
  ghost predicate Walk(pairs: seq<Rename>, a: string, b: string, n: nat)
    decreases n
  {
    if n == 0 then a == b
    else exists m :: Walk(pairs, a, m, n - 1) && Linked(pairs, m, b)
  }

  ghost predicate Connected(pairs: seq<Rename>, a: string, b: string) {
    exists n: nat :: Walk(pairs, a, b, n)
  }

  function Paths(pairs: seq<Rename>): set<string> {
    (set i | 0 <= i < |pairs| :: pairs[i].oldPath) + (set i | 0 <= i < |pairs| :: pairs[i].newPath)
  }

  // The connected component of a path.
  ghost function Component(pairs: seq<Rename>, target: string): set<string> {
    set p | p in Paths(pairs) + {target} && Connected(pairs, target, p)
  }

  // ---- the list that is returned ----

  function Pushed(paths: seq<string>, path: string): seq<string> {
    if path in paths then paths else paths + [path]
  }

  // Both ends of every pair inside the set, each path once, in order of first appearance.
  function Listing(pairs: seq<Rename>, inside: set<string>): seq<string> {
    if pairs == [] then []
    else
      var front, r := Listing(pairs[..|pairs| - 1], inside), pairs[|pairs| - 1];
      if r.oldPath in inside && r.newPath in inside then Pushed(Pushed(front, r.oldPath), r.newPath) else front
  }

  ghost function RenamedPaths(pairs: seq<Rename>, target: string): seq<string> {
    var listed := Listing(pairs, Component(pairs, target));
    if listed == [] then [target] else listed
  }

  method GitDiffPathsForFile(path: string, renames: Option<seq<Rename>>) returns (paths: seq<string>)
    ensures var target := Trim(NormalizeGitPath(path));
            paths == if target == "" then []
                     else if renames == None then [target]
                     else RenamedPaths(renames.value, target)
  {
    var target := Trim(NormalizeGitPath(path));
    if target == "" {
      return [];
    }
    if renames == None {
      return [target];
    }
    var connected := ConnectedPaths(renames.value, target);
    paths := ListPaths(renames.value, connected);
    if paths == [] {
      paths := [target];
    }
  }

  method ListPaths(pairs: seq<Rename>, connected: set<string>) returns (paths: seq<string>)
    ensures paths == Listing(pairs, connected)
  {
    paths := [];
    for i := 0 to |pairs|
      invariant paths == Listing(pairs[..i], connected)
    {
      assert pairs[..i + 1][..i] == pairs[..i];
      var r := pairs[i];
      if r.oldPath in connected && r.newPath in connected {
        if r.oldPath !in paths {
          paths := paths + [r.oldPath];
        }
        if r.newPath !in paths {
          paths := paths + [r.newPath];
        }
      }
    }
    assert pairs[..|pairs|] == pairs;
  }

  // The fixpoint loop: it stops after a pass that adds nothing.
  method ConnectedPaths(pairs: seq<Rename>, target: string) returns (connected: set<string>)
    ensures connected == Component(pairs, target)
  {
    connected := {target};
    assert Walk(pairs, target, target, 0);
    var expanded := true;
    while expanded
      invariant target in connected && connected <= Paths(pairs) + {target}
      invariant forall p :: p in connected ==> Connected(pairs, target, p)
      invariant !expanded ==> Closed(pairs, connected)
      decreases Paths(pairs) + {target} - connected, expanded
    {
      ghost var before := connected;
      expanded := false;
      for i := 0 to |pairs|
        invariant before <= connected <= Paths(pairs) + {target}
        invariant forall p :: p in connected ==> Connected(pairs, target, p)
        invariant expanded <==> connected != before
        invariant !expanded ==> Closed(pairs[..i], connected)
      {
        var r := pairs[i];
        assert r.oldPath in Paths(pairs) && r.newPath in Paths(pairs);
        if r.oldPath in connected || r.newPath in connected {
          OneMoreRename(pairs, i, target);
          if r.oldPath !in connected || r.newPath !in connected {
            expanded := true;
          }
          connected := connected + {r.oldPath, r.newPath};
        }
      }
      assert pairs[..|pairs|] == pairs;
    }
    ClosedIsComponent(pairs, target, connected);
  }

  ghost predicate Closed(pairs: seq<Rename>, inside: set<string>) {
    forall i :: 0 <= i < |pairs| ==> (pairs[i].oldPath in inside <==> pairs[i].newPath in inside)
  }

  lemma OneMoreRename(pairs: seq<Rename>, i: nat, target: string)
    requires i < |pairs|
    ensures Connected(pairs, target, pairs[i].oldPath) <==> Connected(pairs, target, pairs[i].newPath)
  {
    LinkExtends(pairs, target, pairs[i].oldPath, pairs[i].newPath, i);
    LinkExtends(pairs, target, pairs[i].newPath, pairs[i].oldPath, i);
  }

  lemma LinkExtends(pairs: seq<Rename>, target: string, a: string, b: string, i: nat)
    requires i < |pairs| && Joins(pairs[i], a, b)
    ensures Connected(pairs, target, a) ==> Connected(pairs, target, b)
  {
    if Connected(pairs, target, a) {
      var n: nat :| Walk(pairs, target, a, n);
      assert Linked(pairs, a, b);
      assert Walk(pairs, target, b, n + 1);
    }
  }

  lemma {:induction false} WalkStaysInside(pairs: seq<Rename>, inside: set<string>, a: string, b: string, n: nat)
    requires Closed(pairs, inside) && a in inside && Walk(pairs, a, b, n)
    ensures b in inside
    decreases n
  {
    if n > 0 {
      var m :| Walk(pairs, a, m, n - 1) && Linked(pairs, m, b);
      WalkStaysInside(pairs, inside, a, m, n - 1);
    }
  }

  lemma ClosedIsComponent(pairs: seq<Rename>, target: string, inside: set<string>)
    requires Closed(pairs, inside) && target in inside && inside <= Paths(pairs) + {target}
    requires forall p :: p in inside ==> Connected(pairs, target, p)
    ensures inside == Component(pairs, target)
  {
    forall p | p in Component(pairs, target) ensures p in inside {
      var n: nat :| Walk(pairs, target, p, n);
      WalkStaysInside(pairs, inside, target, p, n);
    }
  }

  // ---- what the list is ----

  // `p` is an end of a rename that lies inside the set.
  ghost predicate Ends(pairs: seq<Rename>, inside: set<string>, p: string) {
    exists i :: 0 <= i < |pairs| && EndsAt(pairs[i], inside, p)
  }

  predicate EndsAt(r: Rename, inside: set<string>, p: string) {
    r.oldPath in inside && r.newPath in inside && (r.oldPath == p || r.newPath == p)
  }

  lemma EndsOfLast(pairs: seq<Rename>, inside: set<string>, p: string)
    requires pairs != []
    ensures Ends(pairs, inside, p) <==>
              Ends(pairs[..|pairs| - 1], inside, p) || EndsAt(pairs[|pairs| - 1], inside, p)
  {
    var front := pairs[..|pairs| - 1];
    if Ends(front, inside, p) {
      var i :| 0 <= i < |front| && EndsAt(front[i], inside, p);
      assert EndsAt(pairs[i], inside, p);
    }
    if Ends(pairs, inside, p) {
      var i :| 0 <= i < |pairs| && EndsAt(pairs[i], inside, p);
      assert i < |front| ==> pairs[i] == front[i];
    }
  }

  lemma {:induction false} ListingExact(pairs: seq<Rename>, inside: set<string>)
    ensures NoDuplicates(Listing(pairs, inside))
    ensures forall p :: p in Listing(pairs, inside) <==> Ends(pairs, inside, p)
  {
    if pairs != [] {
      var front, r := pairs[..|pairs| - 1], pairs[|pairs| - 1];
      ListingExact(front, inside);
      PushedExact(Listing(front, inside), r.oldPath);
      PushedExact(Pushed(Listing(front, inside), r.oldPath), r.newPath);
      forall p ensures p in Listing(pairs, inside) <==> Ends(pairs, inside, p) {
        EndsOfLast(pairs, inside, p);
        assert p in Listing(front, inside) <==> Ends(front, inside, p);
      }
    }
  }

  lemma PushedExact(paths: seq<string>, path: string)
    requires NoDuplicates(paths)
    ensures NoDuplicates(Pushed(paths, path))
    ensures forall p :: p in Pushed(paths, path) <==> p in paths || p == path
  {
  }

  // Every member of a component other than its starting point is an end of a rename inside it.
  lemma MemberIsEnd(pairs: seq<Rename>, target: string, p: string)
    requires p in Component(pairs, target) && p != target
    ensures Ends(pairs, Component(pairs, target), p)
  {
    var n: nat :| Walk(pairs, target, p, n);
    var m :| Walk(pairs, target, m, n - 1) && Linked(pairs, m, p);
    var i :| 0 <= i < |pairs| && Joins(pairs[i], m, p);
    assert m in Paths(pairs) && Connected(pairs, target, m);
  }

  // The result lists exactly the paths connected to the target by renames, each once; a target in no
  // rename yields itself alone.
  lemma ResultIsComponent(pairs: seq<Rename>, target: string)
    ensures forall p :: p in RenamedPaths(pairs, target) <==> p in Component(pairs, target)
    ensures NoDuplicates(RenamedPaths(pairs, target))
    ensures target !in Paths(pairs) ==> RenamedPaths(pairs, target) == [target]
  {
    var inside := Component(pairs, target);
    assert Walk(pairs, target, target, 0);
    ListingExact(pairs, inside);
    forall p ensures p in RenamedPaths(pairs, target) <==> p in inside {
      if p in inside && p != target {
        MemberIsEnd(pairs, target, p);
      }
      if Listing(pairs, inside) != [] {
        TargetIsListed(pairs, target);
      }
    }
    if target !in Paths(pairs) && Listing(pairs, inside) != [] {
      TargetIsListed(pairs, target);
      assert false;
    }
  }

  lemma TargetIsListed(pairs: seq<Rename>, target: string)
    requires Listing(pairs, Component(pairs, target)) != []
    ensures target in Listing(pairs, Component(pairs, target)) && target in Paths(pairs)
  {
    var inside := Component(pairs, target);
    ListingExact(pairs, inside);
    assert Walk(pairs, target, target, 0);
    assert Listing(pairs, inside)[0] in Listing(pairs, inside);
    assert Ends(pairs, inside, Listing(pairs, inside)[0]);
    var i :| 0 <= i < |pairs| && EndsAt(pairs[i], inside, Listing(pairs, inside)[0]);
    var k := i;
    if pairs[i].oldPath != target && pairs[i].newPath != target {
      var n: nat :| Walk(pairs, target, pairs[i].oldPath, n);
      k := FirstStep(pairs, target, pairs[i].oldPath, n);
    }
    OneMoreRename(pairs, k, target);
    assert EndsAt(pairs[k], inside, target);
  }

  // A walk that ends elsewhere starts with a rename of its starting point.
  lemma {:induction false} FirstStep(pairs: seq<Rename>, a: string, b: string, n: nat) returns (k: nat)
    requires Walk(pairs, a, b, n) && a != b
    ensures k < |pairs| && (pairs[k].oldPath == a || pairs[k].newPath == a)
    decreases n
  {
    var m :| Walk(pairs, a, m, n - 1) && Linked(pairs, m, b);
    if m == a {
      k :| 0 <= k < |pairs| && Joins(pairs[k], m, b);
    } else {
      k := FirstStep(pairs, a, m, n - 1);
    }
  }

  // ---- all members give the same list ----

  lemma {:induction false} WalksJoin(pairs: seq<Rename>, a: string, b: string, c: string, m: nat, n: nat)
    requires Walk(pairs, a, b, m) && Walk(pairs, b, c, n)
    ensures Walk(pairs, a, c, m + n)
    decreases n
  {
    if n > 0 {
      var d :| Walk(pairs, b, d, n - 1) && Linked(pairs, d, c);
      WalksJoin(pairs, a, b, d, m, n - 1);
    }
  }

  lemma {:induction false} WalkReverses(pairs: seq<Rename>, a: string, b: string, n: nat)
    requires Walk(pairs, a, b, n)
    ensures Walk(pairs, b, a, n)
    decreases n
  {
    if n > 0 {
      var d :| Walk(pairs, a, d, n - 1) && Linked(pairs, d, b);
      WalkReverses(pairs, a, d, n - 1);
      var i :| 0 <= i < |pairs| && Joins(pairs[i], d, b);
      assert Joins(pairs[i], b, d) && Linked(pairs, b, d);
      assert Walk(pairs, b, b, 0);
      assert Walk(pairs, b, d, 1);
      WalksJoin(pairs, b, d, a, 1, n - 1);
    }
  }

  // Asking for any member of the result gives the very same list.
  lemma SameComponentSameList(pairs: seq<Rename>, a: string, b: string)
    requires b in RenamedPaths(pairs, a)
    ensures RenamedPaths(pairs, b) == RenamedPaths(pairs, a)
  {
    ResultIsComponent(pairs, a);
    var m: nat :| Walk(pairs, a, b, m);
    WalkReverses(pairs, a, b, m);
    forall p ensures Connected(pairs, a, p) <==> Connected(pairs, b, p) {
      if Connected(pairs, a, p) {
        var n: nat :| Walk(pairs, a, p, n);
        WalksJoin(pairs, b, a, p, m, n);
      }
      if Connected(pairs, b, p) {
        var n: nat :| Walk(pairs, b, p, n);
        WalksJoin(pairs, a, b, p, m, n);
      }
    }
    if a != b {
      var i := FirstStep(pairs, a, b, m);
      var j := FirstStep(pairs, b, a, m);
      assert Component(pairs, a) == Component(pairs, b);
    }
    if Listing(pairs, Component(pairs, a)) == [] {
      assert RenamedPaths(pairs, a) == [a];
    }
  }

  // ---- the order of the list ----

  // The ends of the renames inside the set, as git lists them.
  function EndsInOrder(pairs: seq<Rename>, inside: set<string>): seq<string> {
    if pairs == [] then []
    else
      var r := pairs[|pairs| - 1];
      EndsInOrder(pairs[..|pairs| - 1], inside)
      + if r.oldPath in inside && r.newPath in inside then [r.oldPath, r.newPath] else []
  }

  // x is met before y.
  ghost predicate MetBefore(ends: seq<string>, x: string, y: string) {
    exists k :: 0 <= k < |ends| && ends[k] == x && y !in ends[..k + 1]
  }

  // The paths of the list are those met, each behind all that were met before it.
  ghost predicate InMeetingOrder(paths: seq<string>, ends: seq<string>) {
    && (forall p :: p in paths <==> p in ends)
    && (forall i, j :: 0 <= i < j < |paths| ==> MetBefore(ends, paths[i], paths[j]))
  }

  lemma MetLater(ends: seq<string>, more: string, x: string, y: string)
    requires MetBefore(ends, x, y)
    ensures MetBefore(ends + [more], x, y)
  {
    var k :| 0 <= k < |ends| && ends[k] == x && y !in ends[..k + 1];
    assert (ends + [more])[..k + 1] == ends[..k + 1] && (ends + [more])[k] == x;
  }

  lemma PushedInOrder(paths: seq<string>, ends: seq<string>, p: string)
    requires InMeetingOrder(paths, ends)
    ensures InMeetingOrder(Pushed(paths, p), ends + [p])
  {
    var pushed := Pushed(paths, p);
    forall i, j | 0 <= i < j < |pushed| ensures MetBefore(ends + [p], pushed[i], pushed[j]) {
      if j < |paths| {
        MetLater(ends, p, paths[i], paths[j]);
      } else {
        assert paths[i] in paths;
        var k :| 0 <= k < |ends| && ends[k] == paths[i];
        assert (ends + [p])[..k + 1] == ends[..k + 1] && (ends + [p])[k] == paths[i];
      }
    }
  }

  // The list is in the order in which git names the paths.
  lemma {:induction false} ListingInOrder(pairs: seq<Rename>, inside: set<string>)
    ensures InMeetingOrder(Listing(pairs, inside), EndsInOrder(pairs, inside))
  {
    if pairs != [] {
      var front, r := pairs[..|pairs| - 1], pairs[|pairs| - 1];
      ListingInOrder(front, inside);
      if r.oldPath in inside && r.newPath in inside {
        var ends := EndsInOrder(front, inside);
        PushedInOrder(Listing(front, inside), ends, r.oldPath);
        PushedInOrder(Pushed(Listing(front, inside), r.oldPath), ends + [r.oldPath], r.newPath);
        assert ends + [r.oldPath] + [r.newPath] == ends + [r.oldPath, r.newPath];
      } else {
        assert EndsInOrder(pairs, inside) == EndsInOrder(front, inside);
      }
    }
  }

  // Two spellings of a path that differ in their slashes are one path, and slashes are the one kept.
  lemma EitherSlash(p: string, q: string)
    requires |p| == |q|
    requires forall i :: 0 <= i < |p| ==> p[i] == q[i] || (p[i] in {'/', '\\'} && q[i] in {'/', '\\'})
    ensures NormalizeGitPath(p) == NormalizeGitPath(q)
    ensures (forall i :: 0 <= i < |p| ==> p[i] != '\\') ==> NormalizeGitPath(q) == p
  {
  }
}
