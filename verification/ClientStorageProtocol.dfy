/**
 The client store under concurrent commands (src-tauri/src/client_storage.rs).

 A write or a patch holds the store's file lock from its change of the cache until its disk write is
 over; a read holds no file lock and is three steps: it looks into the cache, reads the file, and fills
 the cache. Any other step may come between any two of these. Every disk write succeeds here; what a
 failed one leaves behind is in ClientStorage.
 */
module ClientStorageProtocol {
  import opened Wrappers
  import opened ClientStorage

  // A disk write still to come, and the number of commands the file already reflects.
  datatype Pending = Pending(value: Value, at: nat)

  datatype ReadPc =
    | Started(path: string)
    | Missed(path: string)
    | Holding(path: string, value: Value, at: nat)
    | Returned(path: string, result: Result<Value, StoreError>)

  // `log` lists the writes and patches in the order in which they changed the cache.
  datatype System = System(store: Store, writing: map<string, Pending>, readers: seq<ReadPc>, log: seq<Command>)

  datatype Action =
    | Begin(path: string)
    | LookUp(t: nat)
    | ReadDisk(t: nat)
    | Fill(t: nat)
    | StartWrite(path: string, value: Value)
    | StartPatch(path: string, patch: map<string, Value>)
    | Flush(path: string)

  function Opened(files: map<string, File>): System {
    System(Store(map[], files), map[], [], [])
  }

  predicate Enabled(c: System, a: Action) {
    match a
    case Begin(_) => true
    case LookUp(t) => t < |c.readers| && c.readers[t].Started?
    case ReadDisk(t) => t < |c.readers| && c.readers[t].Missed?
    case Fill(t) => t < |c.readers| && c.readers[t].Holding?
    case StartWrite(path, _) => path !in c.writing
    case StartPatch(path, _) => path !in c.writing
    case Flush(path) => path in c.writing
  }

  function Moved(c: System, t: nat, pc: ReadPc): System
    requires t < |c.readers|
  {
    c.(readers := c.readers[t := pc])
  }

  // How many commands on this path the file reflects.
  function Reflected(c: System, path: string): nat {
    if path in c.writing then c.writing[path].at else |c.log|
  }

  // A write or a patch up to its disk write.
  function Begun(c: System, command: Command): System
    requires !command.Read?
  {
    var (cached, result) :=
      match command
      case Write(path, value) => AfterWrite(c.store, path, value, Io(true, false))
      case Patch(path, patch) => AfterPatch(c.store, path, patch, Io(true, false));
    var begun := c.(store := cached, log := c.log + [command]);
    if result == Err(NotWritten)
    then begun.(writing := c.writing[command.path := Pending(cached.cache[command.path], |c.log|)])
    else begun
  }

  function Apply(c: System, a: Action): System
    requires Enabled(c, a)
  {
    match a
    case Begin(path) => c.(readers := c.readers + [Started(path)])
    case LookUp(t) =>
      var path := c.readers[t].path;
      Moved(c, t, if path in c.store.cache then Returned(path, Ok(c.store.cache[path])) else Missed(path))
    case ReadDisk(t) =>
      var path := c.readers[t].path;
      (match ReadFile(c.store.disk, path)
       case Ok(value) => Moved(c, t, Holding(path, value, Reflected(c, path)))
       case Err(e) => Moved(c, t, Returned(path, Err(e))))
    case Fill(t) =>
      var path, value := c.readers[t].path, c.readers[t].value;
      Moved(c, t, Returned(path, Ok(value))).(store := Filled(c.store, path, value))
    case StartWrite(path, value) => Begun(c, Write(path, value))
    case StartPatch(path, patch) => Begun(c, Patch(path, patch))
    case Flush(path) =>
      c.(store := c.store.(disk := c.store.disk[path := Json(c.writing[path].value)]), writing := c.writing - {path})
  }

  function Exec(files: map<string, File>, actions: seq<Action>): Option<System> {
    if actions == [] then Some(Opened(files))
    else
      var before, a := Exec(files, actions[..|actions| - 1]), actions[|actions| - 1];
      if before.Some? && Enabled(before.value, a) then Some(Apply(before.value, a)) else None
  }

  ghost predicate Run(files: map<string, File>, actions: seq<Action>, c: System) {
    Exec(files, actions) == Some(c)
  }

  // ---- the fold ----

  // What the first n commands mean for a path.
  function Fold(files: map<string, File>, log: seq<Command>, n: nat, path: string): Option<map<string, Value>>
    requires n <= |log|
  {
    Meaning(OnDisk(Opened(files).store, path), log[..n], path)
  }

  lemma FoldOfPrefix(files: map<string, File>, log: seq<Command>, command: Command, n: nat, path: string)
    requires n <= |log|
    ensures Fold(files, log + [command], n, path) == Fold(files, log, n, path)
  {
    assert (log + [command])[..n] == log[..n];
  }

  // One more command on the path changes the fold as it would change a store, any other leaves it.
  lemma FoldOfOneMore(files: map<string, File>, log: seq<Command>, command: Command, path: string)
    ensures var before, after := Fold(files, log, |log|, path), Fold(files, log + [command], |log| + 1, path);
            after == match command
                     case Read(_) => before
                     case Write(p, value) => if p == path then Some(Fields(value)) else before
                     case Patch(p, patch) => if p == path && before.Some? then Some(before.value + patch) else before
  {
    assert log[..|log|] == log && (log + [command])[..|log| + 1] == log + [command];
    assert (log + [command])[..|log|] == log;
  }

  predicate Holds(pc: ReadPc, path: string) {
    pc.Holding? && pc.path == path
  }

  // What a process sees is the fold of all commands, what the file holds is the fold of those it
  // reflects, and what a read holds is the fold of those the file reflected when it was read.
  ghost predicate FoldInv(files: map<string, File>, c: System, path: string) {
    && Reflected(c, path) <= |c.log|
    && Seen(c.store, path) == Fold(files, c.log, |c.log|, path)
    && OnDisk(c.store, path) == Fold(files, c.log, Reflected(c, path), path)
    && (path in c.writing ==>
          path in c.store.cache && Some(Fields(c.writing[path].value)) == Fold(files, c.log, |c.log|, path))
    && (forall t :: 0 <= t < |c.readers| && Holds(c.readers[t], path) ==>
          HeldOk(files, c, c.readers[t]))
  }

  ghost predicate HeldOk(files: map<string, File>, c: System, pc: ReadPc)
    requires pc.Holding?
  {
    pc.at <= |c.log| && Some(Fields(pc.value)) == Fold(files, c.log, pc.at, pc.path)
  }

  // A fill of this path finds the fold as it was when the file was read.
  predicate Harmless(files: map<string, File>, c: System, a: Action, path: string) {
    && a.Fill? && a.t < |c.readers| && Holds(c.readers[a.t], path) && c.readers[a.t].at <= |c.log| ==>
      Fold(files, c.log, c.readers[a.t].at, path) == Fold(files, c.log, |c.log|, path)
  }

  lemma BegunKeeps(files: map<string, File>, c: System, command: Command, path: string)
    requires FoldInv(files, c, path) && !command.Read? && command.path !in c.writing
    ensures FoldInv(files, Begun(c, command), path)
  {
    var d := Begun(c, command);
    FoldOfOneMore(files, c.log, command, path);
    FoldOfPrefix(files, c.log, command, Reflected(c, path), path);
    BegunShows(c, command, path);
    forall t | 0 <= t < |d.readers| && Holds(d.readers[t], path) ensures HeldOk(files, d, d.readers[t]) {
      assert HeldOk(files, c, c.readers[t]);
      FoldOfPrefix(files, c.log, command, c.readers[t].at, path);
    }
  }

  function OneMore(before: Option<map<string, Value>>, command: Command): Option<map<string, Value>> {
    match command
    case Read(_) => before
    case Write(_, value) => Some(Fields(value))
    case Patch(_, patch) => if before.Some? then Some(before.value + patch) else None
  }

  // What a command shows to a process, and what it leaves to be written.
  lemma BegunShows(c: System, command: Command, path: string)
    requires !command.Read? && command.path !in c.writing
    ensures var d := Begun(c, command);
            && d.store.disk == c.store.disk && d.readers == c.readers && d.log == c.log + [command]
            && (path != command.path ==>
                  Seen(d.store, path) == Seen(c.store, path) && (path in d.writing <==> path in c.writing)
                  && (path in c.writing ==> d.writing[path] == c.writing[path])
                  && (path in c.store.cache <==> path in d.store.cache))
            && (path == command.path ==>
                  && Seen(d.store, path) == OneMore(Seen(c.store, path), command)
                  && (path !in d.writing ==> Seen(d.store, path) == Seen(c.store, path))
                  && (path in d.writing ==>
                        && path in d.store.cache && d.writing[path].at == |c.log|
                        && Some(Fields(d.writing[path].value)) == Seen(d.store, path)))
  {
  }

  lemma ReadKeeps(files: map<string, File>, c: System, a: Action, path: string)
    requires FoldInv(files, c, path) && Enabled(c, a) && (a.Begin? || a.LookUp? || a.ReadDisk?)
    ensures FoldInv(files, Apply(c, a), path)
  {
    var d := Apply(c, a);
    assert d.store == c.store && d.writing == c.writing && d.log == c.log;
    forall t | 0 <= t < |d.readers| && Holds(d.readers[t], path) ensures HeldOk(files, d, d.readers[t]) {
      if t < |c.readers| && c.readers[t] == d.readers[t] { assert HeldOk(files, c, c.readers[t]); }
    }
  }

  lemma FlushKeeps(files: map<string, File>, c: System, p: string, path: string)
    requires FoldInv(files, c, path) && Enabled(c, Flush(p))
    ensures FoldInv(files, Apply(c, Flush(p)), path)
  {
    var d := Apply(c, Flush(p));
    forall t | 0 <= t < |d.readers| && Holds(d.readers[t], path) ensures HeldOk(files, d, d.readers[t]) {
      assert HeldOk(files, c, c.readers[t]);
    }
  }

  // A fill shows the fold as it was when the file was read.
  lemma FillShows(files: map<string, File>, c: System, t: nat, path: string)
    requires FoldInv(files, c, path) && Enabled(c, Fill(t))
    ensures var d := Apply(c, Fill(t));
            Seen(d.store, path)
            == if c.readers[t].path == path then Fold(files, c.log, c.readers[t].at, path) else Seen(c.store, path)
    ensures c.readers[t].path == path ==> c.readers[t].at <= |c.log|
  {
    if c.readers[t].path == path { assert HeldOk(files, c, c.readers[t]); }
  }

  lemma FillKeeps(files: map<string, File>, c: System, t: nat, path: string)
    requires FoldInv(files, c, path) && Enabled(c, Fill(t)) && Harmless(files, c, Fill(t), path)
    ensures FoldInv(files, Apply(c, Fill(t)), path)
  {
    var d := Apply(c, Fill(t));
    FillShows(files, c, t, path);
    forall u | 0 <= u < |d.readers| && Holds(d.readers[u], path) ensures HeldOk(files, d, d.readers[u]) {
      assert HeldOk(files, c, c.readers[u]);
    }
  }

  lemma StepKeeps(files: map<string, File>, c: System, a: Action, path: string)
    requires FoldInv(files, c, path) && Enabled(c, a) && Harmless(files, c, a, path)
    ensures FoldInv(files, Apply(c, a), path)
  {
    match a
    case Fill(t) => FillKeeps(files, c, t, path);
    case StartWrite(p, value) => BegunKeeps(files, c, Write(p, value), path);
    case StartPatch(p, patch) => BegunKeeps(files, c, Patch(p, patch), path);
    case Flush(p) => FlushKeeps(files, c, p, path);
    case _ => ReadKeeps(files, c, a, path);
  }

  // ---- when the cache follows the fold ----

  // Every fill of this path along the run was harmless.
  ghost predicate FillsHarmless(files: map<string, File>, actions: seq<Action>, path: string) {
    actions == []
    || (var front, a := actions[..|actions| - 1], actions[|actions| - 1];
        && FillsHarmless(files, front, path)
        && Exec(files, front).Some? && Harmless(files, Exec(files, front).value, a, path))
  }

  // In every state along the run a process sees the fold of the commands so far.
  ghost predicate AlwaysFold(files: map<string, File>, actions: seq<Action>, path: string) {
    && (actions != [] ==> AlwaysFold(files, actions[..|actions| - 1], path))
    && Exec(files, actions).Some?
    && var c := Exec(files, actions).value; Seen(c.store, path) == Fold(files, c.log, |c.log|, path)
  }

  lemma {:induction false} HarmlessRunKeepsFold(files: map<string, File>, actions: seq<Action>, c: System, path: string)
    requires Run(files, actions, c) && FillsHarmless(files, actions, path)
    ensures FoldInv(files, c, path) && AlwaysFold(files, actions, path)
  {
    if actions != [] {
      var a, b := actions[|actions| - 1], Exec(files, actions[..|actions| - 1]).value;
      HarmlessRunKeepsFold(files, actions[..|actions| - 1], b, path);
      StepKeeps(files, b, a, path);
    }
  }

  lemma {:induction false} FoldMeansHarmless(files: map<string, File>, actions: seq<Action>, c: System, path: string)
    requires Run(files, actions, c) && AlwaysFold(files, actions, path)
    ensures FillsHarmless(files, actions, path)
  {
    if actions != [] {
      var front, a := actions[..|actions| - 1], actions[|actions| - 1];
      var b := Exec(files, front).value;
      FoldMeansHarmless(files, front, b, path);
      HarmlessRunKeepsFold(files, front, b, path);
      if a.Fill? { FillShows(files, b, a.t, path); }
    }
  }

  // Over every interleaving: every process sees, in every state, the fold of the writes and overrides
  // so far if and only if every late fill finds the fold as it was when its file was read.
  lemma CacheFollowsFoldIff(files: map<string, File>, actions: seq<Action>, c: System, path: string)
    requires Run(files, actions, c)
    ensures AlwaysFold(files, actions, path) <==> FillsHarmless(files, actions, path)
  {
    if FillsHarmless(files, actions, path) {
      HarmlessRunKeepsFold(files, actions, c, path);
    }
    if AlwaysFold(files, actions, path) {
      FoldMeansHarmless(files, actions, c, path);
    }
  }

  // The file follows too: whenever no command is in progress on the path, cache and file agree.
  lemma QuietMeansAgreement(files: map<string, File>, actions: seq<Action>, c: System, path: string)
    requires Run(files, actions, c) && FillsHarmless(files, actions, path) && path !in c.writing
    ensures Agrees(c.store, path) && OnDisk(c.store, path) == Fold(files, c.log, |c.log|, path)
  {
    HarmlessRunKeepsFold(files, actions, c, path);
  }

  lemma RunExtends(files: map<string, File>, actions: seq<Action>, c: System, a: Action)
    requires Run(files, actions, c) && Enabled(c, a)
    ensures Run(files, actions + [a], Apply(c, a))
  {
    assert (actions + [a])[..|actions|] == actions;
  }

  // A fill that does harm exists for every readable file: a write gets between its read and its fill.
  lemma LateFillHappens(
      files: map<string, File>, path: string, written: Value) returns (actions: seq<Action>, c: System)
    requires ReadFile(files, path).Ok? && Fields(written) != Fields(ReadFile(files, path).value)
    ensures Run(files, actions, c) && c.writing == map[] && c.log == [Write(path, written)]
    ensures OnDisk(c.store, path) == Some(Fields(written))
            && Seen(c.store, path) == Some(Fields(ReadFile(files, path).value))
  {
    var c1 := Apply(Opened(files), Begin(path));
    var c2 := Apply(c1, LookUp(0));
    var c3 := Apply(c2, ReadDisk(0));
    var c4 := Apply(c3, StartWrite(path, written));
    var c5 := Apply(c4, Flush(path));
    c := Apply(c5, Fill(0));
    RunExtends(files, [], Opened(files), Begin(path));
    RunExtends(files, [Begin(path)], c1, LookUp(0));
    RunExtends(files, [Begin(path)] + [LookUp(0)], c2, ReadDisk(0));
    RunExtends(files, [Begin(path)] + [LookUp(0)] + [ReadDisk(0)], c3, StartWrite(path, written));
    RunExtends(files, [Begin(path)] + [LookUp(0)] + [ReadDisk(0)] + [StartWrite(path, written)], c4, Flush(path));
    actions := [Begin(path)] + [LookUp(0)] + [ReadDisk(0)] + [StartWrite(path, written)] + [Flush(path)];
    RunExtends(files, actions, c5, Fill(0));
    actions := actions + [Fill(0)];
  }

  // ---- what a read returns ----

  // The read has what it will return.
  predicate WillReturn(pc: ReadPc, result: Result<Value, StoreError>) {
    || (pc.Holding? && result == Ok(pc.value))
    || (pc.Returned? && result == pc.result)
  }

  lemma {:induction false} ReturnStays(
      files: map<string, File>, before: seq<Action>, c: System, after: seq<Action>, d: System, t: nat,
      result: Result<Value, StoreError>)
    requires Run(files, before, c) && Run(files, before + after, d)
    requires t < |c.readers| && WillReturn(c.readers[t], result)
    ensures t < |d.readers| && WillReturn(d.readers[t], result)
  {
    if after == [] {
      assert before + after == before;
    } else {
      var front := after[..|after| - 1];
      assert (before + after)[..|before + after| - 1] == before + front;
      ReturnStays(files, before, c, front, Exec(files, before + front).value, t, result);
    }
  }

  // A read returns the cached value as it was when it looked, or else what the file held when it was
  // read: null if there was none, and an error only if it was no JSON.
  lemma ReadReturnsWhatItSaw(
      files: map<string, File>, before: seq<Action>, c: System, look: Action, after: seq<Action>, d: System)
    requires (look.LookUp? || look.ReadDisk?) && Run(files, before, c) && Enabled(c, look)
    requires Run(files, before + [look] + after, d) && look.t < |d.readers| && d.readers[look.t].Returned?
    ensures var path, result := c.readers[look.t].path, d.readers[look.t].result;
            && (look.LookUp? && path in c.store.cache ==> result == Ok(c.store.cache[path]))
            && (look.ReadDisk? && path !in c.store.disk ==> result == Ok(Null))
            && (look.ReadDisk? && path in c.store.disk ==>
                  match c.store.disk[path]
                  case Json(value) => result == Ok(value)
                  case Garbage => result == Err(Unreadable))
  {
    RunExtends(files, before, c, look);
    var e := Apply(c, look);
    if !e.readers[look.t].Missed? {
      ReturnStays(files, before + [look], e, after, d, look.t,
                  if e.readers[look.t].Holding? then Ok(e.readers[look.t].value) else e.readers[look.t].result);
    }
  }
}
