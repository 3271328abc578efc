/**
 The client store with its process-wide cache (src-tauri/src/client_storage.rs).

 JSON text is taken as the value it parses to, a file that does not parse as `Garbage`. A command
 runs as one step; `Io` says whether it gets the file lock and whether its disk write succeeds.
 */
module ClientStorage {
  import opened Wrappers

  datatype Value = Null | Object(fields: map<string, Value>) | Other(text: string)

  datatype File = Json(value: Value) | Garbage

  datatype Io = Io(locks: bool, writes: bool)

  const WORKS := Io(true, true)

  datatype StoreError = NoLock | Unreadable | NotWritten

  datatype Store = Store(cache: map<string, Value>, disk: map<string, File>)

  // The key map a value stands for; anything but an object counts as empty.
  function Fields(v: Value): map<string, Value> {
    if v.Object? then v.fields else map[]
  }

  // read_store_unlocked
  function ReadFile(disk: map<string, File>, path: string): Result<Value, StoreError> {
    if path !in disk then Ok(Null)
    else match disk[path] case Json(v) => Ok(v) case Garbage => Err(Unreadable)
  }

  function Load(s: Store, path: string): Result<Value, StoreError> {
    if path in s.cache then Ok(s.cache[path]) else ReadFile(s.disk, path)
  }

  function AfterRead(s: Store, path: string): (Store, Result<Value, StoreError>) {
    match Load(s, path)
    case Ok(v) => (s.(cache := s.cache[path := v]), Ok(v))
    case Err(e) => (s, Err(e))
  }

  function AfterWrite(s: Store, path: string, value: Value, io: Io): (Store, Result<(), StoreError>) {
    if !io.locks then (s, Err(NoLock))
    else
      var cached := s.(cache := s.cache[path := value]);
      if io.writes then (cached.(disk := s.disk[path := Json(value)]), Ok(())) else (cached, Err(NotWritten))
  }

  // The patch overrides key by key; the file is written only when that changes something.
  function AfterPatch(s: Store, path: string, patch: map<string, Value>, io: Io): (Store, Result<(), StoreError>) {
    if !io.locks then (s, Err(NoLock))
    else
      match Load(s, path)
      case Err(e) => (s, Err(e))
      case Ok(v) =>
        var merged := Object(Fields(v) + patch);
        var cached := s.(cache := s.cache[path := merged]);
        if merged.fields == Fields(v) then (cached, Ok(()))
        else if io.writes then (cached.(disk := s.disk[path := Json(merged)]), Ok(()))
        else (cached, Err(NotWritten))
  }

  class ClientStore {
    var cache: map<string, Value>
    var disk: map<string, File>

    constructor (files: map<string, File>)
      ensures View() == Store(map[], files)
    {
      cache, disk := map[], files;
    }

    function View(): Store
      reads this
    {
      Store(cache, disk)
    }

    method ReadStore(path: string) returns (r: Result<Value, StoreError>)
      modifies this`cache
      ensures (View(), r) == AfterRead(old(View()), path)
    {
      if path in cache {
        assert cache[path := cache[path]] == cache;
        return Ok(cache[path]);
      }
      r := ReadFile(disk, path);
      if r.Ok? {
        cache := cache[path := r.value];
      }
    }

    method WriteStore(path: string, value: Value, io: Io) returns (r: Result<(), StoreError>)
      modifies this
      ensures (View(), r) == AfterWrite(old(View()), path, value, io)
    {
      if !io.locks {
        return Err(NoLock);
      }
      cache := cache[path := value];
      if !io.writes {
        return Err(NotWritten);
      }
      disk := disk[path := Json(value)];
      r := Ok(());
    }

    method PatchStoreAtPath(path: string, patch: map<string, Value>, io: Io) returns (r: Result<(), StoreError>)
      modifies this
      ensures (View(), r) == AfterPatch(old(View()), path, patch, io)
    {
      if !io.locks {
        return Err(NoLock);
      }
      if path !in cache {
        var loaded := ReadFile(disk, path);
        if loaded.Err? {
          return Err(loaded.error);
        }
        cache := cache[path := loaded.value];
      }
      var entry := if cache[path].Object? then cache[path] else Object(map[]);
      var merged, changed := MergePatch(entry.fields, patch);
      cache := cache[path := Object(merged)];
      assert cache == old(cache)[path := Object(merged)];
      if !changed {
        return Ok(());
      }
      if !io.writes {
        return Err(NotWritten);
      }
      disk := disk[path := Json(Object(merged))];
      r := Ok(());
    }
  }

  // The loop of patch_store_at_path, in any key order.
  method MergePatch(fields: map<string, Value>, patch: map<string, Value>)
    returns (merged: map<string, Value>, changed: bool)
    ensures merged == fields + patch
    ensures changed <==> merged != fields
  {
    merged, changed := fields, false;
    var done: set<string> := {};
    while patch.Keys - done != {}
      invariant done <= patch.Keys
      invariant merged == fields + Only(patch, done)
      invariant changed <==> merged != fields
      decreases patch.Keys - done
    {
      var key :| key in patch.Keys - done;
      MergeStep(fields, patch, done, key);
      if key !in merged || merged[key] != patch[key] {
        merged := merged[key := patch[key]];
        changed := true;
      }
      done := done + {key};
    }
    assert Only(patch, patch.Keys) == patch;
  }

  function Only(patch: map<string, Value>, keys: set<string>): map<string, Value> {
    map k | k in patch && k in keys :: patch[k]
  }

  // Overriding one more key, and when that shows.
  lemma MergeStep(fields: map<string, Value>, patch: map<string, Value>, done: set<string>, key: string)
    requires key in patch && key !in done
    ensures var merged, next := fields + Only(patch, done), fields + Only(patch, done + {key});
            && next == merged[key := patch[key]]
            && (key in merged && merged[key] == patch[key] ==> next == merged)
            && (!(key in merged && merged[key] == patch[key]) ==> next != fields)
  {
    var merged, next := fields + Only(patch, done), fields + Only(patch, done + {key});
    assert next == merged[key := patch[key]];
    assert key in next && next[key] == patch[key];
  }

  // ---- cache and file ----

  // The key map a reader of this process sees; None while the file is unreadable and not cached.
  function Seen(s: Store, path: string): Option<map<string, Value>> {
    match Load(s, path) case Ok(v) => Some(Fields(v)) case Err(_) => None
  }

  // The key map a restarted process would see.
  function OnDisk(s: Store, path: string): Option<map<string, Value>> {
    match ReadFile(s.disk, path) case Ok(v) => Some(Fields(v)) case Err(_) => None
  }

  ghost predicate Agrees(s: Store, path: string) {
    Seen(s, path) == OnDisk(s, path)
  }

  datatype Command =
    | Read(path: string)
    | Write(path: string, value: Value)
    | Patch(path: string, patch: map<string, Value>)

  function Step(s: Store, c: Command, io: Io): Store {
    match c
    case Read(path) => AfterRead(s, path).0
    case Write(path, value) => AfterWrite(s, path, value, io).0
    case Patch(path, patch) => AfterPatch(s, path, patch, io).0
  }

  // All commands, every one getting its lock and its disk write.
  function RunAll(s: Store, commands: seq<Command>): Store {
    if commands == [] then s
    else Step(RunAll(s, commands[..|commands| - 1]), commands[|commands| - 1], WORKS)
  }

  // What the commands mean for one path without any cache: writes replace, patches override.
  function Meaning(
      initial: Option<map<string, Value>>, commands: seq<Command>, path: string): Option<map<string, Value>> {
    if commands == [] then initial
    else
      var before := Meaning(initial, commands[..|commands| - 1], path);
      match commands[|commands| - 1]
      case Read(_) => before
      case Write(p, value) => if p == path then Some(Fields(value)) else before
      case Patch(p, patch) => if p == path && before.Some? then Some(before.value + patch) else before
  }

  // Along any sequence of commands, cache and file agree on every path and both hold the fold of the
  // writes and overrides: eliding the write of a patch that changes nothing loses nothing.
  lemma {:induction false} CacheRefinesFold(s: Store, commands: seq<Command>, path: string)
    requires Agrees(s, path)
    ensures Seen(RunAll(s, commands), path) == Meaning(Seen(s, path), commands, path)
    ensures OnDisk(RunAll(s, commands), path) == Meaning(Seen(s, path), commands, path)
  {
    if commands != [] {
      CacheRefinesFold(s, commands[..|commands| - 1], path);
      StepRefinesFold(RunAll(s, commands[..|commands| - 1]), commands[|commands| - 1], path);
    }
  }

  lemma StepRefinesFold(s: Store, c: Command, path: string)
    requires Agrees(s, path)
    ensures Agrees(Step(s, c, WORKS), path)
    ensures Seen(Step(s, c, WORKS), path)
         == match c
            case Read(_) => Seen(s, path)
            case Write(p, value) => if p == path then Some(Fields(value)) else Seen(s, path)
            case Patch(p, patch) =>
              if p == path && Seen(s, path).Some? then Some(Seen(s, path).value + patch) else Seen(s, path)
  {
  }

  // A read therefore returns the value with that fold as its key map, or fails when there is none.
  lemma ReadReturnsFold(s: Store, commands: seq<Command>, path: string)
    requires Agrees(s, path)
    ensures var r := AfterRead(RunAll(s, commands), path).1;
            match Meaning(Seen(s, path), commands, path)
            case Some(m) => r.Ok? && Fields(r.value) == m
            case None => r == Err(Unreadable)
  {
    CacheRefinesFold(s, commands, path);
  }

  // ---- what a failed write leaves behind ----

  // A patch that reports success leaves cache and file in agreement exactly when they agreed before
  // or the patch changed the cached value, that is, when it was not elided.
  lemma PatchAgreesIff(s: Store, path: string, patch: map<string, Value>, io: Io)
    requires AfterPatch(s, path, patch, io).1.Ok?
    ensures Agrees(AfterPatch(s, path, patch, io).0, path) <==>
              Agrees(s, path) || Seen(s, path).value + patch != Seen(s, path).value
  {
  }

  // The same patch, again and again.
  function Retried(s: Store, path: string, patch: map<string, Value>, ios: seq<Io>): Store {
    if ios == [] then s
    else AfterPatch(Retried(s, path, patch, ios[..|ios| - 1]), path, patch, ios[|ios| - 1]).0
  }

  // So once the disk write of a patch has failed, retrying it reports success without writing, however
  // often: the cache already holds the patch, the file never gets it.
  lemma {:induction false} RetryAfterFailureIsElided(
      s: Store, path: string, patch: map<string, Value>, ios: seq<Io>, io: Io)
    requires Agrees(s, path) && Seen(s, path).Some? && Seen(s, path).value + patch != Seen(s, path).value
    requires io.locks
    ensures var (failed, r) := AfterPatch(s, path, patch, Io(true, false));
            var before := Retried(failed, path, patch, ios);
            var (after, again) := AfterPatch(before, path, patch, io);
            && r == Err(NotWritten) && again == Ok(()) && after == before
            && after.disk == s.disk && Seen(after, path) == Some(Seen(s, path).value + patch) && !Agrees(after, path)
  {
    var failed := AfterPatch(s, path, patch, Io(true, false)).0;
    if ios == [] {
      PatchedTwice(s, path, patch, io);
    } else {
      var last := |ios| - 1;
      RetryAfterFailureIsElided(s, path, patch, ios[..last], ios[last].(locks := true));
      RetryAfterFailureIsElided(s, path, patch, ios[..last], io);
      assert Retried(failed, path, patch, ios) == Retried(failed, path, patch, ios[..last]);
    }
  }

  lemma PatchedTwice(s: Store, path: string, patch: map<string, Value>, io: Io)
    requires Agrees(s, path) && Seen(s, path).Some? && Seen(s, path).value + patch != Seen(s, path).value
    requires io.locks
    ensures var failed := AfterPatch(s, path, patch, Io(true, false)).0;
            && AfterPatch(failed, path, patch, io) == (failed, Ok(()))
            && failed.disk == s.disk && Seen(failed, path) == Some(Seen(s, path).value + patch) && !Agrees(failed, path)
  {
    var m := Seen(s, path).value;
    assert m + patch + patch == m + patch;
    var failed := AfterPatch(s, path, patch, Io(true, false)).0;
    assert failed.cache[path := Object(m + patch)] == failed.cache;
  }

  // ---- runs whose disk writes may fail ----

  datatype Attempt = Attempt(command: Command, io: Io)

  function RunAttempts(s: Store, attempts: seq<Attempt>): Store {
    if attempts == [] then s
    else
      var last := attempts[|attempts| - 1];
      Step(RunAttempts(s, attempts[..|attempts| - 1]), last.command, last.io)
  }

  // The command gets its lock, has something to write on this path, and its disk write succeeds.
  predicate Performs(s: Store, a: Attempt, path: string) {
    && a.io.locks && a.io.writes && a.command.path == path
    && (|| a.command.Write?
        || (a.command.Patch? && Seen(s, path).Some? && Seen(s, path).value + a.command.patch != Seen(s, path).value))
  }

  // What a process saw right after the last disk write performed on the path.
  function LastPerformed(s: Store, attempts: seq<Attempt>, path: string): Option<map<string, Value>> {
    if attempts == [] then OnDisk(s, path)
    else
      var front, last := attempts[..|attempts| - 1], attempts[|attempts| - 1];
      if Performs(RunAttempts(s, front), last, path) then Seen(RunAttempts(s, attempts), path)
      else LastPerformed(s, front, path)
  }

  lemma StepPerforms(s: Store, a: Attempt, path: string)
    ensures var after := Step(s, a.command, a.io);
            OnDisk(after, path) == if Performs(s, a, path) then Seen(after, path) else OnDisk(s, path)
  {
  }

  // Whichever writes fail, the file holds what was seen right after the last write performed; so cache
  // and file agree if and only if that is what is seen now.
  lemma {:induction false} FileHoldsLastPerformed(s: Store, attempts: seq<Attempt>, path: string)
    ensures OnDisk(RunAttempts(s, attempts), path) == LastPerformed(s, attempts, path)
    ensures Agrees(RunAttempts(s, attempts), path) <==>
              Seen(RunAttempts(s, attempts), path) == LastPerformed(s, attempts, path)
  {
    if attempts != [] {
      var front := attempts[..|attempts| - 1];
      FileHoldsLastPerformed(s, front, path);
      StepPerforms(RunAttempts(s, front), attempts[|attempts| - 1], path);
    }
  }

  // ---- the read that is not one step ----

  // read_store reads the file without holding the cache, and fills the cache afterwards.
  function Filled(s: Store, path: string, value: Value): Store {
    s.(cache := s.cache[path := value])
  }

  // Commands run between the reading of the file and the late fill: the fill keeps cache and file
  // together if and only if those commands left the key map as it was.
  lemma LateFillAgreesIff(s: Store, path: string, between: seq<Command>)
    requires Agrees(s, path) && ReadFile(s.disk, path).Ok?
    ensures Agrees(Filled(RunAll(s, between), path, ReadFile(s.disk, path).value), path) <==>
              Meaning(Seen(s, path), between, path) == Seen(s, path)
  {
    CacheRefinesFold(s, between, path);
  }

  // Otherwise a write that came in between is lost: the fill brings the old value back, and the next
  // patch puts it on disk.
  lemma LateFillUndoesWrite(s: Store, path: string, written: Value, patch: map<string, Value>)
    requires path !in s.cache && ReadFile(s.disk, path).Ok?
    requires Fields(ReadFile(s.disk, path).value) + patch != Fields(ReadFile(s.disk, path).value)
    ensures var stale := ReadFile(s.disk, path).value;
            var s1 := AfterWrite(s, path, written, WORKS).0;
            var s2 := Filled(s1, path, stale);
            OnDisk(AfterPatch(s2, path, patch, WORKS).0, path) == Some(Fields(stale) + patch)
  {
  }

  // ---- the exact values ----

  // A file that does not exist yet reads as null, and the first patch makes it an object; a file that
  // is no JSON stops both, until a write replaces it.
  lemma FirstCommands(s: Store, path: string, patch: map<string, Value>, value: Value)
    requires path !in s.cache
    ensures path !in s.disk ==> AfterRead(s, path).1 == Ok(Null)
    ensures path !in s.disk && patch != map[] ==>
              && AfterPatch(s, path, patch, WORKS).1 == Ok(())
              && AfterPatch(s, path, patch, WORKS).0.disk == s.disk[path := Json(Object(patch))]
    ensures path in s.disk && s.disk[path] == Garbage ==>
              && AfterRead(s, path) == (s, Err(Unreadable))
              && AfterPatch(s, path, patch, WORKS) == (s, Err(Unreadable))
              && AfterWrite(s, path, value, WORKS).0.disk == s.disk[path := Json(value)]
  {
    assert map[] + patch == patch;
  }

  // A file is read once: what a read returned is returned again whatever becomes of the file, and the
  // read changes nothing else.
  lemma FileIsReadOnce(s: Store, path: string, disk: map<string, File>, other: string)
    requires AfterRead(s, path).1.Ok?
    ensures var (t, r) := AfterRead(s, path);
            && AfterRead(t.(disk := disk), path).1 == r && t.disk == s.disk
            && (other != path ==> Load(t, other) == Load(s, other))
  {
  }

  // The value of the last write to a path, as long as no patch came since.
  function LastWritten(commands: seq<Command>, path: string): Option<Value> {
    if commands == [] then None
    else
      match commands[|commands| - 1]
      case Write(p, value) => if p == path then Some(value) else LastWritten(commands[..|commands| - 1], path)
      case Patch(p, _) => if p == path then None else LastWritten(commands[..|commands| - 1], path)
      case Read(_) => LastWritten(commands[..|commands| - 1], path)
  }

  // That very value is what a read returns, and what the file holds.
  lemma {:induction false} WrittenIsRead(s: Store, commands: seq<Command>, path: string)
    requires LastWritten(commands, path).Some?
    ensures var value, t := LastWritten(commands, path).value, RunAll(s, commands);
            && AfterRead(t, path).1 == Ok(value)
            && path in t.cache && t.cache[path] == value && path in t.disk && t.disk[path] == Json(value)
  {
    var front, last := commands[..|commands| - 1], commands[|commands| - 1];
    if !(last.Write? && last.path == path) {
      WrittenIsRead(s, front, path);
    }
  }
}
