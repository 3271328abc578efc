/**
 The bounded registry of language servers (src-tauri/src/code_intel_lsp.rs).

 `session_for` and `evict_session` run on any number of tasks. Each block that holds the `sessions`
 or the `session_initializers` mutex is one step; the per-key initializer mutex is held across many
 steps, and a server may die at any time. A session is named by a number: Arc identity.
 */
module LspRegistry {
  import opened Wrappers

  datatype Provider = RustAnalyzer | EclipseJdtLs | TypeScriptLanguageServer | Pyright | Gopls

  datatype Key = Key(provider: Provider, workspaceRoot: string)

  const MAX_SESSIONS: nat := 6
  const SESSION_IDLE_TIMEOUT_MS: nat := 15 * 60 * 1000

  // ---- select_session_evictions ----

  datatype Fact = Fact(key: Key, alive: bool, lastUsed: nat)

  // Instant::duration_since and usize::saturating_sub stop at zero.
  function SaturatingDiff(a: nat, b: nat): nat {
    if b <= a then a - b else 0
  }

  predicate IsStale(f: Fact, now: nat) {
    !f.alive || SaturatingDiff(now, f.lastUsed) >= SESSION_IDLE_TIMEOUT_MS
  }

  function StaleKeys(facts: seq<Fact>, now: nat): seq<Key> {
    if facts == [] then []
    else (if IsStale(facts[0], now) then [facts[0].key] else []) + StaleKeys(facts[1..], now)
  }

  function Survivors(facts: seq<Fact>, evictions: seq<Key>): seq<Fact> {
    if facts == [] then []
    else (if facts[0].key in evictions then [] else [facts[0]]) + Survivors(facts[1..], evictions)
  }

  // Iterator::min_by_key: the first of the least.
  function Oldest(facts: seq<Fact>): (r: Fact)
    requires facts != []
    ensures r in facts && forall f :: f in facts ==> r.lastUsed <= f.lastUsed
  {
    if |facts| == 1 then facts[0]
    else
      var rest := Oldest(facts[1..]);
      if facts[0].lastUsed <= rest.lastUsed then facts[0] else rest
  }

  function SelectSessionEvictions(facts: seq<Fact>, requested: Key, now: nat): seq<Key> {
    var stale := StaleKeys(facts, now);
    var requestedSurvives := exists i :: 0 <= i < |facts| && facts[i].key == requested && facts[i].key !in stale;
    var survivorCount := SaturatingDiff(|facts|, |stale|);
    if !requestedSurvives && survivorCount >= MAX_SESSIONS && Survivors(facts, stale) != []
    then stale + [Oldest(Survivors(facts, stale)).key]
    else stale
  }

  ghost predicate DistinctKeys(facts: seq<Fact>) {
    forall i, j :: 0 <= i < j < |facts| ==> facts[i].key != facts[j].key
  }

  // Every stale key is that of a fact.
  lemma {:induction false} StaleKeyHasFact(facts: seq<Fact>, now: nat, k: Key) returns (i: nat)
    requires k in StaleKeys(facts, now)
    ensures i < |facts| && facts[i].key == k && IsStale(facts[i], now)
  {
    if IsStale(facts[0], now) && facts[0].key == k {
      i := 0;
    } else {
      i := StaleKeyHasFact(facts[1..], now, k);
      i := i + 1;
    }
  }

  lemma {:induction false} StaleFactHasKey(facts: seq<Fact>, now: nat, i: nat)
    requires i < |facts| && IsStale(facts[i], now)
    ensures facts[i].key in StaleKeys(facts, now)
  {
    if i > 0 {
      StaleFactHasKey(facts[1..], now, i - 1);
    }
  }

  lemma {:induction false} StaleKeysDistinct(facts: seq<Fact>, now: nat)
    requires DistinctKeys(facts)
    ensures NoDuplicates(StaleKeys(facts, now)) && |StaleKeys(facts, now)| <= |facts|
  {
    if facts != [] {
      var rest := facts[1..];
      StaleKeysDistinct(rest, now);
      if facts[0].key in StaleKeys(rest, now) {
        var i := StaleKeyHasFact(rest, now, facts[0].key);
        assert false;
      }
    }
  }

  // The stale keys are exactly the keys of the dead and idle sessions, each once.
  lemma StaleKeysExact(facts: seq<Fact>, now: nat)
    requires DistinctKeys(facts)
    ensures |StaleKeys(facts, now)| <= |facts|
    ensures forall i :: 0 <= i < |facts| ==> (facts[i].key in StaleKeys(facts, now) <==> IsStale(facts[i], now))
    ensures forall k :: k in StaleKeys(facts, now) ==> exists i :: 0 <= i < |facts| && facts[i].key == k
    ensures NoDuplicates(StaleKeys(facts, now))
  {
    StaleKeysDistinct(facts, now);
    forall k | k in StaleKeys(facts, now) ensures exists i :: 0 <= i < |facts| && facts[i].key == k {
      var i := StaleKeyHasFact(facts, now, k);
    }
    forall i | 0 <= i < |facts| ensures facts[i].key in StaleKeys(facts, now) <==> IsStale(facts[i], now) {
      if IsStale(facts[i], now) {
        StaleFactHasKey(facts, now, i);
      } else if facts[i].key in StaleKeys(facts, now) {
        var j := StaleKeyHasFact(facts, now, facts[i].key);
        assert false;
      }
    }
  }

  lemma {:induction false} SurvivorsExact(facts: seq<Fact>, evictions: seq<Key>)
    ensures forall f :: f in Survivors(facts, evictions) <==> f in facts && f.key !in evictions
  {
    if facts != [] {
      SurvivorsExact(facts[1..], evictions);
    }
  }

  lemma {:induction false} SurvivorCount(facts: seq<Fact>, now: nat, evictions: seq<Key>)
    requires forall i :: 0 <= i < |facts| ==> (facts[i].key in evictions <==> IsStale(facts[i], now))
    ensures |StaleKeys(facts, now)| + |Survivors(facts, evictions)| == |facts|
  {
    if facts != [] {
      SurvivorCount(facts[1..], now, evictions);
    }
  }

  ghost predicate LeastRecent(f: Fact, facts: seq<Fact>) {
    f in facts && forall g :: g in facts ==> f.lastUsed <= g.lastUsed
  }

  // What the eviction policy promises: it evicts every dead or idle session, and beyond those only
  // when the registry would still be full without the requested key, and then just one, a least
  // recently used survivor.
  lemma EvictionPolicy(facts: seq<Fact>, requested: Key, now: nat)
    requires DistinctKeys(facts)
    ensures var evictions := SelectSessionEvictions(facts, requested, now);
            var survivors := Survivors(facts, StaleKeys(facts, now));
            var extra := |survivors| >= MAX_SESSIONS && forall f :: f in survivors ==> f.key != requested;
            && (forall f :: f in survivors <==> f in facts && !IsStale(f, now))
            && (forall f :: f in facts ==> (IsStale(f, now) <==> !f.alive || now - f.lastUsed >= 900_000))
            && |evictions| == |facts| - |survivors| + (if extra then 1 else 0)
            && NoDuplicates(evictions)
            && (forall f :: f in facts && IsStale(f, now) ==> f.key in evictions)
            && (forall k :: k in evictions ==>
                  exists f :: f in facts && f.key == k && (IsStale(f, now) || (extra && LeastRecent(f, survivors))))
  {
    StaleKeysExact(facts, now);
    var stale := StaleKeys(facts, now);
    SurvivorsExact(facts, stale);
    SurvivorCount(facts, now, stale);
    var survivors, evictions := Survivors(facts, stale), SelectSessionEvictions(facts, requested, now);
    forall k | k in evictions
      ensures exists f :: (&& f in facts && f.key == k
                           && (IsStale(f, now) || (evictions != stale && LeastRecent(f, survivors))))
    {
      if k in stale {
        var i :| 0 <= i < |facts| && facts[i].key == k;
        assert facts[i] in facts && IsStale(facts[i], now);
      } else {
        var f := Oldest(survivors);
        assert f in facts && f.key == k;
      }
    }
  }

  // ---- the tasks ----

  datatype Entry = Entry(session: nat, lastUsed: nat)

  // `lock` is the Arc of the key's initializer mutex, `victims` the sessions still to be stopped.
  datatype Pc =
    | SessionStart(key: Key)
    | WaitInit(key: Key, lock: nat)
    | Guarded(key: Key, lock: nat)
    | StoppingFirst(key: Key, lock: nat, victims: seq<nat>, cached: Option<nat>)
    | Spawning(key: Key, lock: nat)
    | Spawned(key: Key, lock: nat, session: nat)
    | StoppingSecond(key: Key, lock: nat, victims: seq<nat>, session: nat)
    | EvictStart(key: Key, failed: nat)
    | StoppingFailed(victims: seq<nat>)
    | Returned(result: Option<nat>)

  // The task holds an Arc of its initializer mutex, which keeps the weak entry alive.
  predicate HasArc(pc: Pc) {
    pc.WaitInit? || HasGuard(pc)
  }

  // The task holds the initializer mutex itself.
  predicate HasGuard(pc: Pc) {
    pc.Guarded? || pc.StoppingFirst? || pc.Spawning? || pc.Spawned? || pc.StoppingSecond?
  }

  function Victims(pc: Pc): seq<nat> {
    if pc.StoppingFirst? || pc.StoppingSecond? || pc.StoppingFailed? then pc.victims else []
  }

  // A server process of this task is being started or waits to be registered.
  predicate IsSpawning(pc: Pc) {
    pc.Spawning? || pc.Spawned?
  }

  // The task has seen that its key has no usable session and will register one.
  predicate WillRegister(pc: Pc) {
    IsSpawning(pc) || (pc.StoppingFirst? && pc.cached == None)
  }

  datatype Registry = Registry(
    sessions: map<Key, Entry>,
    initializers: map<Key, nat>,
    tasks: seq<Pc>,
    alive: set<nat>,
    stopped: set<nat>,
    nextSession: nat,
    nextLock: nat)

  const EMPTY := Registry(map[], map[], [], {}, {}, 0, 0)

  datatype Action =
    | CallSession(key: Key)
    | CallEvict(key: Key, failed: nat)
    | GetInitializer(t: nat)
    | LockInitializer(t: nat)
    | Sweep(t: nat, facts: seq<Fact>, died: set<nat>, now: nat)
    | Stop(t: nat)
    | Proceed(t: nat)
    | SpawnOk(t: nat)
    | SpawnFail(t: nat)
    | Insert(t: nat, facts: seq<Fact>, died: set<nat>, now: nat)
    | Evict(t: nat)
    | ServerDies(session: nat)

  // `facts` lists the registered sessions, in any order (a hash map has none).
  ghost predicate Lists(facts: seq<Fact>, c: Registry) {
    && DistinctKeys(facts)
    && (forall i :: 0 <= i < |facts| ==>
          && facts[i].key in c.sessions
          && facts[i].lastUsed == c.sessions[facts[i].key].lastUsed)
    && (forall k :: k in c.sessions ==> exists i :: 0 <= i < |facts| && facts[i].key == k)
  }

  // The liveness flags are read one by one while servers may die: one that dies meanwhile may be listed
  // either way, whatever the order of the deaths.
  ghost predicate ReadFlags(facts: seq<Fact>, c: Registry, died: set<nat>) {
    forall i :: 0 <= i < |facts| && facts[i].key in c.sessions ==>
      var session := c.sessions[facts[i].key].session;
      && (facts[i].alive ==> session in c.alive)
      && (session in c.alive && session !in died ==> facts[i].alive)
  }

  ghost predicate Enabled(c: Registry, a: Action) {
    match a
    case CallSession(_) => true
    case CallEvict(_, _) => true
    case ServerDies(_) => true
    case GetInitializer(t) => t < |c.tasks| && c.tasks[t].SessionStart?
    case LockInitializer(t) =>
      && t < |c.tasks| && c.tasks[t].WaitInit?
      && forall u :: 0 <= u < |c.tasks| && HasGuard(c.tasks[u]) ==> c.tasks[u].lock != c.tasks[t].lock
    case Sweep(t, facts, died, _) =>
      t < |c.tasks| && c.tasks[t].Guarded? && Lists(facts, c) && ReadFlags(facts, c, died)
    case Stop(t) => t < |c.tasks| && Victims(c.tasks[t]) != []
    case Proceed(t) =>
      && t < |c.tasks| && Victims(c.tasks[t]) == []
      && (c.tasks[t].StoppingFirst? || c.tasks[t].StoppingSecond? || c.tasks[t].StoppingFailed?)
    case SpawnOk(t) => t < |c.tasks| && c.tasks[t].Spawning?
    case SpawnFail(t) => t < |c.tasks| && c.tasks[t].Spawning?
    case Insert(t, facts, died, _) =>
      t < |c.tasks| && c.tasks[t].Spawned? && Lists(facts, c) && ReadFlags(facts, c, died)
    case Evict(t) => t < |c.tasks| && c.tasks[t].EvictStart?
  }

  function Moved(c: Registry, t: nat, pc: Pc): Registry
    requires t < |c.tasks|
  {
    c.(tasks := c.tasks[t := pc])
  }

  function RemovedSessions(sessions: map<Key, Entry>, evictions: seq<Key>): seq<nat> {
    if evictions == [] then []
    else (if evictions[0] in sessions then [sessions[evictions[0]].session] else [])
         + RemovedSessions(sessions - {evictions[0]}, evictions[1..])
  }

  function AfterRemoval(sessions: map<Key, Entry>, evictions: seq<Key>): map<Key, Entry> {
    sessions - (set k | k in evictions)
  }

  // The mutexes some task references: those with a strong count.
  function Referenced(c: Registry): set<nat> {
    set u | 0 <= u < |c.tasks| && HasArc(c.tasks[u]) :: c.tasks[u].lock
  }

  function Retained(initializers: map<Key, nat>, referenced: set<nat>): map<Key, nat> {
    map k | k in initializers && initializers[k] in referenced :: initializers[k]
  }

  function LiveInitializers(c: Registry): map<Key, nat> {
    Retained(c.initializers, Referenced(c))
  }

  // The registry after each of its critical sections.
  function SessionsAfterSweep(sessions: map<Key, Entry>, key: Key, evictions: seq<Key>, now: nat): map<Key, Entry> {
    var left := AfterRemoval(sessions, evictions);
    if key in left then left[key := left[key].(lastUsed := now)] else left
  }

  function SessionsAfterInsert(
      sessions: map<Key, Entry>, key: Key, evictions: seq<Key>, session: nat, now: nat): map<Key, Entry> {
    AfterRemoval(sessions, evictions)[key := Entry(session, now)]
  }

  predicate IsCurrent(sessions: map<Key, Entry>, key: Key, failed: nat) {
    key in sessions && sessions[key].session == failed
  }

  function WithoutFirstVictim(pc: Pc): Pc
    requires Victims(pc) != []
  {
    match pc
    case StoppingFirst(k, l, v, cached) => StoppingFirst(k, l, v[1..], cached)
    case StoppingSecond(k, l, v, s) => StoppingSecond(k, l, v[1..], s)
    case StoppingFailed(v) => StoppingFailed(v[1..])
  }

  function AfterStops(pc: Pc): Pc
    requires pc.StoppingFirst? || pc.StoppingSecond? || pc.StoppingFailed?
  {
    match pc
    case StoppingFirst(k, l, _, cached) => if cached.Some? then Returned(cached) else Spawning(k, l)
    case StoppingSecond(_, _, _, session) => Returned(Some(session))
    case StoppingFailed(_) => Returned(None)
  }

  function InitializerGot(c: Registry, t: nat): Registry
    requires t < |c.tasks| && c.tasks[t].SessionStart?
  {
    var key, live := c.tasks[t].key, LiveInitializers(c);
    if key in live then Moved(c, t, WaitInit(key, live[key])).(initializers := live)
    else Moved(c, t, WaitInit(key, c.nextLock)).(initializers := live[key := c.nextLock], nextLock := c.nextLock + 1)
  }

  function Swept(c: Registry, t: nat, facts: seq<Fact>, died: set<nat>, now: nat): Registry
    requires t < |c.tasks| && c.tasks[t].Guarded?
  {
    var key, evictions := c.tasks[t].key, SelectSessionEvictions(facts, c.tasks[t].key, now);
    var left := AfterRemoval(c.sessions, evictions);
    var cached := if key in left then Some(left[key].session) else None;
    Moved(c, t, StoppingFirst(key, c.tasks[t].lock, RemovedSessions(c.sessions, evictions), cached)).(
      sessions := SessionsAfterSweep(c.sessions, key, evictions, now), alive := c.alive - died)
  }

  function Inserted(c: Registry, t: nat, facts: seq<Fact>, died: set<nat>, now: nat): Registry
    requires t < |c.tasks| && c.tasks[t].Spawned?
  {
    var key, evictions := c.tasks[t].key, SelectSessionEvictions(facts, c.tasks[t].key, now);
    var session := c.tasks[t].session;
    Moved(c, t, StoppingSecond(key, c.tasks[t].lock, RemovedSessions(c.sessions, evictions), session)).(
      sessions := SessionsAfterInsert(c.sessions, key, evictions, session, now), alive := c.alive - died)
  }

  function FailedEvicted(c: Registry, t: nat): Registry
    requires t < |c.tasks| && c.tasks[t].EvictStart?
  {
    var key, failed := c.tasks[t].key, c.tasks[t].failed;
    if IsCurrent(c.sessions, key, failed)
    then Moved(c, t, StoppingFailed([failed])).(sessions := c.sessions - {key})
    else Moved(c, t, StoppingFailed([]))
  }

  // The two maps; each method is what happens under one of the two mutexes.
  class SemanticNavigationRuntime {
    var sessions: map<Key, Entry>
    var initializers: map<Key, nat>

    constructor ()
      ensures sessions == map[] && initializers == map[]
    {
      sessions, initializers := map[], map[];
    }

    // `unused` is the mutex that is allocated if the key has none.
    method InitializerFor(key: Key, referenced: set<nat>, unused: nat) returns (lock: nat)
      modifies this`initializers
      ensures var live := Retained(old(initializers), referenced);
              initializers == (if key in live then live else live[key := unused]) && lock == initializers[key]
    {
      initializers := Retained(initializers, referenced);
      if key in initializers {
        return initializers[key];
      }
      lock := unused;
      initializers := initializers[key := lock];
    }

    method RemoveAll(evictions: seq<Key>) returns (removed: seq<nat>)
      modifies this`sessions
      ensures sessions == AfterRemoval(old(sessions), evictions)
      ensures removed == RemovedSessions(old(sessions), evictions)
    {
      removed := [];
      var left := evictions;
      while left != []
        invariant AfterRemoval(sessions, left) == AfterRemoval(old(sessions), evictions)
        invariant removed + RemovedSessions(sessions, left) == RemovedSessions(old(sessions), evictions)
        decreases |left|
      {
        RemovalStep(sessions, left);
        if left[0] in sessions {
          removed := removed + [sessions[left[0]].session];
          sessions := sessions - {left[0]};
        }
        left := left[1..];
      }
      assert AfterRemoval(sessions, []) == sessions;
    }

    method Sweep(key: Key, facts: seq<Fact>, now: nat) returns (cached: Option<nat>, expired: seq<nat>)
      modifies this`sessions
      ensures var evictions := SelectSessionEvictions(facts, key, now);
              var left := AfterRemoval(old(sessions), evictions);
              && sessions == SessionsAfterSweep(old(sessions), key, evictions, now)
              && expired == RemovedSessions(old(sessions), evictions)
              && cached == if key in left then Some(left[key].session) else None
    {
      expired := RemoveAll(SelectSessionEvictions(facts, key, now));
      cached := None;
      if key in sessions {
        sessions := sessions[key := sessions[key].(lastUsed := now)];
        cached := Some(sessions[key].session);
      }
    }

    method Insert(key: Key, session: nat, facts: seq<Fact>, now: nat) returns (evicted: seq<nat>)
      modifies this`sessions
      ensures var evictions := SelectSessionEvictions(facts, key, now);
              && sessions == SessionsAfterInsert(old(sessions), key, evictions, session, now)
              && evicted == RemovedSessions(old(sessions), evictions)
    {
      evicted := RemoveAll(SelectSessionEvictions(facts, key, now));
      sessions := sessions[key := Entry(session, now)];
    }

    method RemoveFailed(key: Key, failed: nat) returns (removed: Option<nat>)
      modifies this`sessions
      ensures var current := IsCurrent(old(sessions), key, failed);
              && sessions == (if current then old(sessions) - {key} else old(sessions))
              && removed == if current then Some(failed) else None
    {
      removed := None;
      if key in sessions && sessions[key].session == failed {
        removed := Some(sessions[key].session);
        sessions := sessions - {key};
      }
    }
  }

  lemma RemovalStep(sessions: map<Key, Entry>, left: seq<Key>)
    requires left != []
    ensures AfterRemoval(sessions - {left[0]}, left[1..]) == AfterRemoval(sessions, left)
    ensures left[0] !in sessions ==> sessions - {left[0]} == sessions
  {
    assert (set k | k in left) == {left[0]} + (set k | k in left[1..]);
  }

  ghost function Apply(c: Registry, a: Action): Registry
    requires Enabled(c, a)
  {
    match a
    case CallSession(key) => c.(tasks := c.tasks + [SessionStart(key)])
    case CallEvict(key, failed) => c.(tasks := c.tasks + [EvictStart(key, failed)])
    case ServerDies(session) => c.(alive := c.alive - {session})
    case GetInitializer(t) => InitializerGot(c, t)
    case LockInitializer(t) => Moved(c, t, Guarded(c.tasks[t].key, c.tasks[t].lock))
    case Sweep(t, facts, died, now) => Swept(c, t, facts, died, now)
    case Stop(t) =>
      var victim := Victims(c.tasks[t])[0];
      Moved(c, t, WithoutFirstVictim(c.tasks[t])).(alive := c.alive - {victim}, stopped := c.stopped + {victim})
    case Proceed(t) => Moved(c, t, AfterStops(c.tasks[t]))
    case SpawnOk(t) =>
      Moved(c, t, Spawned(c.tasks[t].key, c.tasks[t].lock, c.nextSession)).(
        alive := c.alive + {c.nextSession}, nextSession := c.nextSession + 1)
    case SpawnFail(t) => Moved(c, t, Returned(None))
    case Insert(t, facts, died, now) => Inserted(c, t, facts, died, now)
    case Evict(t) => FailedEvicted(c, t)
  }

  ghost function Exec(actions: seq<Action>): Option<Registry> {
    if actions == [] then Some(EMPTY)
    else
      var before, a := Exec(actions[..|actions| - 1]), actions[|actions| - 1];
      if before.Some? && Enabled(before.value, a) then Some(Apply(before.value, a)) else None
  }

  ghost predicate Run(actions: seq<Action>, c: Registry) {
    Exec(actions) == Some(c)
  }

  // ---- single flight ----

  // Every referenced initializer mutex is the one in the table, so tasks with one key meet at one
  // mutex; no two keys share one.
  ghost predicate InitializerInv(c: Registry) {
    && (forall k :: k in c.initializers ==> c.initializers[k] < c.nextLock)
    && (forall k, m :: k in c.initializers && m in c.initializers && k != m ==> c.initializers[k] != c.initializers[m])
    && (forall t :: 0 <= t < |c.tasks| && HasArc(c.tasks[t]) ==>
          c.tasks[t].key in c.initializers && c.initializers[c.tasks[t].key] == c.tasks[t].lock)
  }

  ghost predicate GuardInv(c: Registry) {
    forall t, u ::
      (&& 0 <= t < |c.tasks| && 0 <= u < |c.tasks|
       && HasGuard(c.tasks[t]) && HasGuard(c.tasks[u]) && c.tasks[t].lock == c.tasks[u].lock)
      ==> t == u
  }

  // A task that will register a session still finds no session under its key.
  ghost predicate VacancyInv(c: Registry) {
    forall t :: 0 <= t < |c.tasks| && WillRegister(c.tasks[t]) ==> c.tasks[t].key !in c.sessions
  }

  // No action but initializer_for gives a task an Arc, and a task keeps its key and mutex.
  lemma ArcsOnlyFromInitializer(c: Registry, a: Action, t: nat)
    requires Enabled(c, a) && !a.GetInitializer?
    requires t < |Apply(c, a).tasks| && HasArc(Apply(c, a).tasks[t])
    ensures t < |c.tasks| && HasArc(c.tasks[t])
    ensures c.tasks[t].key == Apply(c, a).tasks[t].key && c.tasks[t].lock == Apply(c, a).tasks[t].lock
  {
  }

  lemma GotInitializerKept(c: Registry, t: nat)
    requires InitializerInv(c) && t < |c.tasks| && c.tasks[t].SessionStart?
    ensures InitializerInv(InitializerGot(c, t))
  {
    var d := InitializerGot(c, t);
    forall u | 0 <= u < |d.tasks| && HasArc(d.tasks[u])
      ensures d.tasks[u].key in d.initializers && d.initializers[d.tasks[u].key] == d.tasks[u].lock
    {
      if u != t {
        assert HasArc(c.tasks[u]) && c.tasks[u].lock == c.initializers[c.tasks[u].key];
        assert c.tasks[u].lock in Referenced(c);
        assert c.tasks[u].key in LiveInitializers(c);
      }
    }
  }

  lemma InitializerKept(c: Registry, a: Action)
    requires InitializerInv(c) && Enabled(c, a)
    ensures InitializerInv(Apply(c, a))
  {
    if a.GetInitializer? {
      GotInitializerKept(c, a.t);
    } else {
      var d := Apply(c, a);
      assert d.initializers == c.initializers && d.nextLock == c.nextLock;
      forall t | 0 <= t < |d.tasks| && HasArc(d.tasks[t])
        ensures d.tasks[t].key in d.initializers && d.initializers[d.tasks[t].key] == d.tasks[t].lock
      {
        ArcsOnlyFromInitializer(c, a, t);
      }
    }
  }

  lemma GuardKept(c: Registry, a: Action)
    requires GuardInv(c) && Enabled(c, a)
    ensures GuardInv(Apply(c, a))
  {
    var d := Apply(c, a);
    forall t, u | 0 <= t < |d.tasks| && 0 <= u < |d.tasks|
                  && HasGuard(d.tasks[t]) && HasGuard(d.tasks[u]) && d.tasks[t].lock == d.tasks[u].lock
      ensures t == u
    {
      GuardBefore(c, a, t);
      GuardBefore(c, a, u);
    }
  }

  // A guard is kept from before, or was just taken from a mutex nobody held.
  lemma GuardBefore(c: Registry, a: Action, t: nat)
    requires Enabled(c, a) && t < |Apply(c, a).tasks| && HasGuard(Apply(c, a).tasks[t])
    ensures t < |c.tasks| && (a == LockInitializer(t) || HasGuard(c.tasks[t]))
    ensures HasArc(c.tasks[t]) && c.tasks[t].lock == Apply(c, a).tasks[t].lock
  {
  }

  // Two tasks that hold guards for one key are one task.
  lemma SameKeySameTask(c: Registry, t: nat, u: nat)
    requires InitializerInv(c) && GuardInv(c)
    requires t < |c.tasks| && u < |c.tasks| && HasGuard(c.tasks[t]) && HasGuard(c.tasks[u])
    requires c.tasks[t].key == c.tasks[u].key
    ensures t == u
  {
    assert HasArc(c.tasks[t]) && HasArc(c.tasks[u]);
  }

  lemma VacancyKept(c: Registry, a: Action)
    requires InitializerInv(c) && GuardInv(c) && VacancyInv(c) && Enabled(c, a)
    ensures VacancyInv(Apply(c, a))
  {
    var d := Apply(c, a);
    forall u | 0 <= u < |d.tasks| && WillRegister(d.tasks[u])
      ensures d.tasks[u].key !in d.sessions
    {
      TaskVacancyKept(c, a, u);
    }
  }

  // Only an insertion adds a key to the registry.
  lemma KeysOnlyFromInsert(c: Registry, a: Action)
    requires Enabled(c, a)
    ensures Apply(c, a).sessions.Keys <= c.sessions.Keys + if a.Insert? then {c.tasks[a.t].key} else {}
  {
  }

  // A task becomes a future registrant in its sweep only, having found its key vacant.
  lemma RegistrantsOnlyFromSweep(c: Registry, a: Action, u: nat)
    requires Enabled(c, a) && u < |Apply(c, a).tasks| && WillRegister(Apply(c, a).tasks[u])
    ensures || (a.Sweep? && a.t == u && Apply(c, a).tasks[u].key !in Apply(c, a).sessions)
            || (&& u < |c.tasks| && WillRegister(c.tasks[u]) && c.tasks[u].key == Apply(c, a).tasks[u].key
                && !(a.Insert? && a.t == u))
  {
  }

  lemma TaskVacancyKept(c: Registry, a: Action, u: nat)
    requires InitializerInv(c) && GuardInv(c) && VacancyInv(c) && Enabled(c, a)
    requires u < |Apply(c, a).tasks| && WillRegister(Apply(c, a).tasks[u])
    ensures Apply(c, a).tasks[u].key !in Apply(c, a).sessions
  {
    RegistrantsOnlyFromSweep(c, a, u);
    KeysOnlyFromInsert(c, a);
    if a.Insert? && u < |c.tasks| && WillRegister(c.tasks[u]) && c.tasks[u].key == c.tasks[a.t].key {
      SameKeySameTask(c, u, a.t);
    }
  }

  // ---- capacity ----

  ghost predicate CapacityInv(c: Registry) {
    |c.sessions| <= MAX_SESSIONS
  }

  lemma {:induction false} ListingSize(facts: seq<Fact>, keys: set<Key>)
    requires DistinctKeys(facts)
    requires forall i :: 0 <= i < |facts| ==> facts[i].key in keys
    requires forall k :: k in keys ==> exists i :: 0 <= i < |facts| && facts[i].key == k
    ensures |facts| == |keys|
  {
    if facts == [] {
      assert keys == {};
    } else {
      var rest, others := facts[1..], keys - {facts[0].key};
      assert forall i :: 0 <= i < |rest| ==> rest[i] == facts[i + 1];
      forall k | k in others ensures exists i :: 0 <= i < |rest| && rest[i].key == k {
        var i :| 0 <= i < |facts| && facts[i].key == k;
        assert rest[i - 1].key == k;
      }
      ListingSize(rest, others);
    }
  }

  lemma {:induction false} DistinctSize(keys: seq<Key>)
    requires NoDuplicates(keys)
    ensures |(set k | k in keys)| == |keys|
  {
    if keys != [] {
      DistinctSize(keys[1..]);
      assert (set k | k in keys) == (set k | k in keys[1..]) + {keys[0]};
      assert keys[0] !in keys[1..];
    }
  }

  lemma MapMinusSize(sessions: map<Key, Entry>, gone: set<Key>)
    requires gone <= sessions.Keys
    ensures |sessions - gone| == |sessions| - |gone|
  {
    var left := sessions - gone;
    assert left.Keys == sessions.Keys - gone;
    assert |left| == |left.Keys| && |sessions| == |sessions.Keys|;
  }

  lemma RemovalSize(c: Registry, facts: seq<Fact>, requested: Key, now: nat)
    requires Lists(facts, c)
    ensures |facts| == |c.sessions|
    ensures |AfterRemoval(c.sessions, SelectSessionEvictions(facts, requested, now))|
         == |facts| - |SelectSessionEvictions(facts, requested, now)|
  {
    var evictions := SelectSessionEvictions(facts, requested, now);
    var gone := set k | k in evictions;
    assert NoDuplicates(evictions) && gone <= c.sessions.Keys by {
      EvictionPolicy(facts, requested, now);
    }
    ListingSize(facts, c.sessions.Keys);
    DistinctSize(evictions);
    MapMinusSize(c.sessions, gone);
  }

  // Evicting leaves room for the requested key: at most MAX_SESSIONS - 1 others remain.
  lemma EvictionMakesRoom(c: Registry, facts: seq<Fact>, requested: Key, now: nat)
    requires Lists(facts, c) && CapacityInv(c)
    ensures var left := AfterRemoval(c.sessions, SelectSessionEvictions(facts, requested, now));
            |left| <= MAX_SESSIONS && (requested !in left ==> |left| < MAX_SESSIONS)
  {
    EvictionPolicy(facts, requested, now);
    RemovalSize(c, facts, requested, now);
    var evictions := SelectSessionEvictions(facts, requested, now);
    var survivors := Survivors(facts, StaleKeys(facts, now));
    if |survivors| >= MAX_SESSIONS && exists f :: f in survivors && f.key == requested {
      assert |evictions| == 0;
      assert requested in AfterRemoval(c.sessions, evictions);
    }
  }

  lemma CapacityKept(c: Registry, a: Action)
    requires CapacityInv(c) && Enabled(c, a)
    ensures CapacityInv(Apply(c, a))
  {
    match a
    case Sweep(t, facts, died, now) => EvictionMakesRoom(c, facts, c.tasks[t].key, now);
    case Insert(t, facts, died, now) => EvictionMakesRoom(c, facts, c.tasks[t].key, now);
    case Evict(t) =>
      if c.tasks[t].key in c.sessions {
        MapMinusSize(c.sessions, {c.tasks[t].key});
      }
    case _ =>
  }

  // ---- no session is lost ----

  ghost predicate Registered(c: Registry, s: nat) {
    exists k :: k in c.sessions && c.sessions[k].session == s
  }

  ghost predicate AwaitsStop(c: Registry, s: nat) {
    exists t :: 0 <= t < |c.tasks| && s in Victims(c.tasks[t])
  }

  ghost predicate InHand(c: Registry, s: nat) {
    exists t :: 0 <= t < |c.tasks| && c.tasks[t].Spawned? && c.tasks[t].session == s
  }

  // Every session ever started is registered, on its way into the registry, about to be stopped or
  // stopped.
  ghost predicate AccountedFor(c: Registry) {
    forall s :: 0 <= s < c.nextSession ==> Registered(c, s) || InHand(c, s) || AwaitsStop(c, s) || s in c.stopped
  }

  lemma {:induction false} RemovedIsEvicted(sessions: map<Key, Entry>, evictions: seq<Key>, k: Key)
    requires k in sessions && k in evictions
    ensures sessions[k].session in RemovedSessions(sessions, evictions)
  {
    if evictions[0] != k {
      RemovedIsEvicted(sessions - {evictions[0]}, evictions[1..], k);
    }
  }

  lemma {:induction false} RemovedWasRegistered(sessions: map<Key, Entry>, evictions: seq<Key>, s: nat) returns (k: Key)
    requires s in RemovedSessions(sessions, evictions)
    ensures k in sessions && k in evictions && sessions[k].session == s
  {
    if evictions[0] in sessions && sessions[evictions[0]].session == s {
      k := evictions[0];
    } else {
      k := RemovedWasRegistered(sessions - {evictions[0]}, evictions[1..], s);
    }
  }

  // A session that leaves the registry is in the list handed to stop_session.
  lemma StaysOrHandedOver(c: Registry, a: Action, k: Key)
    requires VacancyInv(c) && Enabled(c, a) && k in c.sessions
    ensures Registered(Apply(c, a), c.sessions[k].session) || AwaitsStop(Apply(c, a), c.sessions[k].session)
  {
    var s := c.sessions[k].session;
    match a
    case Sweep(t, facts, died, now) => SweepHandsOver(c, t, facts, died, now, k);
    case Insert(t, facts, died, now) => InsertHandsOver(c, t, facts, died, now, k);
    case Evict(t) =>
      if k == c.tasks[t].key && s == c.tasks[t].failed {
        assert s in Victims(Apply(c, a).tasks[t]);
      } else {
        assert k in Apply(c, a).sessions;
      }
    case _ => assert k in Apply(c, a).sessions;
  }

  lemma SweepHandsOver(c: Registry, t: nat, facts: seq<Fact>, died: set<nat>, now: nat, k: Key)
    requires t < |c.tasks| && c.tasks[t].Guarded? && k in c.sessions
    ensures Registered(Swept(c, t, facts, died, now), c.sessions[k].session)
            || AwaitsStop(Swept(c, t, facts, died, now), c.sessions[k].session)
  {
    var d, evictions := Swept(c, t, facts, died, now), SelectSessionEvictions(facts, c.tasks[t].key, now);
    if k in evictions {
      RemovedIsEvicted(c.sessions, evictions, k);
      assert c.sessions[k].session in Victims(d.tasks[t]);
    } else {
      assert k in d.sessions;
    }
  }

  lemma InsertHandsOver(c: Registry, t: nat, facts: seq<Fact>, died: set<nat>, now: nat, k: Key)
    requires t < |c.tasks| && c.tasks[t].Spawned? && k in c.sessions && k != c.tasks[t].key
    ensures Registered(Inserted(c, t, facts, died, now), c.sessions[k].session)
            || AwaitsStop(Inserted(c, t, facts, died, now), c.sessions[k].session)
  {
    var d, evictions := Inserted(c, t, facts, died, now), SelectSessionEvictions(facts, c.tasks[t].key, now);
    if k in evictions {
      RemovedIsEvicted(c.sessions, evictions, k);
      assert c.sessions[k].session in Victims(d.tasks[t]);
    } else {
      assert k in d.sessions;
    }
  }

  lemma WaitingStaysAccounted(c: Registry, a: Action, t: nat, s: nat)
    requires Enabled(c, a) && t < |c.tasks| && s in Victims(c.tasks[t])
    ensures AwaitsStop(Apply(c, a), s) || s in Apply(c, a).stopped
  {
    var d := Apply(c, a);
    assert s in Victims(d.tasks[t]) || s in d.stopped;
  }

  lemma InHandStaysAccounted(c: Registry, a: Action, t: nat)
    requires Enabled(c, a) && t < |c.tasks| && c.tasks[t].Spawned?
    ensures InHand(Apply(c, a), c.tasks[t].session) || Registered(Apply(c, a), c.tasks[t].session)
  {
    var d := Apply(c, a);
    if a.Insert? && a.t == t {
      assert c.tasks[t].key in d.sessions;
    } else {
      assert d.tasks[t] == c.tasks[t];
    }
  }

  lemma AccountKept(c: Registry, a: Action)
    requires VacancyInv(c) && AccountedFor(c) && Enabled(c, a)
    ensures AccountedFor(Apply(c, a))
  {
    var d := Apply(c, a);
    forall s | 0 <= s < d.nextSession
      ensures Registered(d, s) || InHand(d, s) || AwaitsStop(d, s) || s in d.stopped
    {
      if s >= c.nextSession {
        assert a.SpawnOk? && d.tasks[a.t].Spawned? && d.tasks[a.t].session == s;
      } else if Registered(c, s) {
        var k :| k in c.sessions && c.sessions[k].session == s;
        StaysOrHandedOver(c, a, k);
      } else if InHand(c, s) {
        var t :| 0 <= t < |c.tasks| && c.tasks[t].Spawned? && c.tasks[t].session == s;
        InHandStaysAccounted(c, a, t);
      } else if AwaitsStop(c, s) {
        var t :| 0 <= t < |c.tasks| && s in Victims(c.tasks[t]);
        WaitingStaysAccounted(c, a, t, s);
      } else {
        assert s in c.stopped;
      }
    }
  }

  // ---- no live session is stopped ----

  // Sessions are told apart: no registered or in-hand session is stopped or about to be, none is
  // registered twice or held twice.
  ghost predicate Apart(c: Registry) {
    && (forall k :: k in c.sessions ==> c.sessions[k].session < c.nextSession && c.sessions[k].session !in c.stopped)
    && (forall k, m :: k in c.sessions && m in c.sessions && k != m ==> c.sessions[k].session != c.sessions[m].session)
    && (forall t, k :: 0 <= t < |c.tasks| && k in c.sessions ==> c.sessions[k].session !in Victims(c.tasks[t]))
    && (forall s :: s in c.stopped ==> s < c.nextSession)
  }

  ghost predicate HeldApart(c: Registry) {
    && (forall t :: 0 <= t < |c.tasks| && c.tasks[t].Spawned? ==>
          c.tasks[t].session < c.nextSession && c.tasks[t].session !in c.stopped && !Registered(c, c.tasks[t].session))
    && (forall t, u :: 0 <= t < |c.tasks| && 0 <= u < |c.tasks| && c.tasks[t].Spawned? ==>
          c.tasks[t].session !in Victims(c.tasks[u]))
    && (forall t, u :: 0 <= t < u < |c.tasks| && c.tasks[t].Spawned? && c.tasks[u].Spawned? ==>
          c.tasks[t].session != c.tasks[u].session)
    && (forall t, v :: 0 <= t < |c.tasks| && v in Victims(c.tasks[t]) ==> v < c.nextSession)
  }

  // Where a registered session of the next state comes from.
  lemma RegisteredBefore(c: Registry, a: Action, k: Key)
    requires Enabled(c, a) && k in Apply(c, a).sessions
    ensures || (k in c.sessions && c.sessions[k].session == Apply(c, a).sessions[k].session
                && (a.Insert? ==> k != c.tasks[a.t].key))
            || (a.Insert? && k == c.tasks[a.t].key && Apply(c, a).sessions[k].session == c.tasks[a.t].session)
  {
  }

  // Where a session about to be stopped comes from: the task's own list, or just now the registry.
  lemma VictimBefore(c: Registry, a: Action, t: nat, v: nat)
    requires Enabled(c, a) && t < |Apply(c, a).tasks| && v in Victims(Apply(c, a).tasks[t])
    ensures || (t < |c.tasks| && v in Victims(c.tasks[t]))
            || (exists k :: k in c.sessions && c.sessions[k].session == v
                  && (k !in Apply(c, a).sessions || (a.Insert? && k == c.tasks[a.t].key)))
  {
    if a.Sweep? && a.t == t {
      var k := RemovedWasRegistered(c.sessions, SelectSessionEvictions(a.facts, c.tasks[t].key, a.now), v);
      assert k !in Apply(c, a).sessions;
    } else if a.Insert? && a.t == t {
      var k := RemovedWasRegistered(c.sessions, SelectSessionEvictions(a.facts, c.tasks[t].key, a.now), v);
      assert k !in Apply(c, a).sessions || k == c.tasks[t].key;
    } else if a.Evict? && a.t == t {
      assert c.tasks[t].key in c.sessions && c.tasks[t].key !in Apply(c, a).sessions;
    } else {
      OwnVictim(c, a, t, v);
    }
  }

  // Other tasks and other actions add nothing to the list of sessions a task is to stop.
  lemma OwnVictim(c: Registry, a: Action, t: nat, v: nat)
    requires Enabled(c, a) && t < |Apply(c, a).tasks| && v in Victims(Apply(c, a).tasks[t])
    requires a.Sweep? || a.Insert? || a.Evict? ==> a.t != t
    ensures t < |c.tasks| && v in Victims(c.tasks[t])
  {
  }

  lemma RegisteredNotVictim(c: Registry, a: Action, k: Key, t: nat)
    requires VacancyInv(c) && Apart(c) && HeldApart(c) && Enabled(c, a)
    requires k in Apply(c, a).sessions && t < |Apply(c, a).tasks|
    ensures Apply(c, a).sessions[k].session !in Victims(Apply(c, a).tasks[t])
  {
    var d := Apply(c, a);
    var s := d.sessions[k].session;
    RegisteredBefore(c, a, k);
    if a.Insert? {
      assert WillRegister(c.tasks[a.t]) && !Registered(c, c.tasks[a.t].session);
    }
    if s in Victims(d.tasks[t]) {
      VictimBefore(c, a, t, s);
      assert false;
    }
  }

  lemma NewlyStopped(c: Registry, a: Action, s: nat) returns (t: nat)
    requires Enabled(c, a) && s in Apply(c, a).stopped && s !in c.stopped
    ensures a.Stop? && t < |c.tasks| && s in Victims(c.tasks[t])
  {
    t := a.t;
  }

  lemma ApartKept(c: Registry, a: Action)
    requires VacancyInv(c) && Apart(c) && HeldApart(c) && Enabled(c, a)
    ensures Apart(Apply(c, a))
  {
    var d := Apply(c, a);
    forall k | k in d.sessions
      ensures d.sessions[k].session < d.nextSession && d.sessions[k].session !in d.stopped
    {
      RegisteredBefore(c, a, k);
      if d.sessions[k].session in d.stopped && d.sessions[k].session !in c.stopped {
        var t := NewlyStopped(c, a, d.sessions[k].session);
      }
    }
    forall k, m | k in d.sessions && m in d.sessions && k != m
      ensures d.sessions[k].session != d.sessions[m].session
    {
      RegisteredBefore(c, a, k);
      RegisteredBefore(c, a, m);
    }
    forall t, k | 0 <= t < |d.tasks| && k in d.sessions
      ensures d.sessions[k].session !in Victims(d.tasks[t])
    {
      RegisteredNotVictim(c, a, k, t);
    }
    forall s | s in d.stopped ensures s < d.nextSession {
      if s !in c.stopped {
        var t := NewlyStopped(c, a, s);
      }
    }
  }

  // Where a session in hand comes from.
  lemma HeldBefore(c: Registry, a: Action, t: nat)
    requires Enabled(c, a) && t < |Apply(c, a).tasks| && Apply(c, a).tasks[t].Spawned?
    ensures || (t < |c.tasks| && c.tasks[t] == Apply(c, a).tasks[t] && !(a.Insert? && a.t == t))
            || (a.SpawnOk? && a.t == t && Apply(c, a).tasks[t].session == c.nextSession)
  {
  }

  lemma HeldNotVictim(c: Registry, a: Action, t: nat, u: nat)
    requires Apart(c) && HeldApart(c) && Enabled(c, a)
    requires t < |Apply(c, a).tasks| && u < |Apply(c, a).tasks| && Apply(c, a).tasks[t].Spawned?
    ensures Apply(c, a).tasks[t].session !in Victims(Apply(c, a).tasks[u])
  {
    var d := Apply(c, a);
    HeldBefore(c, a, t);
    if d.tasks[t].session in Victims(d.tasks[u]) {
      VictimBefore(c, a, u, d.tasks[t].session);
      assert false;
    }
  }

  lemma HeldNotRegistered(c: Registry, a: Action, t: nat)
    requires Apart(c) && HeldApart(c) && Enabled(c, a)
    requires t < |Apply(c, a).tasks| && Apply(c, a).tasks[t].Spawned?
    ensures !Registered(Apply(c, a), Apply(c, a).tasks[t].session)
  {
    var d := Apply(c, a);
    HeldBefore(c, a, t);
    if Registered(d, d.tasks[t].session) {
      var k :| k in d.sessions && d.sessions[k].session == d.tasks[t].session;
      RegisteredBefore(c, a, k);
      assert false;
    }
  }

  lemma HeldKept(c: Registry, a: Action)
    requires Apart(c) && HeldApart(c) && Enabled(c, a)
    ensures HeldApart(Apply(c, a))
  {
    var d := Apply(c, a);
    forall t | 0 <= t < |d.tasks| && d.tasks[t].Spawned?
      ensures d.tasks[t].session < d.nextSession && d.tasks[t].session !in d.stopped
              && !Registered(d, d.tasks[t].session)
    {
      HeldBefore(c, a, t);
      HeldNotRegistered(c, a, t);
      if d.tasks[t].session in d.stopped && d.tasks[t].session !in c.stopped {
        var u := NewlyStopped(c, a, d.tasks[t].session);
      }
    }
    forall t, u | 0 <= t < |d.tasks| && 0 <= u < |d.tasks| && d.tasks[t].Spawned?
      ensures d.tasks[t].session !in Victims(d.tasks[u])
    {
      HeldNotVictim(c, a, t, u);
    }
    forall t, u | 0 <= t < u < |d.tasks| && d.tasks[t].Spawned? && d.tasks[u].Spawned?
      ensures d.tasks[t].session != d.tasks[u].session
    {
      HeldBefore(c, a, t);
      HeldBefore(c, a, u);
    }
    forall t, v | 0 <= t < |d.tasks| && v in Victims(d.tasks[t]) ensures v < d.nextSession {
      VictimBefore(c, a, t, v);
    }
  }

  // ---- every run ----

  ghost predicate RegistryInv(c: Registry) {
    && InitializerInv(c) && GuardInv(c) && VacancyInv(c) && CapacityInv(c)
    && AccountedFor(c) && Apart(c) && HeldApart(c)
  }

  lemma {:induction false} RunKeepsRegistry(actions: seq<Action>, c: Registry)
    requires Run(actions, c)
    ensures RegistryInv(c)
  {
    if actions != [] {
      var a, b := actions[|actions| - 1], Exec(actions[..|actions| - 1]).value;
      RunKeepsRegistry(actions[..|actions| - 1], b);
      InitializerKept(b, a);
      GuardKept(b, a);
      VacancyKept(b, a);
      CapacityKept(b, a);
      AccountKept(b, a);
      ApartKept(b, a);
      HeldKept(b, a);
    }
  }

  // Over every interleaving: at most MAX_SESSIONS sessions are registered, at most one task per key
  // is starting a server or about to register it, and no registered session was ever handed to
  // stop_session or waits for it.
  lemma RegistryIsSafe(actions: seq<Action>, c: Registry)
    requires Run(actions, c)
    ensures |c.sessions| <= 6
    ensures forall t, u :: (&& 0 <= t < |c.tasks| && 0 <= u < |c.tasks| && IsSpawning(c.tasks[t])
                            && IsSpawning(c.tasks[u]) && c.tasks[t].key == c.tasks[u].key) ==> t == u
    ensures forall s :: Registered(c, s) ==> s !in c.stopped && !AwaitsStop(c, s)
  {
    RunKeepsRegistry(actions, c);
    forall t, u | 0 <= t < |c.tasks| && 0 <= u < |c.tasks| && IsSpawning(c.tasks[t]) && IsSpawning(c.tasks[u])
                  && c.tasks[t].key == c.tasks[u].key
      ensures t == u
    {
      SameKeySameTask(c, t, u);
    }
  }

  // Registering a new session overwrites nothing: its key is vacant, so every session registered
  // before is still registered or was handed to stop_session.
  lemma InsertOverwritesNothing(actions: seq<Action>, c: Registry, t: nat, facts: seq<Fact>, died: set<nat>, now: nat)
    requires Run(actions, c) && Enabled(c, Insert(t, facts, died, now))
    ensures c.tasks[t].key !in c.sessions
    ensures forall k :: k in c.sessions ==>
              var s, d := c.sessions[k].session, Apply(c, Insert(t, facts, died, now));
              Registered(d, s) || AwaitsStop(d, s)
  {
    RunKeepsRegistry(actions, c);
    assert WillRegister(c.tasks[t]);
    forall k | k in c.sessions
      ensures var s, d := c.sessions[k].session, Apply(c, Insert(t, facts, died, now));
              Registered(d, s) || AwaitsStop(d, s)
    {
      StaysOrHandedOver(c, Insert(t, facts, died, now), k);
    }
  }

  // Evicting a failed session removes that session and no other, its replacement included.
  lemma EvictSparesReplacement(actions: seq<Action>, c: Registry, t: nat, s: nat)
    requires Run(actions, c) && Enabled(c, Evict(t)) && Registered(c, s)
    ensures Registered(Apply(c, Evict(t)), s) <==>
            !(s == c.tasks[t].failed && c.tasks[t].key in c.sessions && c.sessions[c.tasks[t].key].session == s)
  {
    RunKeepsRegistry(actions, c);
    var d := Apply(c, Evict(t));
    var k :| k in c.sessions && c.sessions[k].session == s;
    if k in d.sessions {
      assert d.sessions[k].session == s;
    }
  }

  // No server process is lost: once all tasks have returned, every session ever started is either
  // registered or stopped, and not both.
  lemma NoSessionLeaks(actions: seq<Action>, c: Registry, s: nat)
    requires Run(actions, c) && s < c.nextSession
    requires forall t :: 0 <= t < |c.tasks| ==> c.tasks[t].Returned?
    ensures Registered(c, s) <==> s !in c.stopped
  {
    RunKeepsRegistry(actions, c);
    assert !InHand(c, s) && !AwaitsStop(c, s);
  }

  // ---- what session_for returns ----

  lemma RunExtends(actions: seq<Action>, c: Registry, a: Action)
    requires Run(actions, c) && Enabled(c, a)
    ensures Run(actions + [a], Apply(c, a))
  {
    assert (actions + [a])[..|actions|] == actions;
  }

  // The state before the last of some further actions.
  lemma RunBeforeLast(before: seq<Action>, after: seq<Action>, d: Registry) returns (b: Registry)
    requires after != [] && Run(before + after, d)
    ensures Run(before + after[..|after| - 1], b) && Enabled(b, after[|after| - 1]) && d == Apply(b, after[|after| - 1])
  {
    var front := after[..|after| - 1];
    assert (before + after)[..|before + after| - 1] == before + front;
    b := Exec(before + front).value;
  }

  // The call has this session, or its failure, and has yet to hand it to its caller.
  predicate Destined(pc: Pc, result: Option<nat>) {
    || (pc.Spawned? && result == Some(pc.session))
    || (pc.StoppingSecond? && result == Some(pc.session))
    || (pc.StoppingFirst? && pc.cached.Some? && result == pc.cached)
    || pc == Returned(result)
  }

  lemma DestinedStays(c: Registry, a: Action, t: nat, result: Option<nat>)
    requires Enabled(c, a) && t < |c.tasks| && Destined(c.tasks[t], result)
    ensures t < |Apply(c, a).tasks| && Destined(Apply(c, a).tasks[t], result)
  {
  }

  lemma {:induction false} DestinedForGood(
      before: seq<Action>, c: Registry, after: seq<Action>, d: Registry, t: nat, result: Option<nat>)
    requires Run(before, c) && Run(before + after, d) && t < |c.tasks| && Destined(c.tasks[t], result)
    ensures t < |d.tasks| && Destined(d.tasks[t], result)
  {
    if after == [] {
      assert before + after == before;
    } else {
      var b := RunBeforeLast(before, after, d);
      DestinedForGood(before, c, after[..|after| - 1], b, t, result);
      DestinedStays(b, after[|after| - 1], t, result);
    }
  }

  // A call that has started a server returns that server's session, whatever happens to it since.
  lemma SpawnedIsReturned(before: seq<Action>, c: Registry, after: seq<Action>, d: Registry, t: nat)
    requires Run(before, c) && t < |c.tasks| && c.tasks[t].Spawned?
    requires Run(before + after, d) && t < |d.tasks| && d.tasks[t].Returned?
    ensures d.tasks[t].result == Some(c.tasks[t].session)
  {
    DestinedForGood(before, c, after, d, t, Some(c.tasks[t].session));
  }

  // A call whose key keeps its session in the sweep returns that session, used just now.
  lemma CachedIsReturned(before: seq<Action>, c: Registry, sweep: Action, after: seq<Action>, d: Registry)
    requires Run(before, c) && sweep.Sweep? && Enabled(c, sweep)
    requires Run(before + [sweep] + after, d) && sweep.t < |d.tasks| && d.tasks[sweep.t].Returned?
    ensures var key, kept := c.tasks[sweep.t].key, Apply(c, sweep).sessions;
            key in kept ==>
              && key in c.sessions && kept[key] == Entry(c.sessions[key].session, sweep.now)
              && d.tasks[sweep.t].result == Some(c.sessions[key].session)
  {
    var key, e := c.tasks[sweep.t].key, Apply(c, sweep);
    RunExtends(before, c, sweep);
    if key in e.sessions {
      DestinedForGood(before + [sweep], e, after, d, sweep.t, Some(c.sessions[key].session));
    }
  }

  // A call of session_for, and whether its server has failed to start.
  predicate FailsWith(pc: Pc, failed: bool) {
    && !pc.EvictStart? && !pc.StoppingFailed?
    && (failed <==> pc == Returned(None))
  }

  lemma {:induction false} FailureTold(
      before: seq<Action>, c: Registry, after: seq<Action>, d: Registry, t: nat)
    requires Run(before, c) && t < |c.tasks| && c.tasks[t].SessionStart?
    requires Run(before + after, d)
    ensures t < |d.tasks| && FailsWith(d.tasks[t], SpawnFail(t) in after)
  {
    if after == [] {
      assert before + after == before;
    } else {
      var b := RunBeforeLast(before, after, d);
      FailureTold(before, c, after[..|after| - 1], b, t);
      FailureStep(b, after[|after| - 1], t, SpawnFail(t) in after[..|after| - 1]);
      assert after == after[..|after| - 1] + [after[|after| - 1]];
    }
  }

  lemma FailureStep(c: Registry, a: Action, t: nat, failed: bool)
    requires Enabled(c, a) && t < |c.tasks| && FailsWith(c.tasks[t], failed)
    ensures t < |Apply(c, a).tasks| && FailsWith(Apply(c, a).tasks[t], failed || a == SpawnFail(t))
  {
  }

  // session_for fails if and only if its server failed to start.
  lemma FailsIffSpawnFails(before: seq<Action>, c: Registry, after: seq<Action>, d: Registry, t: nat)
    requires Run(before, c) && t < |c.tasks| && c.tasks[t].SessionStart?
    requires Run(before + after, d) && t < |d.tasks| && d.tasks[t].Returned?
    ensures d.tasks[t].result == None <==> SpawnFail(t) in after
  {
    FailureTold(before, c, after, d, t);
  }

  // ---- what the critical sections leave ----

  // The two that evict: each session of another key keeps its time of use, the requested key's
  // session was used just now, and what is gone was selected.
  lemma SectionsExact(c: Registry, a: Action, k: Key)
    requires Enabled(c, a) && (a.Sweep? || a.Insert?)
    ensures var key, kept := c.tasks[a.t].key, Apply(c, a).sessions;
            var spared := k in c.sessions && k !in SelectSessionEvictions(a.facts, key, a.now);
            && (k in kept <==> spared || (a.Insert? && k == key))
            && (spared && k != key ==> kept[k] == c.sessions[k])
            && (spared && k == key && a.Sweep? ==> kept[k] == Entry(c.sessions[k].session, a.now))
            && (a.Insert? && k == key ==> kept[k] == Entry(c.tasks[a.t].session, a.now))
  {
  }

  // After initializer_for, each mutex left in the table is referenced by some task.
  lemma InitializersReferenced(c: Registry, t: nat, k: Key)
    requires Enabled(c, GetInitializer(t)) && k in Apply(c, GetInitializer(t)).initializers
    ensures var d := Apply(c, GetInitializer(t));
            && HasArc(d.tasks[t]) && d.tasks[t].key == c.tasks[t].key
            && exists u :: 0 <= u < |d.tasks| && HasArc(d.tasks[u]) && d.tasks[u].lock == d.initializers[k]
  {
    var d := Apply(c, GetInitializer(t));
    if d.tasks[t].lock != d.initializers[k] {
      var u :| 0 <= u < |c.tasks| && HasArc(c.tasks[u]) && c.tasks[u].lock == d.initializers[k];
      assert d.tasks[u] == c.tasks[u];
    }
  }

  // The server of this session dies, or has just died when the flags are read.
  predicate Kills(a: Action, s: nat) {
    match a
    case ServerDies(dead) => dead == s
    case Sweep(_, _, died, _) => s in died
    case Insert(_, _, died, _) => s in died
    case _ => false
  }

  predicate LivesUnless(c: Registry, s: nat, killed: bool) {
    s < c.nextSession && (s in c.alive <==> s !in c.stopped && !killed)
  }

  lemma LifeStep(c: Registry, a: Action, s: nat, killed: bool)
    requires Enabled(c, a) && LivesUnless(c, s, killed)
    ensures LivesUnless(Apply(c, a), s, killed || Kills(a, s))
  {
  }

  ghost predicate KilledIn(actions: seq<Action>, s: nat) {
    exists i :: 0 <= i < |actions| && Kills(actions[i], s)
  }

  lemma KilledInOneMore(actions: seq<Action>, a: Action, s: nat)
    ensures KilledIn(actions + [a], s) <==> KilledIn(actions, s) || Kills(a, s)
  {
    if KilledIn(actions, s) {
      var i :| 0 <= i < |actions| && Kills(actions[i], s);
      assert (actions + [a])[i] == actions[i];
    }
    assert (actions + [a])[|actions|] == a;
  }

  lemma {:induction false} LifeFollows(before: seq<Action>, c: Registry, after: seq<Action>, d: Registry, s: nat)
    requires Run(before, c) && Run(before + after, d) && LivesUnless(c, s, false)
    ensures LivesUnless(d, s, KilledIn(after, s))
  {
    if after == [] {
      assert before + after == before;
    } else {
      var front, a := after[..|after| - 1], after[|after| - 1];
      var b := RunBeforeLast(before, after, d);
      LifeFollows(before, c, front, b, s);
      LifeStep(b, a, s, KilledIn(front, s));
      KilledInOneMore(front, a, s);
      assert after == front + [a];
    }
  }

  // A started server is alive if and only if it has not been stopped and has not died.
  lemma AliveIff(before: seq<Action>, c: Registry, t: nat, after: seq<Action>, d: Registry)
    requires Run(before, c) && Enabled(c, SpawnOk(t)) && Run(before + [SpawnOk(t)] + after, d)
    ensures c.nextSession in d.alive <==> c.nextSession !in d.stopped && !KilledIn(after, c.nextSession)
  {
    RunKeepsRegistry(before, c);
    assert c.nextSession !in c.stopped;
    RunExtends(before, c, SpawnOk(t));
    LifeFollows(before + [SpawnOk(t)], Apply(c, SpawnOk(t)), after, d, c.nextSession);
  }
}
