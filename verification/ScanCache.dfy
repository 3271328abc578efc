/**
 The signature-keyed scan cache (src-tauri/src/backend_budget.rs).

 The map of entries is locked for a lookup, an insert or an invalidation, each one step here. The
 computation and the signature closures run outside the lock, so other calls, invalidations and
 changes of the scanned sources may come between any two steps. `version` numbers the states of the
 sources; what a scan or a signature would yield in each state is given by a `Source`.
 */
module ScanCache {
  import opened Wrappers

  type Key = string
  type Value = string
  type Signature = string

  // get_or_compute is handed a signature taken beforehand; get_or_compute_with_signatures takes one
  // from the value found, to compare, and one from the value computed, to store.
  datatype Signer =
    | Upfront(of: (Key, nat) -> Signature)
    | Derived(current: (Key, nat, Value) -> Signature, stored: (Key, nat, Value) -> Signature)

  datatype Source = Source(scan: (Key, nat) -> Value, signer: Signer)

  // The signature an entry is stored under.
  function Sign(source: Source, key: Key, version: nat, value: Value): Signature {
    match source.signer
    case Upfront(of) => of(key, version)
    case Derived(_, stored) => stored(key, version, value)
  }

  // The signature a caller compares an entry's with.
  function SignCurrent(source: Source, key: Key, version: nat, value: Value): Signature {
    match source.signer
    case Upfront(of) => of(key, version)
    case Derived(current, _) => current(key, version, value)
  }

  // The two versions are history: when the signature and the value were taken.
  datatype Entry = Entry(signature: Signature, value: Value, signedAt: nat, computedAt: nat)

  datatype State = Hit | Miss | Invalidated

  datatype Outcome = Stored(entry: Entry, signedAt: nat) | Computed(existed: bool, computedAt: nat)

  datatype Pc =
    | Started(key: Key, began: nat)
    | Signed(key: Key, began: nat, signature: Signature, signedAt: nat)
    | Comparing(key: Key, began: nat, found: Entry)
    | Missed(key: Key, began: nat, existed: bool, signature: Signature, signedAt: nat)
    | Unsigned(key: Key, began: nat, existed: bool, value: Value, computedAt: nat)
    | Ready(key: Key, began: nat, existed: bool, entry: Entry)
    | Returned(key: Key, began: nat, ended: nat, value: Value, outcome: Outcome)

  // The locked map and its critical sections; a call that is alone runs them back to back.
  class ScanEntries {
    var entries: map<Key, Entry>

    constructor ()
      ensures entries == map[]
    {
      entries := map[];
    }

    method GetOrCompute(key: Key, signature: Signature, signedAt: nat, source: Source, version: nat)
      returns (value: Value, state: State)
      modifies this
      ensures var hit := key in old(entries) && old(entries)[key].signature == signature;
              && state == (if hit then Hit else if key in old(entries) then Invalidated else Miss)
              && value == (if hit then old(entries)[key].value else source.scan(key, version))
              && entries == (if hit then old(entries)
                             else old(entries)[key := Entry(signature, value, signedAt, version)])
    {
      if key in entries && entries[key].signature == signature {
        return entries[key].value, Hit;
      }
      state := if key in entries then Invalidated else Miss;
      value := source.scan(key, version);
      entries := entries[key := Entry(signature, value, signedAt, version)];
    }

    method GetOrComputeWithSignatures(key: Key, source: Source, version: nat) returns (value: Value, state: State)
      requires source.signer.Derived?
      modifies this
      ensures var hit := key in old(entries)
                         && old(entries)[key].signature == SignCurrent(source, key, version, old(entries)[key].value);
              && state == (if hit then Hit else if key in old(entries) then Invalidated else Miss)
              && value == (if hit then old(entries)[key].value else source.scan(key, version))
              && var entry := Entry(Sign(source, key, version, value), value, version, version);
                 entries == if hit then old(entries) else old(entries)[key := entry]
    {
      if key in entries && entries[key].signature == source.signer.current(key, version, entries[key].value) {
        return entries[key].value, Hit;
      }
      state := if key in entries then Invalidated else Miss;
      value := source.scan(key, version);
      entries := entries[key := Entry(source.signer.stored(key, version, value), value, version, version)];
    }

    method Invalidate(key: Key) returns (removed: bool)
      modifies this
      ensures entries == old(entries) - {key}
      ensures removed <==> entries != old(entries)
    {
      removed := key in entries;
      entries := entries - {key};
      assert removed ==> key !in entries;
    }

    method InvalidateMatching(matches: Key -> bool) returns (removed: nat)
      modifies this
      ensures entries == map k | k in old(entries) && !matches(k) :: old(entries)[k]
      ensures removed == |set k | k in old(entries) && matches(k)|
    {
      var before := entries;
      entries := map k | k in before && !matches(k) :: before[k];
      var gone := set k | k in before && matches(k);
      assert before.Keys == entries.Keys + gone;
      removed := |before| - |entries|;
    }
  }

  datatype Cache = Cache(version: nat, entries: map<Key, Entry>, calls: seq<Pc>)

  const EMPTY := Cache(0, map[], [])

  function StateOf(o: Outcome): State {
    match o
    case Stored(_, _) => Hit
    case Computed(existed, _) => if existed then Invalidated else Miss
  }

  datatype Action =
    | Change
    | Call(key: Key)
    | TakeSignature(t: nat)
    | Lookup(t: nat)
    | Compare(t: nat)
    | Compute(t: nat)
    | SignValue(t: nat)
    | Insert(t: nat)
    | Invalidate(key: Key)
    | InvalidateMatching(keys: set<Key>)

  predicate Enabled(source: Source, c: Cache, a: Action) {
    match a
    case Change => true
    case Call(_) => true
    case Invalidate(_) => true
    case InvalidateMatching(_) => true
    case TakeSignature(t) => source.signer.Upfront? && t < |c.calls| && c.calls[t].Started?
    case Lookup(t) => t < |c.calls| && (if source.signer.Upfront? then c.calls[t].Signed? else c.calls[t].Started?)
    case Compare(t) => t < |c.calls| && c.calls[t].Comparing?
    case Compute(t) => t < |c.calls| && c.calls[t].Missed?
    case SignValue(t) => t < |c.calls| && c.calls[t].Unsigned?
    case Insert(t) => t < |c.calls| && c.calls[t].Ready?
  }

  function Moved(c: Cache, t: nat, pc: Pc): Cache
    requires t < |c.calls|
  {
    c.(calls := c.calls[t := pc])
  }

  function LookedUp(source: Source, c: Cache, t: nat): Pc
    requires Enabled(source, c, Lookup(t))
  {
    var pc := c.calls[t];
    if pc.Started? then
      if pc.key in c.entries then Comparing(pc.key, pc.began, c.entries[pc.key])
      else Missed(pc.key, pc.began, false, "", 0)
    else if pc.key in c.entries && c.entries[pc.key].signature == pc.signature then
      Returned(pc.key, pc.began, c.version, c.entries[pc.key].value, Stored(c.entries[pc.key], pc.signedAt))
    else Missed(pc.key, pc.began, pc.key in c.entries, pc.signature, pc.signedAt)
  }

  function Compared(source: Source, c: Cache, pc: Pc): Pc
    requires pc.Comparing?
  {
    if SignCurrent(source, pc.key, c.version, pc.found.value) == pc.found.signature
    then Returned(pc.key, pc.began, c.version, pc.found.value, Stored(pc.found, c.version))
    else Missed(pc.key, pc.began, true, "", 0)
  }

  function AfterCompute(source: Source, c: Cache, pc: Pc): Pc
    requires pc.Missed?
  {
    var value := source.scan(pc.key, c.version);
    if source.signer.Upfront?
    then Ready(pc.key, pc.began, pc.existed, Entry(pc.signature, value, pc.signedAt, c.version))
    else Unsigned(pc.key, pc.began, pc.existed, value, c.version)
  }

  function Apply(source: Source, c: Cache, a: Action): Cache
    requires Enabled(source, c, a)
  {
    match a
    case Change => c.(version := c.version + 1)
    case Call(key) => c.(calls := c.calls + [Started(key, c.version)])
    case Invalidate(key) => c.(entries := c.entries - {key})
    case InvalidateMatching(keys) => c.(entries := c.entries - keys)
    case TakeSignature(t) =>
      var pc := c.calls[t];
      Moved(c, t, Signed(pc.key, pc.began, Sign(source, pc.key, c.version, ""), c.version))
    case Lookup(t) => Moved(c, t, LookedUp(source, c, t))
    case Compare(t) => Moved(c, t, Compared(source, c, c.calls[t]))
    case Compute(t) => Moved(c, t, AfterCompute(source, c, c.calls[t]))
    case SignValue(t) =>
      var pc := c.calls[t];
      Moved(c, t, Ready(pc.key, pc.began, pc.existed,
                        Entry(Sign(source, pc.key, c.version, pc.value), pc.value, c.version, pc.computedAt)))
    case Insert(t) =>
      var pc := c.calls[t];
      Moved(c, t, Returned(pc.key, pc.began, c.version, pc.entry.value, Computed(pc.existed, pc.entry.computedAt))).(
        entries := c.entries[pc.key := pc.entry])
  }

  function Exec(source: Source, actions: seq<Action>): Option<Cache> {
    if actions == [] then Some(EMPTY)
    else
      var before, a := Exec(source, actions[..|actions| - 1]), actions[|actions| - 1];
      if before.Some? && Enabled(source, before.value, a) then Some(Apply(source, before.value, a)) else None
  }

  ghost predicate Run(source: Source, actions: seq<Action>, c: Cache) {
    Exec(source, actions) == Some(c)
  }

  // ---- what every run keeps ----

  // An entry holds what a scan of its key yielded in one version and its signature in another.
  ghost predicate EntryOk(source: Source, now: nat, key: Key, e: Entry) {
    && e.signature == Sign(source, key, e.signedAt, e.value)
    && e.value == source.scan(key, e.computedAt)
    && e.signedAt <= now && e.computedAt <= now
    && (if source.signer.Upfront? then e.signedAt <= e.computedAt else e.computedAt <= e.signedAt)
  }

  ghost predicate OutcomeOk(source: Source, pc: Pc)
    requires pc.Returned?
  {
    match pc.outcome
    case Computed(_, at) => pc.began <= at <= pc.ended && pc.value == source.scan(pc.key, at)
    case Stored(e, at) =>
      && EntryOk(source, pc.ended, pc.key, e) && pc.value == e.value
      && pc.began <= at <= pc.ended && e.signature == SignCurrent(source, pc.key, at, e.value)
      && (source.signer.Derived? ==> at == pc.ended)
  }

  ghost predicate CallOk(source: Source, now: nat, pc: Pc) {
    pc.began <= now &&
    match pc
    case Started(_, _) => true
    case Signed(key, began, sig, at) => source.signer.Upfront? && began <= at <= now && sig == Sign(source, key, at, "")
    case Comparing(key, _, found) => source.signer.Derived? && EntryOk(source, now, key, found)
    case Missed(key, began, _, sig, at) =>
      source.signer.Upfront? ==> began <= at <= now && sig == Sign(source, key, at, "")
    case Unsigned(key, began, _, value, at) =>
      source.signer.Derived? && began <= at <= now && value == source.scan(key, at)
    case Ready(key, began, _, e) => EntryOk(source, now, key, e) && began <= e.computedAt
    case Returned(_, _, ended, _, _) => ended <= now && OutcomeOk(source, pc)
  }

  ghost predicate CacheInv(source: Source, c: Cache) {
    && (forall k :: k in c.entries ==> EntryOk(source, c.version, k, c.entries[k]))
    && (forall t :: 0 <= t < |c.calls| ==> CallOk(source, c.version, c.calls[t]))
  }

  lemma CacheKept(source: Source, c: Cache, a: Action)
    requires CacheInv(source, c) && Enabled(source, c, a)
    ensures CacheInv(source, Apply(source, c, a))
  {
    var d := Apply(source, c, a);
    forall t | 0 <= t < |d.calls| ensures CallOk(source, d.version, d.calls[t]) {
      if t < |c.calls| { assert CallOk(source, c.version, c.calls[t]); }
    }
    forall k | k in d.entries ensures EntryOk(source, d.version, k, d.entries[k]) {
      if a.Insert? && k == c.calls[a.t].key {
        assert CallOk(source, c.version, c.calls[a.t]);
      } else {
        assert k in c.entries;
      }
    }
  }

  lemma {:induction false} RunKeepsCache(source: Source, actions: seq<Action>, c: Cache)
    requires Run(source, actions, c)
    ensures CacheInv(source, c)
  {
    if actions != [] {
      var a, b := actions[|actions| - 1], Exec(source, actions[..|actions| - 1]).value;
      RunKeepsCache(source, actions[..|actions| - 1], b);
      CacheKept(source, b, a);
    }
  }

  // ---- when a cached result equals a fresh one ----

  // Equal signatures mean the scan yields the value in both versions or in neither.
  ghost predicate Faithful(source: Source) {
    forall key, v, w, value ::
      Sign(source, key, v, value) == SignCurrent(source, key, w, value) ==>
        (source.scan(key, v) == value <==> source.scan(key, w) == value)
  }

  // A hit is reported only for an entry stored under a signature equal to the caller's, and over any
  // interleaving it returns what a scan in the version of the caller's signature would, if and only
  // if the sources yielded the stored value in the version in which that entry was signed.
  lemma HitIsFreshIff(source: Source, actions: seq<Action>, c: Cache, t: nat)
    requires Faithful(source) && Run(source, actions, c)
    requires t < |c.calls| && c.calls[t].Returned? && StateOf(c.calls[t].outcome) == Hit
    ensures var call := c.calls[t];
            var e, at := call.outcome.entry, call.outcome.signedAt;
            && e.signature == SignCurrent(source, call.key, at, e.value)
            && (call.value == source.scan(call.key, at) <==>
                  source.scan(call.key, e.signedAt) == source.scan(call.key, e.computedAt))
  {
    RunKeepsCache(source, actions, c);
    assert CallOk(source, c.version, c.calls[t]);
  }

  // In particular when nothing changed between computing and signing that entry.
  lemma HitIsFreshIfSteady(source: Source, actions: seq<Action>, c: Cache, t: nat)
    requires Faithful(source) && Run(source, actions, c)
    requires t < |c.calls| && c.calls[t].Returned? && StateOf(c.calls[t].outcome) == Hit
    requires c.calls[t].outcome.entry.signedAt == c.calls[t].outcome.entry.computedAt
    ensures c.calls[t].value == source.scan(c.calls[t].key, c.calls[t].outcome.signedAt)
  {
    HitIsFreshIff(source, actions, c, t);
  }

  // The call returned what a scan would have yielded at some moment of it.
  ghost predicate IsCurrent(source: Source, call: Pc)
    requires call.Returned?
  {
    exists at: nat :: call.began <= at <= call.ended && call.value == source.scan(call.key, at)
  }

  // Every call over every interleaving did, hit or not.
  ghost predicate AlwaysCurrent(source: Source) {
    forall actions, c, t :: Run(source, actions, c) && 0 <= t < |c.calls| && c.calls[t].Returned? ==>
      IsCurrent(source, c.calls[t])
  }

  // When a signature comes back, the scan yields what it did at any moment in between.
  ghost predicate SteadyUpfront(source: Source) {
    forall key, u: nat, v: nat, w: nat :: SignedUpfront(source, key, u, v, w) ==>
      source.scan(key, v) == source.scan(key, w)
  }

  ghost predicate SignedUpfront(source: Source, key: Key, u: nat, v: nat, w: nat) {
    source.signer.Upfront? && u <= v <= w && source.signer.of(key, u) == source.signer.of(key, w)
  }

  // When a value computed in version u and signed in version v is found to match in version w, the scan
  // yields it there.
  ghost predicate SteadyDerived(source: Source) {
    forall key, u: nat, v: nat, w: nat :: SignedDerived(source, key, u, v, w) ==>
      source.scan(key, u) == source.scan(key, w)
  }

  ghost predicate SignedDerived(source: Source, key: Key, u: nat, v: nat, w: nat) {
    && source.signer.Derived? && u <= v <= w
    && source.signer.stored(key, v, source.scan(key, u)) == source.signer.current(key, w, source.scan(key, u))
  }

  // With a signature taken up front.
  lemma UpfrontReturnsCurrentValue(source: Source, actions: seq<Action>, c: Cache, t: nat) returns (at: nat)
    requires source.signer.Upfront? && SteadyUpfront(source) && Run(source, actions, c)
    requires t < |c.calls| && c.calls[t].Returned?
    ensures c.calls[t].began <= at <= c.calls[t].ended && c.calls[t].value == source.scan(c.calls[t].key, at)
  {
    RunKeepsCache(source, actions, c);
    var call := c.calls[t];
    assert CallOk(source, c.version, call);
    match call.outcome
    case Computed(_, computedAt) => at := computedAt;
    case Stored(e, signedAt) =>
      if signedAt <= e.computedAt {
        at := e.computedAt;
      } else {
        at := signedAt;
        assert SignedUpfront(source, call.key, e.signedAt, e.computedAt, signedAt);
      }
  }

  // With signatures taken from the values.
  lemma DerivedReturnsCurrentValue(source: Source, actions: seq<Action>, c: Cache, t: nat) returns (at: nat)
    requires source.signer.Derived? && SteadyDerived(source) && Run(source, actions, c)
    requires t < |c.calls| && c.calls[t].Returned?
    ensures c.calls[t].began <= at <= c.calls[t].ended && c.calls[t].value == source.scan(c.calls[t].key, at)
  {
    RunKeepsCache(source, actions, c);
    var call := c.calls[t];
    assert CallOk(source, c.version, call);
    match call.outcome
    case Computed(_, computedAt) => at := computedAt;
    case Stored(e, signedAt) =>
      at := signedAt;
      assert SignedDerived(source, call.key, e.computedAt, e.signedAt, signedAt);
  }

  // Faithful signatures that never return to an earlier one, as with a modification time in them, are
  // steady.
  lemma NeverReturningIsSteady(source: Source)
    requires source.signer.Upfront? && Faithful(source)
    requires forall key, u: nat, v: nat, w: nat :: SignedUpfront(source, key, u, v, w) ==>
               source.signer.of(key, v) == source.signer.of(key, w)
    ensures SteadyUpfront(source)
  {
    forall key, u: nat, v: nat, w: nat | SignedUpfront(source, key, u, v, w)
      ensures source.scan(key, v) == source.scan(key, w)
    {
      assert Sign(source, key, v, source.scan(key, v)) == SignCurrent(source, key, w, source.scan(key, v));
    }
  }

  lemma RunExtends(source: Source, actions: seq<Action>, b: Cache, a: Action)
    requires Run(source, actions, b) && Enabled(source, b, a)
    ensures Run(source, actions + [a], Apply(source, b, a))
  {
    assert (actions + [a])[..|actions|] == actions;
  }

  lemma {:induction false} Changes(
      source: Source, before: seq<Action>, b: Cache, n: nat) returns (actions: seq<Action>, c: Cache)
    requires Run(source, before, b)
    ensures Run(source, actions, c) && c == b.(version := b.version + n)
  {
    if n == 0 {
      actions, c := before, b;
    } else {
      actions, c := Changes(source, before, b, n - 1);
      RunExtends(source, actions, c, Change);
      actions, c := actions + [Change], Apply(source, c, Change);
    }
  }

  // A call that takes its signature in version u and computes in version v.
  lemma UpfrontComputes(source: Source, key: Key, u: nat, v: nat) returns (actions: seq<Action>, c: Cache)
    requires source.signer.Upfront? && u <= v
    ensures Run(source, actions, c) && c.version == v && |c.calls| == 1
    ensures c.entries == map[key := Entry(source.signer.of(key, u), source.scan(key, v), u, v)]
  {
    var c0;
    actions, c0 := UpfrontMisses(source, key, u);
    var c1;
    actions, c1 := Changes(source, actions, c0, v - u);
    RunExtends(source, actions, c1, Compute(0));
    var c2 := Apply(source, c1, Compute(0));
    RunExtends(source, actions + [Compute(0)], c2, Insert(0));
    actions, c := actions + [Compute(0)] + [Insert(0)], Apply(source, c2, Insert(0));
  }

  lemma UpfrontMisses(source: Source, key: Key, u: nat) returns (actions: seq<Action>, c: Cache)
    requires source.signer.Upfront?
    ensures Run(source, actions, c) && c == Cache(u, map[], [Missed(key, u, false, source.signer.of(key, u), u)])
  {
    actions, c := FirstCall(source, key, u);
    RunExtends(source, actions, c, TakeSignature(0));
    actions, c := actions + [TakeSignature(0)], Apply(source, c, TakeSignature(0));
    assert c == Cache(u, map[], [Signed(key, u, source.signer.of(key, u), u)]);
    RunExtends(source, actions, c, Lookup(0));
    actions, c := actions + [Lookup(0)], Apply(source, c, Lookup(0));
  }

  lemma FirstCall(source: Source, key: Key, u: nat) returns (actions: seq<Action>, c: Cache)
    ensures Run(source, actions, c) && c == Cache(u, map[], [Started(key, u)])
  {
    actions, c := Changes(source, [], EMPTY, u);
    RunExtends(source, actions, c, Call(key));
    actions, c := actions + [Call(key)], Apply(source, c, Call(key));
  }

  // If the signature comes back in version w, a call there gets the value of version v.
  lemma UpfrontServesOldValue(source: Source, key: Key, u: nat, v: nat, w: nat) returns (actions: seq<Action>, c: Cache)
    requires SignedUpfront(source, key, u, v, w)
    ensures Run(source, actions, c) && |c.calls| == 2 && ServedAt(c.calls[1], key, w, source.scan(key, v))
  {
    var c0;
    actions, c0 := UpfrontComputes(source, key, u, v);
    var e := c0.entries[key];
    var c1;
    actions, c1 := Changes(source, actions, c0, w - v);
    RunExtends(source, actions, c1, Call(key));
    var c2 := Apply(source, c1, Call(key));
    RunExtends(source, actions + [Call(key)], c2, TakeSignature(1));
    var c3 := Apply(source, c2, TakeSignature(1));
    assert c3.calls[1] == Signed(key, w, e.signature, w) && c3.entries[key] == e;
    RunExtends(source, actions + [Call(key)] + [TakeSignature(1)], c3, Lookup(1));
    actions, c := actions + [Call(key)] + [TakeSignature(1)] + [Lookup(1)], Apply(source, c3, Lookup(1));
  }

  // A hit in one version, with this value.
  predicate ServedAt(call: Pc, key: Key, at: nat, value: Value) {
    && call.Returned? && call.key == key && StateOf(call.outcome) == Hit
    && call.began == call.ended == at && call.value == value
  }

  // A call that computes in version u and signs in version v.
  lemma DerivedComputes(source: Source, key: Key, u: nat, v: nat) returns (actions: seq<Action>, c: Cache)
    requires source.signer.Derived? && u <= v
    ensures Run(source, actions, c) && c.version == v && |c.calls| == 1
    ensures c.entries == map[key := Entry(source.signer.stored(key, v, source.scan(key, u)), source.scan(key, u), v, u)]
  {
    var c0;
    actions, c0 := DerivedMisses(source, key, u);
    var c1;
    actions, c1 := Changes(source, actions, c0, v - u);
    RunExtends(source, actions, c1, SignValue(0));
    var c2 := Apply(source, c1, SignValue(0));
    RunExtends(source, actions + [SignValue(0)], c2, Insert(0));
    actions, c := actions + [SignValue(0)] + [Insert(0)], Apply(source, c2, Insert(0));
  }

  lemma DerivedMisses(source: Source, key: Key, u: nat) returns (actions: seq<Action>, c: Cache)
    requires source.signer.Derived?
    ensures Run(source, actions, c) && c == Cache(u, map[], [Unsigned(key, u, false, source.scan(key, u), u)])
  {
    actions, c := FirstCall(source, key, u);
    RunExtends(source, actions, c, Lookup(0));
    actions, c := actions + [Lookup(0)], Apply(source, c, Lookup(0));
    assert c == Cache(u, map[], [Missed(key, u, false, "", 0)]);
    RunExtends(source, actions, c, Compute(0));
    actions, c := actions + [Compute(0)], Apply(source, c, Compute(0));
  }

  // If the old value matches in version w, a call there gets it.
  lemma DerivedServesOldValue(source: Source, key: Key, u: nat, v: nat, w: nat) returns (actions: seq<Action>, c: Cache)
    requires SignedDerived(source, key, u, v, w)
    ensures Run(source, actions, c) && |c.calls| == 2 && ServedAt(c.calls[1], key, w, source.scan(key, u))
  {
    var c0;
    actions, c0 := DerivedComputes(source, key, u, v);
    var e := c0.entries[key];
    var c1;
    actions, c1 := Changes(source, actions, c0, w - v);
    RunExtends(source, actions, c1, Call(key));
    var c2 := Apply(source, c1, Call(key));
    RunExtends(source, actions + [Call(key)], c2, Lookup(1));
    var c3 := Apply(source, c2, Lookup(1));
    assert c3.calls[1] == Comparing(key, w, e) && c3.version == w;
    RunExtends(source, actions + [Call(key)] + [Lookup(1)], c3, Compare(1));
    actions, c := actions + [Call(key)] + [Lookup(1)] + [Compare(1)], Apply(source, c3, Compare(1));
  }

  // A value served at one moment is current if and only if it is that moment's.
  lemma ServedIsCurrentIff(source: Source, call: Pc, key: Key, at: nat, value: Value)
    requires ServedAt(call, key, at, value)
    ensures IsCurrent(source, call) <==> value == source.scan(key, at)
  {
  }

  // Exactly for which sources get_or_compute returns a current value over every interleaving.
  lemma UpfrontIsCurrentIff(source: Source)
    requires source.signer.Upfront?
    ensures AlwaysCurrent(source) <==> SteadyUpfront(source)
  {
    if SteadyUpfront(source) {
      forall actions, c, t | Run(source, actions, c) && 0 <= t < |c.calls| && c.calls[t].Returned?
        ensures IsCurrent(source, c.calls[t])
      {
        var at := UpfrontReturnsCurrentValue(source, actions, c, t);
      }
    }
    if AlwaysCurrent(source) {
      forall key, u: nat, v: nat, w: nat | SignedUpfront(source, key, u, v, w)
        ensures source.scan(key, v) == source.scan(key, w)
      {
        var actions, c := UpfrontServesOldValue(source, key, u, v, w);
        ServedIsCurrentIff(source, c.calls[1], key, w, source.scan(key, v));
      }
    }
  }

  // And for which get_or_compute_with_signatures does.
  lemma DerivedIsCurrentIff(source: Source)
    requires source.signer.Derived?
    ensures AlwaysCurrent(source) <==> SteadyDerived(source)
  {
    if SteadyDerived(source) {
      forall actions, c, t | Run(source, actions, c) && 0 <= t < |c.calls| && c.calls[t].Returned?
        ensures IsCurrent(source, c.calls[t])
      {
        var at := DerivedReturnsCurrentValue(source, actions, c, t);
      }
    }
    if AlwaysCurrent(source) {
      forall key, u: nat, v: nat, w: nat | SignedDerived(source, key, u, v, w)
        ensures source.scan(key, u) == source.scan(key, w)
      {
        var actions, c := DerivedServesOldValue(source, key, u, v, w);
        ServedIsCurrentIff(source, c.calls[1], key, w, source.scan(key, u));
      }
    }
  }

  // A signature that comes back serves a stale value: signed in version 0, computed in version 1, found
  // again in version 2.
  lemma UpfrontMayReturnStaleValue(source: Source, key: Key) returns (actions: seq<Action>, c: Cache)
    requires SignedUpfront(source, key, 0, 1, 2) && source.scan(key, 1) != source.scan(key, 2)
    ensures Run(source, actions, c) && |c.calls| == 2
    ensures ServedAt(c.calls[1], key, 2, source.scan(key, 1)) && !IsCurrent(source, c.calls[1])
  {
    actions, c := UpfrontServesOldValue(source, key, 0, 1, 2);
    ServedIsCurrentIff(source, c.calls[1], key, 2, source.scan(key, 1));
  }

  // The other form is never steady as long as one version is signed alike for storing and for
  // comparing: if the sources change between the computation and the signature, the old value is stored
  // under the new signature, and a call that begins after the change gets a hit on it.
  lemma DerivedMayReturnStaleValue(source: Source, key: Key) returns (actions: seq<Action>, c: Cache)
    requires source.signer.Derived? && source.scan(key, 0) != source.scan(key, 1)
    requires Sign(source, key, 1, source.scan(key, 0)) == SignCurrent(source, key, 1, source.scan(key, 0))
    ensures Run(source, actions, c) && |c.calls| == 2
    ensures ServedAt(c.calls[1], key, 1, source.scan(key, 0)) && !IsCurrent(source, c.calls[1])
  {
    actions, c := DerivedServesOldValue(source, key, 0, 1, 1);
    ServedIsCurrentIff(source, c.calls[1], key, 1, source.scan(key, 0));
  }

  // ---- what a call reports ----

  // The state before the last of some further actions.
  lemma RunBeforeLast(source: Source, before: seq<Action>, after: seq<Action>, d: Cache) returns (b: Cache)
    requires after != [] && Run(source, before + after, d)
    ensures Run(source, before + after[..|after| - 1], b)
    ensures Enabled(source, b, after[|after| - 1]) && d == Apply(source, b, after[|after| - 1])
  {
    var front := after[..|after| - 1];
    assert (before + after)[..|before + after| - 1] == before + front;
    b := Exec(source, before + front).value;
  }

  // The call found an entry under its key, or none, and will say so.
  predicate WillTell(pc: Pc, found: bool) {
    match pc
    case Started(_, _) => false
    case Signed(_, _, _, _) => false
    case Comparing(_, _, _) => found
    case Missed(_, _, existed, _, _) => existed == found
    case Unsigned(_, _, existed, _, _) => existed == found
    case Ready(_, _, existed, _) => existed == found
    case Returned(_, _, _, _, outcome) => if outcome.Stored? then found else outcome.existed == found
  }

  lemma {:induction false} TellingStays(
      source: Source, before: seq<Action>, c: Cache, after: seq<Action>, d: Cache, t: nat, found: bool)
    requires Run(source, before, c) && Run(source, before + after, d)
    requires t < |c.calls| && WillTell(c.calls[t], found)
    ensures t < |d.calls| && WillTell(d.calls[t], found)
  {
    if after == [] {
      assert before + after == before;
    } else {
      var b := RunBeforeLast(source, before, after, d);
      TellingStays(source, before, c, after[..|after| - 1], b, t, found);
    }
  }

  // A miss is reported exactly if the lookup found no entry under the key.
  lemma MissReportedIff(
      source: Source, before: seq<Action>, c: Cache, t: nat, after: seq<Action>, d: Cache)
    requires Run(source, before, c) && Enabled(source, c, Lookup(t)) && Run(source, before + [Lookup(t)] + after, d)
    requires t < |d.calls| && d.calls[t].Returned?
    ensures StateOf(d.calls[t].outcome) == Miss <==> c.calls[t].key !in c.entries
  {
    RunExtends(source, before, c, Lookup(t));
    var e := Apply(source, c, Lookup(t));
    TellingStays(source, before + [Lookup(t)], e, after, d, t, c.calls[t].key in c.entries);
  }

  // The call is served what it found, or will compute.
  predicate Decided(pc: Pc, served: Option<Value>) {
    match served
    case Some(value) => pc.Returned? && pc.outcome.Stored? && pc.value == value
    case None => pc.Missed? || pc.Unsigned? || pc.Ready? || (pc.Returned? && pc.outcome.Computed?)
  }

  lemma {:induction false} DecisionStays(
      source: Source, before: seq<Action>, c: Cache, after: seq<Action>, d: Cache, t: nat, served: Option<Value>)
    requires Run(source, before, c) && Run(source, before + after, d)
    requires t < |c.calls| && Decided(c.calls[t], served)
    ensures t < |d.calls| && Decided(d.calls[t], served)
  {
    if after == [] {
      assert before + after == before;
    } else {
      var b := RunBeforeLast(source, before, after, d);
      DecisionStays(source, before, c, after[..|after| - 1], b, t, served);
    }
  }

  // A hit is reported, with the value found, exactly if the entry found has the signature the caller
  // brings: at the lookup where it was taken up front,
  lemma UpfrontHitIff(source: Source, before: seq<Action>, c: Cache, t: nat, after: seq<Action>, d: Cache)
    requires source.signer.Upfront? && Run(source, before, c) && Enabled(source, c, Lookup(t))
    requires Run(source, before + [Lookup(t)] + after, d) && t < |d.calls| && d.calls[t].Returned?
    ensures var call := c.calls[t];
            var found := call.key in c.entries && c.entries[call.key].signature == call.signature;
            && (StateOf(d.calls[t].outcome) == Hit <==> found)
            && (found ==> d.calls[t].value == c.entries[call.key].value)
  {
    RunExtends(source, before, c, Lookup(t));
    var call, e := c.calls[t], Apply(source, c, Lookup(t));
    var found := call.key in c.entries && c.entries[call.key].signature == call.signature;
    DecisionStays(source, before + [Lookup(t)], e, after, d, t,
                  if found then Some(c.entries[call.key].value) else None);
  }

  // and at the comparison where it is taken from the value found.
  lemma DerivedHitIff(source: Source, before: seq<Action>, c: Cache, t: nat, after: seq<Action>, d: Cache)
    requires source.signer.Derived? && Run(source, before, c) && Enabled(source, c, Compare(t))
    requires Run(source, before + [Compare(t)] + after, d) && t < |d.calls| && d.calls[t].Returned?
    ensures var key, found := c.calls[t].key, c.calls[t].found;
            var fits := source.signer.current(key, c.version, found.value) == found.signature;
            && (StateOf(d.calls[t].outcome) == Hit <==> fits)
            && (fits ==> d.calls[t].value == found.value)
  {
    RunExtends(source, before, c, Compare(t));
    var key, found, e := c.calls[t].key, c.calls[t].found, Apply(source, c, Compare(t));
    DecisionStays(source, before + [Compare(t)], e, after, d, t,
                  if source.signer.current(key, c.version, found.value) == found.signature
                  then Some(found.value) else None);
  }

  // An entry changes only by a call's insertion under its key, and goes only when it is invalidated;
  // it is gone then.
  lemma EntryMoves(source: Source, c: Cache, a: Action, k: Key)
    requires Enabled(source, c, a)
    ensures var d := Apply(source, c, a);
            var drops := a == Invalidate(k) || (a.InvalidateMatching? && k in a.keys);
            var puts := a.Insert? && c.calls[a.t].key == k;
            && (drops ==> k !in d.entries)
            && (puts ==> k in d.entries && d.entries[k] == c.calls[a.t].entry)
            && (!drops && !puts ==> (k in d.entries <==> k in c.entries))
            && (!drops && !puts && k in c.entries ==> d.entries[k] == c.entries[k])
  {
  }
}
