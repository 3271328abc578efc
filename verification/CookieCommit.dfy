/**
 The visitor-cookie commit protocol (src-tauri/src/baidu_tongji.rs).

 A request snapshots the cookie, goes over the network, and its response may commit a new one. The
 `cookie_commit` mutex is held from the compare-and-set in memory until the disk write is over, so
 the steps of other tasks may come in between; sends and responses hold neither lock.
 */
module CookieCommit {
  import opened Wrappers
  import opened HmacCookie

  const MAX_SCRIPT_BYTES: nat := 128 * 1024
  const SITE_ID := "daa60bcc45c658ee35054b93be3cf2e4"
  const SCRIPT_MARKER := "hm.baidu.com/hm.gif"

  predicate Contains(s: string, part: string) {
    part <= s || (s != "" && Contains(s[1..], part))
  }

  // `script` is None when the body is not UTF-8; `size` is its length in bytes.
  datatype Response =
    | Script(status: nat, size: nat, script: Option<string>)
    | Beacon(status: nat)

  predicate IsSuccess(status: nat) {
    200 <= status < 300
  }

  // What must hold before the cookie of a response is committed.
  predicate Validated(r: Response) {
    && IsSuccess(r.status)
    && (r.Script? ==>
          && 0 < r.size <= MAX_SCRIPT_BYTES
          && r.script.Some? && Contains(r.script.value, SCRIPT_MARKER) && Contains(r.script.value, SITE_ID))
  }

  datatype Pc =
    | Start
    | InNetwork(sent: Cookie)
    | CommitStart(sent: Cookie, value: string)
    | CommitLocked(sent: Cookie, value: string)
    | Persisting(value: string)
    | Done

  // One compare-and-set in memory, in the order in which the commit lock was held.
  datatype Cas = Cas(sent: Cookie, value: string)

  datatype Write = Write(value: string, ok: bool)

  // `log` and `writes` are history: every comparison made and every persistence attempt.
  datatype System = System(
    memory: Cookie,
    disk: Cookie,
    holder: Option<nat>,
    tasks: seq<Pc>,
    log: seq<Cas>,
    writes: seq<Write>)

  // load() reads the cookie from disk; `stored` is what it finds there.
  function Loaded(stored: Cookie): System {
    System(stored, stored, None, [], [], [])
  }

  predicate Accepts(memory: Cookie, c: Cas) {
    memory == c.sent && memory != Some(c.value)
  }

  // A value that is not well formed is never written.
  predicate Persists(value: string, ok: bool) {
    ok && ValidHmacCount(value)
  }

  // The shared cookie and its file.
  class VisitorCookie {
    var memory: Cookie
    var disk: Cookie

    constructor (file: StoredFile)
      ensures memory == disk == Loaded(LoadVisitorCookie(file)).memory
    {
      memory, disk := LoadVisitorCookie(file), LoadVisitorCookie(file);
    }

    // The block of commit_response_cookie that locks the cookie.
    method CompareAndSet(sent: Cookie, value: string) returns (accepted: bool)
      modifies this`memory
      ensures accepted <==> Accepts(old(memory), Cas(sent, value))
      ensures memory == Register(old(memory), [Cas(sent, value)])
    {
      RegisterAfterOne(memory, [], Cas(sent, value));
      assert [] + [Cas(sent, value)] == [Cas(sent, value)];
      if memory != sent || memory == Some(value) {
        return false;
      }
      memory := Some(value);
      accepted := true;
    }

    method PersistCookieUpdate(value: string, ok: bool)
      modifies this`disk
      ensures disk == LastStored(old(disk), [Write(value, Persists(value, ok))])
    {
      if Persists(value, ok) {
        disk := Some(value);
      }
    }

    // A commit that is alone, its response validated or not.
    method CommitResponseCookie(sent: Cookie, response: Response, headers: seq<Option<string>>, ok: bool)
      modifies this
      ensures var cookie := FirstHmac(HeaderParts(headers));
              var attempt := if Validated(response) && cookie.Some? then [Cas(sent, cookie.value)] else [];
              && memory == Register(old(memory), attempt)
              && (old(disk) == old(memory) && ok ==> disk == memory)
              && (memory == old(memory) ==> disk == old(disk))
    {
      var cookie := ExtractHmacCount(headers);
      if !Validated(response) || cookie.None? {
        return;
      }
      var k := ExtractedIsFirstValid(HeaderParts(headers));
      RegisterAfterOne(memory, [], Cas(sent, cookie.value));
      assert [] + [Cas(sent, cookie.value)] == [Cas(sent, cookie.value)];
      var accepted := CompareAndSet(sent, cookie.value);
      if accepted {
        PersistCookieUpdate(cookie.value, ok);
      }
    }
  }

  datatype Action =
    | Begin
    | Send(t: nat)
    | NetworkFails(t: nat)
    | Respond(t: nat, response: Response, headers: seq<Option<string>>)
    | Lock(t: nat)
    | Compare(t: nat)
    | Persist(t: nat, ok: bool)

  predicate Enabled(s: System, a: Action) {
    match a
    case Begin => true
    case Send(t) => t < |s.tasks| && s.tasks[t].Start?
    case NetworkFails(t) => t < |s.tasks| && s.tasks[t].InNetwork?
    case Respond(t, _, _) => t < |s.tasks| && s.tasks[t].InNetwork?
    case Lock(t) => t < |s.tasks| && s.tasks[t].CommitStart? && s.holder == None
    case Compare(t) => t < |s.tasks| && s.tasks[t].CommitLocked?
    case Persist(t, _) => t < |s.tasks| && s.tasks[t].Persisting?
  }

  function Moved(s: System, t: nat, pc: Pc): System
    requires t < |s.tasks|
  {
    s.(tasks := s.tasks[t := pc])
  }

  function Apply(s: System, a: Action): System
    requires Enabled(s, a)
  {
    match a
    case Begin => s.(tasks := s.tasks + [Start])
    case Send(t) => Moved(s, t, InNetwork(s.memory))
    case NetworkFails(t) => Moved(s, t, Done)
    case Respond(t, response, headers) =>
      var cookie := FirstHmac(HeaderParts(headers));
      if Validated(response) && cookie.Some? then Moved(s, t, CommitStart(s.tasks[t].sent, cookie.value))
      else Moved(s, t, Done)
    case Lock(t) => Moved(s, t, CommitLocked(s.tasks[t].sent, s.tasks[t].value)).(holder := Some(t))
    case Compare(t) =>
      var c := Cas(s.tasks[t].sent, s.tasks[t].value);
      if Accepts(s.memory, c)
      then Moved(s, t, Persisting(c.value)).(memory := Some(c.value), log := s.log + [c])
      else Moved(s, t, Done).(holder := None, log := s.log + [c])
    // persist_cookie_update; without a storage path every write is one that fails
    case Persist(t, ok) =>
      var value := s.tasks[t].value;
      Moved(s, t, Done).(
        holder := None,
        disk := if Persists(value, ok) then Some(value) else s.disk,
        writes := s.writes + [Write(value, Persists(value, ok))])
  }

  function Exec(stored: Cookie, actions: seq<Action>): Option<System> {
    if actions == [] then Some(Loaded(stored))
    else
      var before, a := Exec(stored, actions[..|actions| - 1]), actions[|actions| - 1];
      if before.Some? && Enabled(before.value, a) then Some(Apply(before.value, a)) else None
  }

  ghost predicate Run(stored: Cookie, actions: seq<Action>, s: System) {
    Exec(stored, actions) == Some(s)
  }

  // ---- the sequential meaning ----

  // The register after a sequence of compare-and-sets, one after another.
  function Register(initial: Cookie, log: seq<Cas>): Cookie {
    if log == [] then initial
    else
      var before, c := Register(initial, log[..|log| - 1]), log[|log| - 1];
      if Accepts(before, c) then Some(c.value) else before
  }

  // The values accepted on the way, in order.
  function Accepted(initial: Cookie, log: seq<Cas>): seq<string> {
    if log == [] then []
    else
      var front, c := log[..|log| - 1], log[|log| - 1];
      Accepted(initial, front) + if Accepts(Register(initial, front), c) then [c.value] else []
  }

  function Values(writes: seq<Write>): seq<string> {
    seq(|writes|, i requires 0 <= i < |writes| => writes[i].value)
  }

  function LastStored(initial: Cookie, writes: seq<Write>): Cookie {
    if writes == [] then initial
    else if writes[|writes| - 1].ok then Some(writes[|writes| - 1].value)
    else LastStored(initial, writes[..|writes| - 1])
  }

  // ---- what every run keeps ----

  predicate HoldsCommit(pc: Pc) {
    pc.CommitLocked? || pc.Persisting?
  }

  // The value accepted in memory whose disk write is still to come.
  function Unwritten(s: System): seq<string> {
    if s.holder.Some? && s.holder.value < |s.tasks| && s.tasks[s.holder.value].Persisting?
    then [s.tasks[s.holder.value].value] else []
  }

  ghost predicate CommitInv(stored: Cookie, s: System) {
    && (s.holder.Some? ==> s.holder.value < |s.tasks|)
    && (forall t :: 0 <= t < |s.tasks| ==> (HoldsCommit(s.tasks[t]) <==> s.holder == Some(t)))
    && s.memory == Register(stored, s.log)
    && Values(s.writes) + Unwritten(s) == Accepted(stored, s.log)
    && s.disk == LastStored(stored, s.writes)
  }

  lemma RegisterAfterOne(stored: Cookie, log: seq<Cas>, c: Cas)
    ensures var before, accepts := Register(stored, log), Accepts(Register(stored, log), c);
            && Register(stored, log + [c]) == (if accepts then Some(c.value) else before)
            && Accepted(stored, log + [c]) == Accepted(stored, log) + if accepts then [c.value] else []
  {
    assert (log + [c])[..|log|] == log;
  }

  // What a compare-and-set does to the task, the lock and the value still to be written.
  lemma CompareLeaves(s: System, t: nat)
    requires Enabled(s, Compare(t)) && s.holder == Some(t)
    ensures var d, value := Apply(s, Compare(t)), s.tasks[t].value;
            var accepts := Accepts(s.memory, Cas(s.tasks[t].sent, value));
            && Unwritten(s) == [] && Unwritten(d) == (if accepts then [value] else [])
            && d.holder == (if accepts then Some(t) else None) && HoldsCommit(d.tasks[t]) == accepts
  {
  }

  lemma CompareKeeps(stored: Cookie, s: System, t: nat)
    requires CommitInv(stored, s) && Enabled(s, Compare(t))
    ensures CommitInv(stored, Apply(s, Compare(t)))
  {
    assert s.holder == Some(t) by { assert HoldsCommit(s.tasks[t]); }
    CompareLeaves(s, t);
    RegisterAfterOne(stored, s.log, Cas(s.tasks[t].sent, s.tasks[t].value));
    assert Values(s.writes) == Values(s.writes) + [] == Accepted(stored, s.log);
  }

  lemma PersistKeeps(stored: Cookie, s: System, t: nat, ok: bool)
    requires CommitInv(stored, s) && Enabled(s, Persist(t, ok))
    ensures CommitInv(stored, Apply(s, Persist(t, ok)))
  {
    var d := Apply(s, Persist(t, ok));
    assert s.holder == Some(t) && Unwritten(d) == [];
    assert Values(d.writes) == Values(s.writes) + Unwritten(s);
    assert d.writes[..|s.writes|] == s.writes;
  }

  lemma StepKeeps(stored: Cookie, s: System, a: Action)
    requires CommitInv(stored, s) && Enabled(s, a)
    ensures CommitInv(stored, Apply(s, a))
  {
    match a
    case Compare(t) => CompareKeeps(stored, s, t);
    case Persist(t, ok) => PersistKeeps(stored, s, t, ok);
    case _ => QuietKeeps(stored, s, a);
  }

  lemma QuietKeeps(stored: Cookie, s: System, a: Action)
    requires CommitInv(stored, s) && Enabled(s, a) && !a.Compare? && !a.Persist?
    ensures CommitInv(stored, Apply(s, a))
  {
    var d := Apply(s, a);
    assert d.memory == s.memory && d.disk == s.disk && d.log == s.log && d.writes == s.writes;
    assert Unwritten(d) == Unwritten(s);
  }

  // Cookie commits are serializable. Over every interleaving the memory is what the compare-and-sets
  // leave when done one after another in lock order, the disk writes are attempted in exactly the
  // order of acceptance in memory, and the disk holds the last one that succeeded.
  lemma {:induction false} CommitsAreSerializable(stored: Cookie, actions: seq<Action>, s: System)
    requires Run(stored, actions, s)
    ensures CommitInv(stored, s)
  {
    if actions != [] {
      var a, b := actions[|actions| - 1], Exec(stored, actions[..|actions| - 1]).value;
      CommitsAreSerializable(stored, actions[..|actions| - 1], b);
      StepKeeps(stored, b, a);
    }
  }

  // In the sequential meaning the last accepted value is the register's, if anything was accepted.
  lemma {:induction false} RegisterIsLastAccepted(initial: Cookie, log: seq<Cas>)
    ensures Register(initial, log)
         == var a := Accepted(initial, log); if a == [] then initial else Some(a[|a| - 1])
  {
    if log != [] {
      RegisterIsLastAccepted(initial, log[..|log| - 1]);
    }
  }

  // Whenever no commit is in progress, memory holds the value last attempted to write; disk and memory
  // agree if that write succeeded, and when it failed if and only if the value stored before it is the
  // same one.
  lemma QuietDiskEqualsMemory(stored: Cookie, actions: seq<Action>, s: System)
    requires Run(stored, actions, s) && s.holder == None
    ensures s.writes == [] || s.writes[|s.writes| - 1].ok ==> s.disk == s.memory
    ensures s.writes != [] ==> s.memory == Some(s.writes[|s.writes| - 1].value)
    ensures s.writes != [] && !s.writes[|s.writes| - 1].ok ==>
              var front, last := s.writes[..|s.writes| - 1], s.writes[|s.writes| - 1];
              (s.disk == s.memory <==> LastStored(stored, front) == Some(last.value))
  {
    CommitsAreSerializable(stored, actions, s);
    RegisterIsLastAccepted(stored, s.log);
    assert Values(s.writes) == Accepted(stored, s.log);
  }

  // With successful persistence throughout, they agree whenever no commit is in progress, and while
  // one is, the disk is just one accepted value behind.
  lemma DiskNeverMoreThanOneBehind(stored: Cookie, actions: seq<Action>, s: System)
    requires Run(stored, actions, s) && forall i :: 0 <= i < |s.writes| ==> s.writes[i].ok
    ensures Unwritten(s) == [] ==> s.disk == s.memory
    ensures Unwritten(s) != [] ==> s.memory == Some(Unwritten(s)[0])
    ensures Unwritten(s) != [] ==> s.disk == if s.writes == [] then stored else Some(s.writes[|s.writes| - 1].value)
  {
    CommitsAreSerializable(stored, actions, s);
    RegisterIsLastAccepted(stored, s.log);
    var all := Accepted(stored, s.log);
    if Unwritten(s) == [] {
      assert Values(s.writes) == all;
    } else {
      assert all == Values(s.writes) + Unwritten(s);
      assert all[|all| - 1] == Unwritten(s)[0];
    }
  }

  // Memory changes only when a validated response is accepted: then the task holds the commit lock,
  // the value replaced is the one its request was sent with, and the new one differs.
  lemma OnlyAcceptedUpdatesShow(stored: Cookie, actions: seq<Action>, s: System, a: Action)
    requires Run(stored, actions, s) && Enabled(s, a)
    ensures Apply(s, a).memory != s.memory ==>
              && a.Compare? && s.holder == Some(a.t) && s.memory == s.tasks[a.t].sent
              && Apply(s, a).memory == Some(s.tasks[a.t].value)
    ensures Apply(s, a).disk != s.disk ==> a.Persist? && s.holder == Some(a.t) && Apply(s, a).disk == s.memory
  {
    CommitsAreSerializable(stored, actions, s);
    RegisterIsLastAccepted(stored, s.log);
    if a.Persist? {
      assert s.holder == Some(a.t);
      var all := Accepted(stored, s.log);
      assert all == Values(s.writes) + [s.tasks[a.t].value];
      assert all[|all| - 1] == s.tasks[a.t].value;
    }
  }

  // The cookie a committing task carries.
  function Carried(pc: Pc): Cookie {
    if pc.CommitStart? || pc.CommitLocked? || pc.Persisting? then Some(pc.value) else None
  }

  ghost predicate ValidityInv(s: System) {
    ValidCookie(s.memory) && ValidCookie(s.disk) && forall t :: 0 <= t < |s.tasks| ==> ValidCookie(Carried(s.tasks[t]))
  }

  lemma ValidityKept(s: System, a: Action)
    requires ValidityInv(s) && Enabled(s, a)
    ensures ValidityInv(Apply(s, a))
  {
    var d := Apply(s, a);
    if a.Respond? { var k := ExtractedIsFirstValid(HeaderParts(a.headers)); }
    forall t | 0 <= t < |d.tasks| ensures ValidCookie(Carried(d.tasks[t])) {
      if t < |s.tasks| { assert ValidCookie(Carried(s.tasks[t])); }
    }
  }

  // Whatever the file holds and the servers answer, only well-formed cookies are ever in memory, on
  // their way into it, or on disk.
  lemma {:induction false} StoredCookiesAreValid(file: StoredFile, actions: seq<Action>, s: System)
    requires Run(LoadVisitorCookie(file), actions, s)
    ensures ValidityInv(s)
  {
    if actions != [] {
      var b := Exec(LoadVisitorCookie(file), actions[..|actions| - 1]).value;
      StoredCookiesAreValid(file, actions[..|actions| - 1], b);
      ValidityKept(b, actions[|actions| - 1]);
    }
  }

  // So no accepted cookie is refused when it is written.
  lemma NoWriteIsRefused(file: StoredFile, actions: seq<Action>, s: System, t: nat, ok: bool)
    requires Run(LoadVisitorCookie(file), actions, s) && Enabled(s, Persist(t, ok))
    ensures Persists(s.tasks[t].value, ok) == ok
  {
    StoredCookiesAreValid(file, actions, s);
    assert ValidCookie(Carried(s.tasks[t]));
  }

  // ---- when a response is committed ----

  ghost predicate Occurs(s: string, part: string) {
    exists i :: OccursAt(s, part, i)
  }

  predicate OccursAt(s: string, part: string, i: nat) {
    i + |part| <= |s| && forall k :: 0 <= k < |part| ==> part[k] == s[i + k]
  }

  lemma {:induction false} ContainsIff(s: string, part: string)
    ensures Contains(s, part) <==> Occurs(s, part)
  {
    if part <= s {
      assert OccursAt(s, part, 0);
    } else if s != "" {
      ContainsIff(s[1..], part);
      if i: nat :| OccursAt(s[1..], part, i) {
        OccursLater(s, s[1..], part, i);
        assert OccursAt(s, part, i + 1);
      }
      if i: nat :| OccursAt(s, part, i) {
        assert i > 0;
        OccursLater(s, s[1..], part, i - 1);
        assert OccursAt(s[1..], part, i - 1);
      }
    }
  }

  lemma OccursLater(s: string, rest: string, part: string, i: nat)
    requires s != "" && rest == s[1..]
    ensures OccursAt(s, part, i + 1) <==> OccursAt(rest, part, i)
  {
  }

  // A response is good if it succeeded and, where it is the script, is text of 1 to 131,072 bytes that
  // names the beacon and the site.
  ghost predicate IsGood(r: Response) {
    && 200 <= r.status <= 299
    && (r.Script? ==>
          && 1 <= r.size <= 131072 && r.script.Some?
          && Occurs(r.script.value, "hm.baidu.com/hm.gif")
          && Occurs(r.script.value, "daa60bcc45c658ee35054b93be3cf2e4"))
  }

  lemma ValidatedIff(r: Response)
    ensures Validated(r) <==> IsGood(r)
  {
    if r.Script? && r.script.Some? {
      ContainsIff(r.script.value, SCRIPT_MARKER);
      ContainsIff(r.script.value, SITE_ID);
    }
  }

  // What a response leads to: a commit exactly if it is good and some part of its headers sets a
  // well-formed cookie, and then that of the first one, on what the request was sent with.
  lemma GoodResponseIsCommitted(s: System, t: nat, response: Response, headers: seq<Option<string>>) returns (k: nat)
    requires Enabled(s, Respond(t, response, headers))
    ensures var parts, pc := HeaderParts(headers), Apply(s, Respond(t, response, headers)).tasks[t];
            && k <= |parts| && (forall i :: 0 <= i < k ==> HmacOf(parts[i]) == None)
            && (if IsGood(response) && k < |parts|
                then HmacOf(parts[k]).Some? && pc == CommitStart(s.tasks[t].sent, HmacOf(parts[k]).value)
                else pc == Done)
  {
    ValidatedIff(response);
    k := ExtractedIsFirstValid(HeaderParts(headers));
  }

  // The cookie in memory becomes the commit's if it still is what the request was sent with, and only
  // then; it is written if that changes anything, and a write that succeeds puts it on disk.
  lemma CommitTakesEffect(file: StoredFile, actions: seq<Action>, s: System, t: nat)
    requires Run(LoadVisitorCookie(file), actions, s)
    ensures Enabled(s, Compare(t)) ==>
              Apply(s, Compare(t)).memory == if s.memory == s.tasks[t].sent then Some(s.tasks[t].value) else s.memory
    ensures Enabled(s, Compare(t)) ==>
              (Apply(s, Compare(t)).tasks[t].Persisting? <==> Apply(s, Compare(t)).memory != s.memory)
    ensures Enabled(s, Persist(t, true)) ==> Apply(s, Persist(t, true)).disk == Some(s.tasks[t].value)
    ensures Enabled(s, Persist(t, false)) ==> Apply(s, Persist(t, false)).disk == s.disk
  {
    if Enabled(s, Persist(t, true)) {
      NoWriteIsRefused(file, actions, s, t, true);
    }
  }

  // A commit that is alone does both.
  lemma LoneCommit(memory: Cookie, sent: Cookie, value: string)
    ensures Register(memory, [Cas(sent, value)]) == if memory == sent then Some(value) else memory
  {
    RegisterAfterOne(memory, [], Cas(sent, value));
    assert [] + [Cas(sent, value)] == [Cas(sent, value)];
  }

  // ---- what a commit is compared with ----

  // The state before the last of some further actions.
  lemma RunBeforeLast(stored: Cookie, before: seq<Action>, after: seq<Action>, d: System) returns (b: System)
    requires after != [] && Run(stored, before + after, d)
    ensures Run(stored, before + after[..|after| - 1], b)
    ensures Enabled(b, after[|after| - 1]) && d == Apply(b, after[|after| - 1])
  {
    var front := after[..|after| - 1];
    assert (before + after)[..|before + after| - 1] == before + front;
    b := Exec(stored, before + front).value;
  }

  predicate Remembers(pc: Pc, sent: Cookie) {
    !pc.Start? && (pc.InNetwork? || pc.CommitStart? || pc.CommitLocked? ==> pc.sent == sent)
  }

  lemma {:induction false} SentIsRemembered(
      stored: Cookie, before: seq<Action>, c: System, after: seq<Action>, d: System, t: nat, sent: Cookie)
    requires Run(stored, before, c) && Run(stored, before + after, d)
    requires t < |c.tasks| && Remembers(c.tasks[t], sent)
    ensures t < |d.tasks| && Remembers(d.tasks[t], sent)
  {
    if after == [] {
      assert before + after == before;
    } else {
      var b := RunBeforeLast(stored, before, after, d);
      SentIsRemembered(stored, before, c, after[..|after| - 1], b, t, sent);
    }
  }

  // A response is committed if and only if, when its turn comes, the cookie in memory equals what it was
  // when the request was sent, whatever was committed in between.
  lemma ComparedWithSnapshot(
      stored: Cookie, before: seq<Action>, c: System, t: nat, after: seq<Action>, d: System)
    requires Run(stored, before, c) && Enabled(c, Send(t))
    requires Run(stored, before + [Send(t)] + after, d) && Enabled(d, Compare(t))
    ensures d.tasks[t].sent == c.memory
    ensures Apply(d, Compare(t)).memory == if d.memory == c.memory then Some(d.tasks[t].value) else d.memory
  {
    assert (before + [Send(t)])[..|before|] == before;
    assert Run(stored, before + [Send(t)], Apply(c, Send(t)));
    SentIsRemembered(stored, before + [Send(t)], Apply(c, Send(t)), after, d, t, c.memory);
  }
}
