/**
 Fresh agent ids and the import of agents (src-tauri/src/agents.rs).

 `clock` gives the time read while the n-th agent of an import is handled; fields the import does not
 look at are kept together in `extra`.
 */
module Agents {
  import opened Wrappers
  import opened Text

  datatype Agent = Agent(id: string, name: string, prompt: Option<string>, createdAt: Option<int>, extra: string)

  datatype Strategy = Skip | Overwrite | Duplicate

  const MAX_NAME_CHARS: nat := 64
  const MAX_PROMPT_CHARS: nat := 100_000

  // ---- fresh ids ----

  // The ids tried in turn: the base, then base-1, base-2 and so on.
  function Candidate(base: string, n: nat): string {
    if n == 0 then base else base + "-" + Print(n)
  }

  lemma CandidatesDistinct(base: string, m: nat, n: nat)
    requires Candidate(base, m) == Candidate(base, n)
    ensures m == n
  {
    if m > 0 && n > 0 {
      assert Candidate(base, m)[|base| + 1..] == Print(m);
      assert Candidate(base, n)[|base| + 1..] == Print(n);
      PrintInjective(m, n);
    } else {
      assert m > 0 || n > 0 ==> |Candidate(base, m)| != |Candidate(base, n)|;
    }
  }

  function Candidates(base: string, count: nat): set<string> {
    set m | 0 <= m < count :: Candidate(base, m)
  }

  lemma {:induction false} CandidatesCount(base: string, count: nat)
    ensures |Candidates(base, count)| == count
  {
    if count > 0 {
      CandidatesCount(base, count - 1);
      assert Candidates(base, count) == Candidates(base, count - 1) + {Candidate(base, count - 1)};
      if Candidate(base, count - 1) in Candidates(base, count - 1) {
        var m :| 0 <= m < count - 1 && Candidate(base, m) == Candidate(base, count - 1);
        CandidatesDistinct(base, m, count - 1);
        assert false;
      }
    }
  }

  // By the pigeonhole principle a finite store cannot hold more than its size of them.
  lemma TakenAtMostSize(base: string, existing: set<string>, count: nat)
    requires forall m :: 0 <= m < count ==> Candidate(base, m) in existing
    ensures count <= |existing|
  {
    CandidatesCount(base, count);
    SubsetSize(Candidates(base, count), existing);
  }

  lemma {:induction false} SubsetSize(a: set<string>, b: set<string>)
    requires a <= b
    ensures |a| <= |b|
  {
    if a != {} {
      var x :| x in a;
      SubsetSize(a - {x}, b - {x});
    }
  }

  predicate IsFirstFree(base: string, existing: set<string>, n: nat) {
    Candidate(base, n) !in existing && forall m :: 0 <= m < n ==> Candidate(base, m) in existing
  }

  // The number of the first candidate not taken.
  function FirstFree(base: string, existing: set<string>, from: nat): (n: nat)
    requires forall m :: 0 <= m < from ==> Candidate(base, m) in existing
    ensures IsFirstFree(base, existing, n) && n <= |existing|
    decreases |existing| + 1 - from
  {
    TakenAtMostSize(base, existing, from);
    if Candidate(base, from) !in existing then from
    else
      assert from + 1 <= |existing| by { TakenAtMostSize(base, existing, from + 1); }
      FirstFree(base, existing, from + 1)
  }

  function UniqueId(base: string, existing: set<string>): string {
    Candidate(base, FirstFree(base, existing, 0))
  }

  lemma FirstFreeUnique(base: string, existing: set<string>, n: nat)
    requires IsFirstFree(base, existing, n)
    ensures UniqueId(base, existing) == Candidate(base, n)
  {
    var m := FirstFree(base, existing, 0);
    assert !(m < n) && !(n < m);
  }

  // The loop terminates within as many rounds as there are agents and returns the base itself or the
  // unused id with the smallest suffix.
  method GenerateUniqueId(baseId: string, existing: map<string, Agent>) returns (candidate: string)
    ensures candidate !in existing
    ensures exists n :: (&& 0 <= n <= |existing| && candidate == Candidate(baseId, n)
                         && IsFirstFree(baseId, existing.Keys, n))
    ensures candidate == UniqueId(baseId, existing.Keys)
  {
    candidate := baseId;
    var suffix := 1;
    while candidate in existing
      invariant suffix >= 1 && candidate == Candidate(baseId, suffix - 1)
      invariant forall m :: 0 <= m < suffix - 1 ==> Candidate(baseId, m) in existing
      decreases |existing| + 1 - suffix
    {
      TakenAtMostSize(baseId, existing.Keys, suffix);
      candidate := baseId + "-" + Print(suffix);
      suffix := suffix + 1;
    }
    TakenAtMostSize(baseId, existing.Keys, suffix - 1);
    FirstFreeUnique(baseId, existing.Keys, suffix - 1);
  }

  // ---- sanitizing and validating ----

  function SanitizeAgent(a: Agent): Agent {
    a.(id := Trim(a.id), name := Trim(a.name),
       prompt := if a.prompt.Some? && Trim(a.prompt.value) != "" then Some(Trim(a.prompt.value)) else None)
  }

  datatype Invalid = MissingId | MissingName | NameTooLong | PromptTooLong

  function ValidateAgent(a: Agent): Result<(), Invalid> {
    if Trim(a.id) == "" then Err(MissingId)
    else if Trim(a.name) == "" then Err(MissingName)
    else if |Trim(a.name)| > MAX_NAME_CHARS then Err(NameTooLong)
    else if a.prompt.Some? && |a.prompt.value| > MAX_PROMPT_CHARS then Err(PromptTooLong)
    else Ok(())
  }

  // Sanitizing twice is sanitizing once, so what the store holds passes through unchanged.
  lemma SanitizeIdempotent(a: Agent)
    ensures SanitizeAgent(SanitizeAgent(a)) == SanitizeAgent(a)
  {
    TrimIdempotent(a.id);
    TrimIdempotent(a.name);
    if a.prompt.Some? {
      TrimIdempotent(a.prompt.value);
    }
  }

  // The agents an import takes: with an id, a name of 1 to 64 characters and no prompt of more than
  // 100,000, blanks at either end not counted.
  predicate IsAcceptable(raw: Agent) {
    && Trim(raw.id) != ""
    && 1 <= |Trim(raw.name)| <= 64
    && (raw.prompt.Some? ==> |Trim(raw.prompt.value)| <= 100_000)
  }

  // The first thing wrong with the others.
  function Fault(raw: Agent): Option<Invalid> {
    if IsAcceptable(raw) then None
    else if Trim(raw.id) == "" then Some(MissingId)
    else if |Trim(raw.name)| == 0 then Some(MissingName)
    else if |Trim(raw.name)| > 64 then Some(NameTooLong)
    else Some(PromptTooLong)
  }

  lemma AcceptableIff(raw: Agent)
    ensures ValidateAgent(SanitizeAgent(raw)).Ok? <==> IsAcceptable(raw)
    ensures SanitizeAgent(raw).id == Trim(raw.id)
  {
    TrimIdempotent(raw.id);
    TrimIdempotent(raw.name);
  }

  lemma FaultIff(raw: Agent)
    ensures ValidateAgent(SanitizeAgent(raw)).Err? ==> Fault(raw) == Some(ValidateAgent(SanitizeAgent(raw)).error)
    ensures ValidateAgent(SanitizeAgent(raw)).Ok? ==> Fault(raw) == None
  {
    TrimIdempotent(raw.id);
    TrimIdempotent(raw.name);
  }

  // ---- import ----

  datatype Tally = Tally(agents: map<string, Agent>, imported: nat, updated: nat, skipped: nat, errors: seq<Invalid>)

  function Dated(a: Agent, now: int): Agent {
    if a.createdAt == None then a.(createdAt := Some(now)) else a
  }

  // One agent handled.
  function ImportOne(t: Tally, raw: Agent, strategy: Strategy, now: int): Tally {
    var agent := SanitizeAgent(raw);
    match ValidateAgent(agent)
    case Err(e) => t.(skipped := t.skipped + 1, errors := t.errors + [e])
    case Ok(_) =>
      if agent.id !in t.agents then
        t.(agents := t.agents[agent.id := Dated(agent, now)], imported := t.imported + 1)
      else
        match strategy
        case Skip => t.(skipped := t.skipped + 1)
        case Overwrite => t.(agents := t.agents[agent.id := agent], updated := t.updated + 1)
        case Duplicate =>
          var id := UniqueId(agent.id, t.agents.Keys);
          t.(agents := t.agents[id := Dated(agent.(id := id), now)], imported := t.imported + 1)
  }

  function ImportAll(agents: map<string, Agent>, list: seq<Agent>, strategy: Strategy, clock: nat -> int): Tally {
    if list == [] then Tally(agents, 0, 0, 0, [])
    else
      var last := |list| - 1;
      ImportOne(ImportAll(agents, list[..last], strategy, clock), list[last], strategy, clock(last))
  }

  lemma ImportOneMore(agents: map<string, Agent>, list: seq<Agent>, i: nat, strategy: Strategy, clock: nat -> int)
    requires i < |list|
    ensures ImportAll(agents, list[..i + 1], strategy, clock)
         == ImportOne(ImportAll(agents, list[..i], strategy, clock), list[i], strategy, clock(i))
  {
    assert list[..i + 1][..i] == list[..i];
  }

  class AgentStore {
    var agents: map<string, Agent>

    constructor (stored: map<string, Agent>)
      ensures agents == stored
    {
      agents := stored;
    }

    // agent_import_apply: reads the store, works on it, and writes it back at the end or not at all.
    method ImportApply(list: seq<Agent>, strategy: Strategy, clock: nat -> int, writes: bool)
      returns (result: Result<Tally, string>)
      modifies this
      ensures result.Ok? <==> writes
      ensures result.Ok? ==> result.value == ImportAll(old(agents), list, strategy, clock)
      ensures result.Ok? ==> agents == result.value.agents
      ensures result.Err? ==> agents == old(agents)
    {
      var store := agents;
      var imported, updated, skipped := 0, 0, 0;
      var errors: seq<Invalid> := [];
      for i := 0 to |list|
        invariant Tally(store, imported, updated, skipped, errors) == ImportAll(agents, list[..i], strategy, clock)
        invariant agents == old(agents)
      {
        ImportOneMore(agents, list, i, strategy, clock);
        var agent := SanitizeAgent(list[i]);
        var checked := ValidateAgent(agent);
        if checked.Err? {
          skipped := skipped + 1;
          errors := errors + [checked.error];
          continue;
        }
        if agent.id in store {
          match strategy {
            case Skip =>
              skipped := skipped + 1;
            case Overwrite =>
              store := store[agent.id := agent];
              updated := updated + 1;
            case Duplicate =>
              var newId := GenerateUniqueId(agent.id, store);
              store := store[newId := Dated(agent.(id := newId), clock(i))];
              imported := imported + 1;
          }
        } else {
          store := store[agent.id := Dated(agent, clock(i))];
          imported := imported + 1;
        }
      }
      assert list[..|list|] == list;
      if !writes {
        return Err("Failed to write agent.json");
      }
      agents := store;
      result := Ok(Tally(store, imported, updated, skipped, errors));
    }
  }

  lemma FreshKeyGrows(m: map<string, Agent>, k: string, v: Agent)
    requires k !in m
    ensures |m[k := v]| == |m| + 1
  {
    assert m[k := v].Keys == m.Keys + {k};
    assert |m[k := v]| == |m[k := v].Keys| && |m| == |m.Keys|;
  }

  lemma KnownKeyKeepsSize(m: map<string, Agent>, k: string, v: Agent)
    requires k in m
    ensures |m[k := v]| == |m|
  {
    assert m[k := v].Keys == m.Keys;
    assert |m[k := v]| == |m[k := v].Keys| && |m| == |m.Keys|;
  }

  lemma CountsOne(t: Tally, raw: Agent, strategy: Strategy, now: int)
    ensures var u := ImportOne(t, raw, strategy, now);
            && u.imported + u.updated + u.skipped == t.imported + t.updated + t.skipped + 1
            && |u.agents| - u.imported == |t.agents| - t.imported
            && |u.errors| + t.skipped <= |t.errors| + u.skipped
            && (strategy != Skip ==> |u.errors| + t.skipped == |t.errors| + u.skipped)
            && (strategy != Overwrite ==> u.updated == t.updated)
  {
    var agent := SanitizeAgent(raw);
    if agent.id !in t.agents {
      FreshKeyGrows(t.agents, agent.id, Dated(agent, now));
    } else {
      KnownKeyKeepsSize(t.agents, agent.id, agent);
      var id := UniqueId(agent.id, t.agents.Keys);
      FreshKeyGrows(t.agents, id, Dated(agent.(id := id), now));
    }
  }

  // Every agent of the list is counted once, and the store grows by the imported ones.
  lemma {:induction false} CountsAddUp(
      agents: map<string, Agent>, list: seq<Agent>, strategy: Strategy, clock: nat -> int)
    ensures var t := ImportAll(agents, list, strategy, clock);
            && t.imported + t.updated + t.skipped == |list|
            && |t.agents| == |agents| + t.imported
            && |t.errors| <= t.skipped
            && (strategy != Skip ==> |t.errors| == t.skipped)
            && (strategy != Overwrite ==> t.updated == 0)
  {
    if list != [] {
      var front := list[..|list| - 1];
      CountsAddUp(agents, front, strategy, clock);
      CountsOne(ImportAll(agents, front, strategy, clock), list[|list| - 1], strategy, clock(|list| - 1));
    }
  }

  lemma OneKeepsStored(t: Tally, raw: Agent, strategy: Strategy, now: int, id: string)
    requires id in t.agents
    ensures var u := ImportOne(t, raw, strategy, now).agents;
            && id in u
            && (strategy != Overwrite || !IsAcceptable(raw) || Trim(raw.id) != id ==> u[id] == t.agents[id])
  {
    AcceptableIff(raw);
  }

  // Skip and Duplicate leave every stored agent as it was, and no strategy loses one.
  lemma {:induction false} StoredAgentsSurvive(
      agents: map<string, Agent>, list: seq<Agent>, strategy: Strategy, clock: nat -> int, id: string)
    requires id in agents
    ensures var t := ImportAll(agents, list, strategy, clock);
            id in t.agents && (strategy != Overwrite ==> t.agents[id] == agents[id])
  {
    if list != [] {
      var front := list[..|list| - 1];
      StoredAgentsSurvive(agents, front, strategy, clock, id);
      OneKeepsStored(ImportAll(agents, front, strategy, clock), list[|list| - 1], strategy, clock(|list| - 1), id);
    }
  }

  lemma OneInserted(t: Tally, raw: Agent, strategy: Strategy, now: int, id: string)
    ensures var u := ImportOne(t, raw, strategy, now).agents;
            id in u ==> (id in t.agents && u[id] == t.agents[id]) || u[id].id == id
  {
  }

  // An agent the import puts or changes sits under its own id.
  lemma {:induction false} InsertedUnderOwnId(
      agents: map<string, Agent>, list: seq<Agent>, strategy: Strategy, clock: nat -> int, id: string)
    ensures var t := ImportAll(agents, list, strategy, clock);
            id in t.agents ==> (id in agents && t.agents[id] == agents[id]) || t.agents[id].id == id
  {
    if list != [] {
      var front := list[..|list| - 1];
      InsertedUnderOwnId(agents, front, strategy, clock, id);
      OneInserted(ImportAll(agents, front, strategy, clock), list[|list| - 1], strategy, clock(|list| - 1), id);
    }
  }

  // ---- what becomes of each agent of the list ----

  // The stored agent is that of the list, trimmed, and dated if it was not.
  predicate Carries(stored: Agent, raw: Agent, date: Option<int>) {
    && stored.name == Trim(raw.name) && stored.extra == raw.extra
    && stored.prompt == (match raw.prompt
                         case Some(text) => if Trim(text) == "" then None else Some(Trim(text))
                         case None => None)
    && stored.createdAt == if raw.createdAt.Some? then raw.createdAt else date
  }

  // The ids under which agents of the list may be stored.
  function IdsOf(list: seq<Agent>): set<string> {
    set i | 0 <= i < |list| && IsAcceptable(list[i]) :: Trim(list[i].id)
  }

  function AcceptableIn(list: seq<Agent>): nat {
    if list == [] then 0
    else AcceptableIn(list[..|list| - 1]) + if IsAcceptable(list[|list| - 1]) then 1 else 0
  }

  function Faults(list: seq<Agent>): seq<Invalid> {
    if list == [] then []
    else
      var fault := Fault(list[|list| - 1]);
      Faults(list[..|list| - 1]) + if fault.Some? then [fault.value] else []
  }

  // Under Duplicate every acceptable agent is imported, under Overwrite it is imported or updates
  // another; the errors are the faults of the others, in order.
  lemma {:induction false} TallyExact(
      agents: map<string, Agent>, list: seq<Agent>, strategy: Strategy, clock: nat -> int)
    ensures var t := ImportAll(agents, list, strategy, clock);
            && t.errors == Faults(list)
            && (strategy == Duplicate ==> t.imported == AcceptableIn(list))
            && (strategy == Overwrite ==> t.imported + t.updated == AcceptableIn(list))
  {
    if list != [] {
      var raw := list[|list| - 1];
      TallyExact(agents, list[..|list| - 1], strategy, clock);
      AcceptableIff(raw);
      FaultIff(raw);
    }
  }

  lemma IdsOfOneMore(list: seq<Agent>)
    requires list != []
    ensures var raw := list[|list| - 1];
            IdsOf(list) == IdsOf(list[..|list| - 1]) + if IsAcceptable(raw) then {Trim(raw.id)} else {}
  {
    var front := list[..|list| - 1];
    forall id | id in IdsOf(list) ensures id in IdsOf(front) || Trim(list[|list| - 1].id) == id {
      var i :| 0 <= i < |list| && IsAcceptable(list[i]) && Trim(list[i].id) == id;
      assert i < |front| ==> front[i] == list[i];
    }
    forall id | id in IdsOf(front) ensures id in IdsOf(list) {
      var i :| 0 <= i < |front| && IsAcceptable(front[i]) && Trim(front[i].id) == id;
      assert list[i] == front[i];
    }
  }

  lemma OneAddsItsId(t: Tally, raw: Agent, strategy: Strategy, now: int)
    requires strategy != Duplicate
    ensures ImportOne(t, raw, strategy, now).agents.Keys
         == t.agents.Keys + if IsAcceptable(raw) then {Trim(raw.id)} else {}
  {
    AcceptableIff(raw);
  }

  // Under Skip and Overwrite the store holds the ids it held and those of the acceptable agents.
  lemma {:induction false} KeysExact(
      agents: map<string, Agent>, list: seq<Agent>, strategy: Strategy, clock: nat -> int)
    requires strategy != Duplicate
    ensures ImportAll(agents, list, strategy, clock).agents.Keys == agents.Keys + IdsOf(list)
  {
    if list != [] {
      KeysExact(agents, list[..|list| - 1], strategy, clock);
      IdsOfOneMore(list);
      var last := |list| - 1;
      OneAddsItsId(ImportAll(agents, list[..last], strategy, clock), list[last], strategy, clock(last));
    }
  }

  lemma OneDuplicated(t: Tally, raw: Agent, now: int) returns (n: nat)
    requires IsAcceptable(raw)
    ensures IsFirstFree(Trim(raw.id), t.agents.Keys, n)
    ensures StoredAs(ImportOne(t, raw, Duplicate, now).agents, Candidate(Trim(raw.id), n), raw, now)
  {
    AcceptableIff(raw);
    n := FirstFree(Trim(raw.id), t.agents.Keys, 0);
  }

  predicate StoredAs(agents: map<string, Agent>, id: string, raw: Agent, date: int) {
    id in agents && Carries(agents[id], raw, Some(date))
  }

  lemma DuplicateStays(
      agents: map<string, Agent>, list: seq<Agent>, clock: nat -> int, id: string, raw: Agent, date: int)
    requires list != [] && StoredAs(ImportAll(agents, list[..|list| - 1], Duplicate, clock).agents, id, raw, date)
    ensures StoredAs(ImportAll(agents, list, Duplicate, clock).agents, id, raw, date)
  {
    var last := |list| - 1;
    OneKeepsStored(ImportAll(agents, list[..last], Duplicate, clock), list[last], Duplicate, clock(last), id);
  }

  lemma LastDuplicated(agents: map<string, Agent>, list: seq<Agent>, clock: nat -> int) returns (n: nat)
    requires list != [] && IsAcceptable(list[|list| - 1])
    ensures var last := |list| - 1;
            var base := Trim(list[last].id);
            && IsFirstFree(base, ImportAll(agents, list[..last], Duplicate, clock).agents.Keys, n)
            && StoredAs(ImportAll(agents, list, Duplicate, clock).agents, Candidate(base, n), list[last], clock(last))
  {
    var last := |list| - 1;
    n := OneDuplicated(ImportAll(agents, list[..last], Duplicate, clock), list[last], clock(last));
  }

  // Under Duplicate no acceptable agent of the list is lost: each is in the store afterwards, under the
  // first of its candidate ids that was free in its turn.
  lemma {:induction false} DuplicateKeepsAll(
      agents: map<string, Agent>, list: seq<Agent>, clock: nat -> int, i: nat) returns (n: nat, id: string)
    requires i < |list| && IsAcceptable(list[i])
    ensures id == Candidate(Trim(list[i].id), n) && id !in agents
    ensures IsFirstFree(Trim(list[i].id), ImportAll(agents, list[..i], Duplicate, clock).agents.Keys, n)
    ensures StoredAs(ImportAll(agents, list, Duplicate, clock).agents, id, list[i], clock(i))
  {
    var front := list[..|list| - 1];
    if i < |front| {
      assert front[..i] == list[..i];
      n, id := DuplicateKeepsAll(agents, front, clock, i);
      DuplicateStays(agents, list, clock, id, list[i], clock(i));
    } else {
      n := LastDuplicated(agents, list, clock);
      id := Candidate(Trim(list[i].id), n);
      if id in agents {
        StoredAgentsSurvive(agents, front, Duplicate, clock, id);
      }
    }
  }

  lemma OneOverwritten(t: Tally, raw: Agent, now: int)
    requires IsAcceptable(raw)
    ensures var u, id := ImportOne(t, raw, Overwrite, now).agents, Trim(raw.id);
            id in u && Carries(u[id], raw, if id in t.agents then None else Some(now))
  {
    AcceptableIff(raw);
  }

  // Under Overwrite the last acceptable agent with an id wins; it is dated only if it is the first.
  lemma {:induction false} OverwriteLastWins(agents: map<string, Agent>, list: seq<Agent>, clock: nat -> int, i: nat)
    requires i < |list| && IsAcceptable(list[i])
    requires forall j :: i < j < |list| && IsAcceptable(list[j]) ==> Trim(list[j].id) != Trim(list[i].id)
    ensures var t, id := ImportAll(agents, list, Overwrite, clock), Trim(list[i].id);
            var known := id in agents || id in IdsOf(list[..i]);
            id in t.agents && Carries(t.agents[id], list[i], if known then None else Some(clock(i)))
  {
    var front, now := list[..|list| - 1], clock(|list| - 1);
    var t := ImportAll(agents, front, Overwrite, clock);
    if i < |front| {
      assert front[..i] == list[..i];
      OverwriteLastWins(agents, front, clock, i);
      OneKeepsStored(t, list[|list| - 1], Overwrite, now, Trim(list[i].id));
    } else {
      KeysExact(agents, front, Overwrite, clock);
      OneOverwritten(t, list[i], now);
    }
  }

  lemma OneSkipped(t: Tally, raw: Agent, now: int)
    requires IsAcceptable(raw) && Trim(raw.id) !in t.agents
    ensures var u, id := ImportOne(t, raw, Skip, now).agents, Trim(raw.id);
            id in u && Carries(u[id], raw, Some(now))
  {
    AcceptableIff(raw);
  }

  // Under Skip the first acceptable agent with a new id wins.
  lemma {:induction false} SkipFirstWins(agents: map<string, Agent>, list: seq<Agent>, clock: nat -> int, i: nat)
    requires i < |list| && IsAcceptable(list[i])
    requires Trim(list[i].id) !in agents && Trim(list[i].id) !in IdsOf(list[..i])
    ensures var t, id := ImportAll(agents, list, Skip, clock), Trim(list[i].id);
            id in t.agents && Carries(t.agents[id], list[i], Some(clock(i)))
  {
    var front, now := list[..|list| - 1], clock(|list| - 1);
    var t := ImportAll(agents, front, Skip, clock);
    if i < |front| {
      assert front[..i] == list[..i];
      SkipFirstWins(agents, front, clock, i);
      OneKeepsStored(t, list[|list| - 1], Skip, now, Trim(list[i].id));
    } else {
      KeysExact(agents, front, Skip, clock);
      OneSkipped(t, list[i], now);
    }
  }

  // Importing a list again under Skip changes nothing.
  lemma {:induction false} SkipTwiceIsOnce(
      agents: map<string, Agent>, list: seq<Agent>, again: seq<Agent>, clock: nat -> int)
    requires again <= list
    ensures var once := ImportAll(agents, list, Skip, clock).agents;
            var twice := ImportAll(once, again, Skip, clock);
            twice.agents == once && twice.imported == 0
  {
    if again != [] {
      var last := |again| - 1;
      SkipTwiceIsOnce(agents, list, again[..last], clock);
      KeysExact(agents, list, Skip, clock);
      AcceptableIff(list[last]);
      assert IsAcceptable(list[last]) ==> Trim(list[last].id) in IdsOf(list);
    }
  }
}
