/**
 Token accounting over Codex session files (src-tauri/src/local_usage.rs).

 A file is the list of what its lines decode to. The day of a timestamp and the workspace match are
 functions handed in; counts are mathematical integers.
 */
module LocalUsage {
  import opened Wrappers

  datatype Usage = Usage(input: int, cached: int, output: int)

  const ZERO := Usage(0, 0, 0)

  datatype Component = Input | Cached | Output

  function Of(u: Usage, c: Component): int {
    match c case Input => u.input case Cached => u.cached case Output => u.output
  }

  predicate IsZero(u: Usage) {
    u.input == 0 && u.cached == 0 && u.output == 0
  }

  function Add(u: Usage, v: Usage): Usage {
    Usage(u.input + v.input, u.cached + v.cached, u.output + v.output)
  }

  function Excess(a: int, b: int): nat {
    if a > b then a - b else 0
  }

  function ExcessOf(u: Usage, v: Usage): Usage {
    Usage(Excess(u.input, v.input), Excess(u.cached, v.cached), Excess(u.output, v.output))
  }

  // total_token_usage is a running total, last_token_usage what was used since the last report.
  datatype Report = Total(usage: Usage) | Last(usage: Usage)

  datatype Record =
    | SessionMeta(cwd: Option<string>)
    | TurnContext(cwd: Option<string>, model: Option<string>)
    | TokenCount(report: Option<Report>, timestamp: Option<int>, model: Option<string>)
    | OtherRecord
    | Unreadable

  // ---- which reports of a file count ----

  // match_known, matches_workspace, current_model, and whether the loop has been left.
  datatype Scope = Scope(known: bool, matches: bool, stopped: bool, model: Option<string>)

  type Filter = Option<string -> bool>

  function InitialScope(filter: Filter): Scope {
    Scope(filter.None?, filter.None?, false, None)
  }

  function SeeCwd(s: Scope, cwd: Option<string>, filter: Filter): Scope {
    if cwd.Some? && filter.Some? then
      var m := filter.value(cwd.value);
      s.(known := true, matches := m, stopped := !m)
    else s
  }

  function NextScope(s: Scope, r: Record, filter: Filter): Scope {
    if s.stopped then s
    else
      match r
      case SessionMeta(cwd) => SeeCwd(s, cwd, filter)
      case TurnContext(cwd, model) =>
        var t := SeeCwd(s, cwd, filter);
        if !t.stopped && model.Some? then t.(model := model) else t
      case Unreadable => s
      case _ => if !s.matches && s.known then s.(stopped := true) else s
  }

  predicate Counts(s: Scope, r: Record) {
    !s.stopped && s.matches && s.known && r.TokenCount? && r.report.Some?
  }

  datatype TokenReport = TokenReport(report: Report, timestamp: Option<int>, model: string)

  function ModelOf(s: Scope, r: Record): string
    requires r.TokenCount?
  {
    if s.model.Some? then s.model.value else if r.model.Some? then r.model.value else "unknown"
  }

  function ScopeAfter(records: seq<Record>, filter: Filter): Scope {
    if records == [] then InitialScope(filter)
    else NextScope(ScopeAfter(records[..|records| - 1], filter), records[|records| - 1], filter)
  }

  function Scoped(records: seq<Record>, filter: Filter): seq<TokenReport> {
    if records == [] then []
    else
      var front, r := records[..|records| - 1], records[|records| - 1];
      var s := ScopeAfter(front, filter);
      if Counts(s, r) then Scoped(front, filter) + [TokenReport(r.report.value, r.timestamp, ModelOf(s, r))]
      else Scoped(front, filter)
  }

  // ---- deltas ----

  function NextRunning(running: Usage, r: Report): Usage {
    match r case Total(u) => u case Last(u) => Add(running, u)
  }

  function Delta(running: Usage, r: Report): Usage {
    match r case Total(u) => ExcessOf(u, running) case Last(u) => u
  }

  // The running total after some reports.
  function Running(reports: seq<TokenReport>): Usage {
    if reports == [] then ZERO else NextRunning(Running(reports[..|reports| - 1]), reports[|reports| - 1].report)
  }

  datatype Charge = Charge(delta: Usage, timestamp: Option<int>, model: string)

  function Charges(reports: seq<TokenReport>): seq<Charge> {
    if reports == [] then []
    else
      var front, r := reports[..|reports| - 1], reports[|reports| - 1];
      Charges(front) + [Charge(Delta(Running(front), r.report), r.timestamp, r.model)]
  }

  function SumDeltas(charges: seq<Charge>, c: Component): int {
    if charges == [] then 0 else SumDeltas(charges[..|charges| - 1], c) + Of(charges[|charges| - 1].delta, c)
  }

  // How far a reported total falls below the running one.
  function Jump(running: Usage, r: Report, c: Component): nat {
    match r case Total(u) => Excess(Of(running, c), Of(u, c)) case Last(_) => 0
  }

  function SumJumps(reports: seq<TokenReport>, c: Component): nat {
    if reports == [] then 0
    else
      var front, r := reports[..|reports| - 1], reports[|reports| - 1];
      SumJumps(front, c) + Jump(Running(front), r.report, c)
  }

  // No reported total is below the running one.
  predicate NeverFalls(reports: seq<TokenReport>, c: Component) {
    reports == []
    || (var front := reports[..|reports| - 1];
        NeverFalls(front, c) && Jump(Running(front), reports[|reports| - 1].report, c) == 0)
  }

  lemma DeltaIsGrowthPlusJump(running: Usage, r: Report, c: Component)
    ensures Of(running, c) + Of(Delta(running, r), c) == Of(NextRunning(running, r), c) + Jump(running, r, c)
  {
  }

  // Within one file and per component the deltas sum to the final running total plus all downward
  // jumps of the reported totals.
  lemma {:induction false} DeltasSumToTotalPlusJumps(reports: seq<TokenReport>, c: Component)
    ensures SumDeltas(Charges(reports), c) == Of(Running(reports), c) + SumJumps(reports, c)
  {
    if reports != [] {
      var front, r := reports[..|reports| - 1], reports[|reports| - 1];
      DeltasSumToTotalPlusJumps(front, c);
      DeltaIsGrowthPlusJump(Running(front), r.report, c);
      assert Charges(reports)[..|Charges(front)|] == Charges(front);
    }
  }

  // So every token is counted exactly once if and only if no reported total ever falls below the
  // running one, however totals and deltas are mixed.
  lemma {:induction false} CountedOnceIffNeverFalls(reports: seq<TokenReport>, c: Component)
    ensures SumJumps(reports, c) == 0 <==> NeverFalls(reports, c)
    ensures SumDeltas(Charges(reports), c) == Of(Running(reports), c) <==> NeverFalls(reports, c)
  {
    DeltasSumToTotalPlusJumps(reports, c);
    if reports != [] {
      CountedOnceIffNeverFalls(reports[..|reports| - 1], c);
    }
  }

  // ---- the tables ----

  datatype Day = Day(input: int, cached: int, output: int)

  const EMPTY_DAY := Day(0, 0, 0)

  datatype Tables = Tables(daily: map<string, Day>, models: map<string, int>)

  function Least(a: int, b: int): int {
    if a <= b then a else b
  }

  // No more cached than input tokens are added to a day.
  function DayWith(d: Day, u: Usage): Day {
    Day(d.input + u.input, d.cached + Least(u.cached, u.input), d.output + u.output)
  }

  // The day of a charge, if it is one of the days counted.
  function DayOfCharge(t: Tables, c: Charge, dayOf: int -> Option<string>): Option<string> {
    if c.timestamp.Some? && dayOf(c.timestamp.value).Some? && dayOf(c.timestamp.value).value in t.daily
    then dayOf(c.timestamp.value) else None
  }

  function Entered(t: Tables, c: Charge, dayOf: int -> Option<string>): Tables {
    if IsZero(c.delta) then t
    else
      match DayOfCharge(t, c, dayOf)
      case None => t
      case Some(day) =>
        var d := t.daily[day];
        var before := if c.model in t.models then t.models[c.model] else 0;
        Tables(
          t.daily[day := DayWith(d, c.delta)],
          t.models[c.model := before + (c.delta.input + c.delta.output)])
  }

  function AllEntered(t: Tables, charges: seq<Charge>, dayOf: int -> Option<string>): Tables {
    if charges == [] then t
    else Entered(AllEntered(t, charges[..|charges| - 1], dayOf), charges[|charges| - 1], dayOf)
  }

  // Every counted day at zero, no model yet.
  function FreshTables(dayKeys: seq<string>): (t: Tables)
    ensures forall k :: k in t.daily <==> k in dayKeys
    ensures forall k :: k in t.daily ==> t.daily[k] == EMPTY_DAY
    ensures t.models == map[]
  {
    Tables(map k | k in dayKeys :: EMPTY_DAY, map[])
  }

  // The two maps scan_file is handed, updated in place.
  class UsageTables {
    var daily: map<string, Day>
    var modelTotals: map<string, int>

    constructor (dayKeys: seq<string>)
      ensures View() == FreshTables(dayKeys)
    {
      daily, modelTotals := FreshTables(dayKeys).daily, map[];
    }

    function View(): Tables
      reads this
    {
      Tables(daily, modelTotals)
    }

    method ScanFile(records: seq<Record>, filter: Filter, dayOf: int -> Option<string>)
      modifies this
      ensures View() == AllEntered(old(View()), Charges(Scoped(records, filter)), dayOf)
    {
      var previousTotals: Option<Usage> := None;
      var currentModel: Option<string> := None;
      var matchKnown, matchesWorkspace := filter.None?, filter.None?;
      var stopped := false;
      var rest := records;
      while rest != [] && !stopped
        invariant Scan(View(), rest, Scope(matchKnown, matchesWorkspace, stopped, currentModel),
                OrZero(previousTotals), filter, dayOf)
                  == Scan(old(View()), records, InitialScope(filter), ZERO, filter, dayOf)
        decreases |rest|
      {
        var r := rest[0];
        rest := rest[1..];
        if (r.SessionMeta? || r.TurnContext?) && r.cwd.Some? && filter.Some? {
          matchesWorkspace := filter.value(r.cwd.value);
          matchKnown := true;
          stopped := !matchesWorkspace;
        }
        if stopped {
        } else if r.TurnContext? {
          currentModel := if r.model.Some? then r.model else currentModel;
        } else if r.SessionMeta? || r.Unreadable? {
        } else if !matchesWorkspace {
          stopped := matchKnown;
        } else if matchKnown && r.TokenCount? && r.report.Some? {
          var delta := Delta(OrZero(previousTotals), r.report.value);
          previousTotals := Some(NextRunning(OrZero(previousTotals), r.report.value));
          EnterDelta(delta, r.timestamp, if currentModel.Some? then currentModel else r.model, dayOf);
        }
      }
      ScanEntersCharges(old(View()), records, 0, filter, dayOf);
      assert records[0..] == records && records[..0] == [];
    }

    // Books one delta on its day and model, unless it is empty or its day is not counted.
    method EnterDelta(delta: Usage, timestamp: Option<int>, model: Option<string>, dayOf: int -> Option<string>)
      modifies this
      ensures var charge := Charge(delta, timestamp, if model.Some? then model.value else "unknown");
              View() == Entered(old(View()), charge, dayOf)
    {
      if IsZero(delta) || timestamp.None? {
        return;
      }
      var day := dayOf(timestamp.value);
      if day.Some? && day.value in daily {
        var d := daily[day.value];
        daily := daily[day.value :=
          Day(d.input + delta.input, d.cached + Least(delta.cached, delta.input), d.output + delta.output)];
        var key := if model.Some? then model.value else "unknown";
        var before := if key in modelTotals then modelTotals[key] else 0;
        modelTotals := modelTotals[key := before + (delta.input + delta.output)];
      }
    }
  }

  function OrZero(u: Option<Usage>): Usage {
    if u.Some? then u.value else ZERO
  }

  // The file read from the front, as far as it is of interest.
  function Scan(
      t: Tables, records: seq<Record>, s: Scope, running: Usage, filter: Filter, dayOf: int -> Option<string>): Tables
    decreases |records|
  {
    if records == [] || s.stopped then t
    else
      var r, next := records[0], NextScope(s, records[0], filter);
      if Counts(s, r) then
        var c := Charge(Delta(running, r.report.value), r.timestamp, ModelOf(s, r));
        Scan(Entered(t, c, dayOf), records[1..], next, NextRunning(running, r.report.value), filter, dayOf)
      else Scan(t, records[1..], next, running, filter, dayOf)
  }

  // It enters the charges of the reports that count, each made against the running total before it.
  lemma {:induction false} ScanEntersCharges(
      t: Tables, records: seq<Record>, i: nat, filter: Filter, dayOf: int -> Option<string>)
    requires i <= |records|
    ensures var before := Scoped(records[..i], filter);
            Scan(AllEntered(t, Charges(before), dayOf), records[i..], ScopeAfter(records[..i], filter),
                Running(before), filter, dayOf)
            == AllEntered(t, Charges(Scoped(records, filter)), dayOf)
    decreases |records| - i
  {
    assert i == |records| ==> records[..i] == records;
    if ScopeAfter(records[..i], filter).stopped {
      NothingAfterStop(records, i, filter);
    } else if i < |records| {
      OneMoreRecord(t, records, i, filter, dayOf);
      assert records[i..][1..] == records[i + 1..];
      ScanEntersCharges(t, records, i + 1, filter, dayOf);
    }
  }

  // What one more record does to the scope, to the running total and to the tables.
  lemma OneMoreRecord(t: Tables, records: seq<Record>, i: nat, filter: Filter, dayOf: int -> Option<string>)
    requires i < |records|
    ensures var front, r, s := records[..i], records[i], ScopeAfter(records[..i], filter);
            var before, after := Scoped(front, filter), Scoped(records[..i + 1], filter);
            && ScopeAfter(records[..i + 1], filter) == NextScope(s, r, filter)
            && (!Counts(s, r) ==> after == before)
            && (Counts(s, r) ==>
                  && Running(after) == NextRunning(Running(before), r.report.value)
                  && AllEntered(t, Charges(after), dayOf)
                     == Entered(AllEntered(t, Charges(before), dayOf),
                                Charge(Delta(Running(before), r.report.value), r.timestamp, ModelOf(s, r)), dayOf))
  {
    var s, r := ScopeAfter(records[..i], filter), records[i];
    assert records[..i + 1][..i] == records[..i];
    if Counts(s, r) {
      LastCharge(Scoped(records[..i], filter), TokenReport(r.report.value, r.timestamp, ModelOf(s, r)));
    }
  }

  lemma LastCharge(before: seq<TokenReport>, r: TokenReport)
    ensures Running(before + [r]) == NextRunning(Running(before), r.report)
    ensures Charges(before + [r]) == Charges(before) + [Charge(Delta(Running(before), r.report), r.timestamp, r.model)]
    ensures Charges(before + [r])[..|Charges(before)|] == Charges(before)
  {
    assert (before + [r])[..|before|] == before;
  }

  // The loop leaves the file at a foreign workspace; nothing behind that point counts.
  lemma {:induction false} NothingAfterStop(records: seq<Record>, i: nat, filter: Filter)
    requires i <= |records| && ScopeAfter(records[..i], filter).stopped
    ensures ScopeAfter(records, filter).stopped && Scoped(records, filter) == Scoped(records[..i], filter)
  {
    if i == |records| {
      assert records[..i] == records;
    } else {
      var front := records[..|records| - 1];
      assert front[..i] == records[..i];
      NothingAfterStop(front, i, filter);
    }
  }

  // ---- conservation ----

  function Tokens(d: Day): int {
    d.input + d.output
  }

  ghost function PickKey<V>(m: map<string, V>): string
    requires m != map[]
    ensures PickKey(m) in m
  {
    assert m.Keys != {};
    var k :| k in m; k
  }

  // The sum over all values of a table.
  ghost function SumModels(m: map<string, int>): int
    decreases |m|
  {
    if m == map[] then 0
    else
      var k := PickKey(m);
      assert |m - {k}| < |m| by { Smaller(m, k); }
      m[k] + SumModels(m - {k})
  }

  lemma Smaller<V>(m: map<string, V>, k: string)
    requires k in m
    ensures |m - {k}| == |m| - 1
  {
    assert (m - {k}).Keys == m.Keys - {k};
    assert |m - {k}| == |(m - {k}).Keys| && |m| == |m.Keys|;
  }

  lemma {:induction false} SumModelsAny(m: map<string, int>, k: string)
    requires k in m
    ensures SumModels(m) == m[k] + SumModels(m - {k})
    decreases |m|
  {
    var p := PickKey(m);
    if p != k {
      Smaller(m, p);
      Smaller(m, k);
      SumModelsAny(m - {p}, k);
      SumModelsAny(m - {k}, p);
      assert m - {p} - {k} == m - {k} - {p};
    }
  }

  lemma SumModelsUpdate(m: map<string, int>, k: string, v: int)
    ensures SumModels(m[k := v]) == SumModels(m) - (if k in m then m[k] else 0) + v
  {
    SumModelsAny(m[k := v], k);
    if k in m {
      SumModelsAny(m, k);
      assert m[k := v] - {k} == m - {k};
    } else {
      assert m[k := v] - {k} == m;
    }
  }

  // The tokens of all counted days, in the order of the day keys.
  function SumDays(daily: map<string, Day>, dayKeys: seq<string>): int {
    if dayKeys == [] then 0
    else
      var k := dayKeys[|dayKeys| - 1];
      SumDays(daily, dayKeys[..|dayKeys| - 1]) + if k in daily then Tokens(daily[k]) else 0
  }

  lemma {:induction false} SumDaysUpdate(daily: map<string, Day>, dayKeys: seq<string>, k: string, d: Day)
    requires NoDuplicates(dayKeys) && k in daily
    ensures SumDays(daily[k := d], dayKeys)
         == SumDays(daily, dayKeys) + if k in dayKeys then Tokens(d) - Tokens(daily[k]) else 0
  {
    if dayKeys != [] {
      SumDaysUpdate(daily, dayKeys[..|dayKeys| - 1], k, d);
    }
  }

  // The day table covers exactly the day keys.
  ghost predicate Covers(t: Tables, dayKeys: seq<string>) {
    NoDuplicates(dayKeys) && forall k :: k in t.daily <==> k in dayKeys
  }

  // What every booking keeps: the day table's keys, equal totals on both sides, and no day with more
  // cached than input tokens.
  ghost predicate Balanced(t: Tables, dayKeys: seq<string>) {
    && Covers(t, dayKeys)
    && SumModels(t.models) == SumDays(t.daily, dayKeys)
    && forall k :: k in t.daily ==> t.daily[k].cached <= t.daily[k].input
  }

  lemma BookedKeepsBalance(t: Tables, day: string, model: string, u: Usage, dayKeys: seq<string>)
    requires Balanced(t, dayKeys) && day in t.daily
    ensures var d, before := t.daily[day], if model in t.models then t.models[model] else 0;
            Balanced(Tables(t.daily[day := DayWith(d, u)],
                            t.models[model := before + (u.input + u.output)]), dayKeys)
  {
    var d, before := t.daily[day], if model in t.models then t.models[model] else 0;
    SumModelsUpdate(t.models, model, before + (u.input + u.output));
    SumDaysUpdate(t.daily, dayKeys, day,
        DayWith(d, u));
  }

  lemma EnteredKeepsBalance(t: Tables, c: Charge, dayOf: int -> Option<string>, dayKeys: seq<string>)
    requires Balanced(t, dayKeys)
    ensures Balanced(Entered(t, c, dayOf), dayKeys)
  {
    var day := DayOfCharge(t, c, dayOf);
    if day.Some? {
      BookedKeepsBalance(t, day.value, c.model, c.delta, dayKeys);
    }
  }

  lemma {:induction false} AllEnteredKeepsBalance(
      t: Tables, charges: seq<Charge>, dayOf: int -> Option<string>, dayKeys: seq<string>)
    requires Balanced(t, dayKeys)
    ensures Balanced(AllEntered(t, charges, dayOf), dayKeys)
  {
    if charges != [] {
      AllEnteredKeepsBalance(t, charges[..|charges| - 1], dayOf, dayKeys);
      EnteredKeepsBalance(AllEntered(t, charges[..|charges| - 1], dayOf), charges[|charges| - 1], dayOf, dayKeys);
    }
  }

  lemma FreshTablesBalance(dayKeys: seq<string>)
    requires NoDuplicates(dayKeys)
    ensures Balanced(FreshTables(dayKeys), dayKeys)
  {
    var t := FreshTables(dayKeys);
    ZeroDays(t.daily, dayKeys);
    assert Covers(t, dayKeys);
    assert SumModels(t.models) == 0;
  }

  lemma {:induction false} ZeroDays(daily: map<string, Day>, dayKeys: seq<string>)
    requires forall k :: k in daily ==> daily[k] == EMPTY_DAY
    ensures SumDays(daily, dayKeys) == 0
  {
    if dayKeys != [] {
      ZeroDays(daily, dayKeys[..|dayKeys| - 1]);
    }
  }

  // ---- the snapshot ----

  datatype UsageDay = UsageDay(day: string, inputTokens: int, cachedTokens: int, outputTokens: int, totalTokens: int)

  datatype Snapshot = Snapshot(days: seq<UsageDay>, last7Tokens: int, last30Tokens: int, cacheHitRatePercent: real)

  // f64::round: half away from zero.
  function Round(x: real): int {
    if x >= 0.0 then (x + 0.5).Floor else -((0.5 - x).Floor)
  }

  function HitRate(cached: int, input: int): real {
    if input > 0 then Round((cached as real) / (input as real) * 1000.0) as real / 10.0 else 0.0
  }

  function DayRow(daily: map<string, Day>, key: string): UsageDay {
    var d := if key in daily then daily[key] else EMPTY_DAY;
    UsageDay(key, d.input, d.cached, d.output, d.input + d.output)
  }

  function Rows(daily: map<string, Day>, dayKeys: seq<string>): seq<UsageDay> {
    seq(|dayKeys|, i requires 0 <= i < |dayKeys| => DayRow(daily, dayKeys[i]))
  }

  function SumRows(rows: seq<UsageDay>, of: UsageDay -> int): int {
    if rows == [] then 0 else SumRows(rows[..|rows| - 1], of) + of(rows[|rows| - 1])
  }

  function LastSeven(rows: seq<UsageDay>): seq<UsageDay> {
    if |rows| <= 7 then rows else rows[|rows| - 7..]
  }

  method BuildSnapshot(dayKeys: seq<string>, daily: map<string, Day>) returns (s: Snapshot)
    ensures s.days == Rows(daily, dayKeys)
    ensures s.last30Tokens == SumDays(daily, dayKeys)
    ensures s.last7Tokens == SumRows(LastSeven(s.days), (d: UsageDay) => d.totalTokens)
    ensures s.cacheHitRatePercent == HitRate(SumRows(LastSeven(s.days), (d: UsageDay) => d.cachedTokens),
                                             SumRows(LastSeven(s.days), (d: UsageDay) => d.inputTokens))
  {
    var days: seq<UsageDay> := [];
    var total := 0;
    for i := 0 to |dayKeys|
      invariant days == Rows(daily, dayKeys[..i])
      invariant total == SumDays(daily, dayKeys[..i])
    {
      assert dayKeys[..i + 1][..i] == dayKeys[..i];
      var row := DayRow(daily, dayKeys[i]);
      total := total + row.totalTokens;
      days := days + [row];
    }
    assert dayKeys[..|dayKeys|] == dayKeys;
    var last7 := LastSeven(days);
    s := Snapshot(days, SumRows(last7, (d: UsageDay) => d.totalTokens), total,
                  HitRate(SumRows(last7, (d: UsageDay) => d.cachedTokens),
                      SumRows(last7, (d: UsageDay) => d.inputTokens)));
  }

  lemma {:induction false} CachedAtMostInput(rows: seq<UsageDay>)
    requires forall i :: 0 <= i < |rows| ==> rows[i].cachedTokens <= rows[i].inputTokens
    ensures SumRows(rows, (d: UsageDay) => d.cachedTokens) <= SumRows(rows, (d: UsageDay) => d.inputTokens)
  {
    if rows != [] {
      CachedAtMostInput(rows[..|rows| - 1]);
    }
  }

  lemma HitRateAtMostHundred(cached: int, input: int)
    requires cached <= input
    ensures HitRate(cached, input) <= 100.0
  {
    if input > 0 {
      var share := (cached as real) / (input as real);
      assert share <= 1.0;
      assert share * 1000.0 <= 1000.0;
      assert Round(share * 1000.0) <= 1000;
    }
  }

  function Scanned(t: Tables, files: seq<seq<Record>>, filter: Filter, dayOf: int -> Option<string>): Tables {
    if files == [] then t
    else
      AllEntered(Scanned(t, files[..|files| - 1], filter, dayOf), Charges(Scoped(files[|files| - 1], filter)), dayOf)
  }

  lemma {:induction false} ScannedKeepsBalance(
      t: Tables, files: seq<seq<Record>>, filter: Filter, dayOf: int -> Option<string>, dayKeys: seq<string>)
    requires Balanced(t, dayKeys)
    ensures Balanced(Scanned(t, files, filter, dayOf), dayKeys)
  {
    if files != [] {
      ScannedKeepsBalance(t, files[..|files| - 1], filter, dayOf, dayKeys);
      AllEnteredKeepsBalance(Scanned(t, files[..|files| - 1], filter, dayOf),
          Charges(Scoped(files[|files| - 1], filter)), dayOf, dayKeys);
    }
  }

  // The Codex part of scan_local_usage_core.
  method ScanFiles(dayKeys: seq<string>, files: seq<seq<Record>>, filter: Filter, dayOf: int -> Option<string>)
    returns (daily: map<string, Day>, models: map<string, int>)
    ensures Tables(daily, models) == Scanned(FreshTables(dayKeys), files, filter, dayOf)
  {
    var tables := new UsageTables(dayKeys);
    for i := 0 to |files|
      invariant tables.View() == Scanned(FreshTables(dayKeys), files[..i], filter, dayOf)
    {
      assert files[..i + 1][..i] == files[..i];
      tables.ScanFile(files[i], filter, dayOf);
    }
    assert files[..|files|] == files;
    daily, models := tables.daily, tables.modelTotals;
  }

  // Whatever the files hold, with distinct day keys the total over all models, "unknown" included, is
  // the snapshot's 30-day total, no day has more cached than input tokens, and the hit rate is at most 100%.
  method ScanLocalUsage(dayKeys: seq<string>, files: seq<seq<Record>>, filter: Filter, dayOf: int -> Option<string>)
    returns (s: Snapshot, models: map<string, int>)
    requires NoDuplicates(dayKeys)
    ensures models == Scanned(FreshTables(dayKeys), files, filter, dayOf).models
    ensures s.days == Rows(Scanned(FreshTables(dayKeys), files, filter, dayOf).daily, dayKeys)
    ensures SumModels(models) == s.last30Tokens
    ensures forall i :: 0 <= i < |s.days| ==> s.days[i].cachedTokens <= s.days[i].inputTokens
    ensures s.cacheHitRatePercent <= 100.0
  {
    var daily;
    daily, models := ScanFiles(dayKeys, files, filter, dayOf);
    s := BuildSnapshot(dayKeys, daily);
    FreshTablesBalance(dayKeys);
    ScannedKeepsBalance(FreshTables(dayKeys), files, filter, dayOf, dayKeys);
    BalancedRows(Tables(daily, models), dayKeys, s.days);
  }

  lemma BalancedRows(t: Tables, dayKeys: seq<string>, rows: seq<UsageDay>)
    requires Balanced(t, dayKeys) && rows == Rows(t.daily, dayKeys)
    ensures forall i :: 0 <= i < |rows| ==> rows[i].cachedTokens <= rows[i].inputTokens
    ensures HitRate(SumRows(LastSeven(rows), (d: UsageDay) => d.cachedTokens),
                    SumRows(LastSeven(rows), (d: UsageDay) => d.inputTokens)) <= 100.0
  {
    forall i | 0 <= i < |rows| ensures rows[i].cachedTokens <= rows[i].inputTokens {
      assert dayKeys[i] in dayKeys;
    }
    CachedAtMostInput(LastSeven(rows));
    HitRateAtMostHundred(SumRows(LastSeven(rows), (d: UsageDay) => d.cachedTokens),
                         SumRows(LastSeven(rows), (d: UsageDay) => d.inputTokens));
  }
}
