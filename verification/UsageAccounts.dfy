/**
 What the token accounting counts and where it books it (src-tauri/src/local_usage.rs), stated record
 by record and day by day.
 */
module UsageAccounts {
  import opened Wrappers
  import opened LocalUsage

  // ---- which reports count ----

  // The directory a record names, if it names one.
  function CwdOf(r: Record): Option<string> {
    match r
    case SessionMeta(cwd) => cwd
    case TurnContext(cwd, _) => cwd
    case _ => None
  }

  // Record i names a directory.
  predicate Names(records: seq<Record>, i: int) {
    0 <= i < |records| && CwdOf(records[i]).Some?
  }

  // Every directory named so far is the workspace, and with a filter one was named.
  ghost predicate InWorkspace(records: seq<Record>, filter: Filter) {
    match filter
    case None => true
    case Some(isWorkspace) =>
      && (exists i :: Names(records, i))
      && (forall i :: Names(records, i) ==> isWorkspace(CwdOf(records[i]).value))
  }

  // Record i sets the model.
  predicate SetsModel(records: seq<Record>, i: int) {
    0 <= i < |records| && records[i].TurnContext? && records[i].model.Some?
  }

  // The model set last, otherwise the record's own, otherwise "unknown".
  ghost predicate IsModelOf(records: seq<Record>, r: Record, model: string)
    requires r.TokenCount?
  {
    if exists i :: SetsModel(records, i) then
      exists i ::
        SetsModel(records, i) && records[i].model == Some(model) && forall j :: i < j ==> !SetsModel(records, j)
    else model == if r.model.Some? then r.model.value else "unknown"
  }

  // The scope says just that, unless the file has been left at a foreign directory.
  ghost predicate ScopeTells(records: seq<Record>, filter: Filter, s: Scope) {
    && (s.stopped <==> filter.Some? && exists i :: Names(records, i) && !filter.value(CwdOf(records[i]).value))
    && (!s.stopped ==> s.known == s.matches && (s.known <==> InWorkspace(records, filter)))
    && (!s.stopped ==> LastModel(records, s.model))
  }

  ghost predicate LastModel(records: seq<Record>, model: Option<string>) {
    if exists i :: SetsModel(records, i) then
      exists i :: SetsModel(records, i) && records[i].model == model && forall j :: i < j ==> !SetsModel(records, j)
    else model == None
  }

  lemma NamesAfterOne(records: seq<Record>, r: Record, i: int)
    ensures Names(records + [r], i) <==> Names(records, i) || (i == |records| && CwdOf(r).Some?)
    ensures SetsModel(records + [r], i) <==>
              SetsModel(records, i) || (i == |records| && r.TurnContext? && r.model.Some?)
  {
  }

  lemma ScopeStep(records: seq<Record>, r: Record, filter: Filter, s: Scope)
    requires ScopeTells(records, filter, s)
    ensures ScopeTells(records + [r], filter, NextScope(s, r, filter))
  {
    forall i
      ensures Names(records + [r], i) <==> Names(records, i) || (i == |records| && CwdOf(r).Some?)
      ensures SetsModel(records + [r], i) <==>
                SetsModel(records, i) || (i == |records| && r.TurnContext? && r.model.Some?)
    {
      NamesAfterOne(records, r, i);
    }
    StopStep(records, r, filter, s);
    if !NextScope(s, r, filter).stopped {
      WorkspaceStep(records, r, filter, s);
      ModelStep(records, r, filter, s);
    }
  }

  lemma StopStep(records: seq<Record>, r: Record, filter: Filter, s: Scope)
    requires ScopeTells(records, filter, s)
    ensures NextScope(s, r, filter).stopped <==>
              filter.Some? && exists i :: Names(records + [r], i) && !filter.value(CwdOf((records + [r])[i]).value)
  {
    var more := records + [r];
    if filter.Some? {
      if s.stopped {
        var i :| Names(records, i) && !filter.value(CwdOf(records[i]).value);
        assert Names(more, i) && more[i] == records[i];
      }
      if CwdOf(r).Some? {
        assert Names(more, |records|) && more[|records|] == r;
      }
      if i :| Names(more, i) && !filter.value(CwdOf(more[i]).value) {
        NamesAfterOne(records, r, i);
        assert i < |records| ==> more[i] == records[i];
      }
    }
  }

  lemma WorkspaceStep(records: seq<Record>, r: Record, filter: Filter, s: Scope)
    requires ScopeTells(records, filter, s) && !NextScope(s, r, filter).stopped
    ensures var t := NextScope(s, r, filter);
            t.known == t.matches && (t.known <==> InWorkspace(records + [r], filter))
  {
    var more := records + [r];
    if filter.Some? {
      if CwdOf(r).Some? {
        assert Names(more, |records|) && more[|records|] == r;
      }
      forall i | Names(more, i) && i < |records| ensures Names(records, i) && more[i] == records[i] {
      }
      if exists i :: Names(records, i) {
        var i :| Names(records, i);
        assert Names(more, i);
      }
    }
  }

  lemma ModelStep(records: seq<Record>, r: Record, filter: Filter, s: Scope)
    requires ScopeTells(records, filter, s) && !NextScope(s, r, filter).stopped
    ensures LastModel(records + [r], NextScope(s, r, filter).model)
  {
    var more := records + [r];
    forall i ensures SetsModel(more, i) <==>
                       SetsModel(records, i) || (i == |records| && r.TurnContext? && r.model.Some?)
    {
      NamesAfterOne(records, r, i);
    }
    if r.TurnContext? && r.model.Some? {
      assert SetsModel(more, |records|) && more[|records|].model == NextScope(s, r, filter).model;
    } else if exists i :: SetsModel(records, i) {
      var i :| SetsModel(records, i) && records[i].model == s.model && forall j :: i < j ==> !SetsModel(records, j);
      assert SetsModel(more, i) && more[i] == records[i];
    }
  }

  lemma {:induction false} ScopeExact(records: seq<Record>, filter: Filter)
    ensures ScopeTells(records, filter, ScopeAfter(records, filter))
  {
    if records != [] {
      var front, r := records[..|records| - 1], records[|records| - 1];
      ScopeExact(front, filter);
      assert records == front + [r];
      ScopeStep(front, r, filter, ScopeAfter(front, filter));
    }
  }

  // Record i is a token report, and every directory named before it is the workspace.
  ghost predicate Qualifies(records: seq<Record>, filter: Filter, i: int) {
    0 <= i < |records| && records[i].TokenCount? && records[i].report.Some? && InWorkspace(records[..i], filter)
  }

  // A report counts if and only if it is made in the workspace, and it is charged to the model set last.
  lemma ReportCountsIff(records: seq<Record>, filter: Filter, i: nat)
    requires i < |records|
    ensures var s := ScopeAfter(records[..i], filter);
            && (Counts(s, records[i]) <==> Qualifies(records, filter, i))
            && (Counts(s, records[i]) ==> IsModelOf(records[..i], records[i], ModelOf(s, records[i])))
  {
    ScopeExact(records[..i], filter);
    ForeignIsNotIn(records[..i], filter);
  }

  lemma ForeignIsNotIn(records: seq<Record>, filter: Filter)
    ensures filter.Some? && (exists i :: Names(records, i) && !filter.value(CwdOf(records[i]).value))
            ==> !InWorkspace(records, filter)
  {
  }

  // What was made of record i.
  ghost predicate ReportOf(records: seq<Record>, filter: Filter, i: int, report: TokenReport) {
    && Qualifies(records, filter, i)
    && report.report == records[i].report.value && report.timestamp == records[i].timestamp
    && IsModelOf(records[..i], records[i], report.model)
  }

  // The reports that count are those of the qualifying records, each once and in order.
  ghost predicate Picks(records: seq<Record>, filter: Filter, reports: seq<TokenReport>, at: seq<int>) {
    && |at| == |reports|
    && (forall k :: 0 <= k < |at| ==> ReportOf(records, filter, at[k], reports[k]))
    && (forall k, m :: 0 <= k < m < |at| ==> at[k] < at[m])
    && (forall i :: Qualifies(records, filter, i) ==> i in at)
  }

  lemma QualifiesBefore(records: seq<Record>, filter: Filter, i: int)
    requires records != [] && i < |records| - 1
    ensures 0 <= i ==> records[..|records| - 1][..i] == records[..i]
    ensures Qualifies(records, filter, i) <==> Qualifies(records[..|records| - 1], filter, i)
  {
    if 0 <= i {
      assert records[..|records| - 1][..i] == records[..i];
    }
  }

  lemma {:induction false} ScopedPicks(records: seq<Record>, filter: Filter) returns (at: seq<int>)
    ensures Picks(records, filter, Scoped(records, filter), at)
  {
    at := [];
    if records != [] {
      var last := |records| - 1;
      var front, r, s := records[..last], records[last], ScopeAfter(records[..last], filter);
      at := ScopedPicks(front, filter);
      PicksStay(records, filter, Scoped(front, filter), at);
      ReportCountsIff(records, filter, last);
      if Counts(s, r) {
        PickLast(records, filter, Scoped(front, filter), at, TokenReport(r.report.value, r.timestamp, ModelOf(s, r)));
        at := at + [last];
      }
    }
  }

  // All but the last record, if it qualifies.
  ghost predicate PicksFront(records: seq<Record>, filter: Filter, reports: seq<TokenReport>, at: seq<int>) {
    && |at| == |reports|
    && (forall k :: 0 <= k < |at| ==> at[k] < |records| - 1 && ReportOf(records, filter, at[k], reports[k]))
    && (forall k, m :: 0 <= k < m < |at| ==> at[k] < at[m])
    && (forall i :: Qualifies(records, filter, i) ==> i in at || i == |records| - 1)
  }

  lemma PicksStay(records: seq<Record>, filter: Filter, reports: seq<TokenReport>, at: seq<int>)
    requires records != [] && Picks(records[..|records| - 1], filter, reports, at)
    ensures PicksFront(records, filter, reports, at)
  {
    var front := records[..|records| - 1];
    forall i | Qualifies(records, filter, i) ensures i in at || i == |records| - 1 {
      if i < |records| - 1 { QualifiesBefore(records, filter, i); }
    }
    forall k | 0 <= k < |at| ensures at[k] < |records| - 1 && ReportOf(records, filter, at[k], reports[k]) {
      assert ReportOf(front, filter, at[k], reports[k]);
      QualifiesBefore(records, filter, at[k]);
    }
  }

  lemma PickLast(records: seq<Record>, filter: Filter, reports: seq<TokenReport>, at: seq<int>, report: TokenReport)
    requires records != [] && PicksFront(records, filter, reports, at)
    requires ReportOf(records, filter, |records| - 1, report)
    ensures Picks(records, filter, reports + [report], at + [|records| - 1])
  {
  }

  // ---- where they are booked ----

  // The charge falls on this day.
  predicate FallsOn(c: Charge, dayOf: int -> Option<string>, day: string) {
    c.timestamp.Some? && dayOf(c.timestamp.value) == Some(day)
  }

  // What is charged to a day; no more cached than input tokens of a charge are.
  function ChargedTo(charges: seq<Charge>, dayOf: int -> Option<string>, day: string): Day {
    if charges == [] then Day(0, 0, 0)
    else
      var before, c := ChargedTo(charges[..|charges| - 1], dayOf, day), charges[|charges| - 1];
      if FallsOn(c, dayOf, day)
      then Day(before.input + c.delta.input,
               before.cached + (if c.delta.cached < c.delta.input then c.delta.cached else c.delta.input),
               before.output + c.delta.output)
      else before
  }

  // What is charged to a model on the days that are counted.
  ghost function ChargedOf(charges: seq<Charge>, dayOf: int -> Option<string>, days: set<string>, model: string): int {
    if charges == [] then 0
    else
      var before, c := ChargedOf(charges[..|charges| - 1], dayOf, days, model), charges[|charges| - 1];
      if c.model == model && exists day :: day in days && FallsOn(c, dayOf, day)
      then before + (c.delta.input + c.delta.output) else before
  }

  // A day's row grows by exactly what is charged to it.
  lemma {:induction false} DayBooked(t: Tables, charges: seq<Charge>, dayOf: int -> Option<string>, day: string)
    requires day in t.daily
    ensures var after, charged := AllEntered(t, charges, dayOf).daily, ChargedTo(charges, dayOf, day);
            && after.Keys == t.daily.Keys
            && after[day] == Day(t.daily[day].input + charged.input, t.daily[day].cached + charged.cached,
                                 t.daily[day].output + charged.output)
  {
    if charges != [] {
      DayBooked(t, charges[..|charges| - 1], dayOf, day);
    }
  }

  function BookedOf(models: map<string, int>, model: string): int {
    if model in models then models[model] else 0
  }

  // And a model's total by exactly what is charged to it on counted days.
  lemma {:induction false} ModelBooked(t: Tables, charges: seq<Charge>, dayOf: int -> Option<string>, model: string)
    ensures AllEntered(t, charges, dayOf).daily.Keys == t.daily.Keys
    ensures BookedOf(AllEntered(t, charges, dayOf).models, model)
         == BookedOf(t.models, model) + ChargedOf(charges, dayOf, t.daily.Keys, model)
  {
    if charges != [] {
      ModelBooked(t, charges[..|charges| - 1], dayOf, model);
      OneBooked(AllEntered(t, charges[..|charges| - 1], dayOf), charges[|charges| - 1], dayOf, model);
    }
  }

  lemma OneBooked(t: Tables, c: Charge, dayOf: int -> Option<string>, model: string)
    ensures BookedOf(Entered(t, c, dayOf).models, model)
         == BookedOf(t.models, model)
            + if c.model == model && exists day :: day in t.daily && FallsOn(c, dayOf, day)
              then c.delta.input + c.delta.output else 0
  {
    if DayOfCharge(t, c, dayOf).Some? {
      assert FallsOn(c, dayOf, DayOfCharge(t, c, dayOf).value);
    }
  }

  // ---- all files ----

  // The charges of all files, each file with a running total of its own.
  function AllCharges(files: seq<seq<Record>>, filter: Filter): seq<Charge> {
    if files == [] then []
    else AllCharges(files[..|files| - 1], filter) + Charges(Scoped(files[|files| - 1], filter))
  }

  lemma {:induction false} EnteredConcat(t: Tables, a: seq<Charge>, b: seq<Charge>, dayOf: int -> Option<string>)
    ensures AllEntered(t, a + b, dayOf) == AllEntered(AllEntered(t, a, dayOf), b, dayOf)
  {
    if b == [] {
      assert a + b == a;
    } else {
      assert (a + b)[..|a + b| - 1] == a + b[..|b| - 1];
      EnteredConcat(t, a, b[..|b| - 1], dayOf);
    }
  }

  lemma {:induction false} ScannedIsCharged(
      t: Tables, files: seq<seq<Record>>, filter: Filter, dayOf: int -> Option<string>)
    ensures Scanned(t, files, filter, dayOf) == AllEntered(t, AllCharges(files, filter), dayOf)
  {
    if files != [] {
      ScannedIsCharged(t, files[..|files| - 1], filter, dayOf);
      EnteredConcat(t, AllCharges(files[..|files| - 1], filter), Charges(Scoped(files[|files| - 1], filter)), dayOf);
    }
  }

  // Every row of the snapshot holds exactly what the files' charges amount to on its day, and every
  // model's total what they amount to on all days counted.
  lemma SnapshotExact(
      dayKeys: seq<string>, files: seq<seq<Record>>, filter: Filter, dayOf: int -> Option<string>, i: nat,
      model: string)
    requires i < |dayKeys|
    ensures var t, charges := Scanned(FreshTables(dayKeys), files, filter, dayOf), AllCharges(files, filter);
            var d := ChargedTo(charges, dayOf, dayKeys[i]);
            && Rows(t.daily, dayKeys)[i] == UsageDay(dayKeys[i], d.input, d.cached, d.output, d.input + d.output)
            && BookedOf(t.models, model) == ChargedOf(charges, dayOf, (set k | k in dayKeys), model)
  {
    var charges := AllCharges(files, filter);
    assert dayKeys[i] in dayKeys;
    ScannedIsCharged(FreshTables(dayKeys), files, filter, dayOf);
    DayBooked(FreshTables(dayKeys), charges, dayOf, dayKeys[i]);
    ModelBooked(FreshTables(dayKeys), charges, dayOf, model);
    assert FreshTables(dayKeys).daily.Keys == set k | k in dayKeys;
  }

  // ---- the rates ----

  // The hit rate is the percentage to one decimal place: a multiple of 0.1 within 0.05 of it, and 0
  // where there is no input.
  lemma HitRateNearest(cached: nat, input: int) returns (tenths: int)
    ensures HitRate(cached, input) == tenths as real / 10.0
    ensures input <= 0 ==> tenths == 0
    ensures input > 0 ==>
              var exact := cached as real / input as real * 100.0;
              exact - 0.05 < HitRate(cached, input) <= exact + 0.05
  {
    if input <= 0 {
      tenths := 0;
    } else {
      var x := cached as real / input as real * 1000.0;
      assert cached as real / input as real >= 0.0;
      tenths := Round(x);
      assert x - 0.5 < tenths as real <= x + 0.5;
    }
  }

  // The rate is taken over the last seven days, or over all if there are fewer.
  lemma LastSevenDays(rows: seq<UsageDay>, i: nat)
    requires i < |rows|
    ensures |LastSeven(rows)| == if |rows| < 7 then |rows| else 7
    ensures |rows| - 7 <= i ==> LastSeven(rows)[i - (|rows| - |LastSeven(rows)|)] == rows[i]
  {
  }
}
