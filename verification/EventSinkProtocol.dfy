/**
 The threads of the batched event sink (src-tauri/src/event_sink.rs).

 Any number of callers of emit_app_server_event and of flush ticks run at once. `inner` is held
 only for one state change, so each of its critical sections is one step here. `emit_order` is held
 from before a drain until after the last emit of what was drained, so taking it, draining, every
 single emit and releasing it are separate steps, and other threads may move between any two.
 `log` records every event at the moment its caller holds `inner`; `emitted` is what the front end got.
 */
module EventSinkProtocol {
  import opened Wrappers
  import opened EventSink

  datatype Pc =
    | SubmitStart(event: Event)
    | CriticalStart(event: Event)
    | FlushStart
    | CriticalLocked(event: Event)
    | FlushLocked
    | Emitting(batches: seq<seq<Event>>)
    | Done

  datatype Config = Config(
    sink: Sink,
    holder: Option<nat>,
    threads: seq<Pc>,
    log: seq<Event>,
    emitted: seq<seq<Event>>)

  const INITIAL := Config(EMPTY_SINK, None, [], [], [])

  datatype Action =
    | Call(event: Event)
    | Tick
    | Submit(t: nat)
    | Lock(t: nat)
    | Drain(t: nat)
    | Emit(t: nat)
    | Release(t: nat)

  predicate Enabled(c: Config, a: Action) {
    match a
    case Call(_) => true
    case Tick => true
    case Submit(t) => t < |c.threads| && c.threads[t].SubmitStart?
    case Lock(t) => t < |c.threads| && (c.threads[t].CriticalStart? || c.threads[t].FlushStart?) && c.holder == None
    case Drain(t) => t < |c.threads| && (c.threads[t].CriticalLocked? || c.threads[t].FlushLocked?)
    case Emit(t) => t < |c.threads| && c.threads[t].Emitting? && c.threads[t].batches != []
    case Release(t) => t < |c.threads| && c.threads[t].Emitting? && c.threads[t].batches == []
  }

  function Moved(c: Config, t: nat, pc: Pc): Config
    requires t < |c.threads|
  {
    c.(threads := c.threads[t := pc])
  }

  // The batches a drain takes out and the state it leaves.
  function DrainOutcome(s: Sink, pc: Pc): (seq<seq<Event>>, Sink)
    requires pc.CriticalLocked? || pc.FlushLocked?
  {
    if pc.FlushLocked? then (DrainedBatches(s), Drained(s))
    else if IsTerminalBarrier(pc.event) then ([BarrierBatch(s, pc.event)], Barriered(s, pc.event))
    else ([[pc.event]], Bypassed(s, pc.event))
  }

  function Apply(c: Config, a: Action): Config
    requires Enabled(c, a)
  {
    match a
    case Call(e) => c.(threads := c.threads + [if IsCritical(e) then CriticalStart(e) else SubmitStart(e)])
    case Tick => c.(threads := c.threads + [FlushStart])
    case Submit(t) =>
      var e := c.threads[t].event;
      Moved(c, t, Done).(sink := Submitted(c.sink, e), log := c.log + [e])
    case Lock(t) =>
      var pc := c.threads[t];
      Moved(c, t, if pc.FlushStart? then FlushLocked else CriticalLocked(pc.event)).(holder := Some(t))
    case Drain(t) =>
      var pc := c.threads[t];
      var (batches, sink) := DrainOutcome(c.sink, pc);
      Moved(c, t, Emitting(batches)).(sink := sink, log := c.log + if pc.FlushLocked? then [] else [pc.event])
    case Emit(t) =>
      var batches := c.threads[t].batches;
      Moved(c, t, Emitting(batches[1..])).(emitted := c.emitted + [batches[0]])
    case Release(t) => Moved(c, t, Done).(holder := None)
  }

  // A run applies its actions in order; it exists when each is enabled as its turn comes.
  function Exec(actions: seq<Action>): Option<Config> {
    if actions == [] then Some(INITIAL)
    else
      var before, a := Exec(actions[..|actions| - 1]), actions[|actions| - 1];
      if before.Some? && Enabled(before.value, a) then Some(Apply(before.value, a)) else None
  }

  ghost predicate Run(actions: seq<Action>, c: Config) {
    Exec(actions) == Some(c)
  }

  lemma RunExtends(actions: seq<Action>, a: Action, b: Config)
    requires Run(actions, b) && Enabled(b, a)
    ensures Run(actions + [a], Apply(b, a))
  {
    assert (actions + [a])[..|actions|] == actions;
  }

  // ---- lanes: what has to stay in order ----

  // One lane for the non-urgent events of each workspace, one for all urgent events.
  datatype Lane = Workspace(ws: string) | Urgent

  predicate InLane(lane: Lane, e: Event) {
    match lane
    case Workspace(ws) => e.workspaceId == ws && !IsUrgent(e)
    case Urgent => IsUrgent(e)
  }

  function On(lane: Lane, events: seq<Event>): seq<Event> {
    if events == [] then []
    else if InLane(lane, events[0]) then [events[0]] + On(lane, events[1..])
    else On(lane, events[1..])
  }

  function QueuedOn(lane: Lane, s: Sink): seq<Event> {
    match lane
    case Workspace(ws) => QueueOf(s, ws)
    case Urgent => []
  }

  function InFlightBatches(c: Config): seq<seq<Event>> {
    if c.holder.Some? && c.holder.value < |c.threads| && c.threads[c.holder.value].Emitting?
    then c.threads[c.holder.value].batches else []
  }

  lemma {:induction false} OnConcat(lane: Lane, a: seq<Event>, b: seq<Event>)
    ensures On(lane, a + b) == On(lane, a) + On(lane, b)
  {
    if a == [] {
      assert a + b == b;
    } else {
      assert (a + b)[1..] == a[1..] + b;
      OnConcat(lane, a[1..], b);
    }
  }

  lemma {:induction false} OnAllOrNone(lane: Lane, events: seq<Event>)
    ensures (forall i :: 0 <= i < |events| ==> InLane(lane, events[i])) ==> On(lane, events) == events
    ensures (forall i :: 0 <= i < |events| ==> !InLane(lane, events[i])) ==> On(lane, events) == []
  {
    if events != [] {
      OnAllOrNone(lane, events[1..]);
    }
  }

  lemma {:induction false} FlattenConcat(a: seq<seq<Event>>, b: seq<seq<Event>>)
    ensures Flatten(a + b) == Flatten(a) + Flatten(b)
  {
    if a == [] {
      assert a + b == b;
    } else {
      assert (a + b)[1..] == a[1..] + b;
      FlattenConcat(a[1..], b);
    }
  }

  ghost predicate NothingUrgentQueued(queues: map<string, seq<Event>>) {
    forall ws, i :: ws in queues && 0 <= i < |queues[ws]| ==> !IsUrgent(queues[ws][i])
  }

  // A queue lies wholly in its workspace's lane.
  lemma QueueOnLane(lane: Lane, s: Sink, ws: string)
    requires ValidSink(s) && NothingUrgentQueued(s.queues)
    ensures On(lane, QueueOf(s, ws)) == if lane == Workspace(ws) then QueueOf(s, ws) else []
  {
    OnAllOrNone(lane, QueueOf(s, ws));
  }

  // Flattening the drained batches gives back, lane by lane, exactly what was queued.
  lemma {:induction false} DrainedOnLane(lane: Lane, s: Sink, order: seq<string>)
    requires ValidSink(s) && NothingUrgentQueued(s.queues)
    requires NoDuplicates(order) && forall ws :: ws in order ==> ws in s.queues
    ensures On(lane, Flatten(BatchesOf(s.queues, order)))
         == if lane.Workspace? && lane.ws in order then s.queues[lane.ws] else []
  {
    if order != [] {
      var ws := order[0];
      assert BatchesOf(s.queues, order)[1..] == BatchesOf(s.queues, order[1..]);
      OnConcat(lane, s.queues[ws], Flatten(BatchesOf(s.queues, order[1..])));
      QueueOnLane(lane, s, ws);
      assert ws !in order[1..];
      DrainedOnLane(lane, s, order[1..]);
    }
  }

  // ---- the invariant ----

  predicate HoldsEmitOrder(pc: Pc) {
    pc.CriticalLocked? || pc.FlushLocked? || pc.Emitting?
  }

  // emit_order has at most one holder, and `holder` names it.
  ghost predicate LockInv(c: Config) {
    && (c.holder.Some? ==> c.holder.value < |c.threads|)
    && (forall t :: 0 <= t < |c.threads| ==> (HoldsEmitOrder(c.threads[t]) <==> c.holder == Some(t)))
  }

  ghost predicate EventsInv(c: Config) {
    && ValidSink(c.sink)
    && NothingUrgentQueued(c.sink.queues)
    && (forall t :: 0 <= t < |c.threads| && c.threads[t].SubmitStart? ==> !IsCritical(c.threads[t].event))
    && (forall t :: 0 <= t < |c.threads| && (c.threads[t].CriticalStart? || c.threads[t].CriticalLocked?) ==>
          IsCritical(c.threads[t].event))
  }

  // Emitted, then in flight, then queued: together exactly the log.
  ghost predicate LaneInv(c: Config, lane: Lane) {
    On(lane, Flatten(c.emitted)) + On(lane, Flatten(InFlightBatches(c))) + QueuedOn(lane, c.sink) == On(lane, c.log)
  }

  ghost predicate OrderInv(c: Config) {
    LockInv(c) && EventsInv(c) && forall lane :: LaneInv(c, lane)
  }

  lemma LockKept(c: Config, a: Action)
    requires LockInv(c) && ValidSink(c.sink) && Enabled(c, a)
    ensures LockInv(Apply(c, a))
  {
  }

  lemma EventsKept(c: Config, a: Action)
    requires EventsInv(c) && Enabled(c, a)
    ensures EventsInv(Apply(c, a))
  {
    match a
    case Submit(t) => SubmitKeepsValid(c.sink, c.threads[t].event);
    case Drain(t) =>
      if c.threads[t].CriticalLocked? { TakeKeepsValid(c.sink, c.threads[t].event.workspaceId); }
    case _ =>
  }

  // A drain moves a lane's queue, followed by the critical event if it is on the lane, into flight.
  lemma DrainOnLane(s: Sink, pc: Pc, lane: Lane)
    requires pc.CriticalLocked? || pc.FlushLocked?
    requires ValidSink(s) && NothingUrgentQueued(s.queues)
    requires pc.CriticalLocked? ==> IsCritical(pc.event)
    ensures On(lane, Flatten(DrainOutcome(s, pc).0)) + QueuedOn(lane, DrainOutcome(s, pc).1)
         == QueuedOn(lane, s) + On(lane, if pc.FlushLocked? then [] else [pc.event])
  {
    if pc.FlushLocked? {
      DrainedOnLane(lane, s, s.order);
    } else if IsTerminalBarrier(pc.event) {
      BarrierOnLane(s, pc.event, lane);
    } else {
      assert Flatten([[pc.event]]) == [pc.event];
    }
  }

  lemma BarrierOnLane(s: Sink, e: Event, lane: Lane)
    requires ValidSink(s) && NothingUrgentQueued(s.queues) && IsTerminalBarrier(e) && IsCritical(e)
    ensures On(lane, Flatten([BarrierBatch(s, e)])) + QueuedOn(lane, Barriered(s, e))
            == QueuedOn(lane, s) + On(lane, [e])
  {
    var queue := QueueOf(s, e.workspaceId);
    assert Flatten([queue + [e]]) == queue + [e];
    QueueOnLane(lane, s, e.workspaceId);
    OnConcat(lane, queue, [e]);
    assert On(lane, [e]) == if lane == Workspace(e.workspaceId) then [e] else [];
  }

  lemma Regroup(emitted: seq<Event>, queued: seq<Event>, event: seq<Event>, flight: seq<Event>, left: seq<Event>)
    requires flight + left == queued + event
    ensures emitted + flight + left == emitted + [] + queued + event
  {
    assert emitted + flight + left == emitted + (flight + left);
  }

  lemma DrainKeepsLane(c: Config, t: nat, lane: Lane)
    requires OrderInv(c) && Enabled(c, Drain(t))
    ensures LaneInv(Apply(c, Drain(t)), lane)
  {
    var pc, d := c.threads[t], Apply(c, Drain(t));
    var (batches, sink) := DrainOutcome(c.sink, pc);
    var event := if pc.FlushLocked? then [] else [pc.event];
    assert c.holder == Some(t) && LaneInv(c, lane);
    assert InFlightBatches(d) == batches && InFlightBatches(c) == [];
    DrainOnLane(c.sink, pc, lane);
    OnConcat(lane, c.log, event);
    Regroup(On(lane, Flatten(c.emitted)), QueuedOn(lane, c.sink), On(lane, event),
            On(lane, Flatten(batches)), QueuedOn(lane, sink));
  }

  lemma SubmitKeepsLane(c: Config, t: nat, lane: Lane)
    requires OrderInv(c) && Enabled(c, Submit(t))
    ensures LaneInv(Apply(c, Submit(t)), lane)
  {
    var e, d := c.threads[t].event, Apply(c, Submit(t));
    assert LaneInv(c, lane) && c.holder != Some(t) && !IsCritical(e);
    assert InFlightBatches(d) == InFlightBatches(c);
    OnConcat(lane, c.log, [e]);
    QueueAfterSubmit(c.sink, e, lane);
    AppendLast(On(lane, Flatten(c.emitted)), On(lane, Flatten(InFlightBatches(c))), QueuedOn(lane, c.sink),
        On(lane, [e]));
  }

  lemma AppendLast(emitted: seq<Event>, flight: seq<Event>, queued: seq<Event>, event: seq<Event>)
    ensures emitted + flight + (queued + event) == emitted + flight + queued + event
  {
  }

  lemma QueueAfterSubmit(s: Sink, e: Event, lane: Lane)
    requires !IsUrgent(e)
    ensures QueuedOn(lane, Submitted(s, e)) == QueuedOn(lane, s) + On(lane, [e])
  {
    assert On(lane, [e]) == if lane == Workspace(e.workspaceId) then [e] else [];
  }

  lemma EmitKeepsLane(c: Config, t: nat, lane: Lane)
    requires OrderInv(c) && Enabled(c, Emit(t))
    ensures LaneInv(Apply(c, Emit(t)), lane)
  {
    var batches, d := c.threads[t].batches, Apply(c, Emit(t));
    assert c.holder == Some(t) && LaneInv(c, lane);
    assert InFlightBatches(c) == batches && InFlightBatches(d) == batches[1..];
    EmittedMore(lane, c.emitted, batches);
  }

  // Emitting the first batch moves its part of the lane across and changes nothing else.
  lemma EmittedMore(lane: Lane, emitted: seq<seq<Event>>, batches: seq<seq<Event>>)
    requires batches != []
    ensures On(lane, Flatten(emitted + [batches[0]])) + On(lane, Flatten(batches[1..]))
         == On(lane, Flatten(emitted)) + On(lane, Flatten(batches))
  {
    FlattenConcat(emitted, [batches[0]]);
    assert Flatten([batches[0]]) == batches[0];
    OnConcat(lane, Flatten(emitted), batches[0]);
    OnConcat(lane, batches[0], Flatten(batches[1..]));
  }

  lemma LaneKept(c: Config, a: Action, lane: Lane)
    requires OrderInv(c) && Enabled(c, a)
    ensures LaneInv(Apply(c, a), lane)
  {
    assert LaneInv(c, lane);
    match a
    case Submit(t) => SubmitKeepsLane(c, t, lane);
    case Drain(t) => DrainKeepsLane(c, t, lane);
    case Emit(t) => EmitKeepsLane(c, t, lane);
    case _ => assert Flatten(InFlightBatches(Apply(c, a))) == Flatten(InFlightBatches(c));
  }

  lemma {:induction false} RunKeepsOrder(actions: seq<Action>, c: Config)
    requires Run(actions, c)
    ensures OrderInv(c)
  {
    if actions != [] {
      var a := actions[|actions| - 1];
      var b := Exec(actions[..|actions| - 1]).value;
      RunKeepsOrder(actions[..|actions| - 1], b);
      LockKept(b, a);
      EventsKept(b, a);
      forall lane ensures LaneInv(c, lane) {
        LaneKept(b, a, lane);
      }
    }
  }

  // ---- what the invariant means for the front end ----

  lemma PrefixOfSum(a: seq<Event>, b: seq<Event>, c: seq<Event>)
    ensures a <= a + b + c
  {
  }

  // In every run and on every lane, the events emitted, then those in flight, then those queued are
  // exactly the events that took `inner`, in that order: nothing is dropped, duplicated, overtaken
  // or overtaking, terminal events included.
  lemma EmittedInLogOrder(actions: seq<Action>, c: Config, lane: Lane)
    requires Run(actions, c)
    ensures On(lane, Flatten(c.emitted)) + On(lane, Flatten(InFlightBatches(c))) + QueuedOn(lane, c.sink)
         == On(lane, c.log)
    ensures On(lane, Flatten(c.emitted)) <= On(lane, c.log)
  {
    RunKeepsOrder(actions, c);
    assert LaneInv(c, lane);
    PrefixOfSum(On(lane, Flatten(c.emitted)), On(lane, Flatten(InFlightBatches(c))), QueuedOn(lane, c.sink));
  }

  // The emit of a terminal event delivers it right behind every event of its workspace that took
  // `inner` before it: whatever other threads did since, the emitted stream ends with it there.
  lemma TerminalArrivesLast(actions: seq<Action>, c: Config, t: nat, e: Event)
    requires Run(actions, c) && Enabled(c, Emit(t)) && IsTerminalBarrier(e)
    requires c.threads[t].batches[0] != [] && c.threads[t].batches[0][|c.threads[t].batches[0]| - 1] == e
    ensures var lane, d := Workspace(e.workspaceId), Apply(c, Emit(t));
            var delivered := On(lane, Flatten(d.emitted));
            && delivered != [] && delivered <= On(lane, d.log)
            && delivered[|delivered| - 1] == e
  {
    var lane, d := Workspace(e.workspaceId), Apply(c, Emit(t));
    RunExtends(actions, Emit(t), c);
    EmittedInLogOrder(actions + [Emit(t)], d, lane);
    var batch := c.threads[t].batches[0];
    FlattenConcat(c.emitted, [batch]);
    var front := batch[..|batch| - 1];
    assert Flatten([batch]) == batch == front + [e];
    OnConcat(lane, Flatten(c.emitted), batch);
    OnConcat(lane, front, [e]);
  }

  // Once no thread is running and nothing is queued, every event that took `inner` was emitted.
  lemma QuietMeansDelivered(actions: seq<Action>, c: Config, lane: Lane)
    requires Run(actions, c)
    requires c.sink.queues == map[] && forall t :: 0 <= t < |c.threads| ==> c.threads[t].Done?
    ensures On(lane, Flatten(c.emitted)) == On(lane, c.log)
  {
    RunKeepsOrder(actions, c);
    assert LaneInv(c, lane);
    if c.holder.Some? {
      assert HoldsEmitOrder(c.threads[c.holder.value]);
    }
  }

  // Some started thread can always move until all are done: the two locks never deadlock.
  lemma NeverStuck(actions: seq<Action>, c: Config) returns (next: Action)
    requires Run(actions, c)
    requires exists t :: 0 <= t < |c.threads| && !c.threads[t].Done?
    ensures Enabled(c, next) && !next.Call? && !next.Tick?
  {
    RunKeepsOrder(actions, c);
    if c.holder.Some? {
      var t := c.holder.value;
      assert HoldsEmitOrder(c.threads[t]);
      next := if c.threads[t].Emitting? then if c.threads[t].batches == [] then Release(t) else Emit(t) else Drain(t);
    } else {
      var t :| 0 <= t < |c.threads| && !c.threads[t].Done?;
      assert !HoldsEmitOrder(c.threads[t]);
      next := if c.threads[t].SubmitStart? then Submit(t) else Lock(t);
    }
  }

  // An urgent event leaves the queues alone, so it may reach the front end before an event of its
  // own workspace that took `inner` earlier: the price of the bypass.
  lemma UrgentMayOvertake(earlier: Event, urgent: Event) returns (actions: seq<Action>, c: Config)
    requires !IsCritical(earlier) && IsUrgent(urgent)
    ensures Run(actions, c)
    ensures c.log == [earlier, urgent] && Flatten(c.emitted) == [urgent]
            && QueueOf(c.sink, earlier.workspaceId) == [earlier]
  {
    var c1 := Apply(INITIAL, Call(earlier));
    var c2 := Apply(c1, Call(urgent));
    var c3 := Apply(c2, Submit(0));
    var c4 := Apply(c3, Lock(1));
    var c5 := Apply(c4, Drain(1));
    c := Apply(c5, Emit(1));
    RunExtends([], Call(earlier), INITIAL);
    RunExtends([Call(earlier)], Call(urgent), c1);
    RunExtends([Call(earlier)] + [Call(urgent)], Submit(0), c2);
    RunExtends([Call(earlier)] + [Call(urgent)] + [Submit(0)], Lock(1), c3);
    RunExtends([Call(earlier)] + [Call(urgent)] + [Submit(0)] + [Lock(1)], Drain(1), c4);
    RunExtends([Call(earlier)] + [Call(urgent)] + [Submit(0)] + [Lock(1)] + [Drain(1)], Emit(1), c5);
    actions := [Call(earlier)] + [Call(urgent)] + [Submit(0)] + [Lock(1)] + [Drain(1)] + [Emit(1)];
    assert c.emitted == [[urgent]];
  }

  // Exactly what a bypass overtakes: when an urgent event takes `inner`, the events of its workspace
  // that came before it and are not emitted yet are those still queued. Its workspace's order is kept
  // if and only if nothing is queued there.
  lemma UrgentKeepsOrderIff(actions: seq<Action>, c: Config, t: nat)
    requires Run(actions, c) && Enabled(c, Drain(t)) && c.threads[t].CriticalLocked?
    ensures var ws := c.threads[t].event.workspaceId; var lane := Workspace(ws);
            IsUrgent(c.threads[t].event) ==>
            && On(lane, c.log) == On(lane, Flatten(c.emitted)) + QueueOf(c.sink, ws)
            && (On(lane, Flatten(c.emitted)) == On(lane, c.log) <==> ws !in c.sink.queues)
  {
    RunKeepsOrder(actions, c);
    var ws := c.threads[t].event.workspaceId;
    assert LaneInv(c, Workspace(ws)) && c.holder == Some(t) && InFlightBatches(c) == [];
    var emitted := On(Workspace(ws), Flatten(c.emitted));
    assert On(Workspace(ws), c.log) == emitted + [] + QueueOf(c.sink, ws);
    assert |emitted + QueueOf(c.sink, ws)| == |emitted| + |QueueOf(c.sink, ws)|;
  }

  // ---- the order of a flush ----

  // Where in the log the oldest of the last `count` events of a lane stands.
  function OldestAt(lane: Lane, log: seq<Event>, count: int): int {
    if log == [] || count <= 0 then |log|
    else
      var last := |log| - 1;
      if !InLane(lane, log[last]) then OldestAt(lane, log[..last], count)
      else if count == 1 then last
      else OldestAt(lane, log[..last], count - 1)
  }

  lemma OnLast(lane: Lane, front: seq<Event>, e: Event)
    ensures On(lane, front + [e]) == On(lane, front) + if InLane(lane, e) then [e] else []
  {
    OnConcat(lane, front, [e]);
  }

  lemma SuffixLast(lane: Lane, front: seq<Event>, e: Event, at: nat)
    requires at <= |front|
    ensures On(lane, (front + [e])[at..]) == On(lane, front[at..]) + if InLane(lane, e) then [e] else []
  {
    assert (front + [e])[at..] == front[at..] + [e];
    OnLast(lane, front[at..], e);
  }

  // The `count`-th event of the lane from the end stands at `at`.
  ghost predicate StandsAt(lane: Lane, log: seq<Event>, count: nat, at: int) {
    && 0 < count <= |On(lane, log)|
    && 0 <= at < |log| && log[at] == On(lane, log)[|On(lane, log)| - count]
    && |On(lane, log[at..])| == count
  }

  lemma StandsAfterOne(lane: Lane, front: seq<Event>, e: Event, count: nat, at: int)
    requires StandsAt(lane, front, count, at)
    ensures StandsAt(lane, front + [e], if InLane(lane, e) then count + 1 else count, at)
  {
    OnLast(lane, front, e);
    SuffixLast(lane, front, e, at);
  }

  lemma {:induction false} OldestStands(lane: Lane, log: seq<Event>, count: nat)
    requires 0 < count <= |On(lane, log)|
    ensures StandsAt(lane, log, count, OldestAt(lane, log, count))
  {
    var front, last := log[..|log| - 1], log[|log| - 1];
    assert log == front + [last];
    OnLast(lane, front, last);
    if InLane(lane, last) && count == 1 {
      SuffixLast(lane, front, last, |front|);
    } else {
      var more := if InLane(lane, last) then count - 1 else count;
      OldestStands(lane, front, more);
      StandsAfterOne(lane, front, last, more, OldestAt(lane, front, more));
    }
  }

  lemma OldestAfterOne(lane: Lane, log: seq<Event>, e: Event, count: int)
    ensures !InLane(lane, e) && count > 0 ==> OldestAt(lane, log + [e], count) == OldestAt(lane, log, count)
    ensures InLane(lane, e) && count > 0 ==> OldestAt(lane, log + [e], count + 1) == OldestAt(lane, log, count)
    ensures InLane(lane, e) ==> OldestAt(lane, log + [e], 1) == |log|
  {
    assert (log + [e])[..|log|] == log;
  }

  // Where in the log a workspace's oldest queued event stands.
  function QueuedSince(c: Config, ws: string): int {
    OldestAt(Workspace(ws), c.log, |QueueOf(c.sink, ws)|)
  }

  ghost predicate Ascending(order: seq<string>, at: string -> int) {
    forall i, j :: 0 <= i < j < |order| ==> at(order[i]) < at(order[j])
  }

  // The workspaces are listed by their oldest queued events.
  ghost predicate FirstSeenInv(c: Config) {
    Ascending(c.sink.order, ws => QueuedSince(c, ws))
  }

  lemma AscendingSame(order: seq<string>, f: string -> int, g: string -> int)
    requires Ascending(order, f) && forall ws :: ws in order ==> f(ws) == g(ws)
    ensures Ascending(order, g)
  {
  }

  lemma {:induction false} AscendingWithout(order: seq<string>, ws: string, at: string -> int)
    requires Ascending(order, at)
    ensures Ascending(Without(order, ws), at)
  {
    if order != [] {
      var rest := Without(order[1..], ws);
      AscendingWithout(order[1..], ws, at);
      forall i | 0 <= i < |rest| ensures at(order[0]) < at(rest[i]) {
        assert rest[i] in rest;
        var k :| 0 <= k < |order[1..]| && order[1..][k] == rest[i];
        assert order[k + 1] == rest[i];
      }
    }
  }

  // What is queued is part of the log.
  lemma QueueInLog(c: Config, ws: string)
    requires OrderInv(c)
    ensures |QueueOf(c.sink, ws)| <= |On(Workspace(ws), c.log)|
    ensures var queue, logged := QueueOf(c.sink, ws), On(Workspace(ws), c.log);
            queue != [] ==> logged[|logged| - |queue|] == queue[0]
  {
    assert LaneInv(c, Workspace(ws));
  }

  lemma QueuedSinceInLog(c: Config, ws: string)
    requires OrderInv(c) && ws in c.sink.order
    ensures 0 <= QueuedSince(c, ws) < |c.log| && c.log[QueuedSince(c, ws)] == QueueOf(c.sink, ws)[0]
  {
    QueueInLog(c, ws);
    OldestStands(Workspace(ws), c.log, |QueueOf(c.sink, ws)|);
  }

  lemma SubmitKeepsFirstSeen(c: Config, t: nat)
    requires OrderInv(c) && FirstSeenInv(c) && Enabled(c, Submit(t))
    ensures FirstSeenInv(Apply(c, Submit(t)))
  {
    var e, d := c.threads[t].event, Apply(c, Submit(t));
    assert !IsCritical(e);
    forall ws | ws in c.sink.order ensures QueuedSince(d, ws) == QueuedSince(c, ws) < |c.log| {
      QueuedSinceInLog(c, ws);
      OldestAfterOne(Workspace(ws), c.log, e, |QueueOf(c.sink, ws)|);
    }
    AscendingSame(c.sink.order, ws => QueuedSince(c, ws), ws => QueuedSince(d, ws));
    if e.workspaceId !in c.sink.queues {
      OldestAfterOne(Workspace(e.workspaceId), c.log, e, 0);
      assert QueuedSince(d, e.workspaceId) == |c.log|;
      assert forall i :: 0 <= i < |c.sink.order| ==> c.sink.order[i] in c.sink.order;
    }
  }

  lemma DrainKeepsFirstSeen(c: Config, t: nat)
    requires OrderInv(c) && FirstSeenInv(c) && Enabled(c, Drain(t))
    ensures FirstSeenInv(Apply(c, Drain(t)))
  {
    var pc, d := c.threads[t], Apply(c, Drain(t));
    if pc.CriticalLocked? {
      AscendingWithout(c.sink.order, pc.event.workspaceId, ws => QueuedSince(c, ws));
      forall ws | ws in d.sink.order ensures QueuedSince(d, ws) == QueuedSince(c, ws) {
        CriticalKeepsOthers(c, t, ws);
      }
      AscendingSame(d.sink.order, ws => QueuedSince(c, ws), ws => QueuedSince(d, ws));
    }
  }

  lemma CriticalKeepsOthers(c: Config, t: nat, ws: string)
    requires OrderInv(c) && Enabled(c, Drain(t)) && c.threads[t].CriticalLocked?
    requires ws in Apply(c, Drain(t)).sink.order
    ensures QueuedSince(Apply(c, Drain(t)), ws) == QueuedSince(c, ws)
  {
    var e := c.threads[t].event;
    assert ws in c.sink.order && QueueOf(c.sink, ws) != [];
    assert IsCritical(e) && !InLane(Workspace(ws), e);
    OldestAfterOne(Workspace(ws), c.log, e, |QueueOf(c.sink, ws)|);
  }

  lemma FirstSeenKept(c: Config, a: Action)
    requires OrderInv(c) && FirstSeenInv(c) && Enabled(c, a)
    ensures FirstSeenInv(Apply(c, a))
  {
    var d := Apply(c, a);
    match a
    case Submit(t) => SubmitKeepsFirstSeen(c, t);
    case Drain(t) => DrainKeepsFirstSeen(c, t);
    case _ => AscendingSame(d.sink.order, ws => QueuedSince(c, ws), ws => QueuedSince(d, ws));
  }

  // In every run the workspaces are listed in the order of their oldest queued events, also after
  // barriers have taken some out.
  lemma {:induction false} RunKeepsFirstSeen(actions: seq<Action>, c: Config)
    requires Run(actions, c)
    ensures OrderInv(c) && FirstSeenInv(c)
  {
    RunKeepsOrder(actions, c);
    if actions != [] {
      var b := Exec(actions[..|actions| - 1]).value;
      RunKeepsFirstSeen(actions[..|actions| - 1], b);
      FirstSeenKept(b, actions[|actions| - 1]);
    }
  }

  // Batches stand in the order in which their first events took `inner`.
  ghost predicate InLogOrder(batches: seq<seq<Event>>, log: seq<Event>, at: seq<int>) {
    && |at| == |batches|
    && (forall i :: 0 <= i < |at| ==> 0 <= at[i] < |log| && batches[i] != [] && log[at[i]] == batches[i][0])
    && (forall i :: 0 <= i < |at| ==>
          |On(Workspace(batches[i][0].workspaceId), log[at[i]..])| == |batches[i]|)
    && (forall i, j :: 0 <= i < j < |at| ==> at[i] < at[j])
  }

  // A flush yields its batches in the order of their first events in the log, each of them with all of
  // its workspace's events since.
  lemma FlushInFirstSeenOrder(actions: seq<Action>, c: Config, t: nat) returns (at: seq<int>)
    requires Run(actions, c) && Enabled(c, Drain(t)) && c.threads[t].FlushLocked?
    ensures InLogOrder(DrainOutcome(c.sink, c.threads[t]).0, c.log, at)
  {
    RunKeepsFirstSeen(actions, c);
    var order: seq<string>, batches: seq<seq<Event>> := c.sink.order, DrainedBatches(c.sink);
    at := seq(|order|, i requires 0 <= i < |order| => QueuedSince(c, order[i]));
    forall i | 0 <= i < |order|
      ensures 0 <= at[i] < |c.log| && batches[i] != [] && c.log[at[i]] == batches[i][0]
      ensures |On(Workspace(batches[i][0].workspaceId), c.log[at[i]..])| == |batches[i]|
    {
      assert order[i] in order;
      QueuedSinceInLog(c, order[i]);
      QueueInLog(c, order[i]);
      OldestStands(Workspace(order[i]), c.log, |QueueOf(c.sink, order[i])|);
    }
  }

  // What thread t drained is on its way: so much of it has arrived, one batch right behind the other.
  ghost predicate Arriving(c: Config, t: nat, sofar: seq<seq<Event>>, batches: seq<seq<Event>>) {
    && t < |c.threads|
    && (c.threads[t].Emitting? || c.threads[t].Done?)
    && (c.threads[t].Emitting? ==> c.emitted + c.threads[t].batches == sofar + batches)
    && (c.threads[t].Done? ==> sofar + batches <= c.emitted)
  }

  lemma ArrivingStays(c: Config, a: Action, t: nat, sofar: seq<seq<Event>>, batches: seq<seq<Event>>)
    requires LockInv(c) && Enabled(c, a) && Arriving(c, t, sofar, batches)
    ensures Arriving(Apply(c, a), t, sofar, batches)
  {
    if a.Emit? && a.t != t {
      assert c.holder == Some(a.t);
    }
    if a == Emit(t) {
      assert c.emitted + [c.threads[t].batches[0]] + c.threads[t].batches[1..] == c.emitted + c.threads[t].batches;
    }
    if a == Release(t) {
      assert c.emitted + [] == c.emitted;
    }
  }

  lemma {:induction false} ArrivingToTheEnd(
      before: seq<Action>, c: Config, after: seq<Action>, d: Config, t: nat, sofar: seq<seq<Event>>,
      batches: seq<seq<Event>>)
    requires Run(before, c) && Run(before + after, d) && Arriving(c, t, sofar, batches)
    ensures Arriving(d, t, sofar, batches)
  {
    if after == [] {
      assert before + after == before;
    } else {
      var front := after[..|after| - 1];
      assert (before + after)[..|before + after| - 1] == before + front;
      var b := Exec(before + front).value;
      ArrivingToTheEnd(before, c, front, b, t, sofar, batches);
      RunKeepsOrder(before + front, b);
      ArrivingStays(b, after[|after| - 1], t, sofar, batches);
    }
  }

  // Whatever other threads do, the batches of a flush arrive right behind all that was emitted before it
  // and behind one another, none left out, before anything else does.
  lemma FlushArrivesWhole(before: seq<Action>, c: Config, t: nat, after: seq<Action>, d: Config)
    requires Run(before, c) && Enabled(c, Drain(t)) && Run(before + [Drain(t)] + after, d)
    ensures t < |d.threads| && (d.threads[t].Emitting? || d.threads[t].Done?)
    ensures d.threads[t].Done? ==> c.emitted + DrainOutcome(c.sink, c.threads[t]).0 <= d.emitted
    ensures d.threads[t].Emitting? ==> d.emitted <= c.emitted + DrainOutcome(c.sink, c.threads[t]).0
  {
    RunExtends(before, Drain(t), c);
    ArrivingToTheEnd(before + [Drain(t)], Apply(c, Drain(t)), after, d, t, c.emitted,
                     DrainOutcome(c.sink, c.threads[t]).0);
  }

  // ---- which way an event goes ----

  // By the name of its method: a turn or runtime that ends takes its workspace's queue along, a request
  // for the user's attention goes alone, anything else is queued.
  lemma WayOfEvent(c: Config, e: Event)
    ensures var ends := e.rpcMethod in {Some("turn/completed"), Some("turn/error"), Some("runtime/ended")};
            var asks := e.rpcMethod in {Some("item/tool/requestUserInput"), Some("approval/request"),
                                        Some("collaboration/modeBlocked"), Some("collaboration/modeResolved")};
            var way := Apply(c, Call(e)).threads[|c.threads|];
            && way == (if ends || asks then CriticalStart(e) else SubmitStart(e))
            && (ends ==> DrainOutcome(c.sink, CriticalLocked(e)).0 == [QueueOf(c.sink, e.workspaceId) + [e]])
            && (asks ==> DrainOutcome(c.sink, CriticalLocked(e)).0 == [[e]])
  {
    WayByName(e);
  }

  lemma WayByName(e: Event)
    ensures IsTerminalBarrier(e) <==> e.rpcMethod in {Some("turn/completed"), Some("turn/error"), Some("runtime/ended")}
    ensures IsUrgent(e) <==> e.rpcMethod in {Some("item/tool/requestUserInput"), Some("approval/request"),
                                              Some("collaboration/modeBlocked"), Some("collaboration/modeResolved")}
  {
    assert TERMINAL_BARRIER_METHODS[0] == "turn/completed" && TERMINAL_BARRIER_METHODS[1] == "turn/error";
    assert URGENT_BYPASS_METHODS[1] == "approval/request" && URGENT_BYPASS_METHODS[2] == "collaboration/modeBlocked";
  }

  // ---- the byte counter ----

  ghost predicate BytesInv(c: Config) {
    && ValidSink(c.sink) && ExactBytes(c.sink)
    && QueuedTotal(c.sink.queues, c.sink.order) <= BytesOf(c.log)
  }

  lemma DrainKeepsBytes(c: Config, t: nat)
    requires BytesInv(c) && Enabled(c, Drain(t))
    ensures BytesInv(Apply(c, Drain(t)))
  {
    var pc := c.threads[t];
    if pc.FlushLocked? {
      DrainBytes(c.sink);
      assert c.log + [] == c.log;
    } else {
      BytesOfConcat(c.log, [pc.event]);
      if IsTerminalBarrier(pc.event) { BarrierBytes(c.sink, pc.event); }
    }
  }

  lemma BytesKept(c: Config, a: Action)
    requires BytesInv(c) && Enabled(c, a) && BytesOf(Apply(c, a).log) <= U64_MAX
    ensures BytesInv(Apply(c, a))
  {
    match a
    case Submit(t) =>
      BytesOfConcat(c.log, [c.threads[t].event]);
      SubmitBytes(c.sink, c.threads[t].event);
    case Drain(t) => DrainKeepsBytes(c, t);
    case _ =>
  }

  lemma LogOnlyGrows(c: Config, a: Action)
    requires Enabled(c, a)
    ensures BytesOf(c.log) <= BytesOf(Apply(c, a).log)
  {
    match a
    case Submit(t) => BytesOfConcat(c.log, [c.threads[t].event]);
    case Drain(t) => BytesOfConcat(c.log, if c.threads[t].FlushLocked? then [] else [c.threads[t].event]);
    case _ =>
  }

  // In every run whose events have a size a usize can hold, the byte counter is the size of what is
  // queued.
  lemma {:induction false} RunKeepsBytes(actions: seq<Action>, c: Config)
    requires Run(actions, c)
    ensures BytesOf(c.log) <= U64_MAX ==> BytesInv(c)
  {
    if actions != [] && BytesOf(c.log) <= U64_MAX {
      var a, b := actions[|actions| - 1], Exec(actions[..|actions| - 1]).value;
      LogOnlyGrows(b, a);
      RunKeepsBytes(actions[..|actions| - 1], b);
      BytesKept(b, a);
    }
  }

  // ---- counters and batches ----

  function CriticalsIn(events: seq<Event>): nat {
    if events == [] then 0
    else (if IsCritical(events[|events| - 1]) then 1 else 0) + CriticalsIn(events[..|events| - 1])
  }

  function Capped(n: nat): Word {
    if n <= U64_MAX then n else U64_MAX
  }

  // One batch holds events of one workspace only, and at least one.
  ghost predicate SingleWorkspace(batch: seq<Event>) {
    batch != [] && forall i, j :: 0 <= i < |batch| && 0 <= j < |batch| ==> batch[i].workspaceId == batch[j].workspaceId
  }

  ghost predicate CountersInv(c: Config) {
    && c.sink.flushCount == Capped(|c.emitted| + |InFlightBatches(c)|)
    && c.sink.criticalFlushCount == c.sink.criticalBypassCount == Capped(CriticalsIn(c.log))
    && (forall b :: b in c.emitted ==> SingleWorkspace(b))
    && (forall b :: b in InFlightBatches(c) ==> SingleWorkspace(b))
  }

  lemma CriticalsAfter(log: seq<Event>, e: Event)
    ensures CriticalsIn(log + [e]) == CriticalsIn(log) + if IsCritical(e) then 1 else 0
  {
    assert (log + [e])[..|log|] == log;
  }

  lemma DrainMakesGoodBatches(s: Sink, pc: Pc)
    requires pc.CriticalLocked? || pc.FlushLocked?
    requires ValidSink(s)
    ensures forall b :: b in DrainOutcome(s, pc).0 ==> SingleWorkspace(b)
  {
    if pc.FlushLocked? {
      var batches := DrainedBatches(s);
      forall i | 0 <= i < |batches| ensures SingleWorkspace(batches[i]) {
        assert s.order[i] in s.queues;
      }
    }
  }

  // The reported flush size is the size of what the drain took out.
  lemma FlushSizeReported(s: Sink, pc: Pc)
    requires pc.CriticalLocked? || pc.FlushLocked?
    ensures DrainOutcome(s, pc).0 != [] ==>
              DrainOutcome(s, pc).1.lastFlushBytes == Wrapped(BytesOf(Flatten(DrainOutcome(s, pc).0)))
  {
    if pc.CriticalLocked? {
      assert Flatten([BarrierBatch(s, pc.event)]) == BarrierBatch(s, pc.event);
      assert Flatten([[pc.event]]) == [pc.event];
      assert BytesOf([pc.event]) == pc.event.bytes;
    }
  }

  lemma DrainCounts(c: Config, t: nat)
    requires OrderInv(c) && CountersInv(c) && Enabled(c, Drain(t))
    ensures CountersInv(Apply(c, Drain(t)))
  {
    var pc, d := c.threads[t], Apply(c, Drain(t));
    assert c.holder == Some(t) && InFlightBatches(c) == [];
    assert InFlightBatches(d) == DrainOutcome(c.sink, pc).0;
    DrainMakesGoodBatches(c.sink, pc);
    if pc.CriticalLocked? {
      CriticalsAfter(c.log, pc.event);
    } else {
      assert d.log == c.log;
    }
  }

  lemma CountersKept(c: Config, a: Action)
    requires OrderInv(c) && CountersInv(c) && Enabled(c, a)
    ensures CountersInv(Apply(c, a))
  {
    match a
    case Submit(t) => CriticalsAfter(c.log, c.threads[t].event);
    case Drain(t) => DrainCounts(c, t);
    case Emit(t) => assert c.holder == Some(t);
    case _ => assert InFlightBatches(Apply(c, a)) == InFlightBatches(c);
  }

  // In every run: every batch is non-empty and single-workspace, the flush counter is the number of
  // batches made, and the two critical counters agree and count the critical events handled, each
  // counter up to its saturation cap.
  lemma {:induction false} RunKeepsCounters(actions: seq<Action>, c: Config)
    requires Run(actions, c)
    ensures CountersInv(c)
  {
    if actions != [] {
      var a := actions[|actions| - 1];
      var b := Exec(actions[..|actions| - 1]).value;
      RunKeepsOrder(actions[..|actions| - 1], b);
      RunKeepsCounters(actions[..|actions| - 1], b);
      CountersKept(b, a);
    }
  }
}
