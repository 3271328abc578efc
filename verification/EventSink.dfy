/**
 The batched app-server event sink (src-tauri/src/event_sink.rs).

 `BatchedEventState` is the state the `inner` mutex guards, updated in place by its methods.
 `Sink` is that state as a value: every method is proved to move `View()` from one `Sink` to the
 next, and the lemmas (and the thread protocol in EventSinkProtocol) are about `Sink`.
 */
module EventSink {
  import opened Wrappers

  // Both usize and u64 on the 64-bit targets the application ships for.
  type Word = n: nat | n <= U64_MAX

  const TERMINAL_BARRIER_METHODS: seq<string> := ["turn/completed", "turn/error", "runtime/ended"]
  const URGENT_BYPASS_METHODS: seq<string> := [
    "item/tool/requestUserInput", "approval/request",
    "collaboration/modeBlocked", "collaboration/modeResolved"
  ]

  // `rpcMethod` is the string under "method" in the message, if there is one; `bytes` is the length
  // of the serialized event, 0 when it does not serialize.
  datatype Event = Event(workspaceId: string, rpcMethod: Option<string>, body: string, bytes: Word)

  predicate IsTerminalBarrier(e: Event) {
    e.rpcMethod.Some? && e.rpcMethod.value in TERMINAL_BARRIER_METHODS
  }

  predicate IsCritical(e: Event) {
    && e.rpcMethod.Some?
    && (e.rpcMethod.value in TERMINAL_BARRIER_METHODS || e.rpcMethod.value in URGENT_BYPASS_METHODS)
  }

  // The events that bypass the queue: the second branch of emit_app_server_event.
  predicate IsUrgent(e: Event) {
    IsCritical(e) && !IsTerminalBarrier(e)
  }

  function SaturatingAdd(a: Word, b: nat): Word {
    if a + b <= U64_MAX then a + b else U64_MAX
  }

  function SaturatingSub(a: Word, b: nat): Word {
    if b <= a then a - b else 0
  }

  // A usize sum, which wraps around.
  function Wrapped(n: nat): Word {
    if n <= U64_MAX then n else n % 0x1_0000_0000_0000_0000
  }

  function BytesOf(events: seq<Event>): nat {
    if events == [] then 0 else events[0].bytes + BytesOf(events[1..])
  }

  function Flatten(batches: seq<seq<Event>>): seq<Event> {
    if batches == [] then [] else batches[0] + Flatten(batches[1..])
  }

  datatype Sink = Sink(
    queues: map<string, seq<Event>>,
    order: seq<string>,
    queuedBytes: Word,
    flushCount: Word,
    criticalBypassCount: Word,
    criticalFlushCount: Word,
    lastFlushBytes: Word)

  const EMPTY_SINK := Sink(map[], [], 0, 0, 0, 0, 0)

  function QueueOf(s: Sink, ws: string): seq<Event> {
    if ws in s.queues then s.queues[ws] else []
  }

  // The order lists exactly the workspaces with a queue, once each, and no queue is empty or holds
  // another workspace's event.
  ghost predicate ValidQueues(queues: map<string, seq<Event>>, order: seq<string>) {
    && NoDuplicates(order)
    && (forall ws :: ws in order <==> ws in queues)
    && (forall ws :: ws in queues ==> |queues[ws]| > 0)
    && (forall ws, i :: ws in queues && 0 <= i < |queues[ws]| ==> queues[ws][i].workspaceId == ws)
  }

  ghost predicate ValidSink(s: Sink) {
    ValidQueues(s.queues, s.order)
  }

  // The order without one workspace: VecDeque::retain.
  function Without(order: seq<string>, ws: string): (r: seq<string>)
    ensures forall x :: x in r <==> x in order && x != ws
    ensures ws !in order ==> r == order
  {
    if order == [] then []
    else if order[0] == ws then Without(order[1..], ws)
    else [order[0]] + Without(order[1..], ws)
  }

  function Submitted(s: Sink, e: Event): Sink {
    s.(queues := s.queues[e.workspaceId := QueueOf(s, e.workspaceId) + [e]],
       order := if e.workspaceId in s.queues then s.order else s.order + [e.workspaceId],
       queuedBytes := SaturatingAdd(s.queuedBytes, e.bytes))
  }

  function Taken(s: Sink, ws: string): Sink {
    s.(queues := s.queues - {ws}, order := Without(s.order, ws))
  }

  // One batch per workspace, in first-seen order.
  function BatchesOf(queues: map<string, seq<Event>>, order: seq<string>): seq<seq<Event>> {
    seq(|order|, i requires 0 <= i < |order| => if order[i] in queues then queues[order[i]] else [])
  }

  function DrainedBatches(s: Sink): seq<seq<Event>> {
    BatchesOf(s.queues, s.order)
  }

  function Drained(s: Sink): Sink {
    var total := Wrapped(BytesOf(Flatten(DrainedBatches(s))));
    if s.order == [] then s
    else
      s.(queues := map[], order := [],
         flushCount := SaturatingAdd(s.flushCount, |s.order|),
         lastFlushBytes := total,
         queuedBytes := SaturatingSub(s.queuedBytes, total))
  }

  function Bypassed(s: Sink, e: Event): Sink {
    s.(criticalBypassCount := SaturatingAdd(s.criticalBypassCount, 1),
       flushCount := SaturatingAdd(s.flushCount, 1),
       criticalFlushCount := SaturatingAdd(s.criticalFlushCount, 1),
       lastFlushBytes := e.bytes)
  }

  function BarrierBatch(s: Sink, e: Event): seq<Event> {
    QueueOf(s, e.workspaceId) + [e]
  }

  function Barriered(s: Sink, e: Event): Sink {
    var taken := Taken(s, e.workspaceId);
    taken.(queuedBytes := SaturatingSub(s.queuedBytes, Wrapped(BytesOf(QueueOf(s, e.workspaceId)))),
           criticalBypassCount := SaturatingAdd(s.criticalBypassCount, 1),
           flushCount := SaturatingAdd(s.flushCount, 1),
           criticalFlushCount := SaturatingAdd(s.criticalFlushCount, 1),
           lastFlushBytes := Wrapped(BytesOf(BarrierBatch(s, e))))
  }

  class BatchedEventState {
    var byWorkspace: map<string, seq<Event>>
    var workspaceOrder: seq<string>
    var queuedBytes: Word
    var flushCount: Word
    var criticalBypassCount: Word
    var criticalFlushCount: Word
    var lastFlushSizeBytes: Word

    function View(): Sink
      reads this
    {
      Sink(byWorkspace, workspaceOrder, queuedBytes, flushCount, criticalBypassCount, criticalFlushCount,
           lastFlushSizeBytes)
    }

    ghost predicate Valid()
      reads this
    {
      ValidSink(View())
    }

    constructor ()
      ensures Valid() && View() == EMPTY_SINK
    {
      byWorkspace, workspaceOrder := map[], [];
      queuedBytes, flushCount, criticalBypassCount, criticalFlushCount, lastFlushSizeBytes := 0, 0, 0, 0, 0;
    }

    method Submit(event: Event)
      requires Valid()
      modifies this
      ensures Valid() && View() == Submitted(old(View()), event)
    {
      queuedBytes := SaturatingAdd(queuedBytes, event.bytes);
      if event.workspaceId !in byWorkspace {
        workspaceOrder := workspaceOrder + [event.workspaceId];
        byWorkspace := byWorkspace[event.workspaceId := []];
      }
      byWorkspace := byWorkspace[event.workspaceId := byWorkspace[event.workspaceId] + [event]];
      SubmitKeepsValid(old(View()), event);
      assert View().queues == Submitted(old(View()), event).queues;
    }

    method TakeWorkspaceBatch(ws: string) returns (batch: Option<seq<Event>>)
      requires Valid()
      modifies this
      ensures Valid() && View() == Taken(old(View()), ws)
      ensures batch == if ws in old(byWorkspace) then Some(old(byWorkspace)[ws]) else None
    {
      TakeKeepsValid(View(), ws);
      if ws !in byWorkspace {
        assert byWorkspace - {ws} == byWorkspace;
        return None;
      }
      var queue := byWorkspace[ws];
      byWorkspace := byWorkspace - {ws};
      workspaceOrder := Without(workspaceOrder, ws);
      batch := if queue != [] then Some(queue) else None;
    }

    method DrainAllWorkspaceBatches() returns (batches: seq<seq<Event>>)
      requires Valid()
      modifies this
      ensures Valid() && View() == Drained(old(View()))
      ensures batches == DrainedBatches(old(View()))
    {
      ghost var was := View();
      batches := DrainQueues();
      if batches != [] {
        var totalBytes := Wrapped(BytesOf(Flatten(batches)));
        flushCount := SaturatingAdd(flushCount, |batches|);
        lastFlushSizeBytes := totalBytes;
        queuedBytes := SaturatingSub(queuedBytes, totalBytes);
      }
      assert View() == Drained(was);
    }

    // The loop of drain_all_workspace_batches.
    method DrainQueues() returns (batches: seq<seq<Event>>)
      requires Valid()
      modifies this`byWorkspace, this`workspaceOrder
      ensures byWorkspace == map[] && workspaceOrder == []
      ensures batches == BatchesOf(old(byWorkspace), old(workspaceOrder))
    {
      ghost var queues := byWorkspace;
      var order := workspaceOrder;
      workspaceOrder := [];
      batches := [];
      for i := 0 to |order|
        invariant workspaceOrder == []
        invariant byWorkspace == queues - (set ws | ws in order[..i])
        invariant batches == BatchesOf(queues, order[..i])
      {
        var ws := order[i];
        assert ws !in order[..i] && order[..i + 1] == order[..i] + [ws];
        if ws in byWorkspace {
          var queue := byWorkspace[ws];
          byWorkspace := byWorkspace - {ws};
          if queue != [] {
            batches := batches + [queue];
          }
        }
      }
      assert order[..|order|] == order;
    }

    method CriticalBypassBatch(event: Event) returns (batch: seq<Event>)
      requires Valid()
      modifies this
      ensures Valid() && View() == Bypassed(old(View()), event)
      ensures batch == [event]
    {
      criticalBypassCount := SaturatingAdd(criticalBypassCount, 1);
      flushCount := SaturatingAdd(flushCount, 1);
      criticalFlushCount := SaturatingAdd(criticalFlushCount, 1);
      lastFlushSizeBytes := event.bytes;
      batch := [event];
    }

    method TerminalBarrierBatch(event: Event) returns (batch: seq<Event>)
      requires Valid()
      modifies this
      ensures Valid() && View() == Barriered(old(View()), event)
      ensures batch == BarrierBatch(old(View()), event)
    {
      var taken := TakeWorkspaceBatch(event.workspaceId);
      batch := if taken.Some? then taken.value else [];
      queuedBytes := SaturatingSub(queuedBytes, Wrapped(BytesOf(batch)));
      batch := batch + [event];
      criticalBypassCount := SaturatingAdd(criticalBypassCount, 1);
      flushCount := SaturatingAdd(flushCount, 1);
      criticalFlushCount := SaturatingAdd(criticalFlushCount, 1);
      lastFlushSizeBytes := Wrapped(BytesOf(batch));
    }
  }

  // ---- the invariant of the queues ----

  lemma SubmitKeepsValid(s: Sink, e: Event)
    requires ValidSink(s)
    ensures ValidSink(Submitted(s, e))
  {
    var t := Submitted(s, e);
    forall ws ensures ws in t.order <==> ws in t.queues {
      assert ws in t.order <==> ws in s.order || ws == e.workspaceId;
    }
  }

  lemma {:induction false} WithoutKeepsNoDuplicates(order: seq<string>, ws: string)
    requires NoDuplicates(order)
    ensures NoDuplicates(Without(order, ws))
  {
    if order != [] {
      WithoutKeepsNoDuplicates(order[1..], ws);
      assert order[0] !in order[1..];
    }
  }

  lemma TakeKeepsValid(s: Sink, ws: string)
    requires ValidSink(s)
    ensures ValidSink(Taken(s, ws))
  {
    WithoutKeepsNoDuplicates(s.order, ws);
  }

  // ---- byte accounting ----

  // The bytes of every queued event, workspace by workspace.
  function QueuedTotal(queues: map<string, seq<Event>>, order: seq<string>): nat
    requires forall ws :: ws in order ==> ws in queues
  {
    if order == [] then 0 else BytesOf(queues[order[0]]) + QueuedTotal(queues, order[1..])
  }

  ghost predicate ExactBytes(s: Sink)
    requires ValidSink(s)
  {
    s.queuedBytes == QueuedTotal(s.queues, s.order)
  }

  lemma {:induction false} BytesOfConcat(a: seq<Event>, b: seq<Event>)
    ensures BytesOf(a + b) == BytesOf(a) + BytesOf(b)
  {
    if a == [] {
      assert a + b == b;
    } else {
      assert (a + b)[1..] == a[1..] + b;
      BytesOfConcat(a[1..], b);
    }
  }

  lemma {:induction false} TotalDependsOnOrder(
      q0: map<string, seq<Event>>, q1: map<string, seq<Event>>, order: seq<string>)
    requires forall ws :: ws in order ==> ws in q0 && ws in q1 && q0[ws] == q1[ws]
    ensures QueuedTotal(q0, order) == QueuedTotal(q1, order)
  {
    if order != [] {
      TotalDependsOnOrder(q0, q1, order[1..]);
    }
  }

  // Appending to one queue adds exactly the event's bytes.
  lemma {:induction false} TotalAfterAppend(queues: map<string, seq<Event>>, order: seq<string>, e: Event)
    requires NoDuplicates(order) && e.workspaceId in order
    requires forall ws :: ws in order ==> ws in queues
    ensures QueuedTotal(queues[e.workspaceId := queues[e.workspaceId] + [e]], order)
         == QueuedTotal(queues, order) + e.bytes
  {
    var ws := e.workspaceId;
    var grown := queues[ws := queues[ws] + [e]];
    if order[0] == ws {
      BytesOfConcat(queues[ws], [e]);
      assert ws !in order[1..];
      TotalDependsOnOrder(grown, queues, order[1..]);
    } else {
      TotalAfterAppend(queues, order[1..], e);
    }
  }

  lemma {:induction false} TotalOfConcat(queues: map<string, seq<Event>>, a: seq<string>, b: seq<string>)
    requires forall ws :: ws in a + b ==> ws in queues
    ensures QueuedTotal(queues, a + b) == QueuedTotal(queues, a) + QueuedTotal(queues, b)
  {
    if a == [] {
      assert a + b == b;
    } else {
      assert (a + b)[1..] == a[1..] + b;
      assert forall ws :: ws in (a + b)[1..] ==> ws in a + b;
      TotalOfConcat(queues, a[1..], b);
    }
  }

  lemma {:induction false} TotalWithout(queues: map<string, seq<Event>>, order: seq<string>, ws: string)
    requires NoDuplicates(order) && ws in order
    requires forall x :: x in order ==> x in queues
    ensures QueuedTotal(queues - {ws}, Without(order, ws)) + BytesOf(queues[ws]) == QueuedTotal(queues, order)
  {
    if order[0] == ws {
      assert ws !in order[1..];
      assert Without(order, ws) == order[1..];
      TotalDependsOnOrder(queues - {ws}, queues, order[1..]);
    } else {
      TotalWithout(queues, order[1..], ws);
      assert Without(order, ws)[1..] == Without(order[1..], ws);
    }
  }

  lemma {:induction false} TotalIsBytesOfBatches(queues: map<string, seq<Event>>, order: seq<string>)
    requires forall ws :: ws in order ==> ws in queues
    ensures QueuedTotal(queues, order) == BytesOf(Flatten(BatchesOf(queues, order)))
  {
    if order != [] {
      assert BatchesOf(queues, order)[1..] == BatchesOf(queues, order[1..]);
      TotalIsBytesOfBatches(queues, order[1..]);
      BytesOfConcat(queues[order[0]], Flatten(BatchesOf(queues, order[1..])));
    }
  }

  // The byte counter stays exact under a submit if and only if the true total still fits a usize.
  lemma SubmitBytes(s: Sink, e: Event)
    requires ValidSink(s) && ExactBytes(s)
    ensures ValidSink(Submitted(s, e))
    ensures QueuedTotal(Submitted(s, e).queues, Submitted(s, e).order) == QueuedTotal(s.queues, s.order) + e.bytes
    ensures ExactBytes(Submitted(s, e)) <==> QueuedTotal(s.queues, s.order) + e.bytes <= U64_MAX
  {
    SubmitKeepsValid(s, e);
    var t := Submitted(s, e);
    if e.workspaceId in s.queues {
      TotalAfterAppend(s.queues, s.order, e);
    } else {
      TotalOfConcat(t.queues, s.order, [e.workspaceId]);
      TotalDependsOnOrder(t.queues, s.queues, s.order);
      calc {
        QueuedTotal(t.queues, [e.workspaceId]);
        BytesOf(t.queues[e.workspaceId]) + QueuedTotal(t.queues, []);
        { assert t.queues[e.workspaceId] == [e]; }
        BytesOf([e]);
        e.bytes;
      }
    }
  }

  // A flush and a terminal barrier keep it exact without any condition.
  lemma DrainBytes(s: Sink)
    requires ValidSink(s) && ExactBytes(s)
    ensures ValidSink(Drained(s)) && ExactBytes(Drained(s)) && Drained(s).queuedBytes == 0
    ensures s.order != [] ==> Drained(s).lastFlushBytes == s.queuedBytes
  {
    TotalIsBytesOfBatches(s.queues, s.order);
  }

  lemma BarrierBytes(s: Sink, e: Event)
    requires ValidSink(s) && ExactBytes(s)
    ensures ValidSink(Barriered(s, e)) && ExactBytes(Barriered(s, e))
    ensures Barriered(s, e).queuedBytes + BytesOf(QueueOf(s, e.workspaceId)) == s.queuedBytes
  {
    var taken, after := Taken(s, e.workspaceId), Barriered(s, e);
    assert ValidSink(after) by {
      TakeKeepsValid(s, e.workspaceId);
      assert after.queues == taken.queues && after.order == taken.order;
    }
    var drained := BytesOf(QueueOf(s, e.workspaceId));
    assert QueuedTotal(after.queues, after.order) + drained == QueuedTotal(s.queues, s.order) by {
      if e.workspaceId in s.queues {
        TotalWithout(s.queues, s.order, e.workspaceId);
      } else {
        assert after.queues == s.queues && after.order == s.order;
      }
    }
    assert Wrapped(drained) == drained;
  }

  // Exact or not, a flush takes what it drained off the counter, which stops at zero, and reports its
  // size as a usize.
  lemma FlushSubtracts(s: Sink)
    requires s.order != []
    ensures var drained := BytesOf(Flatten(DrainedBatches(s))) % 0x1_0000_0000_0000_0000;
            && Drained(s).lastFlushBytes == drained
            && Drained(s).queuedBytes == if drained <= s.queuedBytes then s.queuedBytes - drained else 0
  {
  }
}
