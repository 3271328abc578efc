/**
 Request and response correlation of one language-server session
 (src-tauri/src/code_intel_lsp.rs).

 Any number of tasks run `send_request_with_timeout` while one reader task dispatches server messages
 and, at the end, fails what is left. Every await point separates two steps: a response may arrive,
 a timer fire or the server exit between any two of them. The server may send any response at any time.
 */
module LspRequests {
  import opened Wrappers

  const ID_SPACE: nat := 0x1_0000_0000_0000_0000

  // Result<Value, String> carried by the oneshot channel, JSON values as their text.
  type Answer = Result<string, string>

  datatype Delivery = FromServer(id: nat, answer: Answer) | FromFailure(message: string)

  datatype Outcome = NotRunning | WriteError | Canceled | TimedOut | Answered(delivery: Delivery)

  // Where a call of send_request_with_timeout is.
  datatype Pc =
    | Started
    | Checked
    | Numbered
    | Registered
    | WriteFailed
    | Awaiting
    | SawDroppedSender
    | TimerFired
    | Returned(outcome: Outcome)

  // `ordinal` counts fetch_add calls; `channel` is what was sent to the receiver; `since` is the number
  // of responses the server had sent when the request entered the table.
  datatype Request = Request(pc: Pc, ordinal: Option<nat>, channel: Option<Delivery>, since: nat)

  datatype Reader = Running | Broken | Exited | Closed

  datatype Response = Response(id: nat, answer: Answer)

  datatype Sender = Sender(request: nat, delivery: Delivery)

  // `pending` maps an id to the request whose sender it holds; `inHand` are the senders the reader took
  // out and has yet to use.
  datatype Session = Session(
    issued: nat,
    pending: map<nat, nat>,
    requests: seq<Request>,
    reader: Reader,
    inHand: seq<Sender>,
    responses: seq<Response>,
    alive: bool)

  const OPEN := Session(0, map[], [], Running, [], [], true)

  // next_id starts at 1 and wraps around as an AtomicU64.
  function IdOf(ordinal: nat): nat {
    (1 + ordinal) % ID_SPACE
  }

  datatype Action =
    | Start
    | CheckAlive(r: nat)
    | TakeId(r: nat)
    | Register(r: nat)
    | WriteOk(r: nat)
    | WriteFail(r: nat)
    | Receive(r: nat)
    | NoticeDropped(r: nat)
    | FireTimer(r: nat)
    | CleanUp(r: nat)
    | Respond(id: nat, answer: Answer)
    | Deliver
    | ReadError(message: string, order: seq<nat>)
    | ReaderEnds
    | FinalFail(order: seq<nat>)
    | StopSession

  ghost predicate SenderAlive(c: Session, r: nat) {
    || (exists id :: id in c.pending && c.pending[id] == r)
    || (exists i :: 0 <= i < |c.inHand| && c.inHand[i].request == r)
  }

  // `order` is the order in which the drained table is walked.
  ghost predicate WalksTable(order: seq<nat>, pending: map<nat, nat>) {
    && NoDuplicates(order)
    && (forall id :: id in order <==> id in pending)
  }

  predicate At(c: Session, r: nat, pc: Pc) {
    r < |c.requests| && c.requests[r].pc == pc
  }

  // The number the request got; the states after fetch_add have one.
  predicate Numbers(c: Session, r: nat) {
    r < |c.requests| && c.requests[r].ordinal.Some?
  }

  ghost predicate Enabled(c: Session, a: Action) {
    match a
    case Start => true
    case StopSession => true
    case CheckAlive(r) => At(c, r, Started)
    case TakeId(r) => At(c, r, Checked)
    case Register(r) => At(c, r, Numbered) && Numbers(c, r)
    case WriteOk(r) => At(c, r, Registered)
    case WriteFail(r) => At(c, r, Registered)
    case Receive(r) => At(c, r, Awaiting) && c.requests[r].channel.Some?
    case NoticeDropped(r) => At(c, r, Awaiting) && c.requests[r].channel == None && !SenderAlive(c, r)
    case FireTimer(r) => At(c, r, Awaiting)
    case CleanUp(r) => Numbers(c, r) && (At(c, r, WriteFailed) || At(c, r, SawDroppedSender) || At(c, r, TimerFired))
    case Respond(_, _) => c.reader == Running && c.inHand == []
    case Deliver => c.inHand != []
    case ReadError(_, order) => c.reader == Running && c.inHand == [] && WalksTable(order, c.pending)
    case ReaderEnds => (c.reader == Running || c.reader == Broken) && c.inHand == []
    case FinalFail(order) => c.reader == Exited && c.inHand == [] && WalksTable(order, c.pending)
  }

  function WithPc(c: Session, r: nat, pc: Pc): Session
    requires r < |c.requests|
  {
    c.(requests := c.requests[r := c.requests[r].(pc := pc)])
  }

  function CleanUpOutcome(pc: Pc): Outcome {
    if pc.WriteFailed? then WriteError else if pc.TimerFired? then TimedOut else Canceled
  }

  // What fail_pending sends when it walks the table in this order.
  function Failures(pending: map<nat, nat>, order: seq<nat>, message: string): seq<Sender>
    requires forall id :: id in order ==> id in pending
  {
    seq(|order|, i requires 0 <= i < |order| => Sender(pending[order[i]], FromFailure(message)))
  }

  // fail_pending takes the whole table; the errors are sent afterwards, one by one.
  ghost function Failed(c: Session, order: seq<nat>, message: string): Session
    requires WalksTable(order, c.pending)
  {
    c.(pending := map[], inHand := Failures(c.pending, order, message))
  }

  // A value sent to a receiver that is gone is dropped.
  function Delivered(c: Session): Session
    requires c.inHand != []
  {
    var Sender(r, d) := c.inHand[0];
    var rest := c.(inHand := c.inHand[1..]);
    if 0 <= r < |c.requests| && !c.requests[r].pc.Returned?
    then rest.(requests := c.requests[r := c.requests[r].(channel := Some(d))])
    else rest
  }

  function Responded(c: Session, id: nat, answer: Answer): Session {
    var seen := c.(responses := c.responses + [Response(id, answer)]);
    if id in c.pending
    then seen.(pending := c.pending - {id}, inHand := c.inHand + [Sender(c.pending[id], FromServer(id, answer))])
    else seen
  }

  // The table of waiting requests; each method is what happens under its mutex.
  class PendingRequests {
    var pending: map<nat, nat>

    constructor ()
      ensures pending == map[]
    {
      pending := map[];
    }

    method Insert(id: nat, request: nat)
      modifies this
      ensures pending == old(pending)[id := request]
    {
      pending := pending[id := request];
    }

    method Remove(id: nat) returns (request: Option<nat>)
      modifies this
      ensures pending == old(pending) - {id}
      ensures request == if id in old(pending) then Some(old(pending)[id]) else None
    {
      request := if id in pending then Some(pending[id]) else None;
      pending := pending - {id};
    }

    // The part of dispatch_server_message behind the two early returns.
    method Dispatch(id: nat, answer: Answer) returns (sent: seq<Sender>)
      modifies this
      ensures forall c: Session :: c.pending == old(pending) && c.inHand == [] ==>
                Responded(c, id, answer).pending == pending && Responded(c, id, answer).inHand == sent
    {
      var request := Remove(id);
      sent := if request.Some? then [Sender(request.value, FromServer(id, answer))] else [];
      assert id !in old(pending) ==> pending == old(pending);
    }

    // mem::take, then one error for every request of the table, in any order.
    method FailPending(message: string) returns (sent: seq<Sender>, ghost order: seq<nat>)
      modifies this
      ensures pending == map[]
      ensures WalksTable(order, old(pending)) && sent == Failures(old(pending), order, message)
    {
      var requests := pending;
      pending := map[];
      sent, order := [], [];
      while requests != map[]
        invariant pending == map[]
        invariant NoDuplicates(order)
        invariant forall id :: id in old(pending) <==> id in order || id in requests
        invariant forall id :: id in requests ==> id !in order && requests[id] == old(pending)[id]
        invariant sent == Failures(old(pending), order, message)
        decreases requests.Keys
      {
        assert requests.Keys != {};
        var id :| id in requests;
        sent, order := sent + [Sender(requests[id], FromFailure(message))], order + [id];
        requests := requests - {id};
      }
    }
  }

  ghost function Apply(c: Session, a: Action): Session
    requires Enabled(c, a)
  {
    match a
    case Start => c.(requests := c.requests + [Request(Started, None, None, 0)])
    case StopSession => c.(alive := false)
    case CheckAlive(r) => WithPc(c, r, if c.alive then Checked else Returned(NotRunning))
    case TakeId(r) =>
      c.(requests := c.requests[r := c.requests[r].(pc := Numbered, ordinal := Some(c.issued))], issued := c.issued + 1)
    case Register(r) =>
      c.(requests := c.requests[r := c.requests[r].(pc := Registered, since := |c.responses|)],
         pending := c.pending[IdOf(c.requests[r].ordinal.value) := r])
    case WriteOk(r) => WithPc(c, r, Awaiting)
    case WriteFail(r) => WithPc(c, r, WriteFailed)
    case Receive(r) => WithPc(c, r, Returned(Answered(c.requests[r].channel.value)))
    case NoticeDropped(r) => WithPc(c, r, SawDroppedSender)
    case FireTimer(r) => WithPc(c, r, TimerFired)
    case CleanUp(r) =>
      WithPc(c, r, Returned(CleanUpOutcome(c.requests[r].pc))).(
        pending := c.pending - {IdOf(c.requests[r].ordinal.value)})
    case Respond(id, answer) => Responded(c, id, answer)
    case Deliver => Delivered(c)
    case ReadError(message, order) => Failed(c, order, message).(reader := Broken)
    case ReaderEnds => c.(alive := false, reader := Exited)
    case FinalFail(order) => Failed(c, order, "Language server exited").(reader := Closed)
  }

  ghost function Exec(actions: seq<Action>): Option<Session> {
    if actions == [] then Some(OPEN)
    else
      var before, a := Exec(actions[..|actions| - 1]), actions[|actions| - 1];
      if before.Some? && Enabled(before.value, a) then Some(Apply(before.value, a)) else None
  }

  ghost predicate Run(actions: seq<Action>, c: Session) {
    Exec(actions) == Some(c)
  }

  // The one request an action moves, if any.
  function Touched(c: Session, a: Action): Option<nat> {
    match a
    case CheckAlive(r) => Some(r)
    case TakeId(r) => Some(r)
    case Register(r) => Some(r)
    case WriteOk(r) => Some(r)
    case WriteFail(r) => Some(r)
    case Receive(r) => Some(r)
    case NoticeDropped(r) => Some(r)
    case FireTimer(r) => Some(r)
    case CleanUp(r) => Some(r)
    case Deliver => if c.inHand == [] then None else Some(c.inHand[0].request)
    case _ => None
  }

  lemma OthersUntouched(c: Session, a: Action, q: nat)
    requires Enabled(c, a) && q < |c.requests| && Touched(c, a) != Some(q)
    ensures q < |Apply(c, a).requests| && Apply(c, a).requests[q] == c.requests[q]
  {
  }

  // ---- ids ----

  // Ids count from 1, and two requests share one exactly when their numbers differ by a multiple of 2^64.
  lemma IdsRepeatAfterWrap(i: nat, j: nat)
    requires i <= j
    ensures IdOf(i) == IdOf(j) <==> (j - i) % ID_SPACE == 0
    ensures i < 0xFFFF_FFFF_FFFF_FFFF ==> IdOf(i) == i + 1
  {
    var a, b := (1 + i) / ID_SPACE, (1 + j) / ID_SPACE;
    assert 1 + i == a * ID_SPACE + IdOf(i) && 1 + j == b * ID_SPACE + IdOf(j);
    assert j - i == (b - a) * ID_SPACE + (IdOf(j) - IdOf(i));
  }

  lemma IdsDistinct(i: nat, j: nat)
    requires i < ID_SPACE && j < ID_SPACE && IdOf(i) == IdOf(j)
    ensures i == j
  {
  }

  // Before fetch_add, or turned away before it.
  predicate Unnumbered(pc: Pc) {
    pc.Started? || pc.Checked? || pc == Returned(NotRunning)
  }

  ghost predicate NumbersInv(c: Session) {
    && c.issued <= ID_SPACE
    && (forall r :: 0 <= r < |c.requests| && c.requests[r].ordinal.Some? ==> c.requests[r].ordinal.value < c.issued)
    && (forall r, q :: 0 <= r < q < |c.requests| && c.requests[r].ordinal.Some? && c.requests[q].ordinal.Some? ==>
          c.requests[r].ordinal != c.requests[q].ordinal)
    && (forall r :: 0 <= r < |c.requests| ==> (c.requests[r].ordinal == None <==> Unnumbered(c.requests[r].pc)))
  }

  lemma NumberStays(c: Session, a: Action, r: nat)
    requires NumbersInv(c) && Enabled(c, a) && r < |Apply(c, a).requests|
    ensures Apply(c, a).requests[r].ordinal == None <==> Unnumbered(Apply(c, a).requests[r].pc)
    ensures Numbers(Apply(c, a), r) ==>
              || (Numbers(c, r) && Apply(c, a).requests[r].ordinal == c.requests[r].ordinal)
              || (a == TakeId(r) && Apply(c, a).requests[r].ordinal == Some(c.issued))
    ensures c.issued <= Apply(c, a).issued && (a.TakeId? ==> c.issued < Apply(c, a).issued)
  {
    if r < |c.requests| && Touched(c, a) != Some(r) {
      OthersUntouched(c, a, r);
    } else {
      var before := if r < |c.requests| then c.requests[r] else Request(Started, None, None, 0);
      assert before.ordinal == None <==> Unnumbered(before.pc);
    }
  }

  lemma NumbersKept(c: Session, a: Action)
    requires NumbersInv(c) && Enabled(c, a) && Apply(c, a).issued <= ID_SPACE
    ensures NumbersInv(Apply(c, a))
  {
    var d := Apply(c, a);
    forall r | 0 <= r < |d.requests|
      ensures d.requests[r].ordinal == None <==> Unnumbered(d.requests[r].pc)
      ensures d.requests[r].ordinal.Some? ==> d.requests[r].ordinal.value < d.issued
    {
      NumberStays(c, a, r);
    }
    forall r, q | 0 <= r < q < |d.requests| && d.requests[r].ordinal.Some? && d.requests[q].ordinal.Some?
      ensures d.requests[r].ordinal != d.requests[q].ordinal
    {
      NumberStays(c, a, r);
      NumberStays(c, a, q);
    }
  }

  // Past that: a request that gets the id of one still waiting takes its place in the table, and the
  // waiting call may find its sender dropped. This is what the bound of 2^64 requests below rules out.
  lemma RepeatedIdDropsSender(c: Session, r: nat, q: nat)
    requires Enabled(c, Register(r)) && At(c, q, Awaiting) && c.requests[q].channel == None
    requires c.inHand == []
    requires forall id :: id in c.pending && c.pending[id] == q ==> id == IdOf(c.requests[r].ordinal.value)
    ensures Enabled(Apply(c, Register(r)), NoticeDropped(q))
  {
    assert r != q;
    var d := Apply(c, Register(r));
    forall id | id in d.pending ensures d.pending[id] != q {
    }
  }

  // ---- who holds a sender ----

  // The request has entered the table and its call has not returned.
  predicate InFlight(pc: Pc) {
    pc.Registered? || pc.WriteFailed? || pc.Awaiting? || pc.TimerFired?
  }

  // The sender under `id` belongs to a request that carries this id and has not been answered.
  ghost predicate EntryOk(c: Session, id: nat)
    requires id in c.pending
  {
    var r := c.pending[id];
    && Numbers(c, r) && IdOf(c.requests[r].ordinal.value) == id
    && InFlight(c.requests[r].pc) && c.requests[r].channel == None
    && (forall i :: 0 <= i < |c.inHand| ==> c.inHand[i].request != r)
  }

  ghost predicate HandOk(c: Session, i: nat)
    requires i < |c.inHand|
  {
    var r := c.inHand[i].request;
    && Numbers(c, r)
    && c.requests[r].channel == None
    && (InFlight(c.requests[r].pc) || c.requests[r].pc.Returned?)
    && (forall j :: 0 <= j < |c.inHand| && j != i ==> c.inHand[j].request != r)
  }

  // An unanswered request in flight has its sender in the table, under its id, or in the reader's hand.
  ghost predicate RequestOk(c: Session, r: nat)
    requires r < |c.requests|
  {
    var q := c.requests[r];
    && q.pc != SawDroppedSender && q.pc != Returned(Canceled)
    && (InFlight(q.pc) && q.channel == None ==> SenderAlive(c, r))
    && (!InFlight(q.pc) && !q.pc.Returned? ==> q.channel == None)
    && (q.pc.Returned? && q.pc.outcome.Answered? ==> q.channel == Some(q.pc.outcome.delivery))
  }

  ghost predicate SendersInv(c: Session) {
    && (forall id :: id in c.pending ==> EntryOk(c, id))
    && (forall i :: 0 <= i < |c.inHand| ==> HandOk(c, i))
    && (forall r :: 0 <= r < |c.requests| ==> RequestOk(c, r))
  }

  // Without a repeated id, registering never replaces another request's sender.
  lemma RegisterFindsFreeId(c: Session, r: nat)
    requires NumbersInv(c) && SendersInv(c) && Enabled(c, Register(r))
    ensures IdOf(c.requests[r].ordinal.value) !in c.pending
  {
    var id := IdOf(c.requests[r].ordinal.value);
    if id in c.pending {
      assert EntryOk(c, id);
      var q := c.pending[id];
      IdsDistinct(c.requests[q].ordinal.value, c.requests[r].ordinal.value);
      assert false;
    }
  }

  // The table entry under a request's id, if there is one, is its own.
  lemma EntryUnderOwnId(c: Session, r: nat)
    requires NumbersInv(c) && SendersInv(c) && Numbers(c, r) && IdOf(c.requests[r].ordinal.value) in c.pending
    ensures c.pending[IdOf(c.requests[r].ordinal.value)] == r
  {
    var id := IdOf(c.requests[r].ordinal.value);
    assert EntryOk(c, id);
    var q := c.pending[id];
    IdsDistinct(c.requests[q].ordinal.value, c.requests[r].ordinal.value);
  }

  lemma SenderStays(c: Session, d: Session, q: nat)
    requires d.pending == c.pending && d.inHand == c.inHand
    ensures SenderAlive(c, q) <==> SenderAlive(d, q)
  {
  }

  // The action leaves the table, the reader's hand and every channel alone.
  predicate IsQuiet(a: Action) {
    !a.Register? && !a.CleanUp? && !a.Respond? && !a.Deliver? && !a.ReadError? && !a.FinalFail?
  }

  // A request whose sender is in use stays in flight, or returned, under such an action.
  lemma QuietOwner(c: Session, a: Action, r: nat)
    requires Enabled(c, a) && IsQuiet(a)
    requires Numbers(c, r) && c.requests[r].channel == None && SenderAlive(c, r)
    requires InFlight(c.requests[r].pc) || c.requests[r].pc.Returned?
    ensures var d := Apply(c, a);
            && Numbers(d, r) && d.requests[r].ordinal == c.requests[r].ordinal && d.requests[r].channel == None
            && (InFlight(c.requests[r].pc) ==> InFlight(d.requests[r].pc))
            && (c.requests[r].pc.Returned? ==> d.requests[r].pc.Returned?)
  {
  }

  lemma QuietRequest(c: Session, a: Action, q: nat)
    requires Enabled(c, a) && IsQuiet(a) && q < |Apply(c, a).requests|
    requires q < |c.requests| ==> RequestOk(c, q)
    ensures RequestOk(Apply(c, a), q)
  {
    SenderStays(c, Apply(c, a), q);
  }

  lemma QuietSenders(c: Session, a: Action)
    requires NumbersInv(c) && SendersInv(c) && Enabled(c, a)
    requires IsQuiet(a)
    ensures SendersInv(Apply(c, a))
  {
    var d := Apply(c, a);
    assert d.pending == c.pending && d.inHand == c.inHand;
    forall id | id in d.pending ensures EntryOk(d, id) {
      assert EntryOk(c, id);
      QuietOwner(c, a, c.pending[id]);
    }
    forall i | 0 <= i < |d.inHand| ensures HandOk(d, i) {
      assert HandOk(c, i);
      QuietOwner(c, a, c.inHand[i].request);
    }
    forall q | 0 <= q < |d.requests| ensures RequestOk(d, q) {
      if q < |c.requests| { assert RequestOk(c, q); }
      QuietRequest(c, a, q);
    }
  }

  lemma RegisterSenders(c: Session, r: nat)
    requires NumbersInv(c) && SendersInv(c) && Enabled(c, Register(r))
    ensures SendersInv(Apply(c, Register(r)))
  {
    var d, own := Apply(c, Register(r)), IdOf(c.requests[r].ordinal.value);
    RegisterFindsFreeId(c, r);
    assert RequestOk(c, r);
    forall i | 0 <= i < |d.inHand| ensures HandOk(d, i) { assert HandOk(c, i); }
    forall id | id in d.pending ensures EntryOk(d, id) {
      if id != own { assert EntryOk(c, id); }
      forall i | 0 <= i < |d.inHand| ensures d.inHand[i].request != d.pending[id] { assert HandOk(c, i); }
    }
    forall q | 0 <= q < |d.requests| ensures RequestOk(d, q) {
      assert RequestOk(c, q);
      if q == r {
        assert own in d.pending && d.pending[own] == r;
      } else if exists id :: id in c.pending && c.pending[id] == q {
        var id :| id in c.pending && c.pending[id] == q;
        assert id in d.pending && d.pending[id] == q;
      }
    }
  }

  lemma CleanUpSenders(c: Session, r: nat)
    requires NumbersInv(c) && SendersInv(c) && Enabled(c, CleanUp(r))
    ensures SendersInv(Apply(c, CleanUp(r)))
  {
    var d, own := Apply(c, CleanUp(r)), IdOf(c.requests[r].ordinal.value);
    if own in c.pending { EntryUnderOwnId(c, r); }
    forall i | 0 <= i < |d.inHand| ensures HandOk(d, i) { assert HandOk(c, i); }
    forall id | id in d.pending ensures EntryOk(d, id) { assert EntryOk(c, id); }
    forall q | 0 <= q < |d.requests| ensures RequestOk(d, q) {
      assert RequestOk(c, q);
      if q != r && exists id :: id in c.pending && c.pending[id] == q {
        var id :| id in c.pending && c.pending[id] == q;
        assert EntryOk(c, id);
        assert id in d.pending && d.pending[id] == q;
      }
    }
  }

  lemma RespondSenders(c: Session, id: nat, answer: Answer)
    requires NumbersInv(c) && SendersInv(c) && Enabled(c, Respond(id, answer))
    ensures SendersInv(Apply(c, Respond(id, answer)))
  {
    var d := Apply(c, Respond(id, answer));
    if id in c.pending { assert EntryOk(c, id); }
    forall m | m in d.pending ensures EntryOk(d, m) { assert EntryOk(c, m); }
    forall q | 0 <= q < |d.requests| ensures RequestOk(d, q) {
      assert RequestOk(c, q);
      if exists m :: m in c.pending && c.pending[m] == q {
        var m :| m in c.pending && c.pending[m] == q;
        if m == id { assert d.inHand[0].request == q; } else { assert m in d.pending && d.pending[m] == q; }
      }
    }
  }

  lemma DeliverSenders(c: Session)
    requires NumbersInv(c) && SendersInv(c) && Enabled(c, Deliver)
    ensures SendersInv(Apply(c, Deliver))
  {
    var d, r := Apply(c, Deliver), c.inHand[0].request;
    assert HandOk(c, 0);
    forall i | 0 <= i < |d.inHand| ensures HandOk(d, i) {
      assert HandOk(c, i + 1);
      assert d.inHand[i] == c.inHand[i + 1];
    }
    forall id | id in d.pending ensures EntryOk(d, id) { assert EntryOk(c, id); }
    forall q | 0 <= q < |d.requests| ensures RequestOk(d, q) {
      assert RequestOk(c, q);
      if q != r && exists i :: 0 <= i < |c.inHand| && c.inHand[i].request == q {
        var i :| 0 <= i < |c.inHand| && c.inHand[i].request == q;
        assert d.inHand[i - 1].request == q;
      }
    }
  }

  lemma FailSenders(c: Session, order: seq<nat>, message: string)
    requires NumbersInv(c) && SendersInv(c) && c.inHand == [] && WalksTable(order, c.pending)
    ensures SendersInv(Failed(c, order, message))
  {
    var d := Failed(c, order, message);
    forall i | 0 <= i < |d.inHand| ensures HandOk(d, i) {
      assert EntryOk(c, order[i]);
      forall j | 0 <= j < |d.inHand| && j != i ensures d.inHand[j].request != d.inHand[i].request {
        assert EntryOk(c, order[j]) && order[i] != order[j];
      }
    }
    forall q | 0 <= q < |d.requests| ensures RequestOk(d, q) {
      assert RequestOk(c, q);
      if exists m :: m in c.pending && c.pending[m] == q {
        var m :| m in c.pending && c.pending[m] == q;
        var i :| 0 <= i < |order| && order[i] == m;
        assert d.inHand[i].request == q;
      }
    }
  }

  lemma SendersKept(c: Session, a: Action)
    requires NumbersInv(c) && SendersInv(c) && Enabled(c, a)
    ensures SendersInv(Apply(c, a))
  {
    match a
    case Register(r) => RegisterSenders(c, r);
    case CleanUp(r) => CleanUpSenders(c, r);
    case Respond(id, answer) => RespondSenders(c, id, answer);
    case Deliver => DeliverSenders(c);
    case ReadError(message, order) => FailedReaderState(c, order, message, Broken);
    case FinalFail(order) => FailedReaderState(c, order, "Language server exited", Closed);
    case _ => QuietSenders(c, a);
  }

  lemma FailedReaderState(c: Session, order: seq<nat>, message: string, reader: Reader)
    requires NumbersInv(c) && SendersInv(c) && c.inHand == [] && WalksTable(order, c.pending)
    ensures SendersInv(Failed(c, order, message).(reader := reader))
  {
    FailSenders(c, order, message);
    var d, e := Failed(c, order, message), Failed(c, order, message).(reader := reader);
    forall i | 0 <= i < |e.inHand| ensures HandOk(e, i) { assert HandOk(d, i); }
    forall q | 0 <= q < |e.requests| ensures RequestOk(e, q) { assert RequestOk(d, q); SenderStays(d, e, q); }
  }

  // ---- which response answers a request ----

  // `answer` is the server's first response with the request's id since the request was registered.
  ghost predicate FirstResponse(c: Session, r: nat, answer: Answer)
    requires Numbers(c, r)
  {
    exists k :: FirstResponseAt(c, r, answer, k)
  }

  ghost predicate FirstResponseAt(c: Session, r: nat, answer: Answer, k: nat)
    requires Numbers(c, r)
  {
    var id, since := IdOf(c.requests[r].ordinal.value), c.requests[r].since;
    since <= k < |c.responses| && c.responses[k] == Response(id, answer) && NoneYet(c, id, since, k)
  }

  ghost predicate NoneYet(c: Session, id: nat, since: nat, until: nat)
    requires until <= |c.responses|
  {
    forall j :: since <= j < until ==> c.responses[j].id != id
  }

  ghost predicate Justified(c: Session, r: nat, d: Delivery)
    requires Numbers(c, r)
  {
    d.FromServer? ==> d.id == IdOf(c.requests[r].ordinal.value) && FirstResponse(c, r, d.answer)
  }

  ghost predicate AnswersInv(c: Session) {
    && (forall id :: id in c.pending && Numbers(c, c.pending[id]) ==>
          && c.requests[c.pending[id]].since <= |c.responses|
          && NoneYet(c, id, c.requests[c.pending[id]].since, |c.responses|))
    && (forall i :: 0 <= i < |c.inHand| && Numbers(c, c.inHand[i].request) ==>
          Justified(c, c.inHand[i].request, c.inHand[i].delivery))
    && (forall r :: 0 <= r < |c.requests| && Numbers(c, r) && c.requests[r].channel.Some? ==>
          Justified(c, r, c.requests[r].channel.value))
  }

  lemma JustifiedStays(c: Session, a: Action, r: nat, d: Delivery)
    requires NumbersInv(c) && Enabled(c, a) && Numbers(c, r) && c.requests[r].pc != Numbered && Justified(c, r, d)
    ensures Numbers(Apply(c, a), r) && Justified(Apply(c, a), r, d)
  {
    var e := Apply(c, a);
    RegisteredStays(c, a, r);
    ResponsesGrow(c, a);
    if d.FromServer? {
      var k :| FirstResponseAt(c, r, d.answer, k);
      assert FirstResponseAt(e, r, d.answer, k);
    }
  }

  // Where a table entry, a response and a sender in hand come from.
  lemma TableEntryFrom(c: Session, a: Action, id: nat)
    requires Enabled(c, a) && id in Apply(c, a).pending
    ensures || (a.Register? && Apply(c, a).pending[id] == a.r && IdOf(c.requests[a.r].ordinal.value) == id)
            || (id in c.pending && Apply(c, a).pending[id] == c.pending[id])
    ensures a.Respond? ==> a.id != id
  {
  }

  lemma ResponsesGrow(c: Session, a: Action)
    requires Enabled(c, a)
    ensures Apply(c, a).responses == c.responses + if a.Respond? then [Response(a.id, a.answer)] else []
  {
  }

  lemma SenderInHandFrom(c: Session, a: Action, i: nat)
    requires Enabled(c, a) && i < |Apply(c, a).inHand|
    requires !a.ReadError? && !a.FinalFail? && !(a.Respond? && a.id in c.pending)
    ensures var k := if a.Deliver? then i + 1 else i;
            k < |c.inHand| && Apply(c, a).inHand[i] == c.inHand[k]
  {
  }

  lemma RegisteredStays(c: Session, a: Action, r: nat)
    requires Enabled(c, a) && Numbers(c, r) && c.requests[r].pc != Numbered && c.requests[r].pc != Checked
    ensures Numbers(Apply(c, a), r) && Apply(c, a).requests[r].ordinal == c.requests[r].ordinal
    ensures Apply(c, a).requests[r].since == c.requests[r].since
  {
  }

  lemma TableAnswersKept(c: Session, a: Action, id: nat)
    requires NumbersInv(c) && SendersInv(c) && AnswersInv(c) && Enabled(c, a)
    requires id in Apply(c, a).pending && Numbers(Apply(c, a), Apply(c, a).pending[id])
    ensures Apply(c, a).requests[Apply(c, a).pending[id]].since <= |Apply(c, a).responses|
    ensures NoneYet(Apply(c, a), id, Apply(c, a).requests[Apply(c, a).pending[id]].since, |Apply(c, a).responses|)
  {
    var e := Apply(c, a);
    TableEntryFrom(c, a, id);
    ResponsesGrow(c, a);
    if a.Register? && e.pending[id] == a.r {
      assert e.requests[a.r].since == |c.responses|;
    } else {
      assert EntryOk(c, id);
      RegisteredStays(c, a, c.pending[id]);
    }
  }

  lemma RespondedJustified(c: Session, id: nat, answer: Answer)
    requires NumbersInv(c) && SendersInv(c) && AnswersInv(c) && Enabled(c, Respond(id, answer)) && id in c.pending
    ensures var e := Responded(c, id, answer);
            Numbers(e, c.pending[id]) && Justified(e, c.pending[id], FromServer(id, answer))
  {
    assert EntryOk(c, id);
    assert FirstResponseAt(Responded(c, id, answer), c.pending[id], answer, |c.responses|);
  }

  lemma HandAnswersKept(c: Session, a: Action, i: nat)
    requires NumbersInv(c) && SendersInv(c) && AnswersInv(c) && Enabled(c, a)
    requires i < |Apply(c, a).inHand| && Numbers(Apply(c, a), Apply(c, a).inHand[i].request)
    ensures Justified(Apply(c, a), Apply(c, a).inHand[i].request, Apply(c, a).inHand[i].delivery)
  {
    var e := Apply(c, a);
    if a.Respond? && a.id in c.pending {
      RespondedJustified(c, a.id, a.answer);
    } else if !a.ReadError? && !a.FinalFail? {
      var k := if a.Deliver? then i + 1 else i;
      SenderInHandFrom(c, a, i);
      assert HandOk(c, k);
      JustifiedStays(c, a, e.inHand[i].request, e.inHand[i].delivery);
    }
  }

  lemma ChannelFrom(c: Session, a: Action, r: nat)
    requires Enabled(c, a) && r < |Apply(c, a).requests| && Apply(c, a).requests[r].channel.Some?
    ensures r < |c.requests|
    ensures || Apply(c, a).requests[r].channel == c.requests[r].channel
            || (a.Deliver? && c.inHand[0] == Sender(r, Apply(c, a).requests[r].channel.value))
  {
  }

  // An answered request has a number, and is past being numbered.
  lemma NumberedFrom(c: Session, r: nat)
    requires NumbersInv(c) && r < |c.requests| && RequestOk(c, r) && c.requests[r].channel.Some?
    ensures InFlight(c.requests[r].pc) || c.requests[r].pc.Returned?
    ensures c.requests[r].pc != Returned(NotRunning) ==> Numbers(c, r)
  {
  }

  lemma ChannelAnswersKept(c: Session, a: Action, r: nat)
    requires NumbersInv(c) && SendersInv(c) && AnswersInv(c) && Enabled(c, a)
    requires Numbers(Apply(c, a), r) && Apply(c, a).requests[r].channel.Some?
    ensures Justified(Apply(c, a), r, Apply(c, a).requests[r].channel.value)
  {
    ChannelFrom(c, a, r);
    if c.requests[r].channel == Apply(c, a).requests[r].channel {
      assert RequestOk(c, r);
      NumberedFrom(c, r);
      JustifiedStays(c, a, r, c.requests[r].channel.value);
    } else {
      assert HandOk(c, 0);
      JustifiedStays(c, a, r, c.inHand[0].delivery);
    }
  }

  lemma AnswersKept(c: Session, a: Action)
    requires NumbersInv(c) && SendersInv(c) && AnswersInv(c) && Enabled(c, a)
    ensures AnswersInv(Apply(c, a))
  {
    var e := Apply(c, a);
    forall id | id in e.pending && Numbers(e, e.pending[id])
      ensures e.requests[e.pending[id]].since <= |e.responses|
      ensures NoneYet(e, id, e.requests[e.pending[id]].since, |e.responses|)
    {
      TableAnswersKept(c, a, id);
    }
    forall i | 0 <= i < |e.inHand| && Numbers(e, e.inHand[i].request)
      ensures Justified(e, e.inHand[i].request, e.inHand[i].delivery)
    {
      HandAnswersKept(c, a, i);
    }
    forall r | 0 <= r < |e.requests| && Numbers(e, r) && e.requests[r].channel.Some?
      ensures Justified(e, r, e.requests[r].channel.value)
    {
      ChannelAnswersKept(c, a, r);
    }
  }

  // ---- every run ----

  lemma {:induction false} RunKeepsCorrelation(actions: seq<Action>, c: Session)
    requires Run(actions, c) && c.issued <= ID_SPACE
    ensures NumbersInv(c) && SendersInv(c) && AnswersInv(c)
  {
    if actions != [] {
      var a, b := actions[|actions| - 1], Exec(actions[..|actions| - 1]).value;
      assert b.issued <= c.issued;
      RunKeepsCorrelation(actions[..|actions| - 1], b);
      NumbersKept(b, a);
      SendersKept(b, a);
      AnswersKept(b, a);
    }
  }

  // In every run that starts at most 2^64 requests, a request answered by the server got the first
  // response with its own id that arrived after it was registered.
  lemma AnswerIsOwnFirstResponse(actions: seq<Action>, c: Session, r: nat, id: nat, answer: Answer)
    requires Run(actions, c) && c.issued <= ID_SPACE
    requires At(c, r, Returned(Answered(FromServer(id, answer))))
    ensures Numbers(c, r) && id == IdOf(c.requests[r].ordinal.value) && FirstResponse(c, r, answer)
  {
    RunKeepsCorrelation(actions, c);
    assert RequestOk(c, r);
  }

  // A request that has returned is no longer in the table, so its id answers nobody: any response
  // with that id, late or repeated, changes no request, no table entry and nothing in the reader's hand.
  lemma ReturnedRequestIsGone(actions: seq<Action>, c: Session, r: nat, answer: Answer)
    requires Run(actions, c) && c.issued <= ID_SPACE
    requires Numbers(c, r) && c.requests[r].pc.Returned?
    ensures var id := IdOf(c.requests[r].ordinal.value);
            && id !in c.pending
            && Responded(c, id, answer) == c.(responses := c.responses + [Response(id, answer)])
  {
    RunKeepsCorrelation(actions, c);
    var id := IdOf(c.requests[r].ordinal.value);
    if id in c.pending {
      EntryUnderOwnId(c, r);
      assert false;
    }
  }

  // The branch for a dropped sender is dead: no call ever returns "canceled".
  lemma NeverCanceled(actions: seq<Action>, c: Session, r: nat)
    requires Run(actions, c) && c.issued <= ID_SPACE && r < |c.requests|
    ensures c.requests[r].pc != Returned(Canceled)
    ensures !Enabled(c, NoticeDropped(r))
  {
    RunKeepsCorrelation(actions, c);
    assert RequestOk(c, r);
  }

  // ---- failing what is left ----

  // The request was or will be sent this failure, unless its call returns first.
  ghost predicate Promised(c: Session, r: nat, d: Delivery)
    requires r < |c.requests|
  {
    || c.requests[r].channel == Some(d)
    || (exists i :: 0 <= i < |c.inHand| && c.inHand[i] == Sender(r, d))
    || c.requests[r].pc.Returned?
  }

  // fail_pending empties the table and promises the failure to every request that was in it.
  lemma FailAnswersEverybody(c: Session, order: seq<nat>, message: string, id: nat)
    requires WalksTable(order, c.pending) && id in c.pending && c.pending[id] < |c.requests|
    ensures Failed(c, order, message).pending == map[]
    ensures Promised(Failed(c, order, message), c.pending[id], FromFailure(message))
  {
    var i :| 0 <= i < |order| && order[i] == id;
    assert Failed(c, order, message).inHand[i] == Sender(c.pending[id], FromFailure(message));
  }

  lemma AnswerStays(c: Session, a: Action, r: nat)
    requires Enabled(c, a) && r < |c.requests|
    requires a.Deliver? ==> c.inHand[0].request != r || c.requests[r].channel == None
    ensures r < |Apply(c, a).requests|
    ensures c.requests[r].channel.Some? ==> Apply(c, a).requests[r].channel == c.requests[r].channel
    ensures c.requests[r].pc.Returned? ==> Apply(c, a).requests[r].pc.Returned?
  {
  }

  // A sender in hand is used next or stays in hand.
  lemma SenderUsedOrKept(c: Session, a: Action, i: nat)
    requires Enabled(c, a) && i < |c.inHand| && c.inHand[i].request < |c.requests|
    ensures var Sender(r, d), e := c.inHand[i], Apply(c, a);
            || (exists k :: 0 <= k < |e.inHand| && e.inHand[k] == Sender(r, d))
            || (e.requests[r].pc.Returned? || e.requests[r].channel == Some(d))
  {
    var e := Apply(c, a);
    if a.Deliver? {
      if i > 0 { assert e.inHand[i - 1] == c.inHand[i]; }
    } else {
      assert e.inHand == c.inHand;
    }
  }

  // The promise survives every step of every task, and is fulfilled once the reader's hand is empty.
  lemma PromiseKept(actions: seq<Action>, c: Session, a: Action, r: nat, d: Delivery)
    requires Run(actions, c) && c.issued <= ID_SPACE && Enabled(c, a)
    requires r < |c.requests| && Promised(c, r, d)
    ensures r < |Apply(c, a).requests| && Promised(Apply(c, a), r, d)
    ensures Apply(c, a).inHand == [] && !Apply(c, a).requests[r].pc.Returned? ==>
              Apply(c, a).requests[r].channel == Some(d)
  {
    RunKeepsCorrelation(actions, c);
    if a.Deliver? { assert HandOk(c, 0); }
    AnswerStays(c, a, r);
    if c.requests[r].channel != Some(d) && !c.requests[r].pc.Returned? {
      var i :| 0 <= i < |c.inHand| && c.inHand[i] == Sender(r, d);
      SenderUsedOrKept(c, a, i);
    }
  }

  // ---- calls that come too late ----

  lemma RunExtends(actions: seq<Action>, c: Session, a: Action)
    requires Run(actions, c) && Enabled(c, a)
    ensures Run(actions + [a], Apply(c, a))
  {
    assert (actions + [a])[..|actions|] == actions;
  }

  // The state before the last of some further actions.
  lemma RunBeforeLast(before: seq<Action>, after: seq<Action>, d: Session) returns (b: Session)
    requires after != [] && Run(before + after, d)
    ensures Run(before + after[..|after| - 1], b) && Enabled(b, after[|after| - 1]) && d == Apply(b, after[|after| - 1])
  {
    var front := after[..|after| - 1];
    assert (before + after)[..|before + after| - 1] == before + front;
    b := Exec(before + front).value;
  }

  // The reader has closed without a sender of this unanswered request.
  predicate Forgotten(c: Session, r: nat)
    requires r < |c.requests|
  {
    && c.reader == Closed && c.requests[r].channel == None
    && forall i :: 0 <= i < |c.inHand| ==> c.inHand[i].request != r
  }

  lemma ForgottenStays(c: Session, a: Action, r: nat)
    requires Enabled(c, a) && r < |c.requests| && Forgotten(c, r)
    ensures r < |Apply(c, a).requests| && Forgotten(Apply(c, a), r)
  {
    if a.Deliver? {
      assert forall i :: 0 <= i < |c.inHand[1..]| ==> c.inHand[1..][i] == c.inHand[i + 1];
    }
  }

  lemma {:induction false} ForgottenForGood(before: seq<Action>, c: Session, after: seq<Action>, d: Session, r: nat)
    requires Run(before, c) && Run(before + after, d) && r < |c.requests| && Forgotten(c, r)
    ensures r < |d.requests| && Forgotten(d, r)
  {
    if after == [] {
      assert before + after == before;
    } else {
      var b := RunBeforeLast(before, after, d);
      ForgottenForGood(before, c, after[..|after| - 1], b, r);
      ForgottenStays(b, after[|after| - 1], r);
    }
  }

  lemma {:induction false} PromisedForGood(
      before: seq<Action>, c: Session, after: seq<Action>, d: Session, r: nat, failure: Delivery)
    requires Run(before, c) && Run(before + after, d) && d.issued <= ID_SPACE
    requires r < |c.requests| && Promised(c, r, failure)
    ensures r < |d.requests| && Promised(d, r, failure)
  {
    if after == [] {
      assert before + after == before;
    } else {
      var b := RunBeforeLast(before, after, d);
      assert b.issued <= d.issued;
      PromisedForGood(before, c, after[..|after| - 1], b, r, failure);
      PromiseKept(before + after[..|after| - 1], b, after[|after| - 1], r, failure);
    }
  }

  // The request is in the table, under its own id.
  predicate InTable(c: Session, r: nat) {
    Numbers(c, r) && IdOf(c.requests[r].ordinal.value) in c.pending
  }

  const EXITED := FromFailure("Language server exited")

  // Whom the last fail_pending reaches: an unanswered call is promised the failure if and only if its
  // id is in the table at that moment, and is forgotten otherwise.
  lemma FinalFailReachesIff(actions: seq<Action>, c: Session, order: seq<nat>, r: nat)
    requires Run(actions, c) && c.issued <= ID_SPACE && Enabled(c, FinalFail(order))
    requires r < |c.requests| && c.requests[r].channel == None && !c.requests[r].pc.Returned?
    ensures var e := Apply(c, FinalFail(order));
            && (Promised(e, r, EXITED) <==> InTable(c, r))
            && (Forgotten(e, r) <==> !InTable(c, r))
  {
    RunKeepsCorrelation(actions, c);
    var e := Apply(c, FinalFail(order));
    if InTable(c, r) {
      EntryUnderOwnId(c, r);
      FailAnswersEverybody(c, order, "Language server exited", IdOf(c.requests[r].ordinal.value));
    }
    forall i | 0 <= i < |e.inHand| && e.inHand[i].request == r ensures InTable(c, r) {
      assert order[i] in c.pending && EntryOk(c, order[i]);
    }
  }

  // What that means for every continuation: a call in the table keeps its promise, any other call
  // still unanswered is never answered and can only be turned away, fail to write or time out.
  lemma LateCallIsNeverAnswered(
      before: seq<Action>, c: Session, order: seq<nat>, after: seq<Action>, d: Session, r: nat)
    requires Run(before, c) && Enabled(c, FinalFail(order)) && Run(before + [FinalFail(order)] + after, d)
    requires c.issued <= ID_SPACE && d.issued <= ID_SPACE
    requires r < |c.requests| && c.requests[r].channel == None && !c.requests[r].pc.Returned?
    ensures r < |d.requests|
    ensures InTable(c, r) ==> Promised(d, r, EXITED)
    ensures !InTable(c, r) ==> d.requests[r].channel == None
    ensures !InTable(c, r) && d.requests[r].pc.Returned? ==>
              d.requests[r].pc.outcome in {NotRunning, WriteError, TimedOut}
  {
    var upTo, e := before + [FinalFail(order)], Apply(c, FinalFail(order));
    RunExtends(before, c, FinalFail(order));
    FinalFailReachesIff(before, c, order, r);
    if InTable(c, r) {
      PromisedForGood(upTo, e, after, d, r, EXITED);
    } else {
      ForgottenForGood(upTo, e, after, d, r);
      NeverCanceled(upTo + after, d, r);
      RunKeepsCorrelation(upTo + after, d);
      assert RequestOk(d, r);
    }
  }

  // Such calls exist: one passes the liveness check, the server exits and the table is failed without
  // it, and it waits until its own timeout.
  lemma LateCallExists() returns (before: seq<Action>, c: Session, after: seq<Action>, d: Session)
    ensures Run(before, c) && Enabled(c, FinalFail([])) && At(c, 0, Checked) && !InTable(c, 0)
    ensures Run(before + [FinalFail([])] + after, d) && At(d, 0, Returned(TimedOut))
  {
    var c1 := Apply(OPEN, Start);
    var c2 := Apply(c1, CheckAlive(0));
    c := Apply(c2, ReaderEnds);
    RunExtends([], OPEN, Start);
    RunExtends([Start], c1, CheckAlive(0));
    RunExtends([Start] + [CheckAlive(0)], c2, ReaderEnds);
    before := [Start] + [CheckAlive(0)] + [ReaderEnds];
    var e := Apply(c, FinalFail([]));
    RunExtends(before, c, FinalFail([]));
    after, d := TimesOut(before + [FinalFail([])], e);
  }

  // An only call that passed the liveness check is numbered, registered and written.
  lemma StartsWaiting(before: seq<Action>, e: Session) returns (after: seq<Action>, d: Session)
    requires Run(before, e) && e.requests == [Request(Checked, None, None, 0)]
    ensures Run(before + after, d) && d.requests == [Request(Awaiting, Some(e.issued), None, |e.responses|)]
    ensures d == e.(requests := d.requests, issued := e.issued + 1, pending := e.pending[IdOf(e.issued) := 0])
  {
    var d1 := Apply(e, TakeId(0));
    var d2 := Apply(d1, Register(0));
    d := Apply(d2, WriteOk(0));
    RunExtends(before, e, TakeId(0));
    RunExtends(before + [TakeId(0)], d1, Register(0));
    RunExtends(before + [TakeId(0)] + [Register(0)], d2, WriteOk(0));
    after := [TakeId(0)] + [Register(0)] + [WriteOk(0)];
    assert before + after == before + [TakeId(0)] + [Register(0)] + [WriteOk(0)];
  }

  lemma TimesOut(before: seq<Action>, e: Session) returns (after: seq<Action>, d: Session)
    requires Run(before, e) && e.requests == [Request(Checked, None, None, 0)]
    ensures Run(before + after, d) && At(d, 0, Returned(TimedOut))
  {
    var waiting, d1 := StartsWaiting(before, e);
    var d2 := Apply(d1, FireTimer(0));
    RunExtends(before + waiting, d1, FireTimer(0));
    d := Apply(d2, CleanUp(0));
    RunExtends(before + waiting + [FireTimer(0)], d2, CleanUp(0));
    after := waiting + [FireTimer(0)] + [CleanUp(0)];
    assert before + after == before + waiting + [FireTimer(0)] + [CleanUp(0)];
  }

  // ---- when an id repeats ----

  // One call waits, and `n` more have been numbered behind it.
  ghost predicate Crowded(c: Session, n: nat) {
    && |c.requests| == n + 1 && c.issued == n + 1 && c.alive && c.inHand == []
    && c.requests[0] == Request(Awaiting, Some(0), None, 0) && c.pending == map[IdOf(0) := 0]
    && (n > 0 ==> c.requests[n] == Request(Numbered, Some(n), None, 0))
  }

  lemma FirstCallWaits() returns (actions: seq<Action>, c: Session)
    ensures Run(actions, c) && Crowded(c, 0)
  {
    var c1 := Apply(OPEN, Start);
    var c2 := Apply(c1, CheckAlive(0));
    RunExtends([], OPEN, Start);
    RunExtends([Start], c1, CheckAlive(0));
    var after;
    after, c := StartsWaiting([Start] + [CheckAlive(0)], c2);
    actions := [Start] + [CheckAlive(0)] + after;
  }

  lemma {:induction false} MoreCallsNumbered(n: nat) returns (actions: seq<Action>, c: Session)
    ensures Run(actions, c) && Crowded(c, n)
  {
    if n == 0 {
      actions, c := FirstCallWaits();
    } else {
      var front, b := MoreCallsNumbered(n - 1);
      actions, c := OneMoreCall(front, b, n);
    }
  }

  lemma OneMoreCall(front: seq<Action>, b: Session, n: nat) returns (actions: seq<Action>, c: Session)
    requires n > 0 && Run(front, b) && Crowded(b, n - 1)
    ensures Run(actions, c) && Crowded(c, n)
  {
    var c1 := Apply(b, Start);
    var c2 := Apply(c1, CheckAlive(n));
    c := Apply(c2, TakeId(n));
    RunExtends(front, b, Start);
    RunExtends(front + [Start], c1, CheckAlive(n));
    RunExtends(front + [Start] + [CheckAlive(n)], c2, TakeId(n));
    actions := front + [Start] + [CheckAlive(n)] + [TakeId(n)];
  }

  // A run that orphans a waiting call: while it waits, 2^64 more calls are numbered, and the last of
  // them takes its id and its place in the table.
  lemma WaitingCallIsOrphaned() returns (actions: seq<Action>, c: Session)
    ensures Run(actions, c) && c.issued == ID_SPACE + 1 && Enabled(c, NoticeDropped(0))
  {
    var front, b := MoreCallsNumbered(ID_SPACE);
    assert IdOf(ID_SPACE) == IdOf(0);
    assert Enabled(b, Register(ID_SPACE)) && At(b, 0, Awaiting);
    c := Apply(b, Register(ID_SPACE));
    RunExtends(front, b, Register(ID_SPACE));
    RepeatedIdDropsSender(b, ID_SPACE, 0);
    actions := front + [Register(ID_SPACE)];
  }

  ghost predicate CanBeOrphaned(issued: nat) {
    exists actions, c, r: nat :: Run(actions, c) && c.issued <= issued && Enabled(c, NoticeDropped(r))
  }

  // So a waiting call can find its sender dropped if and only if more than 2^64 ids are issued.
  lemma OrphanedIff(issued: nat)
    ensures CanBeOrphaned(issued) <==> issued > ID_SPACE
  {
    if issued > ID_SPACE {
      var actions, c := WaitingCallIsOrphaned();
    } else if CanBeOrphaned(issued) {
      var actions, c, r: nat :| Run(actions, c) && c.issued <= issued && Enabled(c, NoticeDropped(r));
      NeverCanceled(actions, c, r);
      assert false;
    }
  }

  // ---- how a call ends ----

  // A call that has not passed its liveness check, or was turned away there.
  predicate KeptOut(q: Request) {
    q.ordinal == None && (q.pc.Started? || q.pc == Returned(NotRunning))
  }

  lemma KeptOutStays(c: Session, a: Action, r: nat)
    requires Enabled(c, a) && !c.alive && r < |Apply(c, a).requests| && (r < |c.requests| ==> KeptOut(c.requests[r]))
    ensures !Apply(c, a).alive && KeptOut(Apply(c, a).requests[r])
  {
  }

  lemma {:induction false} KeptOutForGood(before: seq<Action>, c: Session, after: seq<Action>, d: Session, r: nat)
    requires Run(before, c) && Run(before + after, d) && !c.alive
    requires r < |c.requests| ==> KeptOut(c.requests[r])
    ensures !d.alive && |c.requests| <= |d.requests| && (r < |d.requests| ==> KeptOut(d.requests[r]))
  {
    if after == [] {
      assert before + after == before;
    } else {
      var b := RunBeforeLast(before, after, d);
      KeptOutForGood(before, c, after[..|after| - 1], b, r);
      if r < |d.requests| { KeptOutStays(b, after[|after| - 1], r); }
    }
  }

  // Before fetch_add a call has no number.
  predicate YetUnnumbered(q: Request) {
    q.pc.Started? || q.pc.Checked? ==> q.ordinal == None
  }

  lemma UnnumberedStays(c: Session, a: Action, r: nat)
    requires Enabled(c, a) && r < |Apply(c, a).requests| && (r < |c.requests| ==> YetUnnumbered(c.requests[r]))
    ensures YetUnnumbered(Apply(c, a).requests[r])
  {
  }

  lemma {:induction false} StartedUnnumbered(actions: seq<Action>, c: Session, r: nat)
    requires Run(actions, c) && r < |c.requests|
    ensures YetUnnumbered(c.requests[r])
  {
    if actions != [] {
      var a, b := actions[|actions| - 1], Exec(actions[..|actions| - 1]).value;
      if r < |b.requests| { StartedUnnumbered(actions[..|actions| - 1], b, r); }
      UnnumberedStays(b, a, r);
    }
  }

  // Once the server has exited or is being stopped, a call that starts later, or has started but not
  // passed its check, gets no number, and all it can return is that the server is not running.
  lemma NoCallAfterEnd(before: seq<Action>, c: Session, end: Action, after: seq<Action>, d: Session, r: nat)
    requires Run(before, c) && (end.ReaderEnds? || end.StopSession?) && Enabled(c, end)
    requires Run(before + [end] + after, d) && r < |d.requests|
    requires r < |c.requests| ==> c.requests[r].pc.Started?
    ensures d.requests[r].ordinal == None
    ensures d.requests[r].pc.Started? || d.requests[r].pc == Returned(NotRunning)
  {
    RunExtends(before, c, end);
    if r < |c.requests| { StartedUnnumbered(before, c, r); }
    KeptOutForGood(before + [end], Apply(c, end), after, d, r);
  }

  // What a call returns, by the step that decided it.
  ghost predicate EndsAs(pc: Pc, taken: seq<Action>, r: nat) {
    && (WriteFail(r) in taken <==> pc == WriteFailed || pc == Returned(WriteError))
    && (FireTimer(r) in taken <==> pc == TimerFired || pc == Returned(TimedOut))
    && (NoticeDropped(r) in taken <==> pc == SawDroppedSender || pc == Returned(Canceled))
    && (Receive(r) in taken <==> pc.Returned? && pc.outcome.Answered?)
    && (TakeId(r) in taken <==> !Unnumbered(pc))
  }

  lemma EndStep(c: Session, a: Action, taken: seq<Action>, r: nat)
    requires Enabled(c, a) && r < |c.requests| && EndsAs(c.requests[r].pc, taken, r)
    ensures r < |Apply(c, a).requests| && EndsAs(Apply(c, a).requests[r].pc, taken + [a], r)
  {
  }

  lemma {:induction false} EndFollows(before: seq<Action>, c: Session, after: seq<Action>, d: Session, r: nat)
    requires Run(before, c) && At(c, r, Started) && Run(before + after, d)
    ensures r < |d.requests| && EndsAs(d.requests[r].pc, after, r)
  {
    if after == [] {
      assert before + after == before;
    } else {
      var front, a := after[..|after| - 1], after[|after| - 1];
      var b := RunBeforeLast(before, after, d);
      EndFollows(before, c, front, b, r);
      EndStep(b, a, front, r);
      assert after == front + [a];
    }
  }

  // A call returns the write's failure if and only if its write failed, a timeout if and only if its
  // timer fired, an answer if and only if it received one, and is turned away if and only if none of
  // the three happened to it.
  lemma OutcomeFollowsStep(before: seq<Action>, c: Session, after: seq<Action>, d: Session, r: nat)
    requires Run(before, c) && At(c, r, Started) && Run(before + after, d) && d.issued <= ID_SPACE
    requires r < |d.requests| && d.requests[r].pc.Returned?
    ensures var outcome := d.requests[r].pc.outcome;
            && (outcome == WriteError <==> WriteFail(r) in after)
            && (outcome == TimedOut <==> FireTimer(r) in after)
            && (outcome.Answered? <==> Receive(r) in after)
            && (outcome == NotRunning <==> TakeId(r) !in after)
  {
    EndFollows(before, c, after, d, r);
    NeverCanceled(before + after, d, r);
  }

  // An error of the reader reaches whoever is in the table then: the answer is that error, unless the
  // call ends first.
  lemma ReadErrorIsPromised(
      before: seq<Action>, c: Session, message: string, order: seq<nat>, after: seq<Action>, d: Session, r: nat)
    requires Run(before, c) && Enabled(c, ReadError(message, order)) && InTable(c, r)
    requires Run(before + [ReadError(message, order)] + after, d) && c.issued <= ID_SPACE && d.issued <= ID_SPACE
    ensures r < |d.requests| && Promised(d, r, FromFailure(message))
  {
    var e := Apply(c, ReadError(message, order));
    RunKeepsCorrelation(before, c);
    RunExtends(before, c, ReadError(message, order));
    EntryUnderOwnId(c, r);
    FailAnswersEverybody(c, order, message, IdOf(c.requests[r].ordinal.value));
    PromisedForGood(before + [ReadError(message, order)], e, after, d, r, FromFailure(message));
  }
}
