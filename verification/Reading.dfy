/**
 * One `ReadRows` operation over any number of broken streams.
 *
 * The network is a function from the attempt number and the request to an answer; the clock is a function of
 * the attempt number. `Run` is what an operation does against them; `ReadOperation` is the object that does it.
 */
module Reading {
  import opened Wrappers
  import opened Keys
  import opened Rows
  import opened Codes
  import opened Queries
  import opened Merging
  import opened Wire
  import opened Resuming
  import opened ScanOrder

  datatype Message = Message(lastScannedRowKey: Bytes, chunks: seq<Chunk>)

  /** A message, and how many of its rows the receiver takes before it goes away. */
  datatype Delivery = Delivery(message: Message, room: nat)

  datatype StreamEnd = Broken(code: Code) | TimedOut | ReceiverGone | Ended

  datatype Answer =
    | Refused(code: Code)
    | StartTimedOut
    | StartCancelled
    | Stream(deliveries: seq<Delivery>, end: StreamEnd)

  datatype Pause = Slept | TooLong | Interrupted

  /** The time decisions of one attempt: deadline passed before it, backoff before it, deadline passed after that. */
  datatype Clock = Clock(expired: bool, pause: Pause, late: bool)

  type Service = (nat, ReadRowsRequest) -> Answer

  datatype ReadError =
    | ReadDeadlineExceeded(attempts: nat)
    | ReadRows(attempts: nat, code: Code)
    | InvalidReadRowsResponse(issue: Issue)

  datatype Ending = Finished | Stopped | Failed(error: ReadError)

  /** All a caller sees of an operation. */
  datatype Report = Report(delivered: seq<Row>, attempts: nat, ending: Ending)

  datatype Op = Op(
    original: ReadRowsRequest, maxAttempts: nat, attempts: nat, rowsReturned: nat, machine: Machine,
    delivered: seq<Row>)

  datatype Turn = Again(op: Op, code: Code) | Over(report: Report)

  function DataOf(chunks: seq<Chunk>): (events: seq<Event>)
    ensures |events| == |chunks| && forall i :: 0 <= i < |chunks| ==> events[i] == Data(chunks[i])
  {
    seq(|chunks|, i requires 0 <= i < |chunks| => Data(chunks[i]))
  }

  /** A message is its scan marker, if it carries one, and then its chunks. */
  function EventsOf(message: Message): seq<Event> {
    (if message.lastScannedRowKey != [] then [Marker(message.lastScannedRowKey)] else []) + DataOf(message.chunks)
  }

  predicate LimitReached(op: Op) {
    op.original.rowsLimit > 0 && op.rowsReturned >= op.original.rowsLimit
  }

  function End(op: Op, ending: Ending): Turn { Over(Report(op.delivered, op.attempts, ending)) }

  /** The messages of one stream, then its end. */
  function Serve(op: Op, deliveries: seq<Delivery>, end: StreamEnd): Turn
    decreases |deliveries|
  {
    if deliveries == [] then
      match end
      case Broken(code) => Again(op.(machine := Discard(op.machine)), code)
      case TimedOut => Again(op.(machine := Discard(op.machine)), DeadlineExceeded)
      case ReceiverGone => End(op, Stopped)
      case Ended =>
        if op.machine.at.Between? then End(op, Finished)
        else End(op, Failed(InvalidReadRowsResponse(IncompleteRow)))
    else
      var fed := Feed(op.machine, EventsOf(deliveries[0].message));
      var room := deliveries[0].room;
      if |fed.rows| > room then End(op.(delivered := op.delivered + fed.rows[..room]), Stopped)
      else
        var next := op.(machine := fed.machine, rowsReturned := op.rowsReturned + |fed.rows|,
          delivered := op.delivered + fed.rows);
        if fed.issue.Some? then End(next, Failed(InvalidReadRowsResponse(fed.issue.value)))
        else if LimitReached(next) then End(next, Finished)
        else Serve(next, deliveries[1..], end)
  }

  /** One pass through opening a stream and, if it opens, reading it. */
  function Try(op: Op, failure: Option<Code>, clock: Clock, service: Service): Turn {
    if clock.expired then End(op, Failed(ReadDeadlineExceeded(op.attempts)))
    else if failure.Some? && (!IsRetryable(failure.value) || op.attempts >= op.maxAttempts) then
      End(op, Failed(ReadRows(op.attempts, failure.value)))
    else if failure.Some? && clock.pause.TooLong? then End(op, Failed(ReadDeadlineExceeded(op.attempts)))
    else if failure.Some? && clock.pause.Interrupted? then End(op, Stopped)
    else
      match ResumeRequest(op.original, op.machine.last, op.rowsReturned)
      case None => End(op, Finished)
      case Some(request) =>
        if clock.late then End(op, Failed(ReadDeadlineExceeded(op.attempts)))
        else
          var sent := op.(attempts := op.attempts + 1);
          match service(sent.attempts, request)
          case Refused(code) => Again(sent, code)
          case StartTimedOut => Again(sent, DeadlineExceeded)
          case StartCancelled => End(sent, Stopped)
          case Stream(deliveries, end) => Serve(sent, deliveries, end)
  }

  lemma {:induction false} ServeKeeps(op: Op, deliveries: seq<Delivery>, end: StreamEnd)
    ensures var turn := Serve(op, deliveries, end);
      && (turn.Again? ==>
        turn.op.attempts == op.attempts && turn.op.maxAttempts == op.maxAttempts && turn.op.original == op.original)
      && (turn.Over? ==> turn.report.attempts == op.attempts
                         && !(turn.report.ending.Failed? && turn.report.ending.error.ReadRows?))
    decreases |deliveries|
  {
    hide Feed, EventsOf;
    if deliveries == [] {
    } else {
      var fed := Feed(op.machine, EventsOf(deliveries[0].message));
      var next := op.(machine := fed.machine, rowsReturned := op.rowsReturned + |fed.rows|,
        delivered := op.delivered + fed.rows);
      ServeKeeps(next, deliveries[1..], end);
    }
  }

  lemma {:induction false} TryKeeps(op: Op, failure: Option<Code>, clock: Clock, service: Service)
    requires failure.None? ==> op.attempts < op.maxAttempts
    ensures var turn := Try(op, failure, clock, service);
      && (turn.Again? ==> turn.op.attempts == op.attempts + 1 <= op.maxAttempts
                          && turn.op.maxAttempts == op.maxAttempts && turn.op.original == op.original)
      && (turn.Over? ==>
        turn.report.attempts <= op.attempts + 1 &&
          (op.attempts < op.maxAttempts || turn.report.attempts == op.attempts))
  {
    hide Serve, ResumeRequest;
    var resumed := ResumeRequest(op.original, op.machine.last, op.rowsReturned);
    if resumed.Some? {
      var sent := op.(attempts := op.attempts + 1);
      var answer := service(sent.attempts, resumed.value);
      if answer.Stream? {
        ServeKeeps(sent, answer.deliveries, answer.end);
      }
    }
  }

  /** The whole operation. Every retry uses up an attempt, so it ends. */
  function Run(op: Op, failure: Option<Code>, clocks: nat -> Clock, service: Service): Report
    requires failure.None? ==> op.attempts < op.maxAttempts
    decreases if op.attempts < op.maxAttempts then op.maxAttempts - op.attempts else 0
  {
    TryKeeps(op, failure, clocks(op.attempts), service);
    match Try(op, failure, clocks(op.attempts), service)
    case Over(report) => report
    case Again(next, code) => Run(next, Some(code), clocks, service)
  }

  function Start(original: ReadRowsRequest, maxAttempts: nat): Op {
    Op(original, maxAttempts, 0, 0, Fresh(original.reversed), [])
  }

  /** How one stream, or one attempt, left the operation. */
  datatype Left = Recover(code: Code) | Stop(ending: Ending)

  datatype Handled = Accepted | Dropped | Invalid(issue: Issue)

  class ReadOperation {
    const original: ReadRowsRequest
    const maxAttempts: nat
    const merger: RowMerger
    var attempts: nat
    var rowsReturned: nat
    var progress: Option<Bytes>
    /** What the receiver has taken so far. */
    var delivered: seq<Row>

    /** The resume key is always the merger's last complete key. */
    ghost predicate Valid()
      reads this, merger
    {
      merger.Valid() && progress == merger.View().last
    }

    ghost function View(): Op
      reads this, merger
    {
      Op(original, maxAttempts, attempts, rowsReturned, merger.View(), delivered)
    }

    constructor (original: ReadRowsRequest, maxAttempts: nat)
      ensures Valid() && View() == Start(original, maxAttempts) && fresh(merger)
    {
      this.original, this.maxAttempts := original, maxAttempts;
      merger := new RowMerger(original.reversed);
      attempts, rowsReturned, progress, delivered := 0, 0, None, [];
    }

    /** One server message: its scan marker first, then its chunks. */
    method HandleResponse(message: Message, room: nat) returns (outcome: Handled)
      requires Valid()
      modifies this`rowsReturned, this`progress, this`delivered, merger
      ensures Absorbed(old(View()), Feed(old(merger.View()), EventsOf(message)), room, outcome)
    {
      ghost var before, events := merger.View(), DataOf(message.chunks);
      if message.lastScannedRowKey != [] {
        ghost var marker := [Marker(message.lastScannedRowKey)];
        assert EventsOf(message) == marker + events;
        FeedJoin(before, marker, events);
        var marked := HandleMarker(message.lastScannedRowKey);
        if marked.Failure? {
          return Invalid(marked.error);
        }
        assert [] + Feed(merger.View(), events).rows == Feed(merger.View(), events).rows;
      } else {
        assert EventsOf(message) == events;
      }
      assert Feed(before, EventsOf(message)) == Feed(merger.View(), events);
      outcome := HandleChunks(message.chunks, room);
    }

    method HandleMarker(key: Bytes) returns (marked: Result<(), Issue>)
      requires Valid()
      modifies this`progress, merger
      ensures Valid()
      ensures Feed(old(merger.View()), [Marker(key)])
           == Fed(merger.View(), [], match marked case Success(_) => None case Failure(issue) => Some(issue))
    {
      FeedSnoc(merger.View(), [], Marker(key));
      assert [] + [Marker(key)] == [Marker(key)];
      marked := merger.ScanMarker(key);
      if marked.Success? {
        progress := Some(key);
      }
    }

    /** What handling leaves, given what the merger makes of the events and how many rows the receiver takes. */
    ghost predicate Absorbed(before: Op, fed: Fed, room: nat, outcome: Handled)
      reads this, merger
    {
      if |fed.rows| > room then outcome == Dropped && delivered == before.delivered + fed.rows[..room]
      else
        && Valid()
        && merger.View() == fed.machine
        && rowsReturned == before.rowsReturned + |fed.rows|
        && delivered == before.delivered + fed.rows
        && attempts == before.attempts
        && outcome == match fed.issue case None => Accepted case Some(issue) => Invalid(issue)
    }

    /** Pushes chunk `i` of a message, and says what that means for the message. */
    method PushNext(chunk: Chunk, ghost start: Machine, ghost events: seq<Event>, ghost i: nat, ghost got: seq<Row>)
      returns (pushed: Result<Option<Row>, Issue>)
      requires merger.Valid() && i < |events| && events[i] == Data(chunk)
      requires Feed(start, events[..i]) == Fed(merger.View(), got, None)
      modifies merger
      ensures merger.Valid()
      ensures match pushed
        case Failure(issue) =>
          Feed(start, events) == Fed(merger.View(), got, Some(issue)) && merger.View().last == old(merger.View().last)
        case Success(None) =>
          Feed(start, events[..i + 1]) == Fed(merger.View(), got, None) && merger.View().last == old(merger.View().last)
        case Success(Some(row)) =>
          && Feed(start, events[..i + 1]) == Fed(merger.View(), got + [row], None)
          && got + [row] <= Feed(start, events).rows
          && merger.View().last == Some(row.key)
    {
      hide PushStart, PushCell, PushContinuation, Group;
      FeedStep(start, events, i);
      ChunkMovesLast(merger.View(), chunk);
      pushed := merger.PushChunk(chunk);
    }

    method HandleChunks(chunks: seq<Chunk>, room: nat) returns (outcome: Handled)
      requires Valid()
      modifies this`rowsReturned, this`progress, this`delivered, merger
      ensures Absorbed(old(View()), Feed(old(merger.View()), DataOf(chunks)), room, outcome)
    {
      hide Handle, Group, EventsOf;
      ghost var start, events := merger.View(), DataOf(chunks);
      ghost var got: seq<Row> := [];
      assert events[..0] == [];
      var i, taken := 0, 0;
      while i < |chunks|
        invariant 0 <= i <= |chunks|
        invariant Valid()
        invariant Feed(start, events[..i]) == Fed(merger.View(), got, None)
        invariant |got| == taken <= room
        invariant delivered == old(delivered) + got && rowsReturned == old(rowsReturned) + |got|
      {
        var pushed := PushNext(chunks[i], start, events, i, got);
        if pushed.Failure? {
          return Invalid(pushed.error);
        }
        if pushed.value.Some? {
          var row := pushed.value.value;
          rowsReturned := rowsReturned + 1;
          progress := Some(row.key);
          if taken == room {
            assert Feed(start, events).rows[..room] == got;
            return Dropped;
          }
          delivered := delivered + [row];
          taken := taken + 1;
          got := got + [row];
        }
        i := i + 1;
      }
      assert events[..|chunks|] == events;
      return Accepted;
    }

    /** The operation is where `turn` says: ready to go on from it, or ended with its report. */
    ghost predicate Reflects(turn: Turn, left: Left)
      reads this, merger
    {
      match turn
      case Again(op, code) => Valid() && View() == op && left == Recover(code)
      case Over(report) => left.Stop? && Report(delivered, attempts, left.ending) == report
    }

    /** Reads one open stream until it ends, breaks, or needs no more. */
    method ReadStream(deliveries: seq<Delivery>, end: StreamEnd) returns (left: Left)
      requires Valid()
      modifies this`rowsReturned, this`progress, this`delivered, merger
      ensures Reflects(Serve(old(View()), deliveries, end), left)
    {
      hide Feed, EventsOf, Group;
      var i := 0;
      while i < |deliveries|
        invariant 0 <= i <= |deliveries|
        invariant Valid()
        invariant Serve(old(View()), deliveries, end) == Serve(View(), deliveries[i..], end)
      {
        ghost var before := View();
        assert deliveries[i..][0] == deliveries[i] && deliveries[i..][1..] == deliveries[i + 1..];
        var outcome := HandleResponse(deliveries[i].message, deliveries[i].room);
        match outcome {
          case Dropped => return Stop(Stopped);
          case Invalid(issue) => return Stop(Failed(InvalidReadRowsResponse(issue)));
          case Accepted =>
        }
        if original.rowsLimit > 0 && rowsReturned >= original.rowsLimit {
          return Stop(Finished);
        }
        i := i + 1;
      }
      assert deliveries[i..] == [];
      match end {
        case Ended =>
          var finished := merger.Finish();
          match finished {
            case Success(_) => return Stop(Finished);
            case Failure(issue) => return Stop(Failed(InvalidReadRowsResponse(issue)));
          }
        case ReceiverGone =>
          return Stop(Stopped);
        case Broken(code) =>
          merger.DiscardPartial();
          return Recover(code);
        case TimedOut =>
          merger.DiscardPartial();
          return Recover(DeadlineExceeded);
      }
    }

    /** Recovers from the failure, if there is one, sends the resumed request and reads what it brings. */
    method Attempt(failure: Option<Code>, clock: Clock, service: Service) returns (left: Left)
      requires Valid()
      modifies this, merger
      ensures Reflects(Try(old(View()), failure, clock, service), left)
    {
      hide Serve, ResumeRequest, Group;
      if clock.expired {
        return Stop(Failed(ReadDeadlineExceeded(attempts)));
      }
      if failure.Some? {
        if !IsRetryable(failure.value) || attempts >= maxAttempts {
          return Stop(Failed(ReadRows(attempts, failure.value)));
        }
        if clock.pause == TooLong {
          return Stop(Failed(ReadDeadlineExceeded(attempts)));
        }
        if clock.pause == Interrupted {
          return Stop(Stopped);
        }
      }
      var resumed := ResumeRequest(original, progress, rowsReturned);
      if resumed.None? {
        return Stop(Finished);
      }
      if clock.late {
        return Stop(Failed(ReadDeadlineExceeded(attempts)));
      }
      attempts := attempts + 1;
      match service(attempts, resumed.value) {
        case Refused(code) => return Recover(code);
        case StartTimedOut => return Recover(DeadlineExceeded);
        case StartCancelled => return Stop(Stopped);
        case Stream(deliveries, end) => left := ReadStream(deliveries, end);
      }
    }

    /** The operation, from its first request to its end. */
    method Execute(clocks: nat -> Clock, service: Service) returns (ending: Ending)
      requires Valid() && attempts < maxAttempts
      modifies this, merger
      ensures Report(delivered, attempts, ending) == Run(old(View()), None, clocks, service)
    {
      hide Try, Group;
      var failure: Option<Code> := None;
      while true
        invariant Valid()
        invariant failure.None? ==> attempts < maxAttempts
        invariant Run(old(View()), None, clocks, service) == Run(View(), failure, clocks, service)
        decreases if attempts < maxAttempts then maxAttempts - attempts else 0
      {
        TryKeeps(View(), failure, clocks(attempts), service);
        var left := Attempt(failure, clocks(attempts), service);
        match left {
          case Stop(e) => return e;
          case Recover(code) => failure := Some(code);
        }
      }
    }
  }
}
