/** What a read guarantees against any server at all, obedient or not. */
module AnyServer {
  import opened Wrappers
  import opened Keys
  import opened Rows
  import opened Codes
  import opened Queries
  import opened Merging
  import opened Wire
  import opened ScanOrder
  import opened Resuming
  import opened Reading

  /** What was delivered is in strict scan order and lies at or before the position reached. */
  ghost predicate InStep(op: Op) {
    && Sound(op.machine) && op.machine.reversed == op.original.reversed
    && StrictlyOrdered(op.original.reversed, op.delivered)
    && forall i :: 0 <= i < |op.delivered| ==> Passed(op.original.reversed, op.machine.last, op.delivered[i].key)
  }

  lemma {:induction false} FeedingStaysInStep(op: Op, events: seq<Event>)
    requires InStep(op)
    ensures var fed := Feed(op.machine, events);
      InStep(op.(machine := fed.machine, rowsReturned := op.rowsReturned + |fed.rows|,
                 delivered := op.delivered + fed.rows))
  {
    hide Feed, Sound;
    RowsComeInOrder(op.machine, events);
    var fed, r := Feed(op.machine, events), op.original.reversed;
    var all := op.delivered + fed.rows;
    forall i, j | 0 <= i < j < |all| ensures Precedes(r, all[i].key, all[j].key) {
      if i < |op.delivered| <= j {
        PrecedesTransitive(r, all[i].key, op.machine.last.value, all[j].key);
      }
    }
    forall i | 0 <= i < |op.delivered| ensures Passed(r, fed.machine.last, op.delivered[i].key) {
      PrecedesTransitive(r, op.delivered[i].key, op.machine.last.value, fed.machine.last.value);
    }
  }

  lemma {:induction false} ServeStaysInStep(op: Op, deliveries: seq<Delivery>, end: StreamEnd)
    requires InStep(op)
    ensures match Serve(op, deliveries, end)
      case Again(next, _) => InStep(next) && next.original == op.original
      case Over(report) => StrictlyOrdered(op.original.reversed, report.delivered)
    decreases |deliveries|
  {
    hide Feed, EventsOf;
    if deliveries == [] {
    } else {
      FeedingStaysInStep(op, EventsOf(deliveries[0].message));
      var fed := Feed(op.machine, EventsOf(deliveries[0].message));
      var next := op.(machine := fed.machine, rowsReturned := op.rowsReturned + |fed.rows|,
                      delivered := op.delivered + fed.rows);
      ServeStaysInStep(next, deliveries[1..], end);
      var room := deliveries[0].room;
      if |fed.rows| > room {
        assert forall i :: 0 <= i < |op.delivered| + room ==>
          (op.delivered + fed.rows[..room])[i] == (op.delivered + fed.rows)[i];
      }
    }
  }

  /**
   * Against any server: keys are delivered in strict scan order across all attempts, so no key twice; no more
   * attempts are made than allowed; and a read is given up on a status only if the status is not retryable or
   * the attempts are used up.
   */
  lemma {:induction false} RunIsOrderedAndBounded(op: Op, failure: Option<Code>, clocks: nat -> Clock, service: Service)
    requires InStep(op) && op.attempts <= op.maxAttempts && (failure.None? ==> op.attempts < op.maxAttempts)
    ensures var report := Run(op, failure, clocks, service);
      && StrictlyOrdered(op.original.reversed, report.delivered)
      && op.attempts <= report.attempts <= op.maxAttempts
      && (report.ending.Failed? && report.ending.error.ReadRows? ==>
            && report.ending.error.attempts == report.attempts
            && (!IsRetryable(report.ending.error.code) || report.attempts == op.maxAttempts))
    decreases if op.attempts < op.maxAttempts then op.maxAttempts - op.attempts else 0
  {
    TryKeeps(op, failure, clocks(op.attempts), service);
    TryStaysInStep(op, failure, clocks(op.attempts), service);
    hide Try;
    match Try(op, failure, clocks(op.attempts), service) {
      case Over(report) =>
      case Again(next, code) => RunIsOrderedAndBounded(next, Some(code), clocks, service);
    }
  }

  lemma {:induction false} TryStaysInStep(op: Op, failure: Option<Code>, clock: Clock, service: Service)
    requires InStep(op) && op.attempts <= op.maxAttempts
    ensures match Try(op, failure, clock, service)
      case Again(next, _) => InStep(next) && next.original == op.original
      case Over(report) =>
        && StrictlyOrdered(op.original.reversed, report.delivered)
        && op.attempts <= report.attempts
        && (report.ending.Failed? && report.ending.error.ReadRows? ==>
              && report.ending.error.attempts == report.attempts
              && (!IsRetryable(report.ending.error.code) || report.attempts == op.maxAttempts))
  {
    hide Serve, StrictlyOrdered, ResumeRequest, Sound;
    var resumed := ResumeRequest(op.original, op.machine.last, op.rowsReturned);
    if resumed.Some? {
      var sent := op.(attempts := op.attempts + 1);
      var answer := service(sent.attempts, resumed.value);
      if answer.Stream? {
        ServeStaysInStep(sent, answer.deliveries, answer.end);
        ServeKeeps(sent, answer.deliveries, answer.end);
      }
    }
  }

  // ---------- markers ----------

  /** A message is read as its marker, if it has one, and then its chunks from the position that is marked. */
  lemma {:induction false} MarkerComesFirst(m: Machine, message: Message)
    ensures var fed, key := Feed(m, EventsOf(message)), message.lastScannedRowKey;
      if key == [] then fed == Feed(m, DataOf(message.chunks))
      else if m.at.Between? && (m.last == None || Precedes(m.reversed, m.last.value, key))
      then fed == Feed(Machine(m.reversed, Some(key), Between), DataOf(message.chunks))
      else fed.issue.Some? && fed.rows == [] && fed.machine == m
  {
    hide Feed, Precedes;
    var marker, events := [Marker(message.lastScannedRowKey)], DataOf(message.chunks);
    if message.lastScannedRowKey == [] {
      assert EventsOf(message) == events;
    } else {
      MarkerAlone(m, message.lastScannedRowKey);
      FeedJoin(m, marker, events);
      assert EventsOf(message) == marker + events;
      var rest := Feed(Feed(m, marker).machine, events);
      assert [] + rest.rows == rest.rows;
    }
  }

  lemma {:induction false} MarkerAlone(m: Machine, key: Bytes)
    ensures var fed := Feed(m, [Marker(key)]);
      if m.at.Between? && (m.last == None || Precedes(m.reversed, m.last.value, key))
      then fed == Fed(Machine(m.reversed, Some(key), Between), [], None)
      else fed.issue.Some? && fed.rows == [] && fed.machine == m
  {
    FeedSnoc(m, [], Marker(key));
    assert [] + [Marker(key)] == [Marker(key)];
    hide Precedes;
  }

  /** So every row of the message lies strictly after its marker. */
  lemma {:induction false} RowsFollowMarker(m: Machine, message: Message, i: nat)
    requires message.lastScannedRowKey != [] && i < |Feed(m, EventsOf(message)).rows|
    ensures var marker, key := message.lastScannedRowKey, Feed(m, EventsOf(message)).rows[i].key;
      if m.reversed then Less(key, marker) else Less(marker, key)
  {
    MarkerComesFirst(m, message);
    hide Feed, EventsOf;
    if m.at.Between? && (m.last == None || Precedes(m.reversed, m.last.value, message.lastScannedRowKey)) {
      RowsComeInOrder(Machine(m.reversed, Some(message.lastScannedRowKey), Between), DataOf(message.chunks));
    }
  }

  // ---------- the row limit ----------

  /** All rows but those of one message, handed over last, number fewer than the limit. */
  ghost predicate SlipsByOneMessage(delivered: seq<Row>, limit: nat, message: Message) {
    exists n: nat, m: Machine ::
      n < limit && n <= |delivered| && delivered[n..] <= Feed(m, EventsOf(message)).rows
  }

  ghost predicate KeepsLimit(delivered: seq<Row>, limit: nat, deliveries: seq<Delivery>) {
    limit > 0 && |delivered| >= limit ==>
      exists i :: 0 <= i < |deliveries| && SlipsByOneMessage(delivered, limit, deliveries[i].message)
  }

  /** The operation counts its rows, and has not reached the limit. */
  ghost predicate BelowLimit(op: Op) { op.rowsReturned == |op.delivered| && !LimitReached(op) }

  lemma {:induction false} LastMessageSlips(op: Op, message: Message, taken: nat)
    requires BelowLimit(op) && op.original.rowsLimit > 0
    requires taken <= |Feed(op.machine, EventsOf(message)).rows|
    ensures var rows := Feed(op.machine, EventsOf(message)).rows[..taken];
      SlipsByOneMessage(op.delivered + rows, op.original.rowsLimit, message)
  {
    hide Feed, EventsOf;
    var rows := Feed(op.machine, EventsOf(message)).rows;
    assert (op.delivered + rows[..taken])[|op.delivered|..] == rows[..taken] <= rows;
  }

  lemma {:induction false} ServeKeepsLimit(op: Op, deliveries: seq<Delivery>, end: StreamEnd)
    requires BelowLimit(op)
    ensures match Serve(op, deliveries, end)
      case Again(next, _) => BelowLimit(next) && next.original == op.original
      case Over(report) => KeepsLimit(report.delivered, op.original.rowsLimit, deliveries)
    decreases |deliveries|
  {
    hide Feed, EventsOf, SlipsByOneMessage;
    if deliveries == [] {
    } else {
      var fed := Feed(op.machine, EventsOf(deliveries[0].message));
      var next := op.(machine := fed.machine, rowsReturned := op.rowsReturned + |fed.rows|,
                      delivered := op.delivered + fed.rows);
      assert fed.rows[..|fed.rows|] == fed.rows;
      if op.original.rowsLimit > 0 {
        LastMessageSlips(op, deliveries[0].message, |fed.rows|);
        if |fed.rows| > deliveries[0].room {
          LastMessageSlips(op, deliveries[0].message, deliveries[0].room);
        }
      }
      if |fed.rows| <= deliveries[0].room && fed.issue.None? && !LimitReached(next) {
        ServeKeepsLimit(next, deliveries[1..], end);
        assert forall i :: 0 <= i < |deliveries| - 1 ==> deliveries[1..][i] == deliveries[i + 1];
      }
    }
  }

  /** A message the service sends in some attempt. */
  ghost predicate SentBy(service: Service, message: Message) {
    exists n: nat, request: ReadRowsRequest, i: nat ::
      && service(n, request).Stream? && i < |service(n, request).deliveries|
      && service(n, request).deliveries[i].message == message
  }

  /** The limit is passed, if at all, by rows of a single message of the service. */
  ghost predicate KeepsLimitAgainst(service: Service, delivered: seq<Row>, limit: nat) {
    limit > 0 && |delivered| >= limit ==>
      exists message :: SentBy(service, message) && SlipsByOneMessage(delivered, limit, message)
  }

  lemma {:induction false} TryKeepsLimit(op: Op, failure: Option<Code>, clock: Clock, service: Service)
    requires BelowLimit(op)
    ensures match Try(op, failure, clock, service)
      case Again(next, _) => BelowLimit(next) && next.original == op.original
      case Over(report) => KeepsLimitAgainst(service, report.delivered, op.original.rowsLimit)
  {
    hide Serve, ResumeRequest, SlipsByOneMessage;
    var resumed := ResumeRequest(op.original, op.machine.last, op.rowsReturned);
    if resumed.Some? {
      var sent := op.(attempts := op.attempts + 1);
      var answer := service(sent.attempts, resumed.value);
      if answer.Stream? {
        ServeKeepsLimit(sent, answer.deliveries, answer.end);
        forall i | 0 <= i < |answer.deliveries| ensures SentBy(service, answer.deliveries[i].message) {
          assert service(sent.attempts, resumed.value).deliveries[i].message == answer.deliveries[i].message;
        }
      }
    }
  }

  lemma {:induction false} RunKeepsLimit(op: Op, failure: Option<Code>, clocks: nat -> Clock, service: Service)
    requires BelowLimit(op) && (failure.None? ==> op.attempts < op.maxAttempts)
    ensures KeepsLimitAgainst(service, Run(op, failure, clocks, service).delivered, op.original.rowsLimit)
    decreases if op.attempts < op.maxAttempts then op.maxAttempts - op.attempts else 0
  {
    hide Try, KeepsLimitAgainst, BelowLimit;
    TryKeeps(op, failure, clocks(op.attempts), service);
    TryKeepsLimit(op, failure, clocks(op.attempts), service);
    match Try(op, failure, clocks(op.attempts), service) {
      case Over(report) =>
      case Again(next, code) => RunKeepsLimit(next, Some(code), clocks, service);
    }
  }

  /**
   * What a new read guarantees against any server at all: keys in strict scan order, no more attempts than allowed, a
   * status reported only if it is not retryable or the attempts are used up, and fewer rows than the limit before
   * the last message that brought any, since the limit is looked at once a message.
   */
  lemma {:induction false} ReadIsOrderedAndBounded(
    original: ReadRowsRequest, maxAttempts: nat, clocks: nat -> Clock, service: Service)
    requires maxAttempts > 0
    ensures var report := Run(Start(original, maxAttempts), None, clocks, service);
      && StrictlyOrdered(original.reversed, report.delivered)
      && report.attempts <= maxAttempts
      && (report.ending.Failed? && report.ending.error.ReadRows? ==>
            && report.ending.error.attempts == report.attempts
            && (!IsRetryable(report.ending.error.code) || report.attempts == maxAttempts))
      && KeepsLimitAgainst(service, report.delivered, original.rowsLimit)
  {
    hide Run, KeepsLimitAgainst;
    RunIsOrderedAndBounded(Start(original, maxAttempts), None, clocks, service);
    RunKeepsLimit(Start(original, maxAttempts), None, clocks, service);
  }
}
