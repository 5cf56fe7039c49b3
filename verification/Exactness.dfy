/**
 * Many broken streams look like one uninterrupted scan.
 *
 * The server is any function of attempt number and request that answers a request by spelling the rows it asks
 * for, in any legal way, and stopping wherever it likes between two messages.
 */
module Exactness {
  import opened Wrappers
  import opened Keys
  import opened Rows
  import opened Codes
  import opened Queries
  import opened Wire
  import opened Resuming
  import opened Scanning
  import opened Reading
  import opened Selection

  function Flatten(deliveries: seq<Delivery>): seq<Event> {
    if deliveries == [] then [] else EventsOf(deliveries[0].message) + Flatten(deliveries[1..])
  }

  /** The stream is the beginning of an answer to the request, and the whole of it if it ends without an error. */
  ghost predicate Obeys(table: seq<Stored>, request: ReadRowsRequest, answer: Answer) {
    answer.Stream? ==>
      exists script :: Answers(table, request, script, Flatten(answer.deliveries), answer.end.Ended?)
  }

  ghost predicate Answers(
    table: seq<Stored>, request: ReadRowsRequest, script: seq<Item>, events: seq<Event>, whole: bool) {
    && Fulfils(script, Scan(table, request), request, None)
    && events <= Print(script)
    && (whole ==> events == Print(script))
  }

  ghost predicate ObedientService(table: seq<Stored>, service: Service) {
    forall n: nat, request: ReadRowsRequest :: Obeys(table, request, service(n, request))
  }

  // ---------- where an operation stands ----------

  /** The operation has delivered exactly the selected rows up to its position. */
  ghost predicate Reached(op: Op, all: seq<Stored>) {
    var n, limit, m := |op.delivered|, op.original.rowsLimit, op.machine;
    && op.rowsReturned == n <= |all|
    && op.delivered == Deliver(all[..n])
    && m.reversed == op.original.reversed && m.last != Some([])
    && (limit > 0 ==> n <= limit)
    && (forall i :: 0 <= i < n ==> Passed(m.reversed, m.last, all[i].key))
    && (limit == 0 || n < limit ==> forall i :: n <= i < |all| ==> After(m.reversed, m.last, all[i].key))
  }

  /**
   * A position from which the operation can come to a good end: one it has reached, at a selected key if at any,
   * and if there may be a next attempt, the request may be resumed.
   */
  ghost predicate Standing(op: Op, table: seq<Stored>) {
    && NamesSomething(op.original)
    && (Resumable(op.original) || op.maxAttempts <= 1)
    && (op.attempts == 0 ==> op.machine.last.None?)
    && (op.machine.last.Some? ==> Selects(op.original.rows, op.machine.last.value))
    && Reached(op, Unlimited(table, op.original))
  }

  ghost predicate Resting(op: Op, table: seq<Stored>) { Standing(op, table) && op.machine.at.Between? }

  /** The next request, if there is one, asks for what is left. */
  ghost predicate MayAsk(op: Op) { op.machine.last.None? || Resumable(op.original) }

  lemma {:induction false} AsksForTheRest(op: Op, table: seq<Stored>, key: Bytes)
    requires Standing(op, table) && MayAsk(op)
    ensures AsksRight(op.original, op.machine.last, op.rowsReturned, key)
  {
    hide TrimsRight, Resumable, Selects, ResumeRequest, Unlimited;
    ResumableExactly(op.original);
    ResumeIsExact(op.original, op.machine.last, op.rowsReturned);
  }

  /** Nothing out of place was delivered, a finished operation delivered everything, and the server is not blamed. */
  ghost predicate Good(report: Report, rows: seq<Stored>) {
    && report.delivered <= Deliver(rows)
    && (report.ending.Finished? ==> report.delivered == Deliver(rows))
    && (report.ending.Failed? ==> !report.ending.error.InvalidReadRowsResponse?)
  }

  lemma {:induction false} DeliverPrefix(rows: seq<Stored>, n: nat)
    requires n <= |rows|
    ensures Deliver(rows[..n]) == Deliver(rows)[..n]
  {
  }

  lemma {:induction false} ReachedIsPrefix(op: Op, table: seq<Stored>)
    requires Reached(op, Unlimited(table, op.original))
    ensures op.delivered <= Deliver(Scan(table, op.original))
    ensures LimitReached(op) ==> op.delivered == Deliver(Scan(table, op.original))
    ensures |op.delivered| == |Unlimited(table, op.original)| ==> op.delivered == Deliver(Scan(table, op.original))
  {
    hide Unlimited, Group;
    var all, n := Unlimited(table, op.original), |op.delivered|;
    DeliverPrefix(all, n);
    DeliverPrefix(all, |Scan(table, op.original)|);
  }

  // ---------- what is left to read ----------

  /** The selected rows not yet passed are the selected rows of the resumed request. */
  lemma {:induction false} RestMatches(
    rows: seq<Stored>, original: Option<RowSet>, resumed: Option<RowSet>, reversed: bool, last: Option<Bytes>, n: nat)
    requires forall i :: 0 <= i < |rows| ==>
      (Selects(resumed, rows[i].key) <==> Selects(original, rows[i].key) && After(reversed, last, rows[i].key))
    requires var all := Matching(rows, original);
      && n <= |all|
      && (forall i :: 0 <= i < n ==> Passed(reversed, last, all[i].key))
      && (forall i :: n <= i < |all| ==> After(reversed, last, all[i].key))
    ensures Matching(rows, resumed) == Matching(rows, original)[n..]
  {
    hide Selects, Passed;
    if rows == [] {
    } else {
      var all := Matching(rows, original);
      assert forall i :: 0 <= i < |rows[1..]| ==> rows[1..][i] == rows[i + 1];
      if !Selects(original, rows[0].key) {
        assert all == Matching(rows[1..], original);
        RestMatches(rows[1..], original, resumed, reversed, last, n);
      } else {
        assert all[0] == rows[0] && all[1..] == Matching(rows[1..], original);
        RestMatches(rows[1..], original, resumed, reversed, last, if n > 0 then n - 1 else 0);
      }
    }
  }

  /** The resumed request selects the selected keys that were not passed. */
  lemma {:induction false} ResumedSelectsTheRest(op: Op, table: seq<Stored>, request: ReadRowsRequest)
    requires Standing(op, table) && MayAsk(op)
    requires ResumeRequest(op.original, op.machine.last, op.rowsReturned) == Some(request)
    ensures !LimitReached(op) && request.reversed == op.original.reversed
    ensures request.rowsLimit == if op.original.rowsLimit == 0 then 0 else op.original.rowsLimit - |op.delivered|
    ensures forall key: Bytes ::
      Selects(request.rows, key) <==>
        Selects(op.original.rows, key) && After(op.original.reversed, op.machine.last, key)
  {
    hide Selects, TrimRowSet, Unlimited, Resumable;
    ResumeKeepsTheLimit(op.original, op.machine.last, op.rowsReturned);
    forall key: Bytes ensures
      Selects(request.rows, key) <==>
        Selects(op.original.rows, key) && After(op.original.reversed, op.machine.last, key) {
      AsksForTheRest(op, table, key);
    }
  }

  /** The scan the resumed request asks for is what the operation still owes. */
  lemma {:induction false} ResumedScanIsTheRest(op: Op, table: seq<Stored>, request: ReadRowsRequest)
    requires IsTable(table) && Standing(op, table) && MayAsk(op)
    requires ResumeRequest(op.original, op.machine.last, op.rowsReturned) == Some(request)
    ensures !LimitReached(op) && request.reversed == op.original.reversed
    ensures Unlimited(table, request) == Unlimited(table, op.original)[|op.delivered|..]
    ensures request.rowsLimit == if op.original.rowsLimit == 0 then 0 else op.original.rowsLimit - |op.delivered|
    ensures forall key: Bytes :: Selects(request.rows, key) ==>
      Selects(op.original.rows, key) && After(op.original.reversed, op.machine.last, key)
  {
    hide Selects, ResumeRequest, Resumable, Matching, Passed, After, NamesSomething;
    ResumedSelectsTheRest(op, table, request);
    RestMatches(InDirection(table, op.original.reversed), op.original.rows, request.rows,
                op.original.reversed, op.machine.last, |op.delivered|);
  }

  /** When there is no request to send, the operation has delivered everything. */
  lemma {:induction false} NoRequestMeansDone(op: Op, table: seq<Stored>)
    requires IsTable(table) && Standing(op, table) && MayAsk(op)
    requires ResumeRequest(op.original, op.machine.last, op.rowsReturned).None?
    ensures op.delivered == Deliver(Scan(table, op.original))
  {
    hide Selects, ResumeRequest, Resumable, Unlimited, Scan;
    ReachedIsPrefix(op, table);
    if !LimitReached(op) {
      var all := Unlimited(table, op.original);
      UnlimitedIsOrdered(table, op.original);
      if |op.delivered| < |all| {
        assert all[|op.delivered|] in all;
        AsksForTheRest(op, table, all[|op.delivered|].key);
        assert false;
      }
    }
  }

  // ---------- one stream ----------

  function Advance(op: Op, fed: Fed): Op {
    op.(machine := fed.machine, rowsReturned := op.rowsReturned + |fed.rows|, delivered := op.delivered + fed.rows)
  }

  /** A stream the operation has opened, and the answer behind it. */
  ghost predicate Opened(op: Op, table: seq<Stored>, request: ReadRowsRequest, script: seq<Item>) {
    && IsTable(table) && Resting(op, table) && MayAsk(op) && op.attempts > 0
    && ResumeRequest(op.original, op.machine.last, op.rowsReturned) == Some(request)
    && Fulfils(script, Scan(table, request), request, None)
  }

  lemma {:induction false} OpenedExpects(op: Op, table: seq<Stored>, request: ReadRowsRequest, script: seq<Item>)
    requires Opened(op, table, request, script)
    ensures Expects(op.machine, Scan(table, request), request, None)
    ensures forall i :: 0 <= i < |Scan(table, request)| ==> Selects(request.rows, Scan(table, request)[i].key)
  {
    hide Selects, ResumeRequest, Resumable, Unlimited;
    ResumedScanIsTheRest(op, table, request);
    UnlimitedIsOrdered(table, request);
    var rows, all := Scan(table, request), Unlimited(table, request);
    forall i | 0 <= i < |rows| ensures
      rows[i].key != [] && Selects(request.rows, rows[i].key) &&
        After(op.machine.reversed, op.machine.last, rows[i].key) {
      assert rows[i] == all[i] && all[i] in all;
    }
  }

  lemma {:induction false} SliceOfRest(all: seq<Stored>, n: nat, rows: seq<Stored>, limit: nat, k: nat)
    requires n <= |all| && rows == Truncate(all[n..], limit) && k <= |rows|
    ensures n + |rows| <= |all| && (limit == 0 ==> n + |rows| == |all|)
    ensures limit > 0 ==> |rows| <= limit && (|rows| < limit ==> n + |rows| == |all|)
    ensures forall i :: n <= i < n + |rows| ==> rows[i - n] == all[i]
    ensures Deliver(all[..n]) + Deliver(rows[..k]) == Deliver(all[..n + k])
  {
    assert rows[..k] == all[n..][..k];
    assert all[..n] + all[n..][..k] == all[..n + k];
    DeliverJoin(all[..n], rows[..k]);
  }

  lemma {:induction false} AdvanceIsReached(op: Op, all: seq<Stored>, rows: seq<Stored>, fed: Fed)
    requires Reached(op, all) && !LimitReached(op) && Ordered(op.machine.reversed, all)
    requires var left := if op.original.rowsLimit == 0 then 0 else op.original.rowsLimit - |op.delivered|;
      rows == Truncate(all[|op.delivered|..], left)
    requires OnTrack(fed, rows) && fed.machine.reversed == op.machine.reversed
    requires op.machine.last.Some? ==> Passed(op.machine.reversed, fed.machine.last, op.machine.last.value)
    ensures Reached(Advance(op, fed), all)
    ensures |fed.rows| == |rows| ==> |Advance(op, fed).delivered| == |all| || LimitReached(Advance(op, fed))
  {
    hide Group, Truncate, Precedes;
    var n, k, m := |op.delivered|, |fed.rows|, fed.machine;
    SliceOfRest(all, n, rows, if op.original.rowsLimit == 0 then 0 else op.original.rowsLimit - n, k);
    forall i | n + k <= i < |all| && k < |rows| ensures After(m.reversed, m.last, all[i].key) {
      assert rows[k] == all[n + k] && After(m.reversed, m.last, rows[k].key);
      if i > n + k && m.last.Some? {
        PrecedesTransitive(m.reversed, m.last.value, all[n + k].key, all[i].key);
      }
    }
    forall i | 0 <= i < n ensures Passed(m.reversed, m.last, all[i].key) {
      PrecedesTransitive(m.reversed, all[i].key, op.machine.last.value, m.last.value);
    }
  }

  /** Wherever the stream is cut, the operation has reached a position in the full scan. */
  lemma {:induction false} CutStreamIsReached(
    op: Op, table: seq<Stored>, request: ReadRowsRequest, script: seq<Item>, events: seq<Event>)
    requires Opened(op, table, request, script) && events <= Print(script)
    ensures var fed := Feed(op.machine, events);
      && fed.issue.None?
      && Standing(Advance(op, fed), table)
      && (events == Print(script) ==>
            fed.machine.at.Between? && Advance(op, fed).delivered == Deliver(Scan(table, op.original)))
  {
    hide Fulfils, Feed, Unlimited, Selects, ResumeRequest, Group, Resumable, NamesSomething;
    OpenedExpects(op, table, request, script);
    ResumedScanIsTheRest(op, table, request);
    AnswersAreRead(script, Scan(table, request), request, None, op.machine, events);
    PositionIsSelected(script, Scan(table, request), request, None, op.machine, events);
    PositionIsKept(op.machine, events);
    var fed := Feed(op.machine, events);
    UnlimitedIsOrdered(table, op.original);
    AdvanceIsReached(op, Unlimited(table, op.original), Scan(table, request), fed);
    ReachedIsPrefix(Advance(op, fed), table);
  }

  lemma {:induction false} AdvanceTwice(op: Op, a: seq<Event>, b: seq<Event>)
    requires Feed(op.machine, a).issue.None?
    ensures var here := Advance(op, Feed(op.machine, a));
      && Advance(op, Feed(op.machine, a + b)) == Advance(here, Feed(here.machine, b))
      && Feed(op.machine, a + b).issue == Feed(here.machine, b).issue
  {
    hide Feed;
    FeedJoin(op.machine, a, b);
    var here := Advance(op, Feed(op.machine, a));
    assert op.delivered + Feed(op.machine, a + b).rows == here.delivered + Feed(here.machine, b).rows;
  }

  ghost predicate GoodTurn(turn: Turn, table: seq<Stored>, original: ReadRowsRequest) {
    match turn
    case Again(next, _) => next.original == original && Resting(next, table)
    case Over(report) => Good(report, Scan(table, original))
  }

  /** The receiver stays for every row, and the stream breaks only in ways a read may be resumed after. */
  ghost predicate Patient(deliveries: seq<Delivery>, end: StreamEnd, rows: nat) {
    && end != ReceiverGone
    && (end.Broken? ==> IsRetryable(end.code))
    && forall i :: 0 <= i < |deliveries| ==> deliveries[i].room >= rows
  }

  /** The operation finished, or will try again because the stream broke. */
  ghost predicate Kept(turn: Turn, whole: bool) {
    match turn
    case Again(_, code) => IsRetryable(code) && !whole
    case Over(report) => report.ending.Finished?
  }

  lemma {:induction false} EndIsGood(here: Op, table: seq<Stored>, end: StreamEnd)
    requires Standing(here, table) && here.attempts > 0
    requires end.Ended? ==> here.machine.at.Between? && here.delivered == Deliver(Scan(table, here.original))
    ensures GoodTurn(Serve(here, [], end), table, here.original)
    ensures Patient([], end, |table|) ==> Kept(Serve(here, [], end), end.Ended?)
  {
    hide Unlimited, Group, Scan, Resumable, Selects;
    ReachedIsPrefix(here, table);
  }

  lemma {:induction false} MatchingIsShorter(rows: seq<Stored>, rowSet: Option<RowSet>)
    ensures |Matching(rows, rowSet)| <= |rows|
  {
    if rows == [] {
    } else {
      MatchingIsShorter(rows[1..], rowSet);
    }
  }

  lemma {:induction false} NotMoreThanStored(op: Op, table: seq<Stored>)
    requires Reached(op, Unlimited(table, op.original))
    ensures |op.delivered| <= |table|
  {
    MatchingIsShorter(InDirection(table, op.original.reversed), op.original.rows);
  }

  /** One message: the operation ends well, or goes on from a further position. */
  lemma {:induction false} MessageIsGood(here: Op, table: seq<Stored>, deliveries: seq<Delivery>, end: StreamEnd)
    requires deliveries != []
    requires var fed := Feed(here.machine, EventsOf(deliveries[0].message));
      fed.issue.None? && Reached(Advance(here, fed), Unlimited(table, here.original))
    ensures var there := Advance(here, Feed(here.machine, EventsOf(deliveries[0].message)));
      || GoodTurn(Serve(here, deliveries, end), table, here.original)
      || Serve(here, deliveries, end) == Serve(there, deliveries[1..], end)
  {
    hide Feed, EventsOf, Unlimited, Group, Scan, Reached;
    var fed := Feed(here.machine, EventsOf(deliveries[0].message));
    ReachedIsPrefix(Advance(here, fed), table);
    if |fed.rows| > deliveries[0].room {
      assert here.delivered + fed.rows[..deliveries[0].room] <= here.delivered + fed.rows;
    }
  }

  lemma {:induction false} MessageIsKept(here: Op, table: seq<Stored>, deliveries: seq<Delivery>, end: StreamEnd)
    requires deliveries != [] && Patient(deliveries, end, |table|)
    requires var fed := Feed(here.machine, EventsOf(deliveries[0].message));
      fed.issue.None? && Reached(Advance(here, fed), Unlimited(table, here.original))
    ensures var there := Advance(here, Feed(here.machine, EventsOf(deliveries[0].message)));
      || Kept(Serve(here, deliveries, end), end.Ended?)
      || Serve(here, deliveries, end) == Serve(there, deliveries[1..], end)
  {
    hide Feed, EventsOf, Unlimited, Group, Scan, Reached;
    NotMoreThanStored(Advance(here, Feed(here.machine, EventsOf(deliveries[0].message))), table);
  }

  /** Reading the rest of an opened stream, after some of its events. */
  lemma {:induction false} ServeIsGood(
    op: Op, table: seq<Stored>, request: ReadRowsRequest, script: seq<Item>, events: seq<Event>,
    deliveries: seq<Delivery>, end: StreamEnd)
    requires Opened(op, table, request, script)
    requires events + Flatten(deliveries) <= Print(script)
    requires end.Ended? ==> events + Flatten(deliveries) == Print(script)
    ensures GoodTurn(Serve(Advance(op, Feed(op.machine, events)), deliveries, end), table, op.original)
    ensures Patient(deliveries, end, |table|) ==>
      Kept(Serve(Advance(op, Feed(op.machine, events)), deliveries, end), end.Ended?)
    decreases |deliveries|
  {
    hide Feed, Fulfils, Unlimited, Selects, ResumeRequest, Group, EventsOf, Print, Serve, Reached, GoodTurn, Scan;
    hide Kept, Resumable;
    assert events <= events + Flatten(deliveries);
    CutStreamIsReached(op, table, request, script, events);
    var here := Advance(op, Feed(op.machine, events));
    if deliveries == [] {
      assert events + Flatten(deliveries) == events;
      EndIsGood(here, table, end);
    } else {
      var next := events + EventsOf(deliveries[0].message);
      assert events + Flatten(deliveries) == next + Flatten(deliveries[1..]);
      assert next <= next + Flatten(deliveries[1..]);
      CutStreamIsReached(op, table, request, script, next);
      AdvanceTwice(op, events, EventsOf(deliveries[0].message));
      ServeIsGood(op, table, request, script, next, deliveries[1..], end);
      MessageIsGood(here, table, deliveries, end);
      if Patient(deliveries, end, |table|) {
        MessageIsKept(here, table, deliveries, end);
      }
    }
  }

  ghost predicate PatientService(service: Service, rows: nat) {
    forall n: nat, request: ReadRowsRequest ::
      match service(n, request)
      case Refused(code) => IsRetryable(code)
      case StartTimedOut => true
      case StartCancelled => false
      case Stream(deliveries, end) => Patient(deliveries, end, rows)
  }

  /** Whatever attempt `n` asks for is streamed to its end. */
  ghost predicate AnswersInFull(service: Service, n: nat) {
    forall request: ReadRowsRequest :: service(n, request).Stream? && service(n, request).end.Ended?
  }

  /** The stream an attempt has opened. */
  lemma {:induction false} StreamIsGood(sent: Op, table: seq<Stored>, request: ReadRowsRequest, answer: Answer)
    requires IsTable(table) && Resting(sent, table) && MayAsk(sent) && sent.attempts > 0
    requires ResumeRequest(sent.original, sent.machine.last, sent.rowsReturned) == Some(request)
    requires Obeys(table, request, answer) && answer.Stream?
    ensures GoodTurn(Serve(sent, answer.deliveries, answer.end), table, sent.original)
    ensures Patient(answer.deliveries, answer.end, |table|) ==>
      Kept(Serve(sent, answer.deliveries, answer.end), answer.end.Ended?)
  {
    hide Resting, MayAsk, ResumeRequest, Serve, Flatten, Print, Fulfils, GoodTurn, Kept, Patient, IsTable, Scan;
    var script :| Answers(table, request, script, Flatten(answer.deliveries), answer.end.Ended?);
    assert [] + Flatten(answer.deliveries) == Flatten(answer.deliveries);
    ServeIsGood(sent, table, request, script, [], answer.deliveries, answer.end);
    NothingFed(sent);
  }

  /** One attempt, against an obedient server. */
  lemma {:induction false} TryIsGood(op: Op, table: seq<Stored>, failure: Option<Code>, clock: Clock, service: Service)
    requires IsTable(table) && Resting(op, table) && ObedientService(table, service)
    requires failure.None? ==> op.attempts < op.maxAttempts
    ensures GoodTurn(Try(op, failure, clock, service), table, op.original)
    ensures
      (&& clock == Clock(false, Slept, false) && PatientService(service, |table|)
       && (failure.Some? ==> IsRetryable(failure.value)) && op.attempts < op.maxAttempts)
      ==> Kept(Try(op, failure, clock, service), AnswersInFull(service, op.attempts + 1))
  {
    hide Unlimited, Selects, ResumeRequest, Serve, Obeys, Patient, Resumable, Scan, Deliver, IsTable, NamesSomething;
    ReachedIsPrefix(op, table);
    var resumed := ResumeRequest(op.original, op.machine.last, op.rowsReturned);
    if op.attempts >= op.maxAttempts {
    } else if resumed.None? {
      NoRequestMeansDone(op, table);
    } else {
      var sent := op.(attempts := op.attempts + 1);
      assert Reached(sent, Unlimited(table, sent.original));
      hide Reached;
      var answer := service(sent.attempts, resumed.value);
      assert Obeys(table, resumed.value, answer);
      if answer.Stream? {
        StreamIsGood(sent, table, resumed.value, answer);
      }
    }
  }

  lemma {:induction false} NothingFed(op: Op)
    ensures Advance(op, Feed(op.machine, [])) == op
  {
    assert op.delivered + [] == op.delivered;
  }

  lemma {:induction false} RunIsGood(
    op: Op, table: seq<Stored>, failure: Option<Code>, clocks: nat -> Clock, service: Service)
    requires IsTable(table) && Resting(op, table) && ObedientService(table, service)
    requires failure.None? ==> op.attempts < op.maxAttempts
    ensures Good(Run(op, failure, clocks, service), Scan(table, op.original))
    decreases if op.attempts < op.maxAttempts then op.maxAttempts - op.attempts else 0
  {
    hide Try, Resting, Good;
    TryKeeps(op, failure, clocks(op.attempts), service);
    TryIsGood(op, table, failure, clocks(op.attempts), service);
    match Try(op, failure, clocks(op.attempts), service) {
      case Over(report) =>
      case Again(next, code) => RunIsGood(next, table, Some(code), clocks, service);
    }
  }

  lemma {:induction false} FullAnswerFinishes(
    op: Op, table: seq<Stored>, failure: Option<Code>, clocks: nat -> Clock, service: Service, full: nat)
    requires IsTable(table) && Resting(op, table) && ObedientService(table, service)
    requires PatientService(service, |table|) && forall n :: clocks(n) == Clock(false, Slept, false)
    requires op.attempts < full <= op.maxAttempts && AnswersInFull(service, full)
    requires failure.Some? ==> IsRetryable(failure.value)
    ensures Run(op, failure, clocks, service).ending.Finished?
    decreases full - op.attempts
  {
    hide Try, Resting, PatientService, ObedientService, IsTable, AnswersInFull, Good, IsRetryable;
    TryKeeps(op, failure, clocks(op.attempts), service);
    TryIsGood(op, table, failure, clocks(op.attempts), service);
    match Try(op, failure, clocks(op.attempts), service) {
      case Over(report) =>
      case Again(next, code) => FullAnswerFinishes(next, table, Some(code), clocks, service, full);
    }
  }

  lemma {:induction false} FullAnswerEndsRun(
    op: Op, table: seq<Stored>, failure: Option<Code>, clocks: nat -> Clock, service: Service, full: nat)
    requires IsTable(table) && Resting(op, table) && ObedientService(table, service)
    requires PatientService(service, |table|) && forall n :: clocks(n) == Clock(false, Slept, false)
    requires op.attempts < full <= op.maxAttempts && AnswersInFull(service, full)
    requires failure.Some? ==> IsRetryable(failure.value)
    ensures Run(op, failure, clocks, service).ending.Finished?
    ensures Run(op, failure, clocks, service).delivered == Deliver(Scan(table, op.original))
  {
    hide Try, Resting, PatientService, ObedientService, IsTable, Scan, AnswersInFull, Run, IsRetryable;
    RunIsGood(op, table, failure, clocks, service);
    FullAnswerFinishes(op, table, failure, clocks, service, full);
  }

  lemma {:induction false} StartIsResting(table: seq<Stored>, query: Query, maxAttempts: nat)
    requires IsTable(table) && maxAttempts > 0 && (maxAttempts == 1 || Resumable(IntoRequest(query)))
    ensures Resting(Start(IntoRequest(query), maxAttempts), table)
  {
    hide Unlimited, IntoRequest, Resumable;
    QueriesNameSomething(query);
    var op := Start(IntoRequest(query), maxAttempts);
    assert Unlimited(table, op.original)[..0] == [];
  }

  /**
   * If nothing but retryable breaks gets in the way, an attempt that is answered in full completes the read of a
   * query that is resumable, or is that attempt, with all rows the query asks for.
   */
  lemma {:induction false} FullAnswerCompletes(
    table: seq<Stored>, query: Query, maxAttempts: nat, clocks: nat -> Clock, service: Service, full: nat,
    rows: seq<Stored>)
    requires IsTable(table) && AnswersQuery(rows, table, query)
    requires maxAttempts == 1 || Resumable(IntoRequest(query))
    requires ObedientService(table, service) && PatientService(service, |table|)
    requires forall n :: clocks(n) == Clock(false, Slept, false)
    requires 0 < full <= maxAttempts && AnswersInFull(service, full)
    ensures var report := Run(Start(IntoRequest(query), maxAttempts), None, clocks, service);
      report.ending.Finished? && report.delivered == Deliver(rows)
  {
    hide IntoRequest, Run, Resumable, Resting, IsTable, ObedientService, PatientService, AnswersInFull, AnswersQuery;
    hide Scan;
    StartIsResting(table, query, maxAttempts);
    FullAnswerEndsRun(Start(IntoRequest(query), maxAttempts), table, None, clocks, service, full);
    ScanAnswersQuery(table, query);
    AnswerIsUnique(rows, Scan(table, IntoRequest(query)), table, query);
  }

  /**
   * For any table, any query that is resumable or may not be resumed at all, any clock, any receiver and any
   * obedient server: the rows delivered are the first of those the query asks for, they are all of them when the
   * operation finishes, and no answer is taken for a protocol violation.
   */
  lemma {:induction false} BrokenStreamsReadAsOneScan(
    table: seq<Stored>, query: Query, maxAttempts: nat, clocks: nat -> Clock, service: Service, rows: seq<Stored>)
    requires IsTable(table) && maxAttempts > 0 && (maxAttempts == 1 || Resumable(IntoRequest(query)))
    requires ObedientService(table, service) && AnswersQuery(rows, table, query)
    ensures Good(Run(Start(IntoRequest(query), maxAttempts), None, clocks, service), rows)
  {
    hide IntoRequest, Run, Good, Resumable, Resting, AnswersQuery, Scan;
    StartIsResting(table, query, maxAttempts);
    RunIsGood(Start(IntoRequest(query), maxAttempts), table, None, clocks, service);
    ScanAnswersQuery(table, query);
    AnswerIsUnique(rows, Scan(table, IntoRequest(query)), table, query);
  }
}
