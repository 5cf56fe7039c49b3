/**
 * How a read goes and how it ends, told of the answers, the clock and the receiver.
 *
 * The story of a read is the list of its attempts. Whether an attempt is followed by another one, or how the read
 * ends with it, is said of all events of its stream at once, without walking over them.
 */
module Endings {
  import opened Wrappers
  import opened Keys
  import opened Rows
  import opened Codes
  import opened Queries
  import opened Merging
  import opened Wire
  import opened Resuming
  import opened Scanning
  import opened Reading
  import opened Exactness

  /** What was asked for in an attempt, and what had been reached and delivered before it. */
  datatype Stage = Stage(request: ReadRowsRequest, last: Option<Bytes>, delivered: seq<Row>)

  /** All that is given from outside. */
  datatype Setting = Setting(original: ReadRowsRequest, maxAttempts: nat, clocks: nat -> Clock, service: Service)

  const RESUMABLE_CODES: set<Code> := {Cancelled, DeadlineExceeded, Unavailable, Aborted}

  function MachineOf(original: ReadRowsRequest, stage: Stage): Machine {
    Machine(original.reversed, stage.last, Between)
  }

  // ---------- one stream ----------

  /** What the first `i` messages bring. */
  function Brought(m: Machine, deliveries: seq<Delivery>, i: nat): Fed
    requires i <= |deliveries|
  {
    Feed(m, Flatten(deliveries[..i]))
  }

  /** The rows message `i` completes. */
  function NewRows(m: Machine, deliveries: seq<Delivery>, i: nat): int
    requires i < |deliveries|
  {
    |Brought(m, deliveries, i + 1).rows| - |Brought(m, deliveries, i).rows|
  }

  /** Message `i` is read without ado: the receiver takes its rows, nothing is amiss, and the limit is not reached. */
  ghost predicate Smooth(m: Machine, limit: nat, before: nat, deliveries: seq<Delivery>, i: nat)
    requires i < |deliveries|
  {
    var brought := Brought(m, deliveries, i + 1);
    && NewRows(m, deliveries, i) <= deliveries[i].room
    && brought.issue.None?
    && (limit == 0 || before + |brought.rows| < limit)
  }

  ghost predicate SmoothUpTo(m: Machine, limit: nat, before: nat, deliveries: seq<Delivery>, n: nat)
    requires n <= |deliveries|
  {
    forall i :: 0 <= i < n ==> Smooth(m, limit, before, deliveries, i)
  }

  /** Message `i` ends the read: the receiver did not take its rows, it broke the protocol, or it reached the limit. */
  ghost predicate EndsAtMessage(
    m: Machine, before: seq<Row>, deliveries: seq<Delivery>, i: nat, delivered: seq<Row>, ending: Ending)
    requires i < |deliveries|
  {
    var brought := Brought(m, deliveries, i + 1);
    if NewRows(m, deliveries, i) > deliveries[i].room then
      var taken := |Brought(m, deliveries, i).rows| + deliveries[i].room;
      taken <= |brought.rows| && delivered == before + brought.rows[..taken] && ending == Stopped
    else
      && delivered == before + brought.rows
      && ending == match brought.issue
                   case Some(issue) => Failed(InvalidReadRowsResponse(issue))
                   case None => Finished
  }

  /** The end of a stream whose messages were all read: within a row it is a violation. */
  ghost predicate EndsWithStream(
    m: Machine, before: seq<Row>, deliveries: seq<Delivery>, delivered: seq<Row>, ending: Ending) {
    var brought := Brought(m, deliveries, |deliveries|);
    && delivered == before + brought.rows
    && ending == if brought.machine.at.Between? then Finished else Failed(InvalidReadRowsResponse(IncompleteRow))
  }

  // ---------- one attempt ----------

  /** The attempt broke off with this code; what ran into the deadline of the attempt counts as one. */
  ghost predicate BrokeWith(original: ReadRowsRequest, stage: Stage, answer: Answer, code: Code) {
    match answer
    case Refused(c) => code == c
    case StartTimedOut => code == DeadlineExceeded
    case StartCancelled => false
    case Stream(deliveries, end) =>
      && SmoothUpTo(MachineOf(original, stage), original.rowsLimit, |stage.delivered|, deliveries, |deliveries|)
      && (end == Broken(code) || (end == TimedOut && code == DeadlineExceeded))
  }

  /** What an attempt that broke off had brought. */
  function BroughtBy(original: ReadRowsRequest, stage: Stage, answer: Answer): Fed {
    var m := MachineOf(original, stage);
    if answer.Stream? then Brought(m, answer.deliveries, |answer.deliveries|) else Fed(m, [], None)
  }

  /** After attempt `n` another one is made: it broke with a code a read survives, and there was time. */
  ghost predicate LeadsTo(s: Setting, n: nat, stage: Stage, next: Stage) {
    var answer := s.service(n, stage.request);
    && (exists code :: BrokeWith(s.original, stage, answer, code) && code in RESUMABLE_CODES)
    && s.clocks(n) == Clock(false, Slept, false)
    && next.last == BroughtBy(s.original, stage, answer).machine.last
    && next.delivered == stage.delivered + BroughtBy(s.original, stage, answer).rows
    && ResumeRequest(s.original, next.last, |next.delivered|) == Some(next.request)
  }

  /** The attempts of a read: the first asks for the original request, and each leads to the next. */
  ghost predicate Story(s: Setting, stages: seq<Stage>) {
    && |stages| <= s.maxAttempts
    && (stages != [] ==>
          && stages[0] == Stage(s.original, None, [])
          && !s.clocks(0).expired && !s.clocks(0).late)
    && (forall i, j :: 0 <= i && j == i + 1 && j < |stages| ==> LeadsTo(s, j, stages[i], stages[j]))
  }

  /** The read ends after attempt `n` broke off. */
  ghost predicate EndsAfterBreak(s: Setting, n: nat, code: Code, last: Option<Bytes>, report: Report) {
    var clock, ending := s.clocks(n), report.ending;
    if clock.expired then ending == Failed(ReadDeadlineExceeded(n))
    else if code !in RESUMABLE_CODES || n == s.maxAttempts then ending == Failed(ReadRows(n, code))
    else
      match clock.pause
      case TooLong => ending == Failed(ReadDeadlineExceeded(n))
      case Interrupted => ending == Stopped
      case Slept =>
        if ResumeRequest(s.original, last, |report.delivered|).None? then ending == Finished
        else clock.late && ending == Failed(ReadDeadlineExceeded(n))
  }

  /** The read ends with its last attempt, the `n`th, and this is how. */
  ghost predicate EndsWith(s: Setting, n: nat, stage: Stage, report: Report) {
    var answer, m := s.service(n, stage.request), MachineOf(s.original, stage);
    && (answer.StartCancelled? ==> report.delivered == stage.delivered && report.ending == Stopped)
    && (forall code :: BrokeWith(s.original, stage, answer, code) ==>
          && report.delivered == stage.delivered + BroughtBy(s.original, stage, answer).rows
          && EndsAfterBreak(s, n, code, BroughtBy(s.original, stage, answer).machine.last, report))
    && (answer.Stream? ==>
          StreamEnds(m, s.original.rowsLimit, stage.delivered, answer.deliveries, answer.end,
                     report.delivered, report.ending))
  }

  /** How a stream that is not to be resumed ends a read. */
  ghost predicate StreamEnds(
    m: Machine, limit: nat, before: seq<Row>, deliveries: seq<Delivery>, end: StreamEnd, delivered: seq<Row>,
    ending: Ending)
  {
    && (forall i :: 0 <= i < |deliveries| && SmoothUpTo(m, limit, |before|, deliveries, i)
                    && !Smooth(m, limit, |before|, deliveries, i) ==>
          EndsAtMessage(m, before, deliveries, i, delivered, ending))
    && (SmoothUpTo(m, limit, |before|, deliveries, |deliveries|) ==>
          && (end == Ended ==> EndsWithStream(m, before, deliveries, delivered, ending))
          && (end == ReceiverGone ==>
                delivered == before + Brought(m, deliveries, |deliveries|).rows && ending == Stopped))
  }

  ghost predicate EndsLike(s: Setting, stages: seq<Stage>, report: Report) {
    && report.attempts == |stages|
    && if stages == [] then
         && (s.clocks(0).expired || s.clocks(0).late)
         && report == Report([], 0, Failed(ReadDeadlineExceeded(0)))
       else EndsWith(s, |stages|, Last(stages), report)
  }

  // ---------- the stream, message by message ----------

  lemma {:induction false} FlattenOneMore(deliveries: seq<Delivery>, i: nat)
    requires i < |deliveries|
    ensures Flatten(deliveries[..i + 1]) == Flatten(deliveries[..i]) + EventsOf(deliveries[i].message)
    decreases i
  {
    hide EventsOf;
    if i == 0 {
      assert deliveries[..1][1..] == [] && deliveries[..0] == [];
      assert EventsOf(deliveries[0].message) + [] == [] + EventsOf(deliveries[0].message);
    } else {
      FlattenOneMore(deliveries[1..], i - 1);
      assert deliveries[..i + 1][1..] == deliveries[1..][..i] && deliveries[..i][1..] == deliveries[1..][..i - 1];
    }
  }

  /** Where an operation stands after the first `i` messages. */
  function Reached(op: Op, deliveries: seq<Delivery>, i: nat): Op
    requires i <= |deliveries|
  {
    Advance(op, Brought(op.machine, deliveries, i))
  }

  /** What a turn says of a stream that opened for `op`. */
  ghost predicate TurnTells(turn: Turn, op: Op, deliveries: seq<Delivery>, end: StreamEnd) {
    var m, limit, before := op.machine, op.original.rowsLimit, op.delivered;
    match turn
    case Again(next, code) =>
      && SmoothUpTo(m, limit, |before|, deliveries, |deliveries|)
      && (end == Broken(code) || (end == TimedOut && code == DeadlineExceeded))
      && var last := Reached(op, deliveries, |deliveries|);
         next == last.(machine := Discard(last.machine))
    case Over(report) =>
      && report.attempts == op.attempts
      && StreamEnds(m, limit, before, deliveries, end, report.delivered, report.ending)
      && (SmoothUpTo(m, limit, |before|, deliveries, |deliveries|) ==> end == Ended || end == ReceiverGone)
  }

  lemma {:induction false} NextMessage(op: Op, deliveries: seq<Delivery>, i: nat)
    requires i < |deliveries| && Brought(op.machine, deliveries, i).issue.None?
    ensures var here := Reached(op, deliveries, i);
      var fed := Feed(here.machine, EventsOf(deliveries[i].message));
      && Reached(op, deliveries, i + 1) == Advance(here, fed)
      && Brought(op.machine, deliveries, i + 1).issue == fed.issue
      && NewRows(op.machine, deliveries, i) == |fed.rows|
      && Brought(op.machine, deliveries, i + 1).rows == Brought(op.machine, deliveries, i).rows + fed.rows
  {
    hide Feed, EventsOf, Flatten;
    FlattenOneMore(deliveries, i);
    AdvanceTwice(op, Flatten(deliveries[..i]), EventsOf(deliveries[i].message));
    FeedJoin(op.machine, Flatten(deliveries[..i]), EventsOf(deliveries[i].message));
  }

  lemma {:induction false} NothingBrought(op: Op, deliveries: seq<Delivery>)
    ensures Reached(op, deliveries, 0) == op && Brought(op.machine, deliveries, 0).issue.None?
  {
    assert deliveries[..0] == [];
    NothingFed(op);
  }

  lemma {:induction false} SmoothHasNoIssue(op: Op, limit: nat, before: nat, deliveries: seq<Delivery>, i: nat)
    requires i <= |deliveries| && SmoothUpTo(op.machine, limit, before, deliveries, i)
    ensures Brought(op.machine, deliveries, i).issue.None?
  {
    hide Brought;
    if i == 0 {
      NothingBrought(op, deliveries);
    } else {
      assert Smooth(op.machine, limit, before, deliveries, i - 1);
    }
  }

  /** A message that is not smooth ends the read, and it is the only one that can. */
  lemma {:induction false} RoughMessage(op: Op, deliveries: seq<Delivery>, end: StreamEnd, i: nat)
    requires i < |deliveries| && op.rowsReturned == |op.delivered|
    requires SmoothUpTo(op.machine, op.original.rowsLimit, |op.delivered|, deliveries, i)
    requires !Smooth(op.machine, op.original.rowsLimit, |op.delivered|, deliveries, i)
    ensures TurnTells(Serve(Reached(op, deliveries, i), deliveries[i..], end), op, deliveries, end)
  {
    hide Feed, EventsOf, Brought;
    SmoothHasNoIssue(op, op.original.rowsLimit, |op.delivered|, deliveries, i);
    NextMessage(op, deliveries, i);
    var here := Reached(op, deliveries, i);
    var fed := Feed(here.machine, EventsOf(deliveries[i].message));
    assert deliveries[i..][0] == deliveries[i];
    var turn := Serve(here, deliveries[i..], end);
    assert turn.Over?;
    var m, before := op.machine, op.delivered;
    var brought := Brought(m, deliveries, i + 1).rows;
    if |fed.rows| > deliveries[i].room {
      var room := deliveries[i].room;
      var had := Brought(m, deliveries, i).rows;
      assert brought[..|had| + room] == had + fed.rows[..room];
      assert before + brought[..|had| + room] == (before + had) + fed.rows[..room];
    } else {
      assert before + brought == here.delivered + fed.rows;
    }
    assert EndsAtMessage(m, before, deliveries, i, turn.report.delivered, turn.report.ending);
    hide EndsAtMessage, Smooth, Serve, EndsWithStream;
    forall k | 0 <= k < |deliveries| && SmoothUpTo(m, op.original.rowsLimit, |before|, deliveries, k)
      && !Smooth(m, op.original.rowsLimit, |before|, deliveries, k) ensures k == i {
    }
  }

  /** Every message read so far was smooth; the rest of the stream tells the rest. */
  lemma {:induction false} ServeTells(op: Op, deliveries: seq<Delivery>, end: StreamEnd, i: nat)
    requires i <= |deliveries| && op.rowsReturned == |op.delivered|
    requires SmoothUpTo(op.machine, op.original.rowsLimit, |op.delivered|, deliveries, i)
    ensures TurnTells(Serve(Reached(op, deliveries, i), deliveries[i..], end), op, deliveries, end)
    decreases |deliveries| - i
  {
    hide Feed, EventsOf, Brought, TurnTells;
    if i == |deliveries| {
      StreamTells(op, deliveries, end);
      assert deliveries[i..] == [];
    } else if !Smooth(op.machine, op.original.rowsLimit, |op.delivered|, deliveries, i) {
      RoughMessage(op, deliveries, end, i);
    } else {
      SmoothHasNoIssue(op, op.original.rowsLimit, |op.delivered|, deliveries, i);
      NextMessage(op, deliveries, i);
      assert deliveries[i..][0] == deliveries[i] && deliveries[i..][1..] == deliveries[i + 1..];
      assert Serve(Reached(op, deliveries, i), deliveries[i..], end)
          == Serve(Reached(op, deliveries, i + 1), deliveries[i + 1..], end);
      ServeTells(op, deliveries, end, i + 1);
    }
  }

  lemma {:induction false} StreamTells(op: Op, deliveries: seq<Delivery>, end: StreamEnd)
    requires SmoothUpTo(op.machine, op.original.rowsLimit, |op.delivered|, deliveries, |deliveries|)
    ensures TurnTells(Serve(Reached(op, deliveries, |deliveries|), [], end), op, deliveries, end)
  {
    hide Smooth, Brought, EndsAtMessage;
  }

  // ---------- attempt by attempt ----------

  /** Where an operation stands between two attempts, or before the first. */
  ghost predicate StandsAfter(s: Setting, stages: seq<Stage>, op: Op, failure: Option<Code>) {
    && op.original == s.original && op.maxAttempts == s.maxAttempts
    && op.attempts == |stages| && op.rowsReturned == |op.delivered|
    && if stages == [] then
         && failure == None && op.delivered == []
         && op.machine == Machine(s.original.reversed, None, Between)
       else
         var stage := Last(stages);
         var answer := s.service(|stages|, stage.request);
         && failure.Some? && BrokeWith(s.original, stage, answer, failure.value)
         && op.delivered == stage.delivered + BroughtBy(s.original, stage, answer).rows
         && op.machine == Machine(s.original.reversed, BroughtBy(s.original, stage, answer).machine.last, Between)
  }

  /** The stage that begins when a request is sent. */
  function StageOf(op: Op, request: ReadRowsRequest): Stage { Stage(request, op.machine.last, op.delivered) }

  lemma {:induction false} OneBreak(original: ReadRowsRequest, stage: Stage, answer: Answer, a: Code, b: Code)
    requires BrokeWith(original, stage, answer, a) && BrokeWith(original, stage, answer, b)
    ensures a == b
  {
    hide SmoothUpTo;
  }

  /** The read ends between two attempts. */
  lemma {:induction false} EndsBetween(s: Setting, stages: seq<Stage>, op: Op, failure: Option<Code>)
    requires s.maxAttempts > 0 && |stages| <= s.maxAttempts && StandsAfter(s, stages, op, failure)
    requires var clock := s.clocks(|stages|);
      || clock.expired || clock.late || ResumeRequest(s.original, op.machine.last, op.rowsReturned).None?
      || (failure.Some? && (failure.value !in RESUMABLE_CODES || op.attempts == s.maxAttempts || clock.pause != Slept))
    ensures var turn := Try(op, failure, s.clocks(|stages|), s.service);
      turn.Over? && EndsLike(s, stages, turn.report)
  {
    hide ResumeRequest, Serve, SmoothUpTo, BroughtBy, StreamEnds;
    if stages == [] {
      FirstRequest(s.original);
    } else {
      var stage, n := Last(stages), |stages|;
      var answer := s.service(n, stage.request);
      var report := Try(op, failure, s.clocks(n), s.service).report;
      forall code | BrokeWith(s.original, stage, answer, code) ensures code == failure.value {
        OneBreak(s.original, stage, answer, code, failure.value);
      }
      BrokenStreamEndsNothing(s.original, stage, answer, failure.value, report);
    }
  }

  lemma {:induction false} FirstRequest(original: ReadRowsRequest)
    ensures ResumeRequest(original, None, 0) == Some(original)
  {
  }

  lemma {:induction false} BrokenStreamEndsNothing(
    original: ReadRowsRequest, stage: Stage, answer: Answer, code: Code, report: Report)
    requires BrokeWith(original, stage, answer, code)
    ensures !answer.StartCancelled?
    ensures answer.Stream? ==>
      StreamEnds(MachineOf(original, stage), original.rowsLimit, stage.delivered, answer.deliveries, answer.end,
                 report.delivered, report.ending)
  {
    hide Smooth, EndsAtMessage, EndsWithStream;
  }

  /** The next attempt is made. */
  lemma {:induction false} StoryGoesOn(
    s: Setting, stages: seq<Stage>, op: Op, failure: Option<Code>, request: ReadRowsRequest)
    requires Story(s, stages) && StandsAfter(s, stages, op, failure) && |stages| < s.maxAttempts
    requires ResumeRequest(s.original, op.machine.last, op.rowsReturned) == Some(request)
    requires var clock := s.clocks(|stages|);
      !clock.expired && !clock.late && (failure.Some? ==> failure.value in RESUMABLE_CODES && clock.pause == Slept)
    ensures Story(s, stages + [StageOf(op, request)])
  {
    hide BrokeWith, BroughtBy, ResumeRequest;
    var longer := stages + [StageOf(op, request)];
    FirstRequest(s.original);
    forall i, j | 0 <= i && j == i + 1 && j < |longer| ensures LeadsTo(s, j, longer[i], longer[j]) {
      if j < |stages| {
        assert LeadsTo(s, j, stages[i], stages[j]);
      }
    }
  }

  /** An attempt that is made: the operation stands after it, or ends with it. */
  lemma {:induction false} AttemptTells(s: Setting, stages: seq<Stage>, op: Op, request: ReadRowsRequest)
    requires op.original == s.original && op.maxAttempts == s.maxAttempts
    requires op.attempts == |stages| && op.rowsReturned == |op.delivered|
    requires op.machine == Machine(s.original.reversed, op.machine.last, Between)
    ensures var sent, longer := op.(attempts := op.attempts + 1), stages + [StageOf(op, request)];
      match s.service(sent.attempts, request)
      case Refused(code) => StandsAfter(s, longer, sent, Some(code))
      case StartTimedOut => StandsAfter(s, longer, sent, Some(DeadlineExceeded))
      case StartCancelled => EndsLike(s, longer, Report(sent.delivered, sent.attempts, Stopped))
      case Stream(deliveries, end) =>
        match Serve(sent, deliveries, end)
        case Again(next, code) => StandsAfter(s, longer, next, Some(code))
        case Over(report) => EndsLike(s, longer, report)
  {
    var stage := StageOf(op, request);
    var sent, longer := op.(attempts := op.attempts + 1), stages + [stage];
    assert Last(longer) == stage && |longer| == sent.attempts;
    var answer := s.service(sent.attempts, request);
    if answer.Stream? {
      StreamAttemptTells(s, stages, op, request);
    } else {
      assert sent.delivered + [] == sent.delivered;
    }
  }

  lemma {:induction false} StreamAttemptTells(s: Setting, stages: seq<Stage>, op: Op, request: ReadRowsRequest)
    requires op.original == s.original && op.maxAttempts == s.maxAttempts
    requires op.attempts == |stages| && op.rowsReturned == |op.delivered|
    requires op.machine == Machine(s.original.reversed, op.machine.last, Between)
    requires s.service(op.attempts + 1, request).Stream?
    ensures var sent, longer := op.(attempts := op.attempts + 1), stages + [StageOf(op, request)];
      var answer := s.service(sent.attempts, request);
      match Serve(sent, answer.deliveries, answer.end)
      case Again(next, code) => StandsAfter(s, longer, next, Some(code))
      case Over(report) => EndsLike(s, longer, report)
  {
    var stage := StageOf(op, request);
    var sent, longer := op.(attempts := op.attempts + 1), stages + [stage];
    assert Last(longer) == stage && |longer| == sent.attempts;
    var answer := s.service(sent.attempts, request);
    var deliveries, end := answer.deliveries, answer.end;
    NothingBrought(sent, deliveries);
    assert deliveries[0..] == deliveries;
    ServeTells(sent, deliveries, end, 0);
    PositionIsKept(op.machine, Flatten(deliveries[..|deliveries|]));
    assert MachineOf(s.original, stage) == op.machine;
    hide Serve, Feed, Flatten, SmoothUpTo, StreamEnds;
    var turn := Serve(sent, deliveries, end);
    match turn {
      case Again(next, code) =>
        assert BrokeWith(s.original, stage, answer, code);
      case Over(report) =>
        forall code ensures !BrokeWith(s.original, stage, answer, code) {
        }
    }
  }

  /** What an attempt makes of an operation that is to make it. */
  lemma {:induction false} TrySends(s: Setting, op: Op, failure: Option<Code>, request: ReadRowsRequest)
    requires op.original == s.original && op.maxAttempts == s.maxAttempts && op.attempts < s.maxAttempts
    requires ResumeRequest(s.original, op.machine.last, op.rowsReturned) == Some(request)
    requires var clock := s.clocks(op.attempts);
      !clock.expired && !clock.late && (failure.Some? ==> failure.value in RESUMABLE_CODES && clock.pause == Slept)
    ensures var sent := op.(attempts := op.attempts + 1);
      Try(op, failure, s.clocks(op.attempts), s.service) ==
        match s.service(sent.attempts, request)
        case Refused(code) => Again(sent, code)
        case StartTimedOut => Again(sent, DeadlineExceeded)
        case StartCancelled => Over(Report(sent.delivered, sent.attempts, Stopped))
        case Stream(deliveries, end) => Serve(sent, deliveries, end)
  {
    hide Serve, ResumeRequest;
  }

  /** The whole run, from wherever an operation stands. */
  lemma {:induction false} RunTells(
    s: Setting, stages: seq<Stage>, op: Op, failure: Option<Code>) returns (all: seq<Stage>)
    requires s.maxAttempts > 0 && Story(s, stages) && |stages| <= s.maxAttempts
    requires StandsAfter(s, stages, op, failure) && (failure.None? ==> op.attempts < op.maxAttempts)
    ensures Story(s, all) && stages <= all && EndsLike(s, all, Run(op, failure, s.clocks, s.service))
    decreases s.maxAttempts - |stages|
  {
    var clock, resumed := s.clocks(|stages|), ResumeRequest(s.original, op.machine.last, op.rowsReturned);
    if clock.expired || clock.late || resumed.None?
       || (failure.Some? &&
         (failure.value !in RESUMABLE_CODES || op.attempts == s.maxAttempts || clock.pause != Slept)) {
      EndsBetween(s, stages, op, failure);
      all := stages;
    } else {
      var request := resumed.value;
      var longer := stages + [StageOf(op, request)];
      StandsBetween(s, stages, op, failure);
      StoryGoesOn(s, stages, op, failure, request);
      AttemptTells(s, stages, op, request);
      TrySends(s, op, failure, request);
      StoryIsBounded(s, longer);
      hide Try, Story, EndsLike, Serve, ResumeRequest, StandsAfter, StageOf;
      match Try(op, failure, clock, s.service) {
        case Over(report) => all := longer;
        case Again(next, code) => all := RunTells(s, longer, next, Some(code));
      }
    }
  }

  lemma {:induction false} StoryIsBounded(s: Setting, stages: seq<Stage>)
    requires Story(s, stages)
    ensures |stages| <= s.maxAttempts
  {
  }

  lemma {:induction false} StandsBetween(s: Setting, stages: seq<Stage>, op: Op, failure: Option<Code>)
    requires StandsAfter(s, stages, op, failure)
    ensures op.original == s.original && op.maxAttempts == s.maxAttempts && op.attempts == |stages|
    ensures op.rowsReturned == |op.delivered| && op.machine == Machine(s.original.reversed, op.machine.last, Between)
  {
    hide BrokeWith, BroughtBy;
  }

  /**
   * Every read has a story, against any service, clock and receiver, and ends as its last attempt says: with the
   * very code that broke it if that is not one a read survives or no attempt is left, with the deadline exactly
   * when the clock says so, without an error only when the receiver left or all was read.
   */
  lemma {:induction false} EveryReadHasItsStory(
    original: ReadRowsRequest, maxAttempts: nat, clocks: nat -> Clock, service: Service) returns (stages: seq<Stage>)
    requires maxAttempts > 0
    ensures var s := Setting(original, maxAttempts, clocks, service);
      Story(s, stages) && EndsLike(s, stages, Run(Start(original, maxAttempts), None, clocks, service))
  {
    hide EndsLike, Run;
    stages := RunTells(Setting(original, maxAttempts, clocks, service), [], Start(original, maxAttempts), None);
  }

  // ---------- one story, one ending ----------

  /** The first message that is not smooth, if any is not. */
  lemma {:induction false} FirstRough(
    m: Machine, limit: nat, before: nat, deliveries: seq<Delivery>, n: nat) returns (i: nat)
    requires n <= |deliveries|
    ensures i <= n && SmoothUpTo(m, limit, before, deliveries, i)
    ensures i < n ==> !Smooth(m, limit, before, deliveries, i)
  {
    hide Smooth;
    if n == 0 {
      i := 0;
    } else {
      i := FirstRough(m, limit, before, deliveries, n - 1);
      if i == n - 1 && Smooth(m, limit, before, deliveries, i) {
        i := n;
      }
    }
  }

  lemma {:induction false} StreamDecides(
    m: Machine, limit: nat, before: seq<Row>, deliveries: seq<Delivery>, end: StreamEnd, a: Report, b: Report)
    requires StreamEnds(m, limit, before, deliveries, end, a.delivered, a.ending)
    requires StreamEnds(m, limit, before, deliveries, end, b.delivered, b.ending)
    requires SmoothUpTo(m, limit, |before|, deliveries, |deliveries|) ==> end == Ended || end == ReceiverGone
    ensures a.delivered == b.delivered && a.ending == b.ending
  {
    hide Smooth, Brought, NewRows;
    var i := FirstRough(m, limit, |before|, deliveries, |deliveries|);
    if i < |deliveries| {
      assert EndsAtMessage(m, before, deliveries, i, a.delivered, a.ending);
      assert EndsAtMessage(m, before, deliveries, i, b.delivered, b.ending);
    }
  }

  /** What the last attempt says leaves no choice. */
  lemma {:induction false} LastAttemptDecides(s: Setting, n: nat, stage: Stage, a: Report, b: Report)
    requires EndsWith(s, n, stage, a) && EndsWith(s, n, stage, b) && a.attempts == b.attempts
    ensures a == b
  {
    var answer, m := s.service(n, stage.request), MachineOf(s.original, stage);
    hide SmoothUpTo, BroughtBy, StreamEnds, ResumeRequest;
    match answer {
      case Refused(code) =>
        assert BrokeWith(s.original, stage, answer, code);
      case StartTimedOut =>
        assert BrokeWith(s.original, stage, answer, DeadlineExceeded);
      case StartCancelled =>
      case Stream(deliveries, end) =>
        var code := if end.Broken? then end.code else DeadlineExceeded;
        if SmoothUpTo(m, s.original.rowsLimit, |stage.delivered|, deliveries, |deliveries|) &&
          (end.Broken? || end.TimedOut?) {
          assert BrokeWith(s.original, stage, answer, code);
        } else {
          StreamDecides(m, s.original.rowsLimit, stage.delivered, deliveries, end, a, b);
        }
    }
  }

  /** An attempt the read ends with leads to no other. */
  lemma {:induction false} EndLeadsNowhere(s: Setting, n: nat, stage: Stage, report: Report, next: Stage)
    requires EndsWith(s, n, stage, report) && n < s.maxAttempts
    ensures !LeadsTo(s, n, stage, next)
  {
    hide BroughtBy, BrokeWith, ResumeRequest, StreamEnds;
  }

  /** Two stories agree as far as both go. */
  lemma {:induction false} StoriesAgree(s: Setting, a: seq<Stage>, b: seq<Stage>, n: nat)
    requires Story(s, a) && Story(s, b) && n <= |a| && n <= |b|
    ensures a[..n] == b[..n]
  {
    if n == 0 {
    } else {
      StoriesAgree(s, a, b, n - 1);
      assert a[..n] == a[..n - 1] + [a[n - 1]] && b[..n] == b[..n - 1] + [b[n - 1]];
      if n > 1 {
        assert a[n - 2] == a[..n - 1][n - 2] && b[n - 2] == b[..n - 1][n - 2];
        assert LeadsTo(s, n - 1, a[n - 2], a[n - 1]) && LeadsTo(s, n - 1, b[n - 2], b[n - 1]);
      }
    }
  }

  /** A story that is longer than one the read ended with cannot be. */
  lemma {:induction false} EndedIsLongest(s: Setting, a: seq<Stage>, b: seq<Stage>, report: Report)
    requires Story(s, a) && Story(s, b) && EndsLike(s, a, report)
    ensures |b| <= |a|
  {
    hide EndsWith, LeadsTo;
    if |b| > |a| && a != [] {
      StoriesAgree(s, a, b, |a|);
      var i, j := |a| - 1, |a|;
      assert a[i] == b[i] && Last(a) == a[i];
      assert LeadsTo(s, j, b[i], b[j]);
      EndLeadsNowhere(s, j, Last(a), report, b[j]);
    }
  }

  /** There is one story and one ending: they decide every read, so that nothing is left open about how it goes. */
  lemma {:induction false} OneStoryOneEnding(
    s: Setting, a: seq<Stage>, first: Report, b: seq<Stage>, second: Report)
    requires Story(s, a) && EndsLike(s, a, first) && Story(s, b) && EndsLike(s, b, second)
    ensures a == b && first == second
  {
    EndedIsLongest(s, a, b, first);
    EndedIsLongest(s, b, a, second);
    StoriesAgree(s, a, b, |a|);
    assert a == a[..|a|] == b[..|b|] == b;
    hide Story, EndsWith;
    if a != [] {
      LastAttemptDecides(s, |a|, Last(a), first, second);
    }
  }

  // ---------- what a caller may rely on ----------

  /** The receiver leaves, at some time or other. */
  ghost predicate ReceiverLeaves(clocks: nat -> Clock, service: Service) {
    || (exists n :: clocks(n).pause == Interrupted)
    || (exists n: nat, request: ReadRowsRequest :: Leaves(service(n, request)))
  }

  ghost predicate Leaves(answer: Answer) {
    || answer.StartCancelled?
    || (answer.Stream? &&
      (answer.end == ReceiverGone || exists i :: 0 <= i < |answer.deliveries| && TooMany(answer.deliveries[i])))
  }

  /** The message may complete more rows than the receiver takes. */
  ghost predicate TooMany(delivery: Delivery) {
    exists m: Machine :: |Feed(m, EventsOf(delivery.message)).rows| > delivery.room
  }

  lemma {:induction false} NotTakenIsTooMany(m: Machine, limit: nat, before: nat, deliveries: seq<Delivery>, i: nat)
    requires i < |deliveries| && SmoothUpTo(m, limit, before, deliveries, i)
    requires NewRows(m, deliveries, i) > deliveries[i].room
    ensures TooMany(deliveries[i])
  {
    hide Feed, EventsOf, Flatten;
    var op := Op(ReadRowsRequest(None, 0, false), 0, 0, 0, m, []);
    SmoothHasNoIssue(op, limit, before, deliveries, i);
    NextMessage(op, deliveries, i);
    assert |Feed(Reached(op, deliveries, i).machine, EventsOf(deliveries[i].message)).rows| > deliveries[i].room;
  }

  lemma {:induction false} StreamStopsForReceiver(
    m: Machine, limit: nat, before: seq<Row>, answer: Answer, report: Report)
    requires answer.Stream? && !Leaves(answer)
    requires StreamEnds(m, limit, before, answer.deliveries, answer.end, report.delivered, report.ending)
    requires SmoothUpTo(m, limit, |before|, answer.deliveries, |answer.deliveries|) ==> answer.end == Ended
    ensures report.ending.Finished? || (report.ending.Failed? && report.ending.error.InvalidReadRowsResponse?)
  {
    hide Smooth, Brought, TooMany, NewRows;
    var deliveries := answer.deliveries;
    var i := FirstRough(m, limit, |before|, deliveries, |deliveries|);
    if i < |deliveries| {
      assert EndsAtMessage(m, before, deliveries, i, report.delivered, report.ending);
      if NewRows(m, deliveries, i) > deliveries[i].room {
        NotTakenIsTooMany(m, limit, |before|, deliveries, i);
      }
    }
  }

  /** How the last attempt can end a read whose receiver stays. */
  lemma {:induction false} StayingEnds(s: Setting, n: nat, stage: Stage, report: Report)
    requires EndsWith(s, n, stage, report) && !ReceiverLeaves(s.clocks, s.service)
    ensures match report.ending
      case Stopped => false
      case Finished => true
      case Failed(ReadDeadlineExceeded(k)) =>
        k == n && (s.clocks(n).expired || s.clocks(n).pause == TooLong || s.clocks(n).late)
      case Failed(ReadRows(k, code)) =>
        && k == n && BrokeWith(s.original, stage, s.service(n, stage.request), code)
        && (code !in RESUMABLE_CODES || n == s.maxAttempts)
      case Failed(InvalidReadRowsResponse(_)) => true
  {
    hide SmoothUpTo, BroughtBy, StreamEnds, ResumeRequest, TooMany;
    var answer, m := s.service(n, stage.request), MachineOf(s.original, stage);
    assert !Leaves(answer);
    hide Leaves;
    match answer {
      case Refused(code) =>
        assert BrokeWith(s.original, stage, answer, code);
      case StartTimedOut =>
        assert BrokeWith(s.original, stage, answer, DeadlineExceeded);
      case StartCancelled =>
      case Stream(deliveries, end) =>
        var code := if end.Broken? then end.code else DeadlineExceeded;
        if SmoothUpTo(m, s.original.rowsLimit, |stage.delivered|, deliveries, |deliveries|) &&
          (end.Broken? || end.TimedOut?) {
          assert BrokeWith(s.original, stage, answer, code);
        } else {
          StreamStopsForReceiver(m, s.original.rowsLimit, stage.delivered, answer, report);
        }
    }
  }

  /**
   * A read whose receiver stays is never just stopped. If it ends with a status, an attempt of that number broke
   * with that very code, which is not one a read survives or came when no attempt was left; and it runs out of time
   * only when the clock says so after the attempts made.
   */
  lemma {:induction false} ErrorsReachTheCaller(
    original: ReadRowsRequest, maxAttempts: nat, clocks: nat -> Clock, service: Service)
    requires maxAttempts > 0 && !ReceiverLeaves(clocks, service)
    ensures var report := Run(Start(original, maxAttempts), None, clocks, service);
      match report.ending
      case Stopped => false
      case Finished => report.attempts > 0
      case Failed(ReadDeadlineExceeded(k)) =>
        k == report.attempts && (clocks(k).expired || clocks(k).pause == TooLong || clocks(k).late)
      case Failed(ReadRows(k, code)) =>
        && k == report.attempts && 0 < k && (code !in RESUMABLE_CODES || k == maxAttempts)
        && exists stage: Stage :: BrokeWith(original, stage, service(k, stage.request), code)
      case Failed(InvalidReadRowsResponse(_)) => report.attempts > 0
  {
    hide Run, Story, EndsWith, ReceiverLeaves, BrokeWith;
    var s := Setting(original, maxAttempts, clocks, service);
    var stages := EveryReadHasItsStory(original, maxAttempts, clocks, service);
    if stages != [] {
      StayingEnds(s, |stages|, Last(stages), Run(Start(original, maxAttempts), None, clocks, service));
    }
  }
}
