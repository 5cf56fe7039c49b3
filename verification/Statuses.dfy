/**
 * What a reply says of each entry, in its own terms: indexes, status numbers and codes.
 *
 * Nothing here looks a result up or walks over the results; the statements are about all results of a reply.
 */
module Statuses {
  import opened Wrappers
  import opened Rows
  import opened Codes
  import opened Splitting
  import opened Replies

  // ---------- the results of a stream ----------

  /** Every index belongs to an entry of the request, and none comes twice. */
  ghost predicate WellIndexed(results: seq<EntryResult>, n: nat) {
    && (forall i :: 0 <= i < |results| ==> 0 <= results[i].index < n)
    && (forall i, k :: 0 <= i < k < |results| ==> results[i].index != results[k].index)
  }

  ghost predicate SaysOk(results: seq<EntryResult>, j: nat) {
    exists i ::
      && 0 <= i < |results| && results[i].index == j
      && (results[i].status == None || results[i].status == Some(0))
  }

  ghost predicate SaysStatus(results: seq<EntryResult>, j: nat, number: int) {
    number != 0 && exists i :: 0 <= i < |results| && results[i].index == j && results[i].status == Some(number)
  }

  ghost predicate Silent(results: seq<EntryResult>, j: nat) {
    forall i :: 0 <= i < |results| ==> results[i].index != j
  }

  /** The first result that breaks the protocol, and how. */
  ghost predicate FirstViolation(results: seq<EntryResult>, n: nat, issue: ResponseIssue) {
    exists k :: 0 <= k < |results| && WellIndexed(results[..k], n) && ViolationAt(results, k, n, issue)
  }

  ghost predicate ViolationAt(results: seq<EntryResult>, k: nat, n: nat, issue: ResponseIssue)
    requires k < |results|
  {
    var index := results[k].index;
    || (index < 0 && issue == NegativeIndex(index))
    || (index >= n && issue == IndexOutOfRange(index, n))
    || (0 <= index < n && issue == DuplicateIndex(index) && exists i :: 0 <= i < k && results[i].index == index)
  }

  lemma {:induction false} WellIndexedHasNoIssue(results: seq<EntryResult>, n: nat)
    ensures FirstIssue(results, n).None? <==> WellIndexed(results, n)
  {
    if results == [] {
    } else {
      WellIndexedHasNoIssue(Init(results), n);
      WellIndexedOneMore(results, n);
    }
  }

  lemma {:induction false} WellIndexedOneMore(results: seq<EntryResult>, n: nat)
    requires results != []
    ensures WellIndexed(results, n) <==> WellIndexed(Init(results), n) && IssueOf(Init(results), Last(results), n).None?
  {
    var front := Init(results);
    if WellIndexed(front, n) && IssueOf(front, Last(results), n).None? {
      forall i, k | 0 <= i < k < |results| ensures results[i].index != results[k].index {
        assert results[i] == front[i] && (k < |front| ==> results[k] == front[k]);
      }
    } else if WellIndexed(results, n) {
      assert forall i :: 0 <= i < |front| ==> front[i] == results[i];
    }
  }

  lemma {:induction false} IssueIsFirstViolation(results: seq<EntryResult>, n: nat, issue: ResponseIssue)
    ensures FirstIssue(results, n) == Some(issue) <==> FirstViolation(results, n, issue)
  {
    if results == [] {
    } else {
      var front, last := Init(results), |results| - 1;
      IssueIsFirstViolation(front, n, issue);
      WellIndexedHasNoIssue(front, n);
      ViolationsOneMore(results, n, issue);
      assert results[..last] == front;
      hide FirstIssue, ViolationAt, WellIndexed, FirstViolation;
      if FirstIssue(front, n).None? {
        LastIssue(results, n, issue);
      }
      FirstIssueUnfolds(results, n);
    }
  }

  lemma {:induction false} FirstIssueUnfolds(results: seq<EntryResult>, n: nat)
    requires results != []
    ensures FirstIssue(results, n) ==
      if FirstIssue(Init(results), n).Some? then FirstIssue(Init(results), n)
      else IssueOf(Init(results), Last(results), n)
  {
  }

  lemma {:induction false} LastIssue(results: seq<EntryResult>, n: nat, issue: ResponseIssue)
    requires results != []
    ensures IssueOf(Init(results), Last(results), n) == Some(issue) <==> ViolationAt(results, |results| - 1, n, issue)
  {
    assert forall i :: 0 <= i < |results| - 1 ==> Init(results)[i] == results[i];
  }

  lemma {:induction false} ViolationsOneMore(results: seq<EntryResult>, n: nat, issue: ResponseIssue)
    requires results != []
    ensures var last := |results| - 1;
      FirstViolation(results, n, issue) <==>
        FirstViolation(Init(results), n, issue) ||
          (WellIndexed(results[..last], n) && ViolationAt(results, last, n, issue))
    ensures FirstViolation(Init(results), n, issue) ==> !WellIndexed(Init(results), n)
  {
    var front := Init(results);
    forall k | 0 <= k < |front|
      ensures results[..k] == front[..k] && (ViolationAt(results, k, n, issue) <==> ViolationAt(front, k, n, issue)) {
      assert forall i :: 0 <= i < |front| ==> front[i] == results[i];
    }
    hide WellIndexed;
    if FirstViolation(front, n, issue) {
      var k :| 0 <= k < |front| && WellIndexed(front[..k], n) && ViolationAt(front, k, n, issue);
      assert results[..k] == front[..k];
      ViolatedIsNotWellIndexed(front, k, n, issue);
    }
  }

  lemma {:induction false} ViolatedIsNotWellIndexed(results: seq<EntryResult>, k: nat, n: nat, issue: ResponseIssue)
    requires k < |results| && ViolationAt(results, k, n, issue)
    ensures !WellIndexed(results, n)
  {
  }

  /** Looking up the answer to an index in well indexed results is finding the one result that carries it. */
  lemma {:induction false} AnswerIsTheResult(results: seq<EntryResult>, n: nat, j: nat)
    requires WellIndexed(results, n)
    ensures AnswerTo(results, j).None? <==> Silent(results, j)
    ensures forall i :: 0 <= i < |results| && results[i].index == j ==>
      AnswerTo(results, j) == Some(StatusOf(results[i]))
  {
    hide StatusOf;
    if results == [] {
    } else {
      AnswerIsTheResult(Init(results), n, j);
      assert forall i :: 0 <= i < |results| - 1 ==> Init(results)[i] == results[i];
    }
  }

  // ---------- one reply ----------

  /** The code a stream broke with; its deadline counts as one. */
  function BreakCode(end: MutateEnd): Code
    requires !end.Closed?
  {
    if end.StreamFailed? then end.code else DeadlineExceeded
  }

  ghost predicate MayRetry(e: PendingEntry, maxAttempts: nat) { e.retrySafe && e.attempts < maxAttempts }

  /** The server confirmed entry `j` of the `n` it was sent. */
  ghost predicate ConfirmedBy(reply: Reply, n: nat, j: nat) {
    && reply.Streamed?
    && WellIndexed(Concat(reply.responses), n) && SaysOk(Concat(reply.responses), j)
  }

  /** The request, or what was still to come of its answer, failed for entry `j` with this code. */
  ghost predicate LostTo(reply: Reply, n: nat, j: nat, code: Code) {
    match reply
    case Refused(c) => code == c
    case TimedOut => code == DeadlineExceeded
    case Streamed(responses, end) =>
      && WellIndexed(Concat(responses), n) && Silent(Concat(responses), j)
      && !end.Closed? && code == BreakCode(end)
  }

  /** The server answered entry `j` with an error of this number. */
  ghost predicate RejectedBy(reply: Reply, n: nat, j: nat, number: int) {
    reply.Streamed? && WellIndexed(Concat(reply.responses), n) && SaysStatus(Concat(reply.responses), j, number)
  }

  /** The entry is sent again: it may be repeated, and its error, or what lost its answer, is one of two that pass. */
  ghost predicate RetriedAfter(reply: Reply, n: nat, j: nat, e: PendingEntry, maxAttempts: nat) {
    && MayRetry(e, maxAttempts)
    && (|| RejectedBy(reply, n, j, 4) || RejectedBy(reply, n, j, 14)
        || LostTo(reply, n, j, DeadlineExceeded) || LostTo(reply, n, j, Unavailable))
  }

  /** The entry fails for this cause. */
  ghost predicate FailedAfter(reply: Reply, n: nat, j: nat, e: PendingEntry, maxAttempts: nat, cause: FailureCause) {
    match cause
    case EntryStatus(code, retrySafe) =>
      && retrySafe == e.retrySafe && !RetriedAfter(reply, n, j, e, maxAttempts)
      && exists number :: RejectedBy(reply, n, j, number) && IsCodeOf(code, number)
    case RpcStatus(code, retrySafe) =>
      retrySafe == e.retrySafe && !RetriedAfter(reply, n, j, e, maxAttempts) && LostTo(reply, n, j, code)
    case InvalidResponse(issue) =>
      && reply.Streamed?
      && (|| FirstViolation(Concat(reply.responses), n, issue)
          || (&& WellIndexed(Concat(reply.responses), n) && Silent(Concat(reply.responses), j)
              && reply.end.Closed? && issue == MissingIndex(j)))
    case OperationDeadline => false
  }

  /** The code with that number, or an unknown error if there is none. */
  ghost predicate IsCodeOf(code: Code, number: int) {
    NumberOf(code) == number || (code == Unknown && (number < 0 || number > 16))
  }

  lemma {:induction false} StatusIsCode(r: EntryResult, code: Code)
    ensures r.status == None || r.status == Some(0) <==> StatusOf(r) == Ok
    ensures r.status.Some? && r.status != Some(0) ==> (StatusOf(r) == code <==> IsCodeOf(code, r.status.value))
  {
    if r.status.Some? && 0 <= r.status.value <= 16 {
      assert NumberOf(CODES[r.status.value]) == r.status.value;
      assert NumberOf(code) == r.status.value ==> code == CODES[r.status.value];
    }
  }

  /** The result of entry `j` is the only one, and all that is said of the entry is what it says. */
  lemma {:induction false} OneResultSays(results: seq<EntryResult>, n: nat, j: nat, i: nat)
    requires WellIndexed(results, n) && i < |results| && results[i].index == j
    ensures !Silent(results, j)
    ensures SaysOk(results, j) <==> results[i].status == None || results[i].status == Some(0)
    ensures forall number :: SaysStatus(results, j, number) <==> number != 0 && results[i].status == Some(number)
  {
    assert forall k :: 0 <= k < |results| && results[k].index == j ==> k == i;
  }

  /** What a well indexed stream says of an entry, and the verdict on it. */
  lemma {:induction false} WellIndexedVerdict(
    results: seq<EntryResult>, end: MutateEnd, n: nat, j: nat, e: PendingEntry, maxAttempts: nat, reply: Reply)
    requires reply.Streamed? && results == Concat(reply.responses) && end == reply.end && WellIndexed(results, n)
    ensures Judged(reply, n, j, e, maxAttempts, VerdictOn(e, j, results, end, maxAttempts))
  {
    hide Concat, AnswerTo, FirstViolation;
    AnswerIsTheResult(results, n, j);
    NoViolation(results, n);
    if Silent(results, j) {
      assert !SaysOk(results, j) && forall number :: !SaysStatus(results, j, number);
      hide WellIndexed, SaysOk, SaysStatus, Silent, IsCodeOf;
    } else {
      var i :| 0 <= i < |results| && results[i].index == j;
      OneResultSays(results, n, j, i);
      AnsweredVerdict(results, end, n, j, e, maxAttempts, reply, results[i]);
    }
  }

  lemma {:induction false} NoViolation(results: seq<EntryResult>, n: nat)
    requires WellIndexed(results, n)
    ensures forall issue :: !FirstViolation(results, n, issue)
  {
    forall issue ensures !FirstViolation(results, n, issue) {
      WellIndexedHasNoIssue(results, n);
      IssueIsFirstViolation(results, n, issue);
    }
  }

  lemma {:induction false} AnsweredVerdict(
    results: seq<EntryResult>, end: MutateEnd, n: nat, j: nat, e: PendingEntry, maxAttempts: nat, reply: Reply,
    r: EntryResult)
    requires reply.Streamed? && results == Concat(reply.responses) && end == reply.end && WellIndexed(results, n)
    requires !Silent(results, j) && AnswerTo(results, j) == Some(StatusOf(r))
    requires SaysOk(results, j) <==> r.status == None || r.status == Some(0)
    requires forall number :: SaysStatus(results, j, number) <==> number != 0 && r.status == Some(number)
    requires forall issue :: !FirstViolation(results, n, issue)
    ensures Judged(reply, n, j, e, maxAttempts, VerdictOn(e, j, results, end, maxAttempts))
  {
    forall code
      ensures r.status == None || r.status == Some(0) <==> StatusOf(r) == Ok
      ensures r.status.Some? && r.status != Some(0) ==> (StatusOf(r) == code <==> IsCodeOf(code, r.status.value)) {
      StatusIsCode(r, code);
    }
    RetriedNumbers(r);
    hide Concat, AnswerTo, FirstViolation, WellIndexed, SaysOk, SaysStatus, Silent, IsCodeOf, StatusOf;
    if r.status.Some? && r.status != Some(0) {
      assert RejectedBy(reply, n, j, r.status.value);
      assert IsCodeOf(StatusOf(r), r.status.value);
    }
  }

  lemma {:induction false} RetriedNumbers(r: EntryResult)
    ensures IsMutateRetryable(StatusOf(r)) <==> r.status == Some(4) || r.status == Some(14)
  {
  }

  /** The verdict is the one the reply calls for, and no other is called for. */
  ghost predicate Judged(reply: Reply, n: nat, j: nat, e: PendingEntry, maxAttempts: nat, v: Verdict) {
    && (v == Confirmed <==> ConfirmedBy(reply, n, j))
    && (v == SendAgain <==> RetriedAfter(reply, n, j, e, maxAttempts))
    && (forall cause :: v == FailedFor(cause) <==> FailedAfter(reply, n, j, e, maxAttempts, cause))
  }

  lemma {:induction false} ViolationVerdict(
    reply: Reply, n: nat, j: nat, e: PendingEntry, maxAttempts: nat, issue: ResponseIssue)
    requires reply.Streamed? && FirstIssue(Concat(reply.responses), n) == Some(issue)
    ensures Judged(reply, n, j, e, maxAttempts, FailedFor(InvalidResponse(issue)))
  {
    var results := Concat(reply.responses);
    WellIndexedHasNoIssue(results, n);
    forall other ensures FirstViolation(results, n, other) <==> other == issue {
      IssueIsFirstViolation(results, n, other);
    }
    hide Concat, WellIndexed, FirstViolation, SaysOk, SaysStatus, Silent, FirstIssue;
  }

  lemma {:induction false} LostVerdict(reply: Reply, n: nat, j: nat, e: PendingEntry, maxAttempts: nat)
    requires !reply.Streamed?
    ensures var code := if reply.Refused? then reply.code else DeadlineExceeded;
      Judged(reply, n, j, e, maxAttempts, OnRpcStatus(e, code, maxAttempts))
  {
  }

  /** Every verdict on a reply is the one its results, its status or its violation call for. */
  lemma {:induction false} VerdictsAreCalledFor(current: seq<PendingEntry>, reply: Reply, maxAttempts: nat, j: nat)
    requires j < |current|
    ensures Judged(reply, |current|, j, current[j], maxAttempts, VerdictsOf(current, reply, maxAttempts)[j])
  {
    hide Judged, Concat, FirstIssue, VerdictOn, OnRpcStatus, WellIndexed;
    match reply {
      case Refused(code) => LostVerdict(reply, |current|, j, current[j], maxAttempts);
      case TimedOut => LostVerdict(reply, |current|, j, current[j], maxAttempts);
      case Streamed(responses, end) =>
        var results := Concat(responses);
        WellIndexedHasNoIssue(results, |current|);
        match FirstIssue(results, |current|) {
          case Some(issue) => ViolationVerdict(reply, |current|, j, current[j], maxAttempts, issue);
          case None => WellIndexedVerdict(results, end, |current|, j, current[j], maxAttempts, reply);
        }
    }
  }

  /** The outcome settles every entry of the attempt, in order, as the reply calls for. */
  ghost predicate AsReplied(current: seq<PendingEntry>, reply: Reply, maxAttempts: nat, outcome: AttemptOutcome) {
    exists verdicts: seq<Verdict> :: SettledBy(current, reply, maxAttempts, verdicts, outcome)
  }

  ghost predicate SettledBy(
    current: seq<PendingEntry>, reply: Reply, maxAttempts: nat, verdicts: seq<Verdict>, outcome: AttemptOutcome)
  {
    && |verdicts| == |current|
    && (forall j :: 0 <= j < |current| ==> Judged(reply, |current|, j, current[j], maxAttempts, verdicts[j]))
    && outcome == Tally(Settle(current, verdicts))
  }

  lemma {:induction false} VerdictsSettleAsReplied(current: seq<PendingEntry>, reply: Reply, maxAttempts: nat)
    ensures AsReplied(current, reply, maxAttempts, Tally(Settle(current, VerdictsOf(current, reply, maxAttempts))))
  {
    hide Judged, Settle, VerdictsOf;
    var verdicts := VerdictsOf(current, reply, maxAttempts);
    forall j | 0 <= j < |current| ensures Judged(reply, |current|, j, current[j], maxAttempts, verdicts[j]) {
      VerdictsAreCalledFor(current, reply, maxAttempts, j);
    }
    assert SettledBy(current, reply, maxAttempts, verdicts, Tally(Settle(current, verdicts)));
  }

  /** A reply leaves no choice: two verdicts it calls for are the same, and so are two outcomes. */
  lemma {:induction false} ReplyDecidesVerdict(
    reply: Reply, n: nat, j: nat, e: PendingEntry, maxAttempts: nat, a: Verdict, b: Verdict)
    requires Judged(reply, n, j, e, maxAttempts, a) && Judged(reply, n, j, e, maxAttempts, b)
    ensures a == b
  {
    hide ConfirmedBy, RetriedAfter, FailedAfter;
    if a.FailedFor? {
      assert b == FailedFor(a.cause);
    }
  }

  lemma {:induction false} ReplyDecidesOutcome(
    current: seq<PendingEntry>, reply: Reply, maxAttempts: nat, a: AttemptOutcome, b: AttemptOutcome)
    requires AsReplied(current, reply, maxAttempts, a) && AsReplied(current, reply, maxAttempts, b)
    ensures a == b
  {
    hide Judged, Settle;
    var v: seq<Verdict> :| SettledBy(current, reply, maxAttempts, v, a);
    var w: seq<Verdict> :| SettledBy(current, reply, maxAttempts, w, b);
    forall j | 0 <= j < |current| ensures v[j] == w[j] {
      ReplyDecidesVerdict(reply, |current|, j, current[j], maxAttempts, v[j], w[j]);
    }
    assert v == w;
  }
}
