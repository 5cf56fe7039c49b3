/**
 * What a reply to one `MutateRows` attempt settles.
 *
 * `VerdictsOf` says for each entry, by looking its index up in the results, whether it is confirmed, failed or to
 * be sent again.
 */
module Replies {
  import opened Wrappers
  import opened Rows
  import opened Codes
  import opened Splitting

  /** One result; a missing status stands for code zero. */
  datatype EntryResult = EntryResult(index: int, status: Option<int>)

  datatype MutateEnd = Closed | StreamFailed(code: Code) | DeadlinePassed

  datatype Reply = Refused(code: Code) | TimedOut | Streamed(responses: seq<seq<EntryResult>>, end: MutateEnd)

  datatype ResponseIssue =
    | NegativeIndex(index: int)
    | IndexOutOfRange(index: int, entryCount: nat)
    | DuplicateIndex(local: nat)
    | MissingIndex(local: nat)

  datatype FailureCause =
    | EntryStatus(code: Code, retrySafe: bool)
    | RpcStatus(code: Code, retrySafe: bool)
    | OperationDeadline
    | InvalidResponse(issue: ResponseIssue)

  datatype MutationFailure = MutationFailure(index: nat, attempts: nat, cause: FailureCause)

  datatype AttemptOutcome = AttemptOutcome(successful: nat, failures: seq<MutationFailure>, retry: seq<PendingEntry>)

  // ---------- what the results say ----------

  function StatusOf(r: EntryResult): Code {
    if r.status.GetOr(0) == 0 then Ok else FromI32(r.status.value)
  }

  /** The violation a result commits after the ones before it. */
  function IssueOf(before: seq<EntryResult>, r: EntryResult, n: nat): Option<ResponseIssue> {
    if r.index < 0 then Some(NegativeIndex(r.index))
    else if r.index >= n then Some(IndexOutOfRange(r.index, n))
    else if exists i :: 0 <= i < |before| && before[i].index == r.index then Some(DuplicateIndex(r.index))
    else None
  }

  function FirstIssue(results: seq<EntryResult>, n: nat): Option<ResponseIssue> {
    if results == [] then None
    else
      match FirstIssue(Init(results), n)
      case Some(issue) => Some(issue)
      case None => IssueOf(Init(results), Last(results), n)
  }

  /** The status reported for a request-local index, if any. */
  function AnswerTo(results: seq<EntryResult>, local: nat): Option<Code> {
    if results == [] then None
    else if Last(results).index == local then Some(StatusOf(Last(results)))
    else AnswerTo(Init(results), local)
  }

  datatype Verdict = Confirmed | SendAgain | FailedFor(cause: FailureCause)

  predicate CanRetry(e: PendingEntry, code: Code, maxAttempts: nat) {
    e.retrySafe && IsMutateRetryable(code) && e.attempts < maxAttempts
  }

  function OnEntryStatus(e: PendingEntry, code: Code, maxAttempts: nat): Verdict {
    if CanRetry(e, code, maxAttempts) then SendAgain else FailedFor(EntryStatus(code, e.retrySafe))
  }

  function OnRpcStatus(e: PendingEntry, code: Code, maxAttempts: nat): Verdict {
    if CanRetry(e, code, maxAttempts) then SendAgain else FailedFor(RpcStatus(code, e.retrySafe))
  }

  function VerdictOn(
    e: PendingEntry, local: nat, results: seq<EntryResult>, end: MutateEnd, maxAttempts: nat): Verdict {
    match AnswerTo(results, local)
    case Some(code) => if code == Ok then Confirmed else OnEntryStatus(e, code, maxAttempts)
    case None =>
      match end
      case Closed => FailedFor(InvalidResponse(MissingIndex(local)))
      case StreamFailed(code) => OnRpcStatus(e, code, maxAttempts)
      case DeadlinePassed => OnRpcStatus(e, DeadlineExceeded, maxAttempts)
  }

  /** The verdict on every entry of an attempt. A protocol violation fails them all. */
  function VerdictsOf(current: seq<PendingEntry>, reply: Reply, maxAttempts: nat): (verdicts: seq<Verdict>)
    ensures |verdicts| == |current|
  {
    match reply
    case Refused(code) => seq(|current|, i requires 0 <= i < |current| => OnRpcStatus(current[i], code, maxAttempts))
    case TimedOut => seq(|current|,
      i requires 0 <= i < |current| => OnRpcStatus(current[i], DeadlineExceeded, maxAttempts))
    case Streamed(responses, end) =>
      match FirstIssue(Concat(responses), |current|)
      case Some(issue) => seq(|current|, i => FailedFor(InvalidResponse(issue)))
      case None =>
        seq(|current|, i requires 0 <= i < |current| => VerdictOn(current[i], i, Concat(responses), end, maxAttempts))
  }

  /** The entries of an attempt told apart by verdict, each kind in request order. */
  datatype Settled = Settled(
    confirmed: seq<PendingEntry>, failed: seq<PendingEntry>, failures: seq<MutationFailure>, retry: seq<PendingEntry>)

  function FailureOf(e: PendingEntry, cause: FailureCause): MutationFailure {
    MutationFailure(e.originalIndex, e.attempts, cause)
  }

  function Settle(current: seq<PendingEntry>, verdicts: seq<Verdict>): Settled
    requires |verdicts| == |current|
  {
    if current == [] then Settled([], [], [], [])
    else
      var s, e := Settle(Init(current), Init(verdicts)), Last(current);
      match Last(verdicts)
      case Confirmed => s.(confirmed := s.confirmed + [e])
      case SendAgain => s.(retry := s.retry + [e])
      case FailedFor(cause) => s.(failed := s.failed + [e], failures := s.failures + [FailureOf(e, cause)])
  }

  function Tally(s: Settled): AttemptOutcome { AttemptOutcome(|s.confirmed|, s.failures, s.retry) }

  lemma {:induction false} SettleOneMore(current: seq<PendingEntry>, verdicts: seq<Verdict>, n: nat)
    requires |verdicts| == |current| && n < |current|
    ensures var s, e := Settle(current[..n], verdicts[..n]), current[n];
      Settle(current[..n + 1], verdicts[..n + 1]) ==
        match verdicts[n]
        case Confirmed => s.(confirmed := s.confirmed + [e])
        case SendAgain => s.(retry := s.retry + [e])
        case FailedFor(cause) => s.(failed := s.failed + [e], failures := s.failures + [FailureOf(e, cause)])
  {
    assert Init(current[..n + 1]) == current[..n] && Last(current[..n + 1]) == current[n];
    assert Init(verdicts[..n + 1]) == verdicts[..n] && Last(verdicts[..n + 1]) == verdicts[n];
  }
}
