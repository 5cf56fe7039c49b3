/** One request batch, sent again with fewer and fewer entries until each has an outcome. */
module Batching {
  import opened Rows
  import opened Codes
  import opened Mutations
  import opened Splitting
  import opened Replies
  import opened Attempts

  const MAX_U32: nat := 0xFFFF_FFFF

  function SaturatingAdd(a: nat, b: nat): nat { if a + b > MAX_U32 then MAX_U32 else a + b }

  /** What one request carried, and which of its entries it settled. */
  datatype Round = Round(sent: seq<PendingEntry>, confirmed: seq<PendingEntry>, failed: seq<PendingEntry>)

  /** A batch operation; `rounds` is the history of its requests. */
  datatype Batch = Batch(
    pending: seq<PendingEntry>, successful: nat, failures: seq<MutationFailure>, rpcAttempts: nat, rounds: seq<Round>)

  /** Deadline passed before a request; no time left for the backoff after it. */
  datatype Tick = Tick(expired: bool, cutOff: bool)

  type MutateService = (nat, seq<RowMutation>) -> Reply

  function Begin(entries: seq<PendingEntry>): Batch { Batch(entries, 0, [], 0, []) }

  function Counted(pending: seq<PendingEntry>): (current: seq<PendingEntry>)
    ensures |current| == |pending|
    ensures forall i :: 0 <= i < |pending| ==>
      current[i] == pending[i].(attempts := SaturatingAdd(pending[i].attempts, 1))
  {
    seq(|pending|, i requires 0 <= i < |pending| => pending[i].(attempts := SaturatingAdd(pending[i].attempts, 1)))
  }

  function RequestOf(current: seq<PendingEntry>): (entries: seq<RowMutation>)
    ensures |entries| == |current| && forall i :: 0 <= i < |current| ==> entries[i] == current[i].entry
  {
    seq(|current|, i requires 0 <= i < |current| => current[i].entry)
  }

  function DeadlineFailures(pending: seq<PendingEntry>): (failures: seq<MutationFailure>)
    ensures |failures| == |pending| && forall i :: 0 <= i < |pending| ==>
      failures[i] == FailureOf(pending[i], OperationDeadline)
  {
    seq(|pending|, i requires 0 <= i < |pending| => FailureOf(pending[i], OperationDeadline))
  }

  function FailPending(b: Batch): Batch { b.(pending := [], failures := b.failures + DeadlineFailures(b.pending)) }

  /** One request and what it settles. */
  function SendOnce(b: Batch, service: MutateService, maxAttempts: nat): Batch {
    var current, rpc := Counted(b.pending), SaturatingAdd(b.rpcAttempts, 1);
    var s := Settle(current, VerdictsOf(current, service(rpc, RequestOf(current)), maxAttempts));
    Batch(s.retry, b.successful + |s.confirmed|, b.failures + s.failures, rpc,
      b.rounds + [Round(current, s.confirmed, s.failed)])
  }

  /** Every pending entry has been in every request so far, and may be in one more. */
  ghost predicate InLockstep(b: Batch, maxAttempts: nat) {
    && maxAttempts <= MAX_U32 && b.rpcAttempts == |b.rounds| <= maxAttempts
    && (b.pending != [] ==> b.rpcAttempts < maxAttempts)
    && forall e :: e in b.pending ==> e.attempts == b.rpcAttempts
  }

  lemma {:induction false} SettleRetries(current: seq<PendingEntry>, verdicts: seq<Verdict>, maxAttempts: nat)
    requires |verdicts| == |current|
    requires forall i :: 0 <= i < |current| && verdicts[i] == SendAgain ==>
      current[i].retrySafe && current[i].attempts < maxAttempts
    ensures forall e :: e in Settle(current, verdicts).retry ==> e in current && e.retrySafe && e.attempts < maxAttempts
  {
    if current == [] {
    } else {
      SettleRetries(Init(current), Init(verdicts), maxAttempts);
      InitAndLast(current);
    }
  }

  lemma {:induction false} VerdictsRespectAttempts(current: seq<PendingEntry>, reply: Reply, maxAttempts: nat)
    ensures forall i :: 0 <= i < |current| && VerdictsOf(current, reply, maxAttempts)[i] == SendAgain ==>
      current[i].retrySafe && current[i].attempts < maxAttempts
  {
    hide FirstIssue, AnswerTo, Concat;
  }

  lemma {:induction false} SendOnceKeepsLockstep(b: Batch, service: MutateService, maxAttempts: nat)
    requires InLockstep(b, maxAttempts) && b.pending != []
    ensures var next := SendOnce(b, service, maxAttempts);
      InLockstep(next, maxAttempts) && next.rpcAttempts == b.rpcAttempts + 1
      && (forall e :: e in next.pending ==> e.retrySafe)
  {
    hide VerdictsOf, Settle;
    var current := Counted(b.pending);
    var reply := service(SaturatingAdd(b.rpcAttempts, 1), RequestOf(current));
    forall i | 0 <= i < |current| ensures current[i].attempts == b.rpcAttempts + 1 {
      assert b.pending[i] in b.pending;
    }
    VerdictsRespectAttempts(current, reply, maxAttempts);
    SettleRetries(current, VerdictsOf(current, reply, maxAttempts), maxAttempts);
    var next := SendOnce(b, service, maxAttempts);
    if next.pending != [] {
      assert next.pending[0] in next.pending;
    }
  }

  /** The whole batch. Each request uses up one attempt of every entry in it, so it ends. */
  function RunBatch(b: Batch, clocks: nat -> Tick, service: MutateService, maxAttempts: nat): Batch
    requires InLockstep(b, maxAttempts)
    decreases maxAttempts - b.rpcAttempts
  {
    if b.pending == [] then b
    else if clocks(b.rpcAttempts).expired then FailPending(b)
    else
      SendOnceKeepsLockstep(b, service, maxAttempts);
      var next := SendOnce(b, service, maxAttempts);
      if next.pending != [] && clocks(next.rpcAttempts).cutOff then FailPending(next)
      else RunBatch(next, clocks, service, maxAttempts)
  }

  class BatchOperation {
    const maxAttempts: nat
    var pending: seq<PendingEntry>
    var successful: nat
    var failures: seq<MutationFailure>
    var rpcAttempts: nat
    ghost var rounds: seq<Round>

    ghost function View(): Batch
      reads this
    {
      Batch(pending, successful, failures, rpcAttempts, rounds)
    }

    constructor (entries: seq<PendingEntry>, maxAttempts: nat)
      ensures View() == Begin(entries) && this.maxAttempts == maxAttempts
    {
      this.maxAttempts := maxAttempts;
      pending, successful, failures, rpcAttempts, rounds := entries, 0, [], 0, [];
    }

    method FailPendingDeadline()
      modifies this`pending, this`failures
      ensures View() == FailPending(old(View()))
    {
      failures := failures + DeadlineFailures(pending);
      pending := [];
    }

    /** Counts the attempt, sends what is pending, and keeps what is to be sent again. */
    method SendPending(service: MutateService)
      modifies this
      ensures View() == SendOnce(old(View()), service, maxAttempts)
    {
      hide VerdictsOf, Settle;
      rpcAttempts := SaturatingAdd(rpcAttempts, 1);
      var current := Counted(pending);
      pending := [];
      var outcome: AttemptOutcome;
      var reply := service(rpcAttempts, RequestOf(current));
      match reply {
        case Streamed(responses, end) =>
          outcome := ConsumeStream(current, responses, end, maxAttempts);
        case Refused(code) =>
          outcome := RpcFailure(current, code, maxAttempts);
        case TimedOut =>
          outcome := RpcFailure(current, DeadlineExceeded, maxAttempts);
          TimeoutIsDeadline(current, maxAttempts);
      }
      ghost var s := Settle(current, VerdictsOf(current, reply, maxAttempts));
      successful := successful + outcome.successful;
      failures := failures + outcome.failures;
      pending := outcome.retry;
      rounds := rounds + [Round(current, s.confirmed, s.failed)];
    }

    method Run(clocks: nat -> Tick, service: MutateService)
      requires InLockstep(View(), maxAttempts)
      modifies this
      ensures View() == RunBatch(old(View()), clocks, service, maxAttempts)
    {
      hide SendOnce, FailPending;
      while pending != []
        invariant InLockstep(View(), maxAttempts)
        invariant RunBatch(old(View()), clocks, service, maxAttempts) == RunBatch(View(), clocks, service, maxAttempts)
        decreases maxAttempts - rpcAttempts
      {
        if clocks(rpcAttempts).expired {
          FailPendingDeadline();
          return;
        }
        SendOnceKeepsLockstep(View(), service, maxAttempts);
        SendPending(service);
        if pending != [] && clocks(rpcAttempts).cutOff {
          FailPendingDeadline();
          return;
        }
      }
    }
  }

  lemma {:induction false} TimeoutIsDeadline(current: seq<PendingEntry>, maxAttempts: nat)
    ensures VerdictsOf(current, TimedOut, maxAttempts) == VerdictsOf(current, Refused(DeadlineExceeded), maxAttempts)
  {
  }
}
