/**
 * A whole batch told by its replies and its clock alone: which requests are sent, what becomes of each entry, and
 * when the deadline is to blame.
 */
module Outcomes {
  import opened Rows
  import opened Codes
  import opened Mutations
  import opened Splitting
  import opened Replies
  import opened Statuses
  import opened Batching
  import opened Conservation
  import opened Attribution

  /** The reply to request `r`, counted from zero: the service is asked with the entries sent, in their order. */
  ghost function ReplyTo(rounds: seq<Round>, r: nat, service: MutateService): Reply
    requires r < |rounds|
  {
    var sent := rounds[r].sent;
    service(r + 1, seq(|sent|, j requires 0 <= j < |sent| => sent[j].entry))
  }

  ghost predicate ConfirmedFrom(rounds: seq<Round>, r: nat, j: nat, service: MutateService)
    requires r < |rounds| && j < |rounds[r].sent|
  {
    ConfirmedBy(ReplyTo(rounds, r, service), |rounds[r].sent|, j)
  }

  ghost predicate RetriedIn(rounds: seq<Round>, r: nat, j: nat, service: MutateService, maxAttempts: nat)
    requires r < |rounds| && j < |rounds[r].sent|
  {
    RetriedAfter(ReplyTo(rounds, r, service), |rounds[r].sent|, j, rounds[r].sent[j], maxAttempts)
  }

  ghost predicate FailedFrom(
    rounds: seq<Round>, r: nat, j: nat, service: MutateService, maxAttempts: nat, cause: FailureCause)
    requires r < |rounds| && j < |rounds[r].sent|
  {
    FailedAfter(ReplyTo(rounds, r, service), |rounds[r].sent|, j, rounds[r].sent[j], maxAttempts, cause)
  }

  ghost predicate LeftOpenBy(
    rounds: seq<Round>, r: nat, service: MutateService, maxAttempts: nat, e: PendingEntry)
    requires r < |rounds|
  {
    exists j :: 0 <= j < |rounds[r].sent| && rounds[r].sent[j] == e && RetriedIn(rounds, r, j, service, maxAttempts)
  }

  /** In the batch, and to be sent again after each of the first `r` replies. */
  ghost predicate OpenAfter(
    rounds: seq<Round>, r: nat, initial: seq<PendingEntry>, service: MutateService, maxAttempts: nat, e: PendingEntry)
    requires r <= |rounds|
  {
    if r == 0 then e in initial
    else LeftOpenBy(rounds, r - 1, service, maxAttempts, e)
  }

  ghost predicate RoundFollows(
    rounds: seq<Round>, r: nat, initial: seq<PendingEntry>, service: MutateService, maxAttempts: nat)
    requires r < |rounds|
  {
    var sent := rounds[r].sent;
    && (forall e :: e in sent <==>
          e.attempts == r + 1 && OpenAfter(rounds, r, initial, service, maxAttempts, e.(attempts := r)))
    && (forall e :: e in rounds[r].confirmed <==>
          exists j :: 0 <= j < |sent| && sent[j] == e && ConfirmedFrom(rounds, r, j, service))
    && (forall e :: e in rounds[r].failed <==>
          exists j, cause :: 0 <= j < |sent| && sent[j] == e && FailedFrom(rounds, r, j, service, maxAttempts, cause))
  }

  /** Some request failed for this cause, for an entry it carried. */
  ghost predicate FailureFrom(rounds: seq<Round>, service: MutateService, maxAttempts: nat, f: MutationFailure) {
    exists r, j ::
      && 0 <= r < |rounds| && 0 <= j < |rounds[r].sent|
      && FailedFrom(rounds, r, j, service, maxAttempts, f.cause)
      && f.index == rounds[r].sent[j].originalIndex && f.attempts == r + 1
  }

  /** The deadline passed while this entry was open. */
  ghost predicate DeadlineFor(
    rounds: seq<Round>, initial: seq<PendingEntry>, service: MutateService, maxAttempts: nat, f: MutationFailure)
  {
    exists e ::
      && OpenAfter(rounds, |rounds|, initial, service, maxAttempts, e)
      && f == MutationFailure(e.originalIndex, |rounds|, OperationDeadline)
  }

  ghost predicate EndsAsReplied(b: Batch, initial: seq<PendingEntry>, service: MutateService, maxAttempts: nat) {
    && (forall r :: 0 <= r < |b.rounds| ==> RoundFollows(b.rounds, r, initial, service, maxAttempts))
    && (forall f :: f in b.failures <==>
          FailureFrom(b.rounds, service, maxAttempts, f) || DeadlineFor(b.rounds, initial, service, maxAttempts, f))
  }

  // ---------- from verdicts to replies ----------

  lemma {:induction false} VerdictInRound(rounds: seq<Round>, r: nat, j: nat, service: MutateService, maxAttempts: nat)
    requires r < |rounds| && j < |rounds[r].sent|
    ensures var v := VerdictsIn(rounds, r, service, maxAttempts)[j];
      && (v == Confirmed <==> ConfirmedFrom(rounds, r, j, service))
      && (v == SendAgain <==> RetriedIn(rounds, r, j, service, maxAttempts))
      && (forall cause :: v == FailedFor(cause) <==> FailedFrom(rounds, r, j, service, maxAttempts, cause))
  {
    hide VerdictsOf, ConfirmedBy, RetriedAfter, FailedAfter;
    var sent := rounds[r].sent;
    assert RequestOf(sent) == seq(|sent|, k requires 0 <= k < |sent| => sent[k].entry);
    VerdictsAreCalledFor(sent, ReplyTo(rounds, r, service), maxAttempts, j);
  }

  lemma {:induction false} OpenIsOpen(
    rounds: seq<Round>, r: nat, initial: seq<PendingEntry>, service: MutateService, maxAttempts: nat, e: PendingEntry)
    requires r <= |rounds|
    ensures StillOpen(rounds, r, initial, service, maxAttempts, e) <==>
      OpenAfter(rounds, r, initial, service, maxAttempts, e)
  {
    hide LeftOpenBy, Got;
    if r > 0 {
      LeftOpenIsRetried(rounds, r - 1, service, maxAttempts, e);
    }
  }

  lemma {:induction false} LeftOpenIsRetried(
    rounds: seq<Round>, r: nat, service: MutateService, maxAttempts: nat, e: PendingEntry)
    requires r < |rounds|
    ensures Got(rounds[r].sent, VerdictsIn(rounds, r, service, maxAttempts), e, SendAgain) <==>
      LeftOpenBy(rounds, r, service, maxAttempts, e)
  {
    hide RetriedIn, ConfirmedFrom, FailedFrom, VerdictsIn;
    forall j | 0 <= j < |rounds[r].sent|
      ensures VerdictsIn(rounds, r, service, maxAttempts)[j] == SendAgain <==>
        RetriedIn(rounds, r, j, service, maxAttempts) {
      VerdictInRound(rounds, r, j, service, maxAttempts);
    }
  }

  lemma {:induction false} RoundIsFollowed(
    rounds: seq<Round>, r: nat, initial: seq<PendingEntry>, service: MutateService, maxAttempts: nat)
    requires r < |rounds| && RoundExplained(rounds, r, initial, service, maxAttempts)
    ensures RoundFollows(rounds, r, initial, service, maxAttempts)
  {
    hide RetriedIn, ConfirmedFrom, FailedFrom, StillOpen, OpenAfter;
    var sent, verdicts := rounds[r].sent, VerdictsIn(rounds, r, service, maxAttempts);
    forall e ensures StillOpen(rounds, r, initial, service, maxAttempts, e) <==>
      OpenAfter(rounds, r, initial, service, maxAttempts, e) {
      OpenIsOpen(rounds, r, initial, service, maxAttempts, e);
    }
    forall j | 0 <= j < |sent|
      ensures verdicts[j] == Confirmed <==> ConfirmedFrom(rounds, r, j, service)
      ensures forall cause :: verdicts[j] == FailedFor(cause) <==>
        FailedFrom(rounds, r, j, service, maxAttempts, cause) {
      VerdictInRound(rounds, r, j, service, maxAttempts);
    }
    hide VerdictsIn;
    assert forall e :: e in rounds[r].confirmed <==>
      exists j :: 0 <= j < |sent| && sent[j] == e && ConfirmedFrom(rounds, r, j, service);
    forall e ensures e in rounds[r].failed <==>
      exists j, cause :: 0 <= j < |sent| && sent[j] == e && FailedFrom(rounds, r, j, service, maxAttempts, cause) {
      if e in rounds[r].failed {
        var cause :| Got(sent, verdicts, e, FailedFor(cause));
        var j :| 0 <= j < |sent| && sent[j] == e && verdicts[j] == FailedFor(cause);
        assert FailedFrom(rounds, r, j, service, maxAttempts, cause);
      }
      if j, cause :| 0 <= j < |sent| && sent[j] == e && FailedFrom(rounds, r, j, service, maxAttempts, cause) {
        assert verdicts[j] == FailedFor(cause) && Got(sent, verdicts, e, FailedFor(cause));
      }
    }
    assert forall e :: e in sent <==>
      e.attempts == r + 1 && OpenAfter(rounds, r, initial, service, maxAttempts, e.(attempts := r));
  }

  lemma {:induction false} FailureIsFrom(
    b: Batch, r: nat, initial: seq<PendingEntry>, service: MutateService, maxAttempts: nat, f: MutationFailure)
    requires r < |b.rounds| && RoundExplained(b.rounds, r, initial, service, maxAttempts)
    ensures FailedIn(b.rounds[r].sent, VerdictsIn(b.rounds, r, service, maxAttempts), f) <==>
      exists j ::
        && 0 <= j < |b.rounds[r].sent| && FailedFrom(b.rounds, r, j, service, maxAttempts, f.cause)
        && f.index == b.rounds[r].sent[j].originalIndex && f.attempts == r + 1
  {
    hide VerdictsIn, FailedFrom, StillOpen, ConfirmedFrom, RetriedIn;
    var sent, verdicts := b.rounds[r].sent, VerdictsIn(b.rounds, r, service, maxAttempts);
    forall j | 0 <= j < |sent|
      ensures sent[j].attempts == r + 1
      ensures verdicts[j] == FailedFor(f.cause) <==> FailedFrom(b.rounds, r, j, service, maxAttempts, f.cause) {
      assert sent[j] in sent;
      VerdictInRound(b.rounds, r, j, service, maxAttempts);
    }
    if j :|
      && 0 <= j < |sent| && verdicts[j] == FailedFor(f.cause)
      && f.index == sent[j].originalIndex && f.attempts == r + 1 {
      assert Got(sent, verdicts, sent[j], FailedFor(f.cause));
    }
  }

  lemma {:induction false} ExplainedMeansReplied(
    b: Batch, initial: seq<PendingEntry>, service: MutateService, maxAttempts: nat)
    requires Explained(b, initial, service, maxAttempts)
    ensures EndsAsReplied(b, initial, service, maxAttempts)
  {
    hide VerdictsIn, FailedIn, FailedFrom, StillOpen, OpenAfter, RoundExplained, RoundFollows;
    forall r | 0 <= r < |b.rounds| ensures RoundFollows(b.rounds, r, initial, service, maxAttempts) {
      RoundIsFollowed(b.rounds, r, initial, service, maxAttempts);
    }
    forall e ensures StillOpen(b.rounds, |b.rounds|, initial, service, maxAttempts, e) <==>
      OpenAfter(b.rounds, |b.rounds|, initial, service, maxAttempts, e) {
      OpenIsOpen(b.rounds, |b.rounds|, initial, service, maxAttempts, e);
    }
    forall f ensures FailedInSome(b.rounds, service, maxAttempts, f) <==>
      FailureFrom(b.rounds, service, maxAttempts, f) {
      forall r | 0 <= r < |b.rounds|
        ensures FailedIn(b.rounds[r].sent, VerdictsIn(b.rounds, r, service, maxAttempts), f) <==>
          exists j ::
            && 0 <= j < |b.rounds[r].sent| && FailedFrom(b.rounds, r, j, service, maxAttempts, f.cause)
            && f.index == b.rounds[r].sent[j].originalIndex && f.attempts == r + 1 {
        FailureIsFrom(b, r, initial, service, maxAttempts, f);
      }
    }
  }

  /**
   * Over any run of a batch, each request carries exactly the entries every earlier reply left open, an entry is
   * confirmed if and only if the reply to that very request confirms it, and the failures are the entries that a
   * reply failed, with its cause and the number of that request, and those still open when the deadline passed.
   */
  lemma {:induction false} BatchEndsAsReplied(
    initial: seq<PendingEntry>, clocks: nat -> Tick, service: MutateService, maxAttempts: nat)
    requires 0 < maxAttempts <= MAX_U32 && forall e :: e in initial ==> e.attempts == 0
    ensures EndsAsReplied(RunBatch(Begin(initial), clocks, service, maxAttempts), initial, service, maxAttempts)
  {
    hide RunBatch, Explained, EndsAsReplied;
    BatchIsExplained(initial, clocks, service, maxAttempts);
    ExplainedMeansReplied(RunBatch(Begin(initial), clocks, service, maxAttempts), initial, service, maxAttempts);
  }

  // ---------- when requests are sent ----------

  /** The clock stops a batch after `n` requests. */
  ghost predicate StopsAt(clocks: nat -> Tick, n: nat) { clocks(n).expired || (n > 0 && clocks(n).cutOff) }

  /** Requests are sent as long as an entry is open and the clock allows it, and no longer. */
  ghost predicate Paced(
    b: Batch, initial: seq<PendingEntry>, clocks: nat -> Tick, service: MutateService, maxAttempts: nat)
  {
    && (forall n :: 0 <= n < |b.rounds| ==> !StopsAt(clocks, n) && b.rounds[n].sent != [])
    && ((exists e :: OpenAfter(b.rounds, |b.rounds|, initial, service, maxAttempts, e)) ==> StopsAt(clocks, |b.rounds|))
  }

  ghost predicate PacedSoFar(b: Batch, clocks: nat -> Tick) {
    && (forall n :: 0 <= n < |b.rounds| ==> !StopsAt(clocks, n) && b.rounds[n].sent != [])
    && (b.pending != [] && |b.rounds| > 0 ==> !clocks(|b.rounds|).cutOff)
  }

  lemma {:induction false} StoppedIsPaced(
    b: Batch, initial: seq<PendingEntry>, clocks: nat -> Tick, service: MutateService, maxAttempts: nat)
    requires ExplainedSoFar(b, initial, service, maxAttempts)
    requires forall n :: 0 <= n < |b.rounds| ==> !StopsAt(clocks, n) && b.rounds[n].sent != []
    requires b.pending == [] || StopsAt(clocks, |b.rounds|)
    ensures Paced(FailPending(b), initial, clocks, service, maxAttempts)
  {
    hide StillOpen, OpenAfter, StopsAt, RoundsExplained, FailedInSome;
    if e :| OpenAfter(b.rounds, |b.rounds|, initial, service, maxAttempts, e) {
      OpenIsOpen(b.rounds, |b.rounds|, initial, service, maxAttempts, e);
      assert e in b.pending;
    }
  }

  lemma {:induction false} RunIsPaced(
    b: Batch, clocks: nat -> Tick, service: MutateService, maxAttempts: nat, initial: seq<PendingEntry>)
    requires InLockstep(b, maxAttempts) && ExplainedSoFar(b, initial, service, maxAttempts) && PacedSoFar(b, clocks)
    ensures Paced(RunBatch(b, clocks, service, maxAttempts), initial, clocks, service, maxAttempts)
    decreases maxAttempts - b.rpcAttempts
  {
    hide SendOnce, ExplainedSoFar, Paced;
    if b.pending == [] {
      StoppedIsPaced(b, initial, clocks, service, maxAttempts);
      assert DeadlineFailures([]) == [] && FailPending(b) == b;
    } else if clocks(b.rpcAttempts).expired {
      StoppedIsPaced(b, initial, clocks, service, maxAttempts);
    } else {
      var next := SendOnce(b, service, maxAttempts);
      SendOnceKeepsLockstep(b, service, maxAttempts);
      SendOnceExplains(b, service, maxAttempts, initial);
      SentIsNotEmpty(b, service, maxAttempts);
      if next.pending != [] && clocks(next.rpcAttempts).cutOff {
        StoppedIsPaced(next, initial, clocks, service, maxAttempts);
      } else {
        RunIsPaced(next, clocks, service, maxAttempts, initial);
      }
    }
  }

  lemma {:induction false} SentIsNotEmpty(b: Batch, service: MutateService, maxAttempts: nat)
    requires b.pending != []
    ensures var next := SendOnce(b, service, maxAttempts);
      |next.rounds| == |b.rounds| + 1 && next.rounds[..|b.rounds|] == b.rounds && Last(next.rounds).sent != []
    ensures forall n :: 0 <= n < |b.rounds| ==> SendOnce(b, service, maxAttempts).rounds[n] == b.rounds[n]
  {
    hide VerdictsOf, Settle;
  }

  /** A batch is sent, and sent again, until no entry is open or the clock stops it. */
  lemma {:induction false} BatchIsPaced(
    initial: seq<PendingEntry>, clocks: nat -> Tick, service: MutateService, maxAttempts: nat)
    requires 0 < maxAttempts <= MAX_U32 && forall e :: e in initial ==> e.attempts == 0
    ensures Paced(RunBatch(Begin(initial), clocks, service, maxAttempts), initial, clocks, service, maxAttempts)
  {
    hide RunBatch, Paced;
    RunIsPaced(Begin(initial), clocks, service, maxAttempts, initial);
  }

  /** A failure is put down to the deadline only if the clock stopped the batch. */
  lemma {:induction false} DeadlineNeedsClock(
    initial: seq<PendingEntry>, clocks: nat -> Tick, service: MutateService, maxAttempts: nat, f: MutationFailure)
    requires 0 < maxAttempts <= MAX_U32 && forall e :: e in initial ==> e.attempts == 0
    ensures var final := RunBatch(Begin(initial), clocks, service, maxAttempts);
      f in final.failures && f.cause == OperationDeadline ==> StopsAt(clocks, |final.rounds|)
  {
    hide RunBatch, RoundFollows, OpenAfter, StopsAt;
    BatchEndsAsReplied(initial, clocks, service, maxAttempts);
    BatchIsPaced(initial, clocks, service, maxAttempts);
  }

  /** If the clock never stops it, every entry of a batch ends as a reply says. */
  lemma {:induction false} RepliesDecideAll(
    initial: seq<PendingEntry>, clocks: nat -> Tick, service: MutateService, maxAttempts: nat)
    requires 0 < maxAttempts <= MAX_U32 && forall e :: e in initial ==> e.attempts == 0
    requires forall n: nat :: !StopsAt(clocks, n)
    ensures var final := RunBatch(Begin(initial), clocks, service, maxAttempts);
      && (forall e :: !OpenAfter(final.rounds, |final.rounds|, initial, service, maxAttempts, e))
      && (forall f :: f in final.failures <==> FailureFrom(final.rounds, service, maxAttempts, f))
      && (initial != [] ==> final.rounds != [])
  {
    hide RunBatch, RoundFollows, StopsAt, FailureFrom, RetriedIn;
    BatchEndsAsReplied(initial, clocks, service, maxAttempts);
    BatchIsPaced(initial, clocks, service, maxAttempts);
    var rounds := RunBatch(Begin(initial), clocks, service, maxAttempts).rounds;
    if initial != [] && rounds == [] {
      assert initial[0] in initial;
      assert OpenAfter(rounds, |rounds|, initial, service, maxAttempts, initial[0]);
    }
  }

  // ---------- what is enough for success ----------

  /** An error that passes: the entry was refused, or its answer lost, with DeadlineExceeded or Unavailable. */
  ghost predicate Passing(reply: Reply, n: nat, j: nat) {
    || RejectedBy(reply, n, j, 4) || RejectedBy(reply, n, j, 14)
    || LostTo(reply, n, j, DeadlineExceeded) || LostTo(reply, n, j, Unavailable)
  }

  /** Up to request `good` every entry is confirmed or meets an error that passes; request `good` confirms all. */
  ghost predicate ComesGood(service: MutateService, good: nat) {
    forall n: nat, request: seq<RowMutation>, j: nat :: 0 < n <= good && j < |request| ==>
      || ConfirmedBy(service(n, request), |request|, j)
      || (n < good && Passing(service(n, request), |request|, j))
  }

  lemma {:induction false} OnlyOneOutcome(rounds: seq<Round>, r: nat, j: nat, service: MutateService, maxAttempts: nat)
    requires r < |rounds| && j < |rounds[r].sent|
    ensures ConfirmedFrom(rounds, r, j, service) ==> !RetriedIn(rounds, r, j, service, maxAttempts)
    ensures ConfirmedFrom(rounds, r, j, service) || RetriedIn(rounds, r, j, service, maxAttempts) ==>
      forall cause :: !FailedFrom(rounds, r, j, service, maxAttempts, cause)
  {
    hide ConfirmedFrom, RetriedIn, FailedFrom, VerdictsIn;
    VerdictInRound(rounds, r, j, service, maxAttempts);
  }

  /** A request of a batch of retry-safe entries, before the reply that confirms all, or that one. */
  lemma {:induction false} GoodRound(
    b: Batch, initial: seq<PendingEntry>, service: MutateService, maxAttempts: nat, good: nat, r: nat, j: nat)
    requires Conserved(b, initial, maxAttempts) && r < |b.rounds| && j < |b.rounds[r].sent|
    requires forall e :: e in initial ==> e.retrySafe
    requires r < good <= maxAttempts && ComesGood(service, good)
    ensures r + 1 == good ==> !RetriedIn(b.rounds, r, j, service, maxAttempts)
    ensures forall cause :: !FailedFrom(b.rounds, r, j, service, maxAttempts, cause)
  {
    hide IsSubsequence, ConfirmedBy, RejectedBy, LostTo;
    var sent := b.rounds[r].sent;
    var request := seq(|sent|, k requires 0 <= k < |sent| => sent[k].entry);
    assert LegalRound(b.rounds[r], r, initial);
    SubsequenceMembers(Unsent(sent), Unsent(initial));
    assert Unsent(sent)[j] in Unsent(initial);
    var k :| 0 <= k < |initial| && Unsent(initial)[k] == Unsent(sent)[j];
    assert initial[k] in initial && sent[j] in sent;
    assert ReplyTo(b.rounds, r, service) == service(r + 1, request);
    OnlyOneOutcome(b.rounds, r, j, service, maxAttempts);
  }

  /** After a reply that confirms all, nothing is open. */
  lemma {:induction false} NoneOpenAtGood(
    b: Batch, initial: seq<PendingEntry>, service: MutateService, maxAttempts: nat, good: nat)
    requires Conserved(b, initial, maxAttempts) && 0 < good <= |b.rounds|
    requires forall e :: e in initial ==> e.retrySafe
    requires good <= maxAttempts && ComesGood(service, good)
    ensures forall e :: !OpenAfter(b.rounds, good, initial, service, maxAttempts, e)
  {
    hide Conserved, ComesGood, RetriedIn, FailedFrom;
    var r: nat := good - 1;
    forall j | 0 <= j < |b.rounds[r].sent| ensures !RetriedIn(b.rounds, r, j, service, maxAttempts) {
      GoodRound(b, initial, service, maxAttempts, good, r, j);
    }
  }

  lemma {:induction false} NothingLeftToSend(
    rounds: seq<Round>, r: nat, initial: seq<PendingEntry>, service: MutateService, maxAttempts: nat)
    requires r < |rounds| && RoundFollows(rounds, r, initial, service, maxAttempts)
    requires forall e :: !OpenAfter(rounds, r, initial, service, maxAttempts, e)
    ensures rounds[r].sent == []
  {
    hide OpenAfter, ConfirmedFrom, FailedFrom;
    forall e ensures e !in rounds[r].sent {
      assert !OpenAfter(rounds, r, initial, service, maxAttempts, e.(attempts := r));
    }
    SomeMember(rounds[r].sent);
  }

  /** A batch of retry-safe entries ends with all of them confirmed, if it is given the time to come good. */
  lemma {:induction false} AllAreConfirmedInTheEnd(
    initial: seq<PendingEntry>, clocks: nat -> Tick, service: MutateService, maxAttempts: nat, good: nat)
    requires 0 < good <= maxAttempts <= MAX_U32 && Once(multiset(Ids(initial)))
    requires forall e :: e in initial ==> e.attempts == 0 && e.retrySafe
    requires ComesGood(service, good) && forall n :: 0 <= n < good ==> !StopsAt(clocks, n)
    ensures var final := RunBatch(Begin(initial), clocks, service, maxAttempts);
      && final.failures == [] && final.successful == |initial| && |final.rounds| <= good
      && multiset(Ids(ConfirmedIn(final.rounds))) == multiset(Ids(initial))
  {
    var final := RunBatch(Begin(initial), clocks, service, maxAttempts);
    BatchIsConserved(initial, clocks, service, maxAttempts);
    BatchEndsAsReplied(initial, clocks, service, maxAttempts);
    BatchIsPaced(initial, clocks, service, maxAttempts);
    hide RunBatch, ComesGood, FailedFrom, StopsAt;
    if good <= |final.rounds| {
      NoneOpenAtGood(final, initial, service, maxAttempts, good);
      if good < |final.rounds| {
        NothingLeftToSend(final.rounds, good, initial, service, maxAttempts);
      }
    }
    hide RoundFollows, OpenAfter, Conserved;
    NoFailure(final, initial, service, maxAttempts, good);
  }

  lemma {:induction false} NoFailure(
    final: Batch, initial: seq<PendingEntry>, service: MutateService, maxAttempts: nat, good: nat)
    requires Conserved(final, initial, maxAttempts) && EndsAsReplied(final, initial, service, maxAttempts)
    requires forall e :: e in initial ==> e.retrySafe
    requires |final.rounds| <= good <= maxAttempts && ComesGood(service, good)
    requires forall e :: !OpenAfter(final.rounds, |final.rounds|, initial, service, maxAttempts, e)
    ensures final.failures == [] && final.successful == |initial|
    ensures multiset(Ids(ConfirmedIn(final.rounds))) == multiset(Ids(initial))
  {
    forall f ensures f !in final.failures {
      hide Conserved, ComesGood, FailedFrom, RoundFollows, OpenAfter;
      if r, j :|
        && 0 <= r < |final.rounds| && 0 <= j < |final.rounds[r].sent|
        && FailedFrom(final.rounds, r, j, service, maxAttempts, f.cause)
        && f.index == final.rounds[r].sent[j].originalIndex && f.attempts == r + 1 {
        GoodRound(final, initial, service, maxAttempts, good, r, j);
      }
    }
    SomeMember(final.failures);
    assert FailureIds([]) == [];
  }
}
