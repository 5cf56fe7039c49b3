/** Why each entry of a batch ended as it did: every outcome goes back to the reply that caused it. */
module Attribution {
  import opened Wrappers
  import opened Rows
  import opened Codes
  import opened Splitting
  import opened Replies
  import opened Batching
  import opened Conservation

  /** The verdict on an entry of a request. */
  ghost predicate Got(sent: seq<PendingEntry>, verdicts: seq<Verdict>, e: PendingEntry, v: Verdict)
    requires |verdicts| == |sent|
  {
    exists j :: 0 <= j < |sent| && sent[j] == e && verdicts[j] == v
  }

  lemma {:induction false} GotOneMore(sent: seq<PendingEntry>, verdicts: seq<Verdict>, e: PendingEntry, v: Verdict)
    requires |verdicts| == |sent| && sent != []
    ensures Got(sent, verdicts, e, v) <==>
      Got(Init(sent), Init(verdicts), e, v) || (Last(sent) == e && Last(verdicts) == v)
  {
    if Got(Init(sent), Init(verdicts), e, v) {
      var j :| 0 <= j < |sent| - 1 && Init(sent)[j] == e && Init(verdicts)[j] == v;
      assert sent[j] == e && verdicts[j] == v;
    }
    if Got(sent, verdicts, e, v) && !(Last(sent) == e && Last(verdicts) == v) {
      var j :| 0 <= j < |sent| && sent[j] == e && verdicts[j] == v;
      assert Init(sent)[j] == e && Init(verdicts)[j] == v;
    }
  }

  /** The entry behind a failure. */
  ghost predicate FailedIn(sent: seq<PendingEntry>, verdicts: seq<Verdict>, f: MutationFailure)
    requires |verdicts| == |sent|
  {
    exists e :: Got(sent, verdicts, e, FailedFor(f.cause)) && f.index == e.originalIndex && f.attempts == e.attempts
  }

  /** Settling puts every entry where its own verdict says. */
  ghost predicate SettledRight(sent: seq<PendingEntry>, verdicts: seq<Verdict>, s: Settled)
    requires |verdicts| == |sent|
  {
    && (forall e :: e in s.confirmed <==> Got(sent, verdicts, e, Confirmed))
    && (forall e :: e in s.failed <==> exists cause :: Got(sent, verdicts, e, FailedFor(cause)))
    && (forall f :: f in s.failures <==> FailedIn(sent, verdicts, f))
    && (forall e :: e in s.retry <==> Got(sent, verdicts, e, SendAgain))
  }

  lemma {:induction false} SettleExplains(sent: seq<PendingEntry>, verdicts: seq<Verdict>)
    requires |verdicts| == |sent|
    ensures SettledRight(sent, verdicts, Settle(sent, verdicts))
  {
    if sent == [] {
    } else {
      SettleExplains(Init(sent), Init(verdicts));
      SettleOneMoreRight(sent, verdicts, Settle(Init(sent), Init(verdicts)));
    }
  }

  lemma {:induction false} SettleOneMoreRight(sent: seq<PendingEntry>, verdicts: seq<Verdict>, s: Settled)
    requires |verdicts| == |sent| && sent != [] && s == Settle(Init(sent), Init(verdicts))
    requires SettledRight(Init(sent), Init(verdicts), s)
    ensures SettledRight(sent, verdicts, Settle(sent, verdicts))
  {
    var x, v := Last(sent), Last(verdicts);
    forall e, w ensures Got(sent, verdicts, e, w) <==> Got(Init(sent), Init(verdicts), e, w) || (x == e && v == w) {
      GotOneMore(sent, verdicts, e, w);
    }
    hide Got;
    var t := Settle(sent, verdicts);
    forall f ensures f in t.failures <==> FailedIn(sent, verdicts, f) {
      assert FailedIn(sent, verdicts, f) <==>
        FailedIn(Init(sent), Init(verdicts), f) || (v == FailedFor(f.cause) && f == FailureOf(x, f.cause));
    }
  }

  // ---------- over a whole run ----------

  /** The verdicts on request `r`, counted from zero. */
  function VerdictsIn(rounds: seq<Round>, r: nat, service: MutateService, maxAttempts: nat): (verdicts: seq<Verdict>)
    requires r < |rounds|
    ensures |verdicts| == |rounds[r].sent|
  {
    VerdictsOf(rounds[r].sent, service(r + 1, RequestOf(rounds[r].sent)), maxAttempts)
  }

  /** Without an outcome after `r` requests: in the batch, and to be sent again after each of them. */
  ghost predicate StillOpen(
    rounds: seq<Round>, r: nat, initial: seq<PendingEntry>, service: MutateService, maxAttempts: nat, e: PendingEntry)
    requires r <= |rounds|
  {
    if r == 0 then e in initial
    else Got(rounds[r - 1].sent, VerdictsIn(rounds, r - 1, service, maxAttempts), e, SendAgain)
  }

  /** Request `r` carried the entries still open, and its reply decided which of them it settled and how. */
  ghost predicate RoundExplained(
    rounds: seq<Round>, r: nat, initial: seq<PendingEntry>, service: MutateService, maxAttempts: nat)
    requires r < |rounds|
  {
    var round, verdicts := rounds[r], VerdictsIn(rounds, r, service, maxAttempts);
    && (forall e :: e in round.sent <==>
          e.attempts == r + 1 && StillOpen(rounds, r, initial, service, maxAttempts, e.(attempts := r)))
    && (forall e :: e in round.confirmed <==> Got(round.sent, verdicts, e, Confirmed))
    && (forall e :: e in round.failed <==> exists cause :: Got(round.sent, verdicts, e, FailedFor(cause)))
  }

  /** The failure is what the reply to some request said of an entry it carried. */
  ghost predicate FailedInSome(rounds: seq<Round>, service: MutateService, maxAttempts: nat, f: MutationFailure) {
    exists r :: 0 <= r < |rounds| && FailedIn(rounds[r].sent, VerdictsIn(rounds, r, service, maxAttempts), f)
  }

  ghost predicate RoundsExplained(
    rounds: seq<Round>, initial: seq<PendingEntry>, service: MutateService, maxAttempts: nat)
  {
    forall r :: 0 <= r < |rounds| ==> RoundExplained(rounds, r, initial, service, maxAttempts)
  }

  /** A batch on its way. */
  ghost predicate ExplainedSoFar(b: Batch, initial: seq<PendingEntry>, service: MutateService, maxAttempts: nat) {
    && RoundsExplained(b.rounds, initial, service, maxAttempts)
    && (forall e :: e in b.pending <==> StillOpen(b.rounds, |b.rounds|, initial, service, maxAttempts, e))
    && (forall f :: f in b.failures <==> FailedInSome(b.rounds, service, maxAttempts, f))
  }

  /**
   * A batch at its end: a failure is what the reply to some request said of that entry, or the deadline of an
   * entry still open after the last request, and every such verdict and every such entry is among the failures.
   */
  ghost predicate Explained(b: Batch, initial: seq<PendingEntry>, service: MutateService, maxAttempts: nat) {
    && RoundsExplained(b.rounds, initial, service, maxAttempts)
    && (forall f :: f in b.failures <==>
          || FailedInSome(b.rounds, service, maxAttempts, f)
          || (exists e ::
                && StillOpen(b.rounds, |b.rounds|, initial, service, maxAttempts, e)
                && f == MutationFailure(e.originalIndex, |b.rounds|, OperationDeadline)))
  }

  /** A further request changes nothing about the earlier ones. */
  lemma {:induction false} EarlierRoundsStay(
    rounds: seq<Round>, round: Round, initial: seq<PendingEntry>, service: MutateService, maxAttempts: nat)
    ensures forall r :: 0 <= r < |rounds| ==>
      VerdictsIn(rounds + [round], r, service, maxAttempts) == VerdictsIn(rounds, r, service, maxAttempts)
    ensures forall r, e :: 0 <= r <= |rounds| ==>
      (StillOpen(rounds + [round], r, initial, service, maxAttempts, e) <==>
        StillOpen(rounds, r, initial, service, maxAttempts, e))
    ensures forall f :: FailedInSome(rounds + [round], service, maxAttempts, f) <==>
      || FailedInSome(rounds, service, maxAttempts, f)
      || FailedIn(round.sent, VerdictsIn(rounds + [round], |rounds|, service, maxAttempts), f)
  {
    hide VerdictsOf, Got, FailedIn;
    var after := rounds + [round];
    forall r | 0 <= r < |rounds|
      ensures after[r] == rounds[r] &&
        VerdictsIn(after, r, service, maxAttempts) == VerdictsIn(rounds, r, service, maxAttempts) {
    }
    assert after[|rounds|] == round;
  }

  lemma {:induction false} OneMoreRound(
    rounds: seq<Round>, round: Round, pending: seq<PendingEntry>, initial: seq<PendingEntry>,
    service: MutateService, maxAttempts: nat)
    requires RoundsExplained(rounds, initial, service, maxAttempts)
    requires forall e :: e in pending <==> StillOpen(rounds, |rounds|, initial, service, maxAttempts, e)
    requires forall e :: e in round.sent <==> e.attempts == |rounds| + 1 && e.(attempts := |rounds|) in pending
    requires var verdicts := VerdictsIn(rounds + [round], |rounds|, service, maxAttempts);
      && (forall e :: e in round.confirmed <==> Got(round.sent, verdicts, e, Confirmed))
      && (forall e :: e in round.failed <==> exists cause :: Got(round.sent, verdicts, e, FailedFor(cause)))
    ensures RoundsExplained(rounds + [round], initial, service, maxAttempts)
  {
    var after := rounds + [round];
    EarlierRoundsStay(rounds, round, initial, service, maxAttempts);
    hide Got, VerdictsIn, StillOpen;
    forall r | 0 <= r < |after| ensures RoundExplained(after, r, initial, service, maxAttempts) {
      if r < |rounds| {
        assert RoundExplained(rounds, r, initial, service, maxAttempts);
      }
    }
  }

  /** The round one more request adds, and what it settles. */
  lemma {:induction false} SentRound(
    b: Batch, service: MutateService, maxAttempts: nat) returns (round: Round, s: Settled)
    requires InLockstep(b, maxAttempts) && b.pending != []
    ensures var next := SendOnce(b, service, maxAttempts);
      && next.rounds == b.rounds + [round] && next.pending == s.retry && next.failures == b.failures + s.failures
      && round == Round(Counted(b.pending), s.confirmed, s.failed)
      && SettledRight(round.sent, VerdictsIn(next.rounds, |b.rounds|, service, maxAttempts), s)
  {
    var current := Counted(b.pending);
    var verdicts := VerdictsOf(current, service(|b.rounds| + 1, RequestOf(current)), maxAttempts);
    hide VerdictsOf, Settle, SettledRight;
    s := Settle(current, verdicts);
    round := Round(current, s.confirmed, s.failed);
    SettleExplains(current, verdicts);
  }

  lemma {:induction false} NowOpen(
    rounds: seq<Round>, initial: seq<PendingEntry>, service: MutateService, maxAttempts: nat)
    requires rounds != []
    ensures forall e :: StillOpen(rounds, |rounds|, initial, service, maxAttempts, e) <==>
      Got(Last(rounds).sent, VerdictsIn(rounds, |rounds| - 1, service, maxAttempts), e, SendAgain)
  {
    hide VerdictsIn, Got;
  }

  lemma {:induction false} SendOnceExplains(
    b: Batch, service: MutateService, maxAttempts: nat, initial: seq<PendingEntry>)
    requires InLockstep(b, maxAttempts) && b.pending != [] && ExplainedSoFar(b, initial, service, maxAttempts)
    ensures ExplainedSoFar(SendOnce(b, service, maxAttempts), initial, service, maxAttempts)
  {
    hide VerdictsIn, Got, FailedIn, FailedInSome, SendOnce, RoundsExplained, Counted, StillOpen;
    var next := SendOnce(b, service, maxAttempts);
    CountedMembers(b.pending, |b.rounds|);
    var round, s := SentRound(b, service, maxAttempts);
    NowOpen(next.rounds, initial, service, maxAttempts);
    EarlierRoundsStay(b.rounds, round, initial, service, maxAttempts);
    OneMoreRound(b.rounds, round, b.pending, initial, service, maxAttempts);
  }

  lemma {:induction false} CountedMembers(pending: seq<PendingEntry>, r: nat)
    requires r < MAX_U32 && forall e :: e in pending ==> e.attempts == r
    ensures forall e :: e in Counted(pending) <==> e.attempts == r + 1 && e.(attempts := r) in pending
  {
    var current := Counted(pending);
    forall e ensures e in current <==> e.attempts == r + 1 && e.(attempts := r) in pending {
      if e in current {
        var i :| 0 <= i < |current| && current[i] == e;
        assert pending[i] in pending && e.(attempts := r) == pending[i];
      }
      if e.attempts == r + 1 && e.(attempts := r) in pending {
        var i :| 0 <= i < |pending| && pending[i] == e.(attempts := r);
        assert current[i] == e;
      }
    }
  }

  lemma {:induction false} DeadlineExplains(
    b: Batch, service: MutateService, maxAttempts: nat, initial: seq<PendingEntry>)
    requires InLockstep(b, maxAttempts) && ExplainedSoFar(b, initial, service, maxAttempts)
    ensures Explained(FailPending(b), initial, service, maxAttempts)
  {
    hide StillOpen, FailedInSome, RoundsExplained;
    var failures, n := DeadlineFailures(b.pending), |b.rounds|;
    forall f
      ensures f in failures <==>
        exists e :: e in b.pending && f == MutationFailure(e.originalIndex, n, OperationDeadline) {
      if f in failures {
        var i :| 0 <= i < |failures| && failures[i] == f;
        assert b.pending[i] in b.pending;
      }
      if e :| e in b.pending && f == MutationFailure(e.originalIndex, n, OperationDeadline) {
        var i :| 0 <= i < |b.pending| && b.pending[i] == e;
        assert failures[i] == f;
      }
    }
  }

  lemma {:induction false} RunExplains(
    b: Batch, clocks: nat -> Tick, service: MutateService, maxAttempts: nat, initial: seq<PendingEntry>)
    requires InLockstep(b, maxAttempts) && ExplainedSoFar(b, initial, service, maxAttempts)
    ensures Explained(RunBatch(b, clocks, service, maxAttempts), initial, service, maxAttempts)
    decreases maxAttempts - b.rpcAttempts
  {
    hide SendOnce, ExplainedSoFar, Explained;
    if b.pending == [] {
      DeadlineExplains(b, service, maxAttempts, initial);
      assert DeadlineFailures([]) == [] && FailPending(b) == b;
    } else if clocks(b.rpcAttempts).expired {
      DeadlineExplains(b, service, maxAttempts, initial);
    } else {
      var next := SendOnce(b, service, maxAttempts);
      SendOnceKeepsLockstep(b, service, maxAttempts);
      SendOnceExplains(b, service, maxAttempts, initial);
      if next.pending != [] && clocks(next.rpcAttempts).cutOff {
        DeadlineExplains(next, service, maxAttempts, initial);
      } else {
        RunExplains(next, clocks, service, maxAttempts, initial);
      }
    }
  }

  /**
   * Over any run of a batch, against any server and clock: each request carries exactly the entries all earlier
   * replies left open; an entry is confirmed, or failed for a cause, by a request if and only if the reply to that
   * very request gave that entry that verdict; and the only other failures are deadlines of entries still open.
   */
  lemma {:induction false} BatchIsExplained(
    initial: seq<PendingEntry>, clocks: nat -> Tick, service: MutateService, maxAttempts: nat)
    requires 0 < maxAttempts <= MAX_U32 && forall e :: e in initial ==> e.attempts == 0
    ensures Explained(RunBatch(Begin(initial), clocks, service, maxAttempts), initial, service, maxAttempts)
  {
    RunExplains(Begin(initial), clocks, service, maxAttempts, initial);
  }

  // ---------- what was answered OK ----------

  lemma {:induction false} AnswerIsUnique(results: seq<EntryResult>, n: nat, i: nat)
    requires FirstIssue(results, n).None? && i < |results| && results[i].index >= 0
    ensures AnswerTo(results, results[i].index) == Some(StatusOf(results[i]))
  {
    if i == |results| - 1 {
    } else {
      AnswerIsUnique(Init(results), n, i);
      assert Init(results)[i] == results[i];
    }
  }

  /** Some result of the reply reports OK for this local index. */
  ghost predicate AnsweredOk(reply: Reply, local: nat) {
    && reply.Streamed?
    && exists i :: 0 <= i < |Concat(reply.responses)|
         && Concat(reply.responses)[i].index == local && StatusOf(Concat(reply.responses)[i]) == Ok
  }

  /** Whatever else the reply says, an entry it reports OK for is not to be sent again. */
  lemma {:induction false} OkIsSettled(current: seq<PendingEntry>, reply: Reply, maxAttempts: nat, local: nat)
    requires local < |current| && AnsweredOk(reply, local)
    ensures VerdictsOf(current, reply, maxAttempts)[local] != SendAgain
  {
    hide Concat, StatusOf, AnswerTo, FirstIssue;
    var results := Concat(reply.responses);
    var i :| 0 <= i < |results| && results[i].index == local && StatusOf(results[i]) == Ok;
    if FirstIssue(results, |current|).None? {
      AnswerIsUnique(results, |current|, i);
    }
  }

  /** No entry ever answered OK is sent again, even if the reply that said so was refused as a whole. */
  lemma {:induction false} OkIsNeverSentAgain(
    initial: seq<PendingEntry>, b: Batch, service: MutateService, maxAttempts: nat, r: nat, s: nat, j: nat)
    requires Conserved(b, initial, maxAttempts) && Explained(b, initial, service, maxAttempts)
    requires r < s < |b.rounds| && j < |b.rounds[r].sent|
    requires AnsweredOk(service(r + 1, RequestOf(b.rounds[r].sent)), j)
    ensures b.rounds[r].sent[j].originalIndex !in Ids(b.rounds[s].sent)
  {
    var round, verdicts := b.rounds[r], VerdictsIn(b.rounds, r, service, maxAttempts);
    OkIsSettled(round.sent, service(r + 1, RequestOf(round.sent)), maxAttempts, j);
    hide VerdictsOf, AnsweredOk, LegalRound, IsSubsequence, StillOpen;
    assert RoundExplained(b.rounds, r, initial, service, maxAttempts);
    var e := round.sent[j];
    assert Got(round.sent, verdicts, e, verdicts[j]);
    assert e in round.confirmed || e in round.failed;
    SettledMember(round, e);
  }

  lemma {:induction false} SettledMember(round: Round, e: PendingEntry)
    requires e in round.confirmed || e in round.failed
    ensures e.originalIndex in SettledIds(round)
  {
    if e in round.confirmed {
      var i :| 0 <= i < |round.confirmed| && round.confirmed[i] == e;
      assert SettledIds(round)[i] == e.originalIndex;
    } else {
      var i :| 0 <= i < |round.failed| && round.failed[i] == e;
      assert SettledIds(round)[|round.confirmed| + i] == e.originalIndex;
    }
  }
}
