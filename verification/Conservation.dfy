/** What holds over the whole run of a batch: every entry ends once, and none is sent after it is settled. */
module Conservation {
  import opened Rows
  import opened Mutations
  import opened Splitting
  import opened Replies
  import opened Batching

  function Ids(entries: seq<PendingEntry>): (ids: seq<nat>)
    ensures |ids| == |entries| && forall i :: 0 <= i < |entries| ==> ids[i] == entries[i].originalIndex
  {
    seq(|entries|, i requires 0 <= i < |entries| => entries[i].originalIndex)
  }

  function FailureIds(failures: seq<MutationFailure>): (ids: seq<nat>)
    ensures |ids| == |failures| && forall i :: 0 <= i < |failures| ==> ids[i] == failures[i].index
  {
    seq(|failures|, i requires 0 <= i < |failures| => failures[i].index)
  }

  /** The entries as they were before the first request. */
  function Unsent(entries: seq<PendingEntry>): (unsent: seq<PendingEntry>)
    ensures |unsent| == |entries| && forall i :: 0 <= i < |entries| ==> unsent[i] == entries[i].(attempts := 0)
  {
    seq(|entries|, i requires 0 <= i < |entries| => entries[i].(attempts := 0))
  }

  function ConfirmedIn(rounds: seq<Round>): seq<PendingEntry> {
    if rounds == [] then [] else ConfirmedIn(Init(rounds)) + Last(rounds).confirmed
  }

  // ---------- selections ----------

  lemma {:induction false} SubsequenceOfLonger<T>(a: seq<T>, b: seq<T>, x: T)
    requires IsSubsequence(a, b)
    ensures IsSubsequence(a, b + [x]) && IsSubsequence(a + [x], b + [x])
  {
    assert Init(b + [x]) == b && Last(b + [x]) == x && Init(a + [x]) == a && Last(a + [x]) == x;
  }

  lemma {:induction false} SubsequenceTransitive<T>(a: seq<T>, b: seq<T>, c: seq<T>)
    requires IsSubsequence(a, b) && IsSubsequence(b, c)
    ensures IsSubsequence(a, c)
    decreases |c|
  {
    if a == [] || b == [] {
    } else {
      if Last(b) == Last(c) && IsSubsequence(Init(b), Init(c)) {
        if Last(a) == Last(b) && IsSubsequence(Init(a), Init(b)) {
          SubsequenceTransitive(Init(a), Init(b), Init(c));
        } else {
          SubsequenceTransitive(a, Init(b), Init(c));
        }
      } else {
        SubsequenceTransitive(a, b, Init(c));
      }
    }
  }

  lemma {:induction false} SubsequenceOfItself<T>(a: seq<T>)
    ensures IsSubsequence(a, a)
  {
    SliceIsSubsequence(a, 0, |a|);
    assert a[0..|a|] == a;
  }

  lemma {:induction false} SubsequenceMembers<T>(a: seq<T>, b: seq<T>)
    requires IsSubsequence(a, b)
    ensures forall x :: x in a ==> x in b
    decreases |b|
  {
    if a == [] {
    } else {
      InitAndLast(a);
      InitAndLast(b);
      if Last(a) == Last(b) && IsSubsequence(Init(a), Init(b)) {
        SubsequenceMembers(Init(a), Init(b));
      } else {
        SubsequenceMembers(a, Init(b));
      }
    }
  }

  // ---------- one attempt ----------

  lemma {:induction false} IdsJoin(a: seq<PendingEntry>, b: seq<PendingEntry>)
    ensures Ids(a + b) == Ids(a) + Ids(b)
  {
  }

  lemma {:induction false} FailureIdsJoin(a: seq<MutationFailure>, b: seq<MutationFailure>)
    ensures FailureIds(a + b) == FailureIds(a) + FailureIds(b)
  {
  }

  /** No entry of an attempt is lost or settled twice. */
  lemma {:induction false} SettleCounts(current: seq<PendingEntry>, verdicts: seq<Verdict>)
    requires |verdicts| == |current|
    ensures var s := Settle(current, verdicts);
      multiset(Ids(current)) == multiset(Ids(s.confirmed)) + multiset(Ids(s.failed)) + multiset(Ids(s.retry))
  {
    if current == [] {
    } else {
      var front, e := Init(current), Last(current);
      SettleCounts(front, Init(verdicts));
      var s := Settle(front, Init(verdicts));
      InitAndLast(current);
      OneIdMore(front, e);
      match Last(verdicts) {
        case Confirmed => OneIdMore(s.confirmed, e);
        case SendAgain => OneIdMore(s.retry, e);
        case FailedFor(_) => OneIdMore(s.failed, e);
      }
    }
  }

  lemma {:induction false} OneIdMore(entries: seq<PendingEntry>, e: PendingEntry)
    ensures Ids(entries + [e]) == Ids(entries) + [e.originalIndex]
    ensures multiset(Ids(entries + [e])) == multiset(Ids(entries)) + multiset{e.originalIndex}
  {
    IdsJoin(entries, [e]);
    assert Ids([e]) == [e.originalIndex];
  }

  lemma {:induction false} UnsentOneMore(entries: seq<PendingEntry>, e: PendingEntry)
    ensures Unsent(entries + [e]) == Unsent(entries) + [e.(attempts := 0)]
  {
  }

  /** Failures carry the original indexes and the attempts of the failed entries. */
  lemma {:induction false} FailuresNameTheFailed(current: seq<PendingEntry>, verdicts: seq<Verdict>)
    requires |verdicts| == |current|
    ensures var s := Settle(current, verdicts);
      && |s.failures| == |s.failed|
      && (forall i :: 0 <= i < |s.failures| ==> s.failures[i] == FailureOf(s.failed[i], s.failures[i].cause))
  {
    if current == [] {
    } else {
      FailuresNameTheFailed(Init(current), Init(verdicts));
    }
  }

  /** What is confirmed, what failed and what is to be sent again each keep their order. */
  lemma {:induction false} SettleKeepsOrder(current: seq<PendingEntry>, verdicts: seq<Verdict>)
    requires |verdicts| == |current|
    ensures var s := Settle(current, verdicts);
      IsSubsequence(s.confirmed, current) && IsSubsequence(s.failed, current) && IsSubsequence(s.retry, current)
  {
    hide IsSubsequence;
    if current == [] {
      NothingIsSubsequence(current);
    } else {
      var front, e := Init(current), Last(current);
      SettleKeepsOrder(front, Init(verdicts));
      var s := Settle(front, Init(verdicts));
      InitAndLast(current);
      SubsequenceOfLonger(s.confirmed, front, e);
      SubsequenceOfLonger(s.failed, front, e);
      SubsequenceOfLonger(s.retry, front, e);
    }
  }

  /** A selection stays one when the attempts are left out of account. */
  lemma {:induction false} UnsentSubsequence(a: seq<PendingEntry>, b: seq<PendingEntry>)
    requires IsSubsequence(a, b)
    ensures IsSubsequence(Unsent(a), Unsent(b))
  {
    if a == [] {
      assert Unsent(a) == [];
    } else if Last(a) == Last(b) && IsSubsequence(Init(a), Init(b)) {
      UnsentSubsequence(Init(a), Init(b));
      InitAndLast(a);
      InitAndLast(b);
      UnsentOneMore(Init(a), Last(a));
      UnsentOneMore(Init(b), Last(b));
      hide IsSubsequence;
      SubsequenceOfLonger(Unsent(Init(a)), Unsent(Init(b)), Last(b).(attempts := 0));
    } else {
      UnsentSubsequence(a, Init(b));
      InitAndLast(b);
      UnsentOneMore(Init(b), Last(b));
      hide IsSubsequence;
      SubsequenceOfLonger(Unsent(a), Unsent(Init(b)), Last(b).(attempts := 0));
    }
  }

  lemma {:induction false} NothingIsSubsequence<T>(a: seq<T>)
    requires a == []
    ensures IsSubsequence(a, a)
  {
  }

  /** A settlement partitions the attempt: nothing lost, nothing invented, each part in order. */
  lemma {:induction false} SettlePartitions(current: seq<PendingEntry>, verdicts: seq<Verdict>)
    requires |verdicts| == |current|
    ensures var s := Settle(current, verdicts);
      && multiset(Ids(current)) == multiset(Ids(s.confirmed)) + multiset(Ids(s.failed)) + multiset(Ids(s.retry))
      && FailureIds(s.failures) == Ids(s.failed)
      && IsSubsequence(s.confirmed, current) && IsSubsequence(s.failed, current) && IsSubsequence(s.retry, current)
      && IsSubsequence(Unsent(s.retry), Unsent(current))
  {
    hide Settle, IsSubsequence;
    SettleCounts(current, verdicts);
    FailuresNameTheFailed(current, verdicts);
    SettleKeepsOrder(current, verdicts);
    UnsentSubsequence(Settle(current, verdicts).retry, current);
  }

  // ---------- the whole run ----------

  ghost predicate Once(ids: multiset<nat>) { forall x :: x in ids ==> ids[x] == 1 }

  ghost predicate Disjoint(a: seq<nat>, b: seq<nat>) { forall x :: x in a ==> x !in b }

  /** The entries a round took out of the batch. */
  function SettledIds(round: Round): seq<nat> { Ids(round.confirmed) + Ids(round.failed) }

  /** Every entry is pending, confirmed in some round, or failed, and what is pending keeps its order. */
  ghost predicate Accounted(b: Batch, initial: seq<PendingEntry>) {
    && multiset(Ids(initial))
      == multiset(Ids(b.pending)) + multiset(Ids(ConfirmedIn(b.rounds))) + multiset(FailureIds(b.failures))
    && b.successful == |ConfirmedIn(b.rounds)|
    && IsSubsequence(Unsent(b.pending), Unsent(initial))
  }

  /** Round `r` sent a selection of the original batch, each entry for the `r + 1`st time, and only safe ones again. */
  ghost predicate LegalRound(round: Round, r: nat, initial: seq<PendingEntry>) {
    && round.sent != []
    && IsSubsequence(Unsent(round.sent), Unsent(initial))
    && (forall e :: e in round.sent ==> e.attempts == r + 1)
    && (r > 0 ==> forall e :: e in round.sent ==> e.retrySafe)
  }

  /** What a round settled is in no later request. */
  ghost predicate NeverAgain(rounds: seq<Round>, pending: seq<PendingEntry>) {
    && (forall r, s :: 0 <= r < s < |rounds| ==> Disjoint(SettledIds(rounds[r]), Ids(rounds[s].sent)))
    && (forall r :: 0 <= r < |rounds| ==> Disjoint(SettledIds(rounds[r]), Ids(pending)))
  }

  ghost predicate Orderly(b: Batch, initial: seq<PendingEntry>) {
    && (forall r :: 0 <= r < |b.rounds| ==> LegalRound(b.rounds[r], r, initial))
    && NeverAgain(b.rounds, b.pending)
    && (b.rounds != [] ==> forall e :: e in b.pending ==> e.retrySafe)
  }

  lemma {:induction false} CountedKeeps(pending: seq<PendingEntry>)
    ensures Ids(Counted(pending)) == Ids(pending) && Unsent(Counted(pending)) == Unsent(pending)
  {
  }

  lemma {:induction false} ConfirmedOneMore(rounds: seq<Round>, round: Round)
    ensures ConfirmedIn(rounds + [round]) == ConfirmedIn(rounds) + round.confirmed
  {
    assert Init(rounds + [round]) == rounds && Last(rounds + [round]) == round;
  }

  lemma {:induction false} SendOnceAccounts(
    b: Batch, service: MutateService, maxAttempts: nat, initial: seq<PendingEntry>)
    requires Accounted(b, initial)
    ensures Accounted(SendOnce(b, service, maxAttempts), initial)
  {
    var current := Counted(b.pending);
    var verdicts := VerdictsOf(current, service(SaturatingAdd(b.rpcAttempts, 1), RequestOf(current)), maxAttempts);
    hide VerdictsOf, Settle, IsSubsequence;
    var s, next := Settle(current, verdicts), SendOnce(b, service, maxAttempts);
    SettlePartitions(current, verdicts);
    CountedKeeps(b.pending);
    ConfirmedOneMore(b.rounds, Round(current, s.confirmed, s.failed));
    IdsJoin(ConfirmedIn(b.rounds), s.confirmed);
    FailureIdsJoin(b.failures, s.failures);
    SubsequenceTransitive(Unsent(s.retry), Unsent(b.pending), Unsent(initial));
  }

  lemma {:induction false} FailPendingAccounts(b: Batch, initial: seq<PendingEntry>)
    requires Accounted(b, initial)
    ensures Accounted(FailPending(b), initial)
  {
    FailureIdsJoin(b.failures, DeadlineFailures(b.pending));
    assert FailureIds(DeadlineFailures(b.pending)) == Ids(b.pending);
    assert Unsent([]) == [] && Ids([]) == [];
  }

  lemma {:induction false} PartsAreDisjoint(whole: seq<nat>, settled: seq<nat>, rest: seq<nat>)
    requires Once(multiset(whole)) && multiset(whole) == multiset(settled) + multiset(rest)
    ensures Disjoint(settled, rest)
    ensures forall x :: x in rest ==> x in whole
  {
    forall x | x in rest ensures x in whole && x !in settled {
      assert multiset(whole)[x] == multiset(settled)[x] + multiset(rest)[x];
      assert x in multiset(rest) && x in multiset(whole);
      assert x in settled <==> x in multiset(settled);
    }
  }

  lemma {:induction false} PendingOnce(b: Batch, initial: seq<PendingEntry>)
    requires Accounted(b, initial) && Once(multiset(Ids(initial)))
    ensures Once(multiset(Ids(b.pending)))
  {
    forall x | x in multiset(Ids(b.pending)) ensures multiset(Ids(b.pending))[x] == 1 {
      assert x in multiset(Ids(initial));
    }
  }

  lemma {:induction false} RoundIsLegal(
    b: Batch, initial: seq<PendingEntry>, maxAttempts: nat, confirmed: seq<PendingEntry>, failed: seq<PendingEntry>)
    requires InLockstep(b, maxAttempts) && b.pending != [] && Accounted(b, initial) && Orderly(b, initial)
    ensures LegalRound(Round(Counted(b.pending), confirmed, failed), |b.rounds|, initial)
  {
    hide IsSubsequence, NeverAgain;
    CountedKeeps(b.pending);
    var current := Counted(b.pending);
    forall e | e in current ensures e.attempts == |b.rounds| + 1 && (b.rounds != [] ==> e.retrySafe) {
      var i :| 0 <= i < |current| && current[i] == e;
      assert b.pending[i] in b.pending;
    }
  }

  /** One more round settles entries that were pending, and leaves others pending. */
  lemma {:induction false} NeverAgainOneMore(
    rounds: seq<Round>, pending: seq<PendingEntry>, round: Round, rest: seq<PendingEntry>)
    requires NeverAgain(rounds, pending) && Ids(round.sent) == Ids(pending)
    requires Disjoint(SettledIds(round), Ids(rest)) && forall x :: x in Ids(rest) ==> x in Ids(pending)
    ensures NeverAgain(rounds + [round], rest)
  {
    hide Ids, SettledIds;
    var after := rounds + [round];
    forall r | 0 <= r < |after| ensures Disjoint(SettledIds(after[r]), Ids(rest)) {
      if r < |rounds| {
        assert Disjoint(SettledIds(rounds[r]), Ids(pending));
      }
    }
    forall r, t | 0 <= r < t < |after| ensures Disjoint(SettledIds(after[r]), Ids(after[t].sent)) {
      if t == |rounds| {
        assert Disjoint(SettledIds(rounds[r]), Ids(pending));
      } else {
        assert Disjoint(SettledIds(rounds[r]), Ids(rounds[t].sent));
      }
    }
  }

  lemma {:induction false} RoundLeavesOthers(
    pending: seq<PendingEntry>, current: seq<PendingEntry>, verdicts: seq<Verdict>)
    requires current == Counted(pending) && |verdicts| == |current| && Once(multiset(Ids(pending)))
    ensures var s := Settle(current, verdicts);
      && Ids(current) == Ids(pending)
      && Disjoint(SettledIds(Round(current, s.confirmed, s.failed)), Ids(s.retry))
      && forall x :: x in Ids(s.retry) ==> x in Ids(pending)
  {
    hide Settle;
    var s := Settle(current, verdicts);
    CountedKeeps(pending);
    SettlePartitions(current, verdicts);
    PartsAreDisjoint(Ids(pending), SettledIds(Round(current, s.confirmed, s.failed)), Ids(s.retry));
  }

  lemma {:induction false} SendOnceIsOrderly(
    b: Batch, service: MutateService, maxAttempts: nat, initial: seq<PendingEntry>)
    requires InLockstep(b, maxAttempts) && b.pending != []
    requires Accounted(b, initial) && Orderly(b, initial) && Once(multiset(Ids(initial)))
    ensures Orderly(SendOnce(b, service, maxAttempts), initial)
  {
    var current := Counted(b.pending);
    var verdicts := VerdictsOf(current, service(SaturatingAdd(b.rpcAttempts, 1), RequestOf(current)), maxAttempts);
    var s := Settle(current, verdicts);
    var round := Round(current, s.confirmed, s.failed);
    SendOnceKeepsLockstep(b, service, maxAttempts);
    PendingOnce(b, initial);
    RoundIsLegal(b, initial, maxAttempts, s.confirmed, s.failed);
    hide VerdictsOf, Settle, IsSubsequence, LegalRound, Accounted, InLockstep, NeverAgain, Counted;
    RoundLeavesOthers(b.pending, current, verdicts);
    NeverAgainOneMore(b.rounds, b.pending, round, s.retry);
  }

  /** The end of a run, told of the entries it began with. */
  ghost predicate Conserved(b: Batch, initial: seq<PendingEntry>, maxAttempts: nat) {
    && b.pending == []
    && multiset(Ids(initial)) == multiset(Ids(ConfirmedIn(b.rounds))) + multiset(FailureIds(b.failures))
    && b.successful == |ConfirmedIn(b.rounds)| && b.successful + |b.failures| == |initial|
    && |b.rounds| == b.rpcAttempts <= maxAttempts
    && (forall r :: 0 <= r < |b.rounds| ==> LegalRound(b.rounds[r], r, initial))
    && (forall r, s :: 0 <= r < s < |b.rounds| ==> Disjoint(SettledIds(b.rounds[r]), Ids(b.rounds[s].sent)))
  }

  lemma {:induction false} RunKeeps(
    b: Batch, clocks: nat -> Tick, service: MutateService, maxAttempts: nat, initial: seq<PendingEntry>)
    requires InLockstep(b, maxAttempts) && Accounted(b, initial) && Orderly(b, initial) && Once(multiset(Ids(initial)))
    ensures Conserved(RunBatch(b, clocks, service, maxAttempts), initial, maxAttempts)
    decreases maxAttempts - b.rpcAttempts
  {
    hide SendOnce, Accounted, Orderly;
    if b.pending == [] {
      EndIsConserved(b, initial, maxAttempts);
    } else if clocks(b.rpcAttempts).expired {
      FailPendingAccounts(b, initial);
      DeadlineIsConserved(b, initial, maxAttempts);
    } else {
      var next := SendOnce(b, service, maxAttempts);
      SendOnceKeepsLockstep(b, service, maxAttempts);
      SendOnceAccounts(b, service, maxAttempts, initial);
      SendOnceIsOrderly(b, service, maxAttempts, initial);
      if next.pending != [] && clocks(next.rpcAttempts).cutOff {
        FailPendingAccounts(next, initial);
        DeadlineIsConserved(next, initial, maxAttempts);
      } else {
        RunKeeps(next, clocks, service, maxAttempts, initial);
      }
    }
  }

  lemma {:induction false} EndIsConserved(b: Batch, initial: seq<PendingEntry>, maxAttempts: nat)
    requires InLockstep(b, maxAttempts) && Accounted(b, initial) && Orderly(b, initial) && b.pending == []
    ensures Conserved(b, initial, maxAttempts)
  {
    hide LegalRound, IsSubsequence;
    assert Ids(b.pending) == [];
    assert |multiset(Ids(initial))| == |initial|;
  }

  lemma {:induction false} DeadlineIsConserved(b: Batch, initial: seq<PendingEntry>, maxAttempts: nat)
    requires InLockstep(b, maxAttempts) && Accounted(FailPending(b), initial) && Orderly(b, initial)
    ensures Conserved(FailPending(b), initial, maxAttempts)
  {
    hide LegalRound, IsSubsequence;
    var last := FailPending(b);
    assert Ids(last.pending) == [];
    assert Orderly(last, initial);
    EndIsConserved(last, initial, maxAttempts);
  }

  /**
   * Over any run of a batch, against any server and clock: every original index ends exactly once, confirmed or
   * failed; at most `maxAttempts` requests are sent, each an order-preserving selection of the batch; an entry
   * that is not retry safe is in the first request only; and no settled entry is ever sent again.
   */
  lemma {:induction false} BatchIsConserved(
    initial: seq<PendingEntry>, clocks: nat -> Tick, service: MutateService, maxAttempts: nat)
    requires 0 < maxAttempts <= MAX_U32
    requires Once(multiset(Ids(initial))) && forall e :: e in initial ==> e.attempts == 0
    ensures Conserved(RunBatch(Begin(initial), clocks, service, maxAttempts), initial, maxAttempts)
  {
    SubsequenceOfItself(Unsent(initial));
    assert Ids([]) == [] && FailureIds([]) == [];
    RunKeeps(Begin(initial), clocks, service, maxAttempts, initial);
  }

  /**
   * Every request of a batch, however it has shrunk, keeps the limit on entries and on changes, and unless it holds
   * one entry only, the limit on bytes.
   */
  lemma {:induction false} RequestsKeepTheLimits(
    policy: BatchPolicy, base: nat, initial: seq<PendingEntry>, b: Batch, maxAttempts: nat, r: nat)
    requires policy.maxEntries > 0 && forall e :: e in initial ==> Buildable(e.entry)
    requires Conserved(b, initial, maxAttempts) && Fits(policy, base, initial) && r < |b.rounds|
    ensures var sent := b.rounds[r].sent;
      && Fits(policy, base, sent)
      && 0 < |sent| <= policy.maxEntries
      && MutationCount(sent) <= MAX_MUTATIONS
      && (|sent| == 1 || base + EntryBytes(sent) <= policy.maxBytes)
  {
    hide IsSubsequence, Buildable, Build;
    var sent := b.rounds[r].sent;
    assert LegalRound(b.rounds[r], r, initial);
    SameWeight(initial);
    SameWeight(sent);
    SubsequenceFits(policy, base, Unsent(sent), Unsent(initial));
    if |sent| == 1 {
      SubsequenceMembers(Unsent(sent), Unsent(initial));
      assert Unsent(sent)[0] in Unsent(initial);
      var k :| 0 <= k < |initial| && Unsent(initial)[k] == Unsent(sent)[0];
      assert initial[k] in initial && initial[k].entry == sent[0].entry;
      BuildableIsBounded(sent[0].entry);
      assert Init(sent) == [];
    }
  }

  lemma {:induction false} SameWeight(entries: seq<PendingEntry>)
    ensures EntryBytes(Unsent(entries)) == EntryBytes(entries) &&
      MutationCount(Unsent(entries)) == MutationCount(entries)
  {
    if entries == [] {
    } else {
      hide Varint;
      SameWeight(Init(entries));
      assert Init(Unsent(entries)) == Unsent(Init(entries));
    }
  }
}
