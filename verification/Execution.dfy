/** From the entries of a bulk mutation to the one report its caller gets. */
module Execution {
  import opened Rows
  import opened Mutations
  import opened Splitting
  import opened Sorting
  import opened Replies
  import opened Batching
  import opened Conservation
  import opened Attribution
  import opened Outcomes
  import opened Bulk

  datatype BulkReport =
    | Complete(entries: nat, rpcAttempts: nat, requestBatches: nat)
    | Incomplete(totalEntries: nat, successful: nat, rpcAttempts: nat, failures: seq<MutationFailure>)

  function FailuresIn(report: BulkReport): seq<MutationFailure> { if report.Incomplete? then report.failures else [] }

  function IndexOf(f: MutationFailure): nat { f.index }

  /** The report on outcomes in order of arrival. */
  function Assemble(total: nat, arrived: seq<BatchOutcome>): BulkReport {
    var failures := SortBy(IndexOf, AllFailures(arrived));
    if failures == [] then Complete(SumSuccessful(arrived), Capped(SumAttempts(arrived)), |arrived|)
    else Incomplete(total, SumSuccessful(arrived), Capped(SumAttempts(arrived)), failures)
  }

  function OutcomesOf(finals: seq<Batch>): (outcomes: seq<BatchOutcome>)
    ensures |outcomes| == |finals| && forall k :: 0 <= k < |finals| ==> outcomes[k] == OutcomeOf(finals[k])
  {
    seq(|finals|, k requires 0 <= k < |finals| => OutcomeOf(finals[k]))
  }

  /** Every entry confirmed anywhere. */
  function AllConfirmedIn(finals: seq<Batch>): seq<PendingEntry> {
    if finals == [] then [] else AllConfirmedIn(Init(finals)) + ConfirmedIn(Last(finals).rounds)
  }

  /** Every request of every batch. */
  function RequestsSent(finals: seq<Batch>): nat {
    if finals == [] then 0 else RequestsSent(Init(finals)) + |Last(finals).rounds|
  }

  /** The number of requests, as a 32-bit counter that stops at its largest value shows it. */
  ghost predicate ShowsRequests(rpcAttempts: nat, requests: nat) {
    rpcAttempts == if requests <= 0xFFFF_FFFF then requests else 0xFFFF_FFFF
  }

  /** The batches hold the numbered entries between them, and each has been run to its end. */
  ghost predicate Ran(
    entries: seq<RowMutation>, batches: seq<seq<PendingEntry>>, finals: seq<Batch>, maxAttempts: nat) {
    && Concat(batches) == Numbered(entries) && |finals| == |batches|
    && forall k :: 0 <= k < |batches| ==> Conserved(finals[k], batches[k], maxAttempts)
  }

  lemma {:induction false} NumberedIds(entries: seq<RowMutation>)
    ensures Ids(Numbered(entries)) == UpTo(|entries|) && Once(multiset(Ids(Numbered(entries))))
  {
    assert Ids(Numbered(entries)) == UpTo(|entries|);
    UpToOnce(|entries|);
  }

  lemma {:induction false} IdsOfConcat(batches: seq<seq<PendingEntry>>)
    requires batches != []
    ensures multiset(Ids(Concat(batches))) == multiset(Ids(Concat(Init(batches)))) + multiset(Ids(Last(batches)))
  {
    IdsJoin(Concat(Init(batches)), Last(batches));
  }

  /** No index is in two batches, or twice in one. */
  lemma {:induction false} BatchesAreOnce(batches: seq<seq<PendingEntry>>)
    requires Once(multiset(Ids(Concat(batches))))
    ensures forall k :: 0 <= k < |batches| ==> Once(multiset(Ids(batches[k])))
    ensures batches != [] ==>
      Once(multiset(Ids(Concat(Init(batches))))) && Disjoint(Ids(Concat(Init(batches))), Ids(Last(batches)))
  {
    if batches == [] {
    } else {
      var front, last := multiset(Ids(Concat(Init(batches)))), multiset(Ids(Last(batches)));
      IdsOfConcat(batches);
      forall x | x in front ensures front[x] == 1 {
        assert x in multiset(Ids(Concat(batches)));
      }
      forall x | x in last ensures last[x] == 1 {
        assert x in multiset(Ids(Concat(batches)));
      }
      forall x | x in Ids(Concat(Init(batches))) ensures x !in Ids(Last(batches)) {
        assert x in front && multiset(Ids(Concat(batches)))[x] == front[x] + last[x];
        assert x in Ids(Last(batches)) <==> x in last;
      }
      BatchesAreOnce(Init(batches));
    }
  }

  /** Confirmed and failed entries of all batches, against the entries they began with. */
  lemma {:induction false} BatchesAddUp(batches: seq<seq<PendingEntry>>, finals: seq<Batch>, maxAttempts: nat)
    requires |finals| == |batches|
    requires forall k :: 0 <= k < |batches| ==> Conserved(finals[k], batches[k], maxAttempts)
    ensures var outcomes := OutcomesOf(finals);
      && multiset(Ids(Concat(batches)))
        == multiset(Ids(AllConfirmedIn(finals))) + multiset(FailureIds(AllFailures(outcomes)))
      && SumSuccessful(outcomes) == |AllConfirmedIn(finals)|
      && SumSuccessful(outcomes) + |AllFailures(outcomes)| == |Concat(batches)|
  {
    if batches == [] {
    } else {
      BatchesAddUp(Init(batches), Init(finals), maxAttempts);
      LastBatchAddsUp(batches, finals, maxAttempts);
    }
  }

  lemma {:induction false} LastBatchAddsUp(batches: seq<seq<PendingEntry>>, finals: seq<Batch>, maxAttempts: nat)
    requires |finals| == |batches| && batches != [] && Conserved(Last(finals), Last(batches), maxAttempts)
    ensures var outcomes, front := OutcomesOf(finals), OutcomesOf(Init(finals));
      && Init(outcomes) == front && Last(outcomes) == OutcomeOf(Last(finals))
      && multiset(Ids(Concat(batches))) == multiset(Ids(Concat(Init(batches)))) + multiset(Ids(Last(batches)))
      && multiset(Ids(Last(batches)))
        == multiset(Ids(ConfirmedIn(Last(finals).rounds))) + multiset(FailureIds(Last(finals).failures))
      && multiset(Ids(AllConfirmedIn(finals)))
        == multiset(Ids(AllConfirmedIn(Init(finals)))) + multiset(Ids(ConfirmedIn(Last(finals).rounds)))
      && multiset(FailureIds(AllFailures(outcomes)))
        == multiset(FailureIds(AllFailures(front))) + multiset(FailureIds(Last(finals).failures))
      && Last(finals).successful == |ConfirmedIn(Last(finals).rounds)|
      && Last(finals).successful + |Last(finals).failures| == |Last(batches)|
  {
    hide LegalRound, Disjoint, ConfirmedIn;
    var outcomes, front := OutcomesOf(finals), OutcomesOf(Init(finals));
    assert Init(outcomes) == front && Last(outcomes) == OutcomeOf(Last(finals));
    IdsOfConcat(batches);
    IdsJoin(AllConfirmedIn(Init(finals)), ConfirmedIn(Last(finals).rounds));
    FailureIdsJoin(AllFailures(front), Last(finals).failures);
  }

  lemma {:induction false} OnceMeansApart(ids: seq<nat>, rest: multiset<nat>)
    requires Once(rest + multiset(ids))
    ensures forall i, j :: 0 <= i < j < |ids| ==> ids[i] != ids[j]
  {
    forall i, j | 0 <= i < j < |ids| ensures ids[i] != ids[j] {
      WithoutOne(ids, i);
      assert Without(ids, i)[j - 1] == ids[j];
      assert ids[j] in multiset(Without(ids, i));
      assert ids[i] in rest + multiset(ids);
    }
  }

  lemma {:induction false} FailuresAreApart(failures: seq<MutationFailure>, rest: multiset<nat>)
    requires Once(rest + multiset(FailureIds(failures)))
    ensures Apart(IndexOf, failures)
  {
    OnceMeansApart(FailureIds(failures), rest);
    assert forall i :: 0 <= i < |failures| ==> IndexOf(failures[i]) == FailureIds(failures)[i];
  }

  lemma {:induction false} TakeOutId(failures: seq<MutationFailure>, i: nat)
    requires i < |failures|
    ensures multiset(FailureIds(failures)) == multiset(FailureIds(Without(failures, i))) + multiset{failures[i].index}
  {
    WithoutOne(FailureIds(failures), i);
    assert FailureIds(Without(failures, i)) == Without(FailureIds(failures), i);
  }

  lemma {:induction false} SameFailureIds(a: seq<MutationFailure>, b: seq<MutationFailure>)
    requires multiset(a) == multiset(b)
    ensures multiset(FailureIds(a)) == multiset(FailureIds(b)) && |a| == |b|
  {
    assert |a| == |multiset(a)| == |multiset(b)| == |b|;
    if a != [] {
      hide FailureIds, Without;
      var i := MatchLast(a, b);
      WithoutOne(a, |a| - 1);
      SameFailureIds(Init(a), Without(b, i));
      TakeOutId(a, |a| - 1);
      TakeOutId(b, i);
    } else {
      assert a == b;
    }
  }

  /** The failures of all batches, put in index order. */
  lemma {:induction false} SortedFailures(a: seq<MutationFailure>, b: seq<MutationFailure>, rest: multiset<nat>)
    requires multiset(a) == multiset(b) && Once(rest + multiset(FailureIds(b)))
    ensures var sorted := SortBy(IndexOf, b);
      && SortBy(IndexOf, a) == sorted && Increasing(IndexOf, sorted) && |sorted| == |b|
      && multiset(FailureIds(sorted)) == multiset(FailureIds(b))
  {
    hide FailureIds, Once;
    SameFailureIds(a, b);
    FailuresAreApart(a, rest);
    FailuresAreApart(b, rest);
    SortIsSorted(IndexOf, a);
    SortIsSorted(IndexOf, b);
    SortKeeps(IndexOf, a);
    SortKeeps(IndexOf, b);
    SortedIsUnique(IndexOf, SortBy(IndexOf, a), SortBy(IndexOf, b));
    SameFailureIds(SortBy(IndexOf, b), b);
  }

  lemma {:induction false} AttemptsAreRequests(
    batches: seq<seq<PendingEntry>>, finals: seq<Batch>, maxAttempts: nat)
    requires |finals| == |batches|
    requires forall k :: 0 <= k < |batches| ==> Conserved(finals[k], batches[k], maxAttempts)
    ensures SumAttempts(OutcomesOf(finals)) == RequestsSent(finals)
  {
    hide LegalRound, Disjoint, ConfirmedIn;
    if finals == [] {
    } else {
      assert Conserved(Last(finals), Last(batches), maxAttempts);
      AttemptsAreRequests(Init(batches), Init(finals), maxAttempts);
      assert Init(OutcomesOf(finals)) == OutcomesOf(Init(finals));
    }
  }

  /**
   * The report does not depend on the order in which batches complete. Every original index is either confirmed
   * once or listed once among the failures, which come in index order; the counts add up to the number of
   * entries; and the report is a success exactly when every entry was confirmed.
   */
  lemma {:induction false} ReportIsConserved(
    entries: seq<RowMutation>, batches: seq<seq<PendingEntry>>, finals: seq<Batch>, maxAttempts: nat, order: seq<nat>)
    requires Ran(entries, batches, finals, maxAttempts)
    requires multiset(order) == multiset(UpTo(|finals|)) && forall i :: 0 <= i < |order| ==> order[i] < |finals|
    ensures var report := Assemble(|entries|, Arrived(OutcomesOf(finals), order));
      && report == Assemble(|entries|, OutcomesOf(finals))
      && (report.Complete? <==> |AllConfirmedIn(finals)| == |entries|)
      && (report.Complete? ==> report.entries == |entries| && report.requestBatches == |batches|)
      && (report.Incomplete? ==>
            && report.totalEntries == |entries| && report.successful == |AllConfirmedIn(finals)|
            && report.successful + |report.failures| == |entries|
            && Increasing(IndexOf, report.failures)
            && multiset(UpTo(|entries|))
              == multiset(Ids(AllConfirmedIn(finals))) + multiset(FailureIds(report.failures)))
  {
    var outcomes := OutcomesOf(finals);
    var arrived := Arrived(outcomes, order);
    hide SumSuccessful, SumAttempts, AllFailures, AllConfirmedIn, Conserved, Arrived, UpTo, FailureIds, Ids, SortBy;
    NumberedIds(entries);
    BatchesAddUp(batches, finals, maxAttempts);
    ArrivedIsPermutation(outcomes, order);
    OrderIsInRange(order, |finals|);
    ArrivalOrderIsIrrelevant(arrived, outcomes);
    SortedFailures(AllFailures(arrived), AllFailures(outcomes), multiset(Ids(AllConfirmedIn(finals))));
  }

  /** Whatever the order of completion, the report counts every request of every batch. */
  lemma {:induction false} ReportCountsRequests(
    entries: seq<RowMutation>, batches: seq<seq<PendingEntry>>, finals: seq<Batch>, maxAttempts: nat, order: seq<nat>)
    requires Ran(entries, batches, finals, maxAttempts)
    requires multiset(order) == multiset(UpTo(|finals|)) && forall i :: 0 <= i < |order| ==> order[i] < |finals|
    ensures ShowsRequests(Assemble(|entries|, Arrived(OutcomesOf(finals), order)).rpcAttempts, RequestsSent(finals))
  {
    hide Conserved, SumAttempts, SumSuccessful, AllFailures, SortBy, RequestsSent, UpTo, Arrived;
    AttemptsAreRequests(batches, finals, maxAttempts);
    ArrivedIsPermutation(OutcomesOf(finals), order);
    OrderIsInRange(order, |finals|);
    ArrivalOrderIsIrrelevant(Arrived(OutcomesOf(finals), order), OutcomesOf(finals));
  }

  /** One batch alone is reported as it would be through the general path. */
  lemma {:induction false} SingleBatchAgrees(final: BatchOutcome)
    requires final.rpcAttempts <= MAX_U32
    ensures SumSuccessful([final]) == final.successful && Capped(SumAttempts([final])) == final.rpcAttempts
    ensures AllFailures([final]) == final.failures
  {
    assert Init([final]) == [];
  }

  predicate NotYetSent(batch: seq<PendingEntry>) {
    forall e :: e in batch ==> e.attempts == 0
  }

  /** What a batch comes to against its own server. */
  function FinalOf(batch: seq<PendingEntry>, clock: nat -> Tick, service: MutateService, maxAttempts: nat): Batch
    requires 0 < maxAttempts <= MAX_U32 && NotYetSent(batch)
  {
    RunBatch(Begin(batch), clock, service, maxAttempts)
  }

  /** What all batches come to, each against its own server. */
  function FinalsOf(
    batches: seq<seq<PendingEntry>>, clocks: nat -> nat -> Tick, services: nat -> MutateService,
    maxAttempts: nat): seq<Batch>
    requires 0 < maxAttempts <= MAX_U32 && forall k :: 0 <= k < |batches| ==> NotYetSent(batches[k])
  {
    seq(|batches|, k requires 0 <= k < |batches| => FinalOf(batches[k], clocks(k), services(k), maxAttempts))
  }

  method RunOne(batch: seq<PendingEntry>, maxAttempts: nat, clock: nat -> Tick, service: MutateService)
    returns (outcome: BatchOutcome)
    requires 0 < maxAttempts <= MAX_U32 && NotYetSent(batch)
    ensures outcome == OutcomeOf(FinalOf(batch, clock, service, maxAttempts))
  {
    hide RunBatch;
    var operation := new BatchOperation(batch, maxAttempts);
    operation.Run(clock, service);
    outcome := BatchOutcome(operation.successful, operation.failures, operation.rpcAttempts);
  }

  lemma {:induction false} ArrivedOneMore(outcomes: seq<BatchOutcome>, order: seq<nat>, k: nat)
    requires k < |outcomes| && forall i :: 0 <= i < |order| ==> order[i] < |outcomes|
    ensures Arrived(outcomes, order + [k]) == Arrived(outcomes, order) + [outcomes[k]]
  {
  }

  /** What a step of the schedule does to the completed batches. */
  lemma {:induction false} StepCompletes(schedule: seq<Fleet>, batches: nat, maxInFlight: nat, i: nat)
    requires FleetRun(schedule, batches, maxInFlight) && i + 1 < |schedule|
    ensures var before, after := schedule[i].completed, schedule[i + 1].completed;
      || after == before
      || (after == before + [Last(after)] && Last(after) < batches)
  {
    FleetStaysInBounds(schedule, batches, maxInFlight, i);
    assert FleetStep(schedule[i], schedule[i + 1], batches, maxInFlight);
    if !Launches(schedule[i], schedule[i + 1], batches, maxInFlight) {
      var k :| Completes(schedule[i], schedule[i + 1], k);
      assert schedule[i + 1].completed == schedule[i].completed + [k];
    }
  }

  lemma {:induction false} CompletedInRange(schedule: seq<Fleet>, batches: nat, maxInFlight: nat, i: nat)
    requires FleetRun(schedule, batches, maxInFlight) && i < |schedule|
    ensures forall j :: 0 <= j < |schedule[i].completed| ==> schedule[i].completed[j] < batches
  {
    if i == 0 {
    } else {
      CompletedInRange(schedule, batches, maxInFlight, i - 1);
      StepCompletes(schedule, batches, maxInFlight, i - 1);
    }
  }

  /**
   * Runs the batches as the schedule has them started and completed, never more than `maxInFlight` at once, and
   * hands their outcomes over in the order in which they complete.
   */
  method RunBatches(
    batches: seq<seq<PendingEntry>>, maxAttempts: nat, clocks: nat -> nat -> Tick, services: nat -> MutateService,
    schedule: seq<Fleet>, maxInFlight: nat)
    returns (successful: nat, rpcAttempts: nat, failures: seq<MutationFailure>)
    requires 0 < maxAttempts <= MAX_U32 && FullFleetRun(schedule, |batches|, maxInFlight)
    requires forall k :: 0 <= k < |batches| ==> NotYetSent(batches[k])
    ensures var order := Last(schedule).completed;
      && (forall i :: 0 <= i < |order| ==> order[i] < |batches|)
      && var arrived := Arrived(OutcomesOf(FinalsOf(batches, clocks, services, maxAttempts)), order);
         successful == SumSuccessful(arrived) && rpcAttempts == Capped(SumAttempts(arrived)) &&
           failures == AllFailures(arrived)
  {
    assert schedule != [];
    hide FinalOf, NotYetSent, AllFailures, SumAttempts, SumSuccessful, FleetRun, Arrived;
    CompletedInRange(schedule, |batches|, maxInFlight, |schedule| - 1);
    ghost var order, all := Last(schedule).completed, OutcomesOf(FinalsOf(batches, clocks, services, maxAttempts));
    if |batches| == 1 {
      var outcome := RunOne(batches[0], maxAttempts, clocks(0), services(0));
      FinalIsCapped(batches[0], clocks(0), services(0), maxAttempts);
      SingleBatchAgrees(outcome);
      OnlyOrder(schedule, maxInFlight);
      assert Arrived(all, order) == [outcome];
      return outcome.successful, outcome.rpcAttempts, outcome.failures;
    }
    var outcomes: seq<BatchOutcome> := [];
    FirstCompletesNone(schedule, |batches|, maxInFlight);
    for i := 0 to |schedule| - 1
      invariant forall j :: 0 <= j < |schedule[i].completed| ==> schedule[i].completed[j] < |all|
      invariant outcomes == Arrived(all, schedule[i].completed)
    {
      StepCompletes(schedule, |batches|, maxInFlight, i);
      if |schedule[i + 1].completed| > |schedule[i].completed| {
        var k := Last(schedule[i + 1].completed);
        var outcome := RunOne(batches[k], maxAttempts, clocks(k), services(k));
        ArrivedOneMore(all, schedule[i].completed, k);
        outcomes := outcomes + [outcome];
      }
    }
    successful, rpcAttempts, failures := CollectOutcomes(outcomes);
  }

  lemma {:induction false} FirstCompletesNone(schedule: seq<Fleet>, batches: nat, maxInFlight: nat)
    requires FleetRun(schedule, batches, maxInFlight)
    ensures schedule[0].completed == []
  {
  }

  /** One batch alone has one order to complete in. */
  lemma {:induction false} OnlyOrder(schedule: seq<Fleet>, maxInFlight: nat)
    requires FullFleetRun(schedule, 1, maxInFlight)
    ensures Last(schedule).completed == [0]
  {
    FleetCompletesEachOnce(schedule, 1, maxInFlight);
    OrderIsInRange(Last(schedule).completed, 1);
  }

  lemma {:induction false} FinalIsCapped(
    batch: seq<PendingEntry>, clock: nat -> Tick, service: MutateService, maxAttempts: nat)
    requires 0 < maxAttempts <= MAX_U32 && NotYetSent(batch)
    ensures FinalOf(batch, clock, service, maxAttempts).rpcAttempts <= MAX_U32
  {
    RunIsCapped(Begin(batch), clock, service, maxAttempts);
  }

  lemma {:induction false} RunIsCapped(b: Batch, clock: nat -> Tick, service: MutateService, maxAttempts: nat)
    requires InLockstep(b, maxAttempts)
    ensures RunBatch(b, clock, service, maxAttempts).rpcAttempts <= maxAttempts
    decreases maxAttempts - b.rpcAttempts
  {
    if b.pending == [] || clock(b.rpcAttempts).expired {
    } else {
      hide SendOnce;
      SendOnceKeepsLockstep(b, service, maxAttempts);
      var next := SendOnce(b, service, maxAttempts);
      if !(next.pending != [] && clock(next.rpcAttempts).cutOff) {
        RunIsCapped(next, clock, service, maxAttempts);
      }
    }
  }

  /**
   * The whole operation: split, run, collect, sort by index, report. `base` is the encoded length of a request
   * without entries; `schedules` is how that many batches are started and completed.
   */
  method Execute(
    entries: seq<RowMutation>, base: nat, policy: BatchPolicy, maxAttempts: nat,
    clocks: nat -> nat -> Tick, services: nat -> MutateService, schedules: nat -> seq<Fleet>)
    returns (report: BulkReport)
    requires policy.maxEntries > 0 && 0 < maxAttempts <= MAX_U32
    requires forall n: nat :: FullFleetRun(schedules(n), n, policy.maxInFlight)
    ensures exists batches :: Reports(entries, base, policy, maxAttempts, clocks, services, batches, report)
  {
    if entries == [] {
      report := Complete(0, 0, 0);
      assert Reports(entries, base, policy, maxAttempts, clocks, services, [], report);
      return;
    }
    var batches := SplitBatches(entries, base, policy);
    BatchesAreUnsent(entries, batches);
    var successful, rpcAttempts, failures :=
      RunBatches(batches, maxAttempts, clocks, services, schedules(|batches|), policy.maxInFlight);
    FleetCompletesEachOnce(schedules(|batches|), |batches|, policy.maxInFlight);
    FinalsAreConserved(entries, batches, clocks, services, maxAttempts);
    ReportIsConserved(entries, batches, FinalsOf(batches, clocks, services, maxAttempts), maxAttempts,
      Last(schedules(|batches|)).completed);
    var sorted := SortBy(IndexOf, failures);
    if sorted == [] {
      report := Complete(successful, rpcAttempts, |batches|);
    } else {
      report := Incomplete(|entries|, successful, rpcAttempts, sorted);
    }
    assert Reports(entries, base, policy, maxAttempts, clocks, services, batches, report);
  }

  /** The report that the servers' answers lead to, when the entries are packed into these batches. */
  ghost predicate Reports(
    entries: seq<RowMutation>, base: nat, policy: BatchPolicy, maxAttempts: nat,
    clocks: nat -> nat -> Tick, services: nat -> MutateService, batches: seq<seq<PendingEntry>>, report: BulkReport)
  {
    && policy.maxEntries > 0 && 0 < maxAttempts <= MAX_U32
    && Packed(policy, base, batches) && Concat(batches) == Numbered(entries)
    && (forall k :: 0 <= k < |batches| ==> NotYetSent(batches[k]))
    && report == Assemble(|entries|, OutcomesOf(FinalsOf(batches, clocks, services, maxAttempts)))
  }

  /** The entries, the policy and the servers decide the report; neither splitting nor arrival leaves a choice. */
  lemma {:induction false} ReportIsDetermined(
    entries: seq<RowMutation>, base: nat, policy: BatchPolicy, maxAttempts: nat,
    clocks: nat -> nat -> Tick, services: nat -> MutateService, split: seq<seq<PendingEntry>>, report: BulkReport,
    otherSplit: seq<seq<PendingEntry>>, other: BulkReport)
    requires Reports(entries, base, policy, maxAttempts, clocks, services, split, report)
    requires Reports(entries, base, policy, maxAttempts, clocks, services, otherSplit, other)
    ensures split == otherSplit && report == other
    ensures Ran(entries, split, FinalsOf(split, clocks, services, maxAttempts), maxAttempts)
    ensures ShowsRequests(report.rpcAttempts, RequestsSent(FinalsOf(split, clocks, services, maxAttempts)))
  {
    hide Packed;
    PackedIsUnique(policy, base, split, otherSplit);
    FinalsAreConserved(entries, split, clocks, services, maxAttempts);
    hide Conserved, AllFailures, SumAttempts, RequestsSent, FinalsOf;
    AttemptsAreRequests(split, FinalsOf(split, clocks, services, maxAttempts), maxAttempts);
  }

  lemma {:induction false} InAllFailures(outcomes: seq<BatchOutcome>, f: MutationFailure)
    ensures f in AllFailures(outcomes) <==> exists k :: 0 <= k < |outcomes| && f in outcomes[k].failures
  {
    if outcomes == [] {
    } else {
      InAllFailures(Init(outcomes), f);
      assert forall k :: 0 <= k < |outcomes| - 1 ==> outcomes[k] == Init(outcomes)[k];
    }
  }

  /**
   * Every failure reported goes back to a batch and from there to the reply or the deadline that caused it; and no
   * failure of any batch is left out.
   */
  lemma {:induction false} ReportIsExplained(
    entries: seq<RowMutation>, base: nat, policy: BatchPolicy, maxAttempts: nat,
    clocks: nat -> nat -> Tick, services: nat -> MutateService, split: seq<seq<PendingEntry>>, report: BulkReport)
    requires Reports(entries, base, policy, maxAttempts, clocks, services, split, report)
    ensures var finals := FinalsOf(split, clocks, services, maxAttempts);
      && (forall k :: 0 <= k < |split| ==>
            && Explained(finals[k], split[k], services(k), maxAttempts)
            && EndsAsReplied(finals[k], split[k], services(k), maxAttempts)
            && Paced(finals[k], split[k], clocks(k), services(k), maxAttempts))
      && (forall f :: f in FailuresIn(report) <==> exists k :: 0 <= k < |finals| && f in finals[k].failures)
  {
    hide Packed, RunBatch, Explained, AllFailures, SortBy, EndsAsReplied, Paced;
    var finals := FinalsOf(split, clocks, services, maxAttempts);
    var all := AllFailures(OutcomesOf(finals));
    forall k | 0 <= k < |split|
      ensures Explained(finals[k], split[k], services(k), maxAttempts)
      ensures EndsAsReplied(finals[k], split[k], services(k), maxAttempts)
      ensures Paced(finals[k], split[k], clocks(k), services(k), maxAttempts) {
      BatchIsExplained(split[k], clocks(k), services(k), maxAttempts);
      BatchEndsAsReplied(split[k], clocks(k), services(k), maxAttempts);
      BatchIsPaced(split[k], clocks(k), services(k), maxAttempts);
    }
    SortKeeps(IndexOf, all);
    assert FailuresIn(report) == SortBy(IndexOf, all);
    forall f ensures f in FailuresIn(report) <==> exists k :: 0 <= k < |finals| && f in finals[k].failures {
      assert f in SortBy(IndexOf, all) <==> f in multiset(SortBy(IndexOf, all));
      assert f in all <==> f in multiset(all);
      InAllFailures(OutcomesOf(finals), f);
    }
  }

  /** Every request of a run keeps the limits, in whatever batch and however late. */
  lemma {:induction false} EveryRequestKeepsTheLimits(
    entries: seq<RowMutation>, base: nat, policy: BatchPolicy, maxAttempts: nat,
    clocks: nat -> nat -> Tick, services: nat -> MutateService, split: seq<seq<PendingEntry>>, report: BulkReport,
    k: nat, r: nat)
    requires forall e :: e in entries ==> Buildable(e)
    requires Reports(entries, base, policy, maxAttempts, clocks, services, split, report) && k < |split|
    requires r < |FinalsOf(split, clocks, services, maxAttempts)[k].rounds|
    ensures var sent := FinalsOf(split, clocks, services, maxAttempts)[k].rounds[r].sent;
      && 0 < |sent| <= policy.maxEntries
      && MutationCount(sent) <= MAX_MUTATIONS
      && (|sent| == 1 || base + EntryBytes(sent) <= policy.maxBytes)
  {
    hide Fits, FinalOf, Buildable, Conserved, Assemble, EntryBytes, MutationCount, Concat, OutcomesOf;
    assert Fits(policy, base, split[k]);
    FinalsAreConserved(entries, split, clocks, services, maxAttempts);
    hide Packed, NotYetSent;
    forall e | e in split[k] ensures Buildable(e.entry) {
      PartOfConcat(split, k, e);
      var i :| 0 <= i < |entries| && Numbered(entries)[i] == e;
      assert entries[i] in entries;
    }
    RequestsKeepTheLimits(policy, base, split[k], FinalsOf(split, clocks, services, maxAttempts)[k], maxAttempts, r);
  }

  lemma {:induction false} PartOfConcat(batches: seq<seq<PendingEntry>>, k: nat, e: PendingEntry)
    requires k < |batches| && e in batches[k]
    ensures e in Concat(batches)
  {
    if k == |batches| - 1 {
    } else {
      PartOfConcat(Init(batches), k, e);
    }
  }

  lemma {:induction false} BatchesAreUnsent(entries: seq<RowMutation>, batches: seq<seq<PendingEntry>>)
    requires Concat(batches) == Numbered(entries)
    ensures forall k :: 0 <= k < |batches| ==> NotYetSent(batches[k])
  {
    forall k, e | 0 <= k < |batches| && e in batches[k] ensures e.attempts == 0 {
      PartOfConcat(batches, k, e);
    }
  }

  /** The batches of an operation, run to their ends, conserve their entries. */
  lemma {:induction false} FinalsAreConserved(
    entries: seq<RowMutation>, batches: seq<seq<PendingEntry>>, clocks: nat -> nat -> Tick,
    services: nat -> MutateService,
    maxAttempts: nat)
    requires 0 < maxAttempts <= MAX_U32 && Concat(batches) == Numbered(entries)
    requires forall k :: 0 <= k < |batches| ==> NotYetSent(batches[k])
    ensures Ran(entries, batches, FinalsOf(batches, clocks, services, maxAttempts), maxAttempts)
  {
    hide RunBatch, Conserved;
    NumberedIds(entries);
    BatchesAreOnce(batches);
    var finals := FinalsOf(batches, clocks, services, maxAttempts);
    forall k | 0 <= k < |batches| ensures Conserved(finals[k], batches[k], maxAttempts) {
      BatchIsConserved(batches[k], clocks(k), services(k), maxAttempts);
    }
  }
}
