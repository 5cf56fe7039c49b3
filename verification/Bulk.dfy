/** A whole bulk mutation: its batches run side by side, and their outcomes are put together. */
module Bulk {
  import opened Rows
  import opened Sorting
  import opened Replies
  import opened Batching

  // ---------- which batches run when ----------

  /** The bounded, unordered buffer of running batches: `next` is the first batch not started. */
  datatype Fleet = Fleet(next: nat, running: set<nat>, completed: seq<nat>)

  ghost predicate Launches(f: Fleet, g: Fleet, batches: nat, maxInFlight: nat) {
    f.next < batches && |f.running| < maxInFlight && g == f.(next := f.next + 1, running := f.running + {f.next})
  }

  ghost predicate Completes(f: Fleet, g: Fleet, k: nat) {
    k in f.running && g == f.(running := f.running - {k}, completed := f.completed + [k])
  }

  ghost predicate FleetStep(f: Fleet, g: Fleet, batches: nat, maxInFlight: nat) {
    Launches(f, g, batches, maxInFlight) || exists k :: Completes(f, g, k)
  }

  ghost predicate FleetRun(trace: seq<Fleet>, batches: nat, maxInFlight: nat) {
    && trace != [] && trace[0] == Fleet(0, {}, [])
    && forall i, j :: 0 <= i && j == i + 1 && j < |trace| ==> FleetStep(trace[i], trace[j], batches, maxInFlight)
  }

  predicate AllDone(f: Fleet, batches: nat) { f.next == batches && f.running == {} }

  /** Each started batch is running or has completed once; the others have not started. */
  ghost predicate FleetInvariant(f: Fleet, batches: nat, maxInFlight: nat) {
    && f.next <= batches && |f.running| <= maxInFlight
    && (forall k :: k in f.running ==> k < f.next)
    && |f.completed| + |f.running| == f.next
    && (forall k: nat :: multiset(f.completed)[k] == if k < f.next && k !in f.running then 1 else 0)
  }

  lemma {:induction false} FleetStaysInBounds(trace: seq<Fleet>, batches: nat, maxInFlight: nat, n: nat)
    requires FleetRun(trace, batches, maxInFlight) && n < |trace|
    ensures FleetInvariant(trace[n], batches, maxInFlight)
  {
    if n == 0 {
      assert multiset(trace[0].completed) == multiset{};
    } else {
      FleetStaysInBounds(trace, batches, maxInFlight, n - 1);
      assert FleetStep(trace[n - 1], trace[n], batches, maxInFlight);
      FleetStepKeeps(trace[n - 1], trace[n], batches, maxInFlight);
    }
  }

  lemma {:induction false} FleetStepKeeps(f: Fleet, g: Fleet, batches: nat, maxInFlight: nat)
    requires FleetInvariant(f, batches, maxInFlight) && FleetStep(f, g, batches, maxInFlight)
    ensures FleetInvariant(g, batches, maxInFlight)
  {
    if !Launches(f, g, batches, maxInFlight) {
      var k :| Completes(f, g, k);
      forall j: nat ensures multiset(g.completed)[j] == if j < g.next && j !in g.running then 1 else 0 {
        assert multiset(g.completed)[j] == multiset(f.completed)[j] + if j == k then 1 else 0;
      }
    }
  }

  /** The fleet never gets stuck before every batch has completed. */
  lemma {:induction false} FleetCanMove(f: Fleet, batches: nat, maxInFlight: nat)
    requires FleetInvariant(f, batches, maxInFlight) && maxInFlight > 0
    ensures AllDone(f, batches) || exists g :: FleetStep(f, g, batches, maxInFlight)
  {
    if f.running != {} {
      var k :| k in f.running;
      var g := f.(running := f.running - {k}, completed := f.completed + [k]);
      assert Completes(f, g, k);
      assert FleetStep(f, g, batches, maxInFlight);
    } else if f.next < batches {
      var g := f.(next := f.next + 1, running := f.running + {f.next});
      assert |f.running| == 0;
      assert FleetStep(f, g, batches, maxInFlight);
    }
  }

  /** A run that has come to its end. */
  ghost predicate FullFleetRun(trace: seq<Fleet>, batches: nat, maxInFlight: nat) {
    FleetRun(trace, batches, maxInFlight) && AllDone(Last(trace), batches)
  }

  /** Each step starts or completes one batch. */
  lemma {:induction false} FleetCountsSteps(trace: seq<Fleet>, batches: nat, maxInFlight: nat, n: nat)
    requires FleetRun(trace, batches, maxInFlight) && n < |trace|
    ensures trace[n].next + |trace[n].completed| == n
  {
    if n == 0 {
    } else {
      FleetCountsSteps(trace, batches, maxInFlight, n - 1);
      assert FleetStep(trace[n - 1], trace[n], batches, maxInFlight);
    }
  }

  /** No interleaving takes more than two steps a batch, and it is at its end exactly when it has taken them. */
  lemma {:induction false} FleetEnds(trace: seq<Fleet>, batches: nat, maxInFlight: nat)
    requires FleetRun(trace, batches, maxInFlight)
    ensures |trace| <= 2 * batches + 1
    ensures FullFleetRun(trace, batches, maxInFlight) <==> |trace| == 2 * batches + 1
  {
    FleetCountsSteps(trace, batches, maxInFlight, |trace| - 1);
    FleetStaysInBounds(trace, batches, maxInFlight, |trace| - 1);
  }

  /** However far it has come, a run can be brought to its end. */
  lemma {:induction false} FleetCanFinish(trace: seq<Fleet>, batches: nat, maxInFlight: nat) returns (full: seq<Fleet>)
    requires FleetRun(trace, batches, maxInFlight) && maxInFlight > 0
    ensures FullFleetRun(full, batches, maxInFlight) && trace <= full
    decreases 2 * batches + 1 - |trace|
  {
    FleetEnds(trace, batches, maxInFlight);
    if AllDone(Last(trace), batches) {
      full := trace;
    } else {
      FleetStaysInBounds(trace, batches, maxInFlight, |trace| - 1);
      FleetCanMove(Last(trace), batches, maxInFlight);
      var next :| FleetStep(Last(trace), next, batches, maxInFlight);
      full := FleetCanFinish(trace + [next], batches, maxInFlight);
    }
  }

  function UpTo(n: nat): seq<nat> { seq(n, i => i) }

  lemma {:induction false} UpToOnce(n: nat)
    ensures forall k: nat :: multiset(UpTo(n))[k] == if k < n then 1 else 0
  {
    if n == 0 {
      assert multiset(UpTo(0)) == multiset{};
    } else {
      UpToOnce(n - 1);
      assert UpTo(n) == UpTo(n - 1) + [n - 1];
    }
  }

  /** Whatever the interleaving, the batches that have completed in the end are all of them, each once. */
  lemma {:induction false} FleetCompletesEachOnce(trace: seq<Fleet>, batches: nat, maxInFlight: nat)
    requires FullFleetRun(trace, batches, maxInFlight)
    ensures multiset(Last(trace).completed) == multiset(UpTo(batches))
  {
    FleetStaysInBounds(trace, batches, maxInFlight, |trace| - 1);
    UpToOnce(batches);
  }

  // ---------- putting outcomes together ----------

  /** What a batch operation returns. */
  datatype BatchOutcome = BatchOutcome(successful: nat, failures: seq<MutationFailure>, rpcAttempts: nat)

  function OutcomeOf(b: Batch): BatchOutcome { BatchOutcome(b.successful, b.failures, b.rpcAttempts) }

  function Arrived(outcomes: seq<BatchOutcome>, order: seq<nat>): (arrived: seq<BatchOutcome>)
    requires forall i :: 0 <= i < |order| ==> order[i] < |outcomes|
    ensures |arrived| == |order| && forall i :: 0 <= i < |order| ==> arrived[i] == outcomes[order[i]]
  {
    seq(|order|, i requires 0 <= i < |order| => outcomes[order[i]])
  }

  function SumSuccessful(outcomes: seq<BatchOutcome>): nat {
    if outcomes == [] then 0 else SumSuccessful(Init(outcomes)) + Last(outcomes).successful
  }

  function SumAttempts(outcomes: seq<BatchOutcome>): nat {
    if outcomes == [] then 0 else SumAttempts(Init(outcomes)) + Last(outcomes).rpcAttempts
  }

  function AllFailures(outcomes: seq<BatchOutcome>): seq<MutationFailure> {
    if outcomes == [] then [] else AllFailures(Init(outcomes)) + Last(outcomes).failures
  }

  function Capped(n: nat): nat { if n > MAX_U32 then MAX_U32 else n }

  /** Adds outcomes up in the order they arrive. */
  method CollectOutcomes(outcomes: seq<BatchOutcome>)
    returns (successful: nat, rpcAttempts: nat, failures: seq<MutationFailure>)
    ensures successful == SumSuccessful(outcomes) && rpcAttempts == Capped(SumAttempts(outcomes))
    ensures failures == AllFailures(outcomes)
  {
    successful, rpcAttempts, failures := 0, 0, [];
    for i := 0 to |outcomes|
      invariant successful == SumSuccessful(outcomes[..i]) && rpcAttempts == Capped(SumAttempts(outcomes[..i]))
      invariant failures == AllFailures(outcomes[..i])
    {
      assert Init(outcomes[..i + 1]) == outcomes[..i];
      successful := successful + outcomes[i].successful;
      rpcAttempts := SaturatingAdd(rpcAttempts, outcomes[i].rpcAttempts);
      failures := failures + outcomes[i].failures;
    }
    assert outcomes[..|outcomes|] == outcomes;
  }

  lemma {:induction false} TakeOut(outcomes: seq<BatchOutcome>, i: nat)
    requires i < |outcomes|
    ensures var rest := Without(outcomes, i);
      && SumSuccessful(outcomes) == SumSuccessful(rest) + outcomes[i].successful
      && SumAttempts(outcomes) == SumAttempts(rest) + outcomes[i].rpcAttempts
      && multiset(AllFailures(outcomes)) == multiset(AllFailures(rest)) + multiset(outcomes[i].failures)
  {
    hide Without;
    WithoutOne(outcomes, i);
    if i == |outcomes| - 1 {
    } else {
      TakeOut(Init(outcomes), i);
    }
  }

  /** Sums and failures do not depend on the order of arrival. */
  lemma {:induction false} ArrivalOrderIsIrrelevant(a: seq<BatchOutcome>, b: seq<BatchOutcome>)
    requires multiset(a) == multiset(b)
    ensures SumSuccessful(a) == SumSuccessful(b) && SumAttempts(a) == SumAttempts(b)
    ensures multiset(AllFailures(a)) == multiset(AllFailures(b))
  {
    if a != [] {
      hide Without;
      var i := MatchLast(a, b);
      TakeOut(b, i);
      ArrivalOrderIsIrrelevant(Init(a), Without(b, i));
    } else {
      assert b == [] by { assert |multiset(b)| == |multiset(a)| == 0; }
    }
  }

  lemma {:induction false} OrderIsInRange(order: seq<nat>, n: nat)
    requires multiset(order) == multiset(UpTo(n))
    ensures |order| == n && forall i :: 0 <= i < |order| ==> order[i] < n
  {
    UpToOnce(n);
    assert |order| == |multiset(order)| == |multiset(UpTo(n))| == n;
    forall i | 0 <= i < |order| ensures order[i] < n {
      assert order[i] in multiset(order);
    }
  }

  lemma {:induction false} ArrivedWithout(
    outcomes: seq<BatchOutcome>, order: seq<nat>, i: nat, front: seq<BatchOutcome>, rest: seq<nat>)
    requires outcomes != [] && front == Init(outcomes) && i < |order| && rest == Without(order, i)
    requires forall j :: 0 <= j < |order| ==> order[j] < |outcomes|
    requires forall j :: 0 <= j < |rest| ==> rest[j] < |front|
    ensures Arrived(front, rest) == Without(Arrived(outcomes, order), i)
  {
    assert |rest| == |order| - 1;
    forall j | 0 <= j < |rest| ensures Arrived(front, rest)[j] == Without(Arrived(outcomes, order), i)[j] {
      assert rest[j] == order[if j < i then j else j + 1];
    }
  }

  lemma {:induction false} ArrivedIsPermutation(outcomes: seq<BatchOutcome>, order: seq<nat>)
    requires multiset(order) == multiset(UpTo(|outcomes|))
    requires forall i :: 0 <= i < |order| ==> order[i] < |outcomes|
    ensures multiset(Arrived(outcomes, order)) == multiset(outcomes)
  {
    hide Without, Arrived;
    OrderIsInRange(order, |outcomes|);
    if outcomes == [] {
      assert Arrived(outcomes, order) == outcomes;
    } else {
      var n := |outcomes| - 1;
      assert Init(UpTo(n + 1)) == UpTo(n) && Last(UpTo(n + 1)) == n;
      hide UpTo;
      var i := MatchLast(UpTo(n + 1), order);
      assert order[i] == n;
      var front, rest := Init(outcomes), Without(order, i);
      OrderIsInRange(rest, n);
      assert |front| == n;
      ArrivedIsPermutation(front, rest);
      ArrivedWithout(outcomes, order, i, front, rest);
      WithoutOne(Arrived(outcomes, order), i);
      InitAndLast(outcomes);
      assert multiset(outcomes) == multiset(Init(outcomes)) + multiset{outcomes[n]};
      assert Arrived(outcomes, order)[i] == outcomes[n];
    }
  }
}
