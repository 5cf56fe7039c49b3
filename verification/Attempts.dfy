/**
 * One `MutateRows` attempt: the verdicts on its entries, found with a bitmap, a sorted list of failures and one walk
 * over both.
 */
module Attempts {
  import opened Wrappers
  import opened Rows
  import opened Codes
  import opened Splitting
  import opened Sorting
  import opened Replies
  import opened Statuses

  function CountTrue(s: seq<bool>): nat {
    if s == [] then 0 else CountTrue(Init(s)) + if Last(s) then 1 else 0
  }

  lemma {:induction false} CountTrueGrows(s: seq<bool>, i: nat)
    requires i < |s| && !s[i]
    ensures CountTrue(s[i := true]) == CountTrue(s) + 1
  {
    var t := s[i := true];
    if i == |s| - 1 {
      assert Init(t) == Init(s);
    } else {
      CountTrueGrows(Init(s), i);
      assert Init(t) == Init(s)[i := true];
    }
  }

  lemma {:induction false} CountTrueFull(s: seq<bool>)
    ensures CountTrue(s) <= |s|
    ensures CountTrue(s) == |s| ==> forall i :: 0 <= i < |s| ==> s[i]
  {
    if s == [] {
    } else {
      CountTrueFull(Init(s));
    }
  }

  lemma {:induction false} CountTrueNone(s: seq<bool>)
    requires forall i :: 0 <= i < |s| ==> !s[i]
    ensures CountTrue(s) == 0
  {
    if s == [] {
    } else {
      CountTrueNone(Init(s));
    }
  }

  /** A non-OK answer, by request-local index. */
  datatype LocalFailure = LocalFailure(local: nat, code: Code)

  function LocalOf(f: LocalFailure): nat { f.local }

  lemma {:induction false} AnswerToFinds(results: seq<EntryResult>, local: nat)
    ensures AnswerTo(results, local).Some? <==> exists i :: 0 <= i < |results| && results[i].index == local
  {
    if results == [] {
    } else {
      AnswerToFinds(Init(results), local);
      assert Last(results) == results[|results| - 1];
    }
  }

  /** The bitmap, against the results it was filled from. */
  ghost predicate SeenMatches(results: seq<EntryResult>, seen: seq<bool>) {
    && FirstIssue(results, |seen|).None?
    && (forall k :: 0 <= k < |seen| ==> (seen[k] <==> AnswerTo(results, k).Some?))
  }

  /** The failure list, against the results it was filled from. */
  ghost predicate FailuresMatch(results: seq<EntryResult>, n: nat, failed: seq<LocalFailure>) {
    && Apart(LocalOf, failed)
    && (forall f :: f in failed ==> f.local < n && f.code != Ok && AnswerTo(results, f.local) == Some(f.code))
    && (forall k :: 0 <= k < n && AnswerTo(results, k).Some? && AnswerTo(results, k) != Some(Ok) ==>
          LocalFailure(k, AnswerTo(results, k).value) in failed)
  }

  lemma {:induction false} AnswerOneMore(results: seq<EntryResult>, r: EntryResult)
    ensures forall k: nat ::
      AnswerTo(results + [r], k) == if r.index == k then Some(StatusOf(r)) else AnswerTo(results, k)
    ensures forall n ::
      FirstIssue(results + [r], n) ==
        match FirstIssue(results, n)
        case Some(issue) => Some(issue)
        case None => IssueOf(results, r, n)
  {
    assert Init(results + [r]) == results && Last(results + [r]) == r;
  }

  lemma {:induction false} SeeOneMore(results: seq<EntryResult>, seen: seq<bool>, r: EntryResult)
    requires SeenMatches(results, seen)
    ensures FirstIssue(results + [r], |seen|) ==
      if r.index < 0 then Some(NegativeIndex(r.index))
      else if r.index >= |seen| then Some(IndexOutOfRange(r.index, |seen|))
      else if seen[r.index] then Some(DuplicateIndex(r.index))
      else None
    ensures 0 <= r.index < |seen| && !seen[r.index] ==>
      AnswerTo(results, r.index).None? && SeenMatches(results + [r], seen[r.index := true])
  {
    AnswerOneMore(results, r);
    if 0 <= r.index < |seen| {
      AnswerToFinds(results, r.index);
    }
  }

  lemma {:induction false} FailOneMore(results: seq<EntryResult>, n: nat, failed: seq<LocalFailure>, r: EntryResult)
    requires FailuresMatch(results, n, failed)
    requires 0 <= r.index < n && AnswerTo(results, r.index).None?
    ensures var after := if StatusOf(r) == Ok then failed else failed + [LocalFailure(r.index, StatusOf(r))];
      FailuresMatch(results + [r], n, after)
  {
    AnswerOneMore(results, r);
    hide StatusOf;
    var after := if StatusOf(r) == Ok then failed else failed + [LocalFailure(r.index, StatusOf(r))];
    forall i | 0 <= i < |failed| ensures failed[i].local != r.index {
      assert failed[i] in failed;
    }
  }

  lemma {:induction false} FirstIssueIsFirst(a: seq<EntryResult>, b: seq<EntryResult>, n: nat)
    requires FirstIssue(a, n).Some?
    ensures FirstIssue(a + b, n) == FirstIssue(a, n)
  {
    if b == [] {
      assert a + b == a;
    } else {
      FirstIssueIsFirst(a, Init(b), n);
      assert Init(a + b) == a + Init(b) && Last(a + b) == Last(b);
    }
  }

  lemma {:induction false} ConcatJoin<T>(a: seq<seq<T>>, b: seq<seq<T>>)
    ensures Concat(a + b) == Concat(a) + Concat(b)
  {
    if b == [] {
      assert a + b == a;
    } else {
      ConcatJoin(a, Init(b));
      assert Init(a + b) == a + Init(b) && Last(a + b) == Last(b);
    }
  }

  /** The results read so far are the beginning of all results. */
  lemma {:induction false} ReadSoFar(responses: seq<seq<EntryResult>>, i: nat, j: nat) returns (rest: seq<EntryResult>)
    requires i < |responses| && j < |responses[i]|
    ensures Concat(responses) == Concat(responses[..i]) + responses[i][..j] + [responses[i][j]] + rest
  {
    ConcatJoin(responses[..i], responses[i..]);
    ConcatHead(responses[i..]);
    assert responses[..i] + responses[i..] == responses;
    rest := responses[i][j + 1..] + Concat(responses[i..][1..]);
    assert responses[i] == responses[i][..j] + [responses[i][j]] + responses[i][j + 1..];
  }

  /** Reads one result, given what the results before it left. */
  method ReadResult(
    r: EntryResult, ghost read: seq<EntryResult>, seen: array<bool>, seenCount: nat, failed: seq<LocalFailure>)
    returns (issue: Option<ResponseIssue>, newCount: nat, newFailed: seq<LocalFailure>)
    requires SeenMatches(read, seen[..]) && FailuresMatch(read, seen.Length, failed) && seenCount == CountTrue(seen[..])
    modifies seen
    ensures issue == FirstIssue(read + [r], seen.Length)
    ensures issue.None? ==>
      && SeenMatches(read + [r], seen[..]) && FailuresMatch(read + [r], seen.Length, newFailed)
      && newCount == CountTrue(seen[..])
  {
    hide SeenMatches, FailuresMatch, FirstIssue, IssueOf, StatusOf, AnswerTo;
    newCount, newFailed := seenCount, failed;
    SeeOneMore(read, seen[..], r);
    if r.index < 0 {
      return Some(NegativeIndex(r.index)), newCount, newFailed;
    }
    if r.index >= seen.Length {
      return Some(IndexOutOfRange(r.index, seen.Length)), newCount, newFailed;
    }
    if seen[r.index] {
      return Some(DuplicateIndex(r.index)), newCount, newFailed;
    }
    FailOneMore(read, seen.Length, failed, r);
    CountTrueGrows(seen[..], r.index);
    ghost var after := seen[..][r.index := true];
    seen[r.index] := true;
    assert seen[..] == after;
    newCount := seenCount + 1;
    var code := StatusOf(r);
    if code != Ok {
      newFailed := failed + [LocalFailure(r.index, code)];
    }
    issue := None;
  }

  /** Reads the results of a stream, up to the first violation. */
  method ReadResults(responses: seq<seq<EntryResult>>, n: nat)
    returns (issue: Option<ResponseIssue>, seen: array<bool>, seenCount: nat, failed: seq<LocalFailure>)
    ensures issue == FirstIssue(Concat(responses), n)
    ensures issue.None? ==>
      && seen.Length == n && SeenMatches(Concat(responses), seen[..]) && seenCount == CountTrue(seen[..])
      && FailuresMatch(Concat(responses), n, failed)
  {
    hide SeenMatches, FailuresMatch, FirstIssue, Concat, CountTrue;
    seen := new bool[n](_ => false);
    seenCount, failed := 0, [];
    NothingRead(seen[..]);
    assert responses[..0] == [];
    for i := 0 to |responses|
      invariant seen.Length == n && fresh(seen)
      invariant SeenMatches(Concat(responses[..i]), seen[..]) && FailuresMatch(Concat(responses[..i]), n, failed)
      invariant seenCount == CountTrue(seen[..])
    {
      JoinBatch(responses[..i], responses[i]);
      assert responses[..i + 1] == responses[..i] + [responses[i]];
      ghost var before := Concat(responses[..i]);
      assert before + responses[i][..0] == before;
      for j := 0 to |responses[i]|
        invariant seen.Length == n && fresh(seen)
        invariant SeenMatches(before + responses[i][..j], seen[..]) &&
          FailuresMatch(before + responses[i][..j], n, failed)
        invariant seenCount == CountTrue(seen[..])
      {
        ghost var read := before + responses[i][..j];
        ghost var rest := ReadSoFar(responses, i, j);
        assert before + responses[i][..j + 1] == read + [responses[i][j]];
        issue, seenCount, failed := ReadResult(responses[i][j], read, seen, seenCount, failed);
        if issue.Some? {
          FirstIssueIsFirst(read + [responses[i][j]], rest, n);
          return;
        }
      }
      assert responses[i][..|responses[i]|] == responses[i];
    }
    assert responses[..|responses|] == responses;
    NoIssueYet(responses, seen[..]);
    issue := None;
  }

  lemma {:induction false} NoIssueYet(responses: seq<seq<EntryResult>>, seen: seq<bool>)
    requires SeenMatches(Concat(responses), seen)
    ensures FirstIssue(Concat(responses), |seen|).None?
  {
  }

  lemma {:induction false} NothingRead(seen: seq<bool>)
    requires forall k :: 0 <= k < |seen| ==> !seen[k]
    ensures SeenMatches([], seen) && FailuresMatch([], |seen|, []) && CountTrue(seen) == 0 &&
      Concat<EntryResult>([]) == []
  {
    CountTrueNone(seen);
  }

  // ---------- outcomes ----------

  /** An entry joins the part of the outcome its verdict says. */
  function Record(o: AttemptOutcome, e: PendingEntry, verdict: Verdict): AttemptOutcome {
    match verdict
    case Confirmed => o.(successful := o.successful + 1)
    case SendAgain => o.(retry := o.retry + [e])
    case FailedFor(cause) => o.(failures := o.failures + [FailureOf(e, cause)])
  }

  lemma {:induction false} TallyOneMore(current: seq<PendingEntry>, verdicts: seq<Verdict>, n: nat)
    requires |verdicts| == |current| && n < |current|
    ensures Tally(Settle(current[..n + 1], verdicts[..n + 1]))
      == Record(Tally(Settle(current[..n], verdicts[..n])), current[n], verdicts[n])
  {
    SettleOneMore(current, verdicts, n);
  }

  datatype FailureOrigin = FromEntry | FromRpc

  method ClassifyStatus(e: PendingEntry, code: Code, origin: FailureOrigin, outcome: AttemptOutcome, maxAttempts: nat)
    returns (updated: AttemptOutcome)
    ensures updated == Record(outcome, e,
      match origin
      case FromEntry => OnEntryStatus(e, code, maxAttempts)
      case FromRpc => OnRpcStatus(e, code, maxAttempts))
  {
    var canRetry := e.retrySafe && IsMutateRetryable(code) && e.attempts < maxAttempts;
    if canRetry {
      return outcome.(retry := outcome.retry + [e]);
    }
    var cause := if origin == FromEntry then EntryStatus(code, e.retrySafe) else RpcStatus(code, e.retrySafe);
    return outcome.(failures := outcome.failures + [MutationFailure(e.originalIndex, e.attempts, cause)]);
  }

  method RpcFailure(current: seq<PendingEntry>, code: Code, maxAttempts: nat) returns (outcome: AttemptOutcome)
    ensures outcome == Tally(Settle(current, VerdictsOf(current, Refused(code), maxAttempts)))
    ensures AsReplied(current, Refused(code), maxAttempts, outcome)
  {
    hide AsReplied;
    VerdictsSettleAsReplied(current, Refused(code), maxAttempts);
    ghost var verdicts := VerdictsOf(current, Refused(code), maxAttempts);
    outcome := AttemptOutcome(0, [], []);
    for i := 0 to |current|
      invariant outcome == Tally(Settle(current[..i], verdicts[..i]))
    {
      TallyOneMore(current, verdicts, i);
      outcome := ClassifyStatus(current[i], code, FromRpc, outcome, maxAttempts);
    }
    assert current[..|current|] == current && verdicts[..|current|] == verdicts;
  }

  method InvalidResponseOutcome(current: seq<PendingEntry>, issue: ResponseIssue) returns (outcome: AttemptOutcome)
    ensures outcome == Tally(Settle(current, seq(|current|, i => FailedFor(InvalidResponse(issue)))))
  {
    ghost var verdicts := seq(|current|, i => FailedFor(InvalidResponse(issue)));
    outcome := AttemptOutcome(0, [], []);
    for i := 0 to |current|
      invariant outcome == Tally(Settle(current[..i], verdicts[..i]))
    {
      TallyOneMore(current, verdicts, i);
      outcome := outcome.(failures := outcome.failures +
        [MutationFailure(current[i].originalIndex, current[i].attempts, InvalidResponse(issue))]);
    }
    assert current[..|current|] == current && verdicts[..|current|] == verdicts;
  }

  /** When every entry is confirmed the settlement is the whole attempt. */
  lemma {:induction false} AllConfirmed(current: seq<PendingEntry>, verdicts: seq<Verdict>)
    requires |verdicts| == |current| && forall i :: 0 <= i < |current| ==> verdicts[i] == Confirmed
    ensures Settle(current, verdicts) == Settled(current, [], [], [])
  {
    if current == [] {
    } else {
      AllConfirmed(Init(current), Init(verdicts));
      InitAndLast(current);
    }
  }

  /** The position of the walk in the sorted failures. */
  ghost predicate Splits(failed: seq<LocalFailure>, next: nat, local: nat) {
    && next <= |failed|
    && (forall i :: 0 <= i < next ==> failed[i].local < local)
    && (forall i :: next <= i < |failed| ==> failed[i].local >= local)
  }

  /** What the bitmap and the next failure say about an entry is its verdict. */
  lemma {:induction false} PeekTellsVerdict(
    results: seq<EntryResult>, seen: seq<bool>, failed: seq<LocalFailure>, next: nat, local: nat)
    requires SeenMatches(results, seen) && FailuresMatch(results, |seen|, failed)
    requires Increasing(LocalOf, failed) && Splits(failed, next, local) && local < |seen|
    ensures !seen[local] ==> AnswerTo(results, local).None?
    ensures var hit := next < |failed| && failed[next].local == local;
      && (seen[local] ==> AnswerTo(results, local) == Some(if hit then failed[next].code else Ok))
      && (hit ==> seen[local] && failed[next].code != Ok)
      && Splits(failed, if hit then next + 1 else next, local + 1)
  {
    hide AnswerTo, FirstIssue;
    if next < |failed| {
      assert failed[next] in failed;
    }
    if AnswerTo(results, local).Some? && AnswerTo(results, local) != Some(Ok) {
      var i :| 0 <= i < |failed| && failed[i] == LocalFailure(local, AnswerTo(results, local).value);
      assert i >= next;
      assert failed[next].local <= failed[i].local;
    }
  }

  /** Consumes the result stream of one attempt. */
  method ConsumeStream(current: seq<PendingEntry>, responses: seq<seq<EntryResult>>, end: MutateEnd, maxAttempts: nat)
    returns (outcome: AttemptOutcome)
    ensures outcome == Tally(Settle(current, VerdictsOf(current, Streamed(responses, end), maxAttempts)))
    ensures AsReplied(current, Streamed(responses, end), maxAttempts, outcome)
  {
    hide SeenMatches, FailuresMatch, FirstIssue, Concat, Record, Settle, Increasing, SortBy, AsReplied;
    VerdictsSettleAsReplied(current, Streamed(responses, end), maxAttempts);
    ghost var verdicts := VerdictsOf(current, Streamed(responses, end), maxAttempts);
    ghost var results := Concat(responses);
    var issue, seen, seenCount, entryFailures := ReadResults(responses, |current|);
    if issue.Some? {
      outcome := InvalidResponseOutcome(current, issue.value);
      return;
    }
    if seenCount == |current| && entryFailures == [] {
      NoFailureConfirmsAll(results, seen[..], entryFailures);
      AllConfirmed(current, verdicts);
      return AttemptOutcome(|current|, [], []);
    }
    SortedFailuresMatch(results, |current|, entryFailures);
    var sorted := SortBy(LocalOf, entryFailures);
    var next := 0;
    outcome := AttemptOutcome(0, [], []);
    NothingSettled();
    for local := 0 to |current|
      invariant outcome == Tally(Settle(current[..local], verdicts[..local]))
      invariant Splits(sorted, next, local)
      invariant SeenMatches(results, seen[..])
    {
      TallyOneMore(current, verdicts, local);
      PeekTellsVerdict(results, seen[..], sorted, next, local);
      outcome, next :=
        SettleEntry(current[local], local, results, seen[local], sorted, next, end, outcome, maxAttempts);
    }
    assert current[..|current|] == current && verdicts[..|current|] == verdicts;
  }

  /** One step of the walk over the attempt's entries. */
  method SettleEntry(
    e: PendingEntry, local: nat, ghost results: seq<EntryResult>, seen: bool, failed: seq<LocalFailure>, next: nat,
    end: MutateEnd,
    outcome: AttemptOutcome, maxAttempts: nat) returns (updated: AttemptOutcome, after: nat)
    requires next <= |failed|
    requires !seen ==> AnswerTo(results, local).None?
    requires var hit := next < |failed| && failed[next].local == local;
      (seen ==> AnswerTo(results, local) == Some(if hit then failed[next].code else Ok)) &&
        (hit ==> seen && failed[next].code != Ok)
    ensures updated == Record(outcome, e, VerdictOn(e, local, results, end, maxAttempts))
    ensures after == if next < |failed| && failed[next].local == local then next + 1 else next
  {
    after := next;
    if seen {
      if next < |failed| && failed[next].local == local {
        updated := ClassifyStatus(e, failed[next].code, FromEntry, outcome, maxAttempts);
        after := next + 1;
      } else {
        updated := outcome.(successful := outcome.successful + 1);
      }
    } else {
      match end {
        case StreamFailed(code) => updated := ClassifyStatus(e, code, FromRpc, outcome, maxAttempts);
        case DeadlinePassed => updated := ClassifyStatus(e, DeadlineExceeded, FromRpc, outcome, maxAttempts);
        case Closed =>
          var failure := MutationFailure(e.originalIndex, e.attempts, InvalidResponse(MissingIndex(local)));
          updated := outcome.(failures := outcome.failures + [failure]);
      }
    }
  }

  lemma {:induction false} NothingSettled()
    ensures Tally(Settle([], [])) == AttemptOutcome(0, [], [])
  {
  }

  lemma {:induction false} NoFailureConfirmsAll(results: seq<EntryResult>, seen: seq<bool>, failed: seq<LocalFailure>)
    requires SeenMatches(results, seen) && FailuresMatch(results, |seen|, failed)
    requires CountTrue(seen) == |seen| && failed == []
    ensures forall i :: 0 <= i < |seen| ==> AnswerTo(results, i) == Some(Ok)
  {
    CountTrueFull(seen);
  }

  lemma {:induction false} SortedFailuresMatch(results: seq<EntryResult>, n: nat, failed: seq<LocalFailure>)
    requires FailuresMatch(results, n, failed)
    ensures var sorted := SortBy(LocalOf, failed);
      FailuresMatch(results, n, sorted) && Increasing(LocalOf, sorted) && Splits(sorted, 0, 0)
  {
    SortIsSorted(LocalOf, failed);
    SortKeeps(LocalOf, failed);
  }
}
