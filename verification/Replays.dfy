/**
 * Replays are invisible.
 *
 * A table is a value, or none, at each location. The server applies entries whenever it gets to them, once for
 * each request at most; an entry that carries an idempotency token takes effect the first time only. Others may
 * write to the table all the while, each write being any function of the value it meets.
 */
module Replays {
  import opened Wrappers
  import opened Keys
  import opened Rows
  import opened Mutations
  import opened Splitting
  import opened Sorting
  import opened Bulk
  import opened Batching
  import opened Conservation
  import opened Execution

  datatype Location = Location(row: Bytes, family: string, qualifier: Bytes, timestamp: int)

  type Value = Option<Bytes>

  /** What an aggregate change makes of the value it meets. */
  type Aggregator = (Mutation, Value) -> Value

  predicate Covers(range: Option<TimestampRange>, timestamp: int) {
    range.None? || (range.value.start <= timestamp && (range.value.end == 0 || timestamp < range.value.end))
  }

  predicate InColumn(loc: Location, row: Bytes, family: string, qualifier: Bytes) {
    loc.row == row && loc.family == family && loc.qualifier == qualifier
  }

  /** The change applied at server time `now`, as one location sees it. */
  function ApplyMutation(m: Mutation, row: Bytes, now: int, aggregate: Aggregator, loc: Location, v: Value): Value {
    match m
    case Unset => v
    case SetCell(family, qualifier, timestamp, value) =>
      var at := if timestamp == SERVER_TIME then now else timestamp;
      if loc == Location(row, family, qualifier, at) then Some(value) else v
    case DeleteFromColumn(family, qualifier, range) =>
      if InColumn(loc, row, family, qualifier) && Covers(range, loc.timestamp) then None else v
    case DeleteFromFamily(family) => if loc.row == row && loc.family == family then None else v
    case DeleteFromRow => if loc.row == row then None else v
    case AddToCell(family, qualifier, timestamp, _) =>
      if loc == Location(row, family, qualifier, timestamp) then aggregate(m, v) else v
    case MergeToCell(family, qualifier, timestamp, _) =>
      if loc == Location(row, family, qualifier, timestamp) then aggregate(m, v) else v
  }

  /** The changes of an entry, in order. */
  function ApplyChanges(
    ms: seq<Mutation>, row: Bytes, now: int, aggregate: Aggregator, loc: Location, v: Value): Value {
    if ms == [] then v
    else ApplyMutation(Last(ms), row, now, aggregate, loc, ApplyChanges(Init(ms), row, now, aggregate, loc, v))
  }

  /** Something that happens to the table: an entry of this operation reaches it, or somebody else writes. */
  datatype Step = Applied(index: nat, now: int) | Foreign(write: (Location, Value) -> Value)

  /** How often an entry was applied. */
  ghost function Times(log: seq<Step>, index: nat): nat {
    if log == [] then 0 else (if log[0].Applied? && log[0].index == index then 1 else 0) + Times(log[1..], index)
  }

  /** What others wrote, in order. */
  ghost function ForeignOf(log: seq<Step>): seq<Step> {
    if log == [] then [] else (if log[0].Foreign? then [log[0]] else []) + ForeignOf(log[1..])
  }

  ghost predicate InRangeOf(entries: seq<RowMutation>, log: seq<Step>) {
    forall i :: 0 <= i < |log| && log[i].Applied? ==> log[i].index < |entries|
  }

  function Effect(e: RowMutation, now: int, aggregate: Aggregator, loc: Location, v: Value): Value {
    ApplyChanges(e.mutations, e.rowKey, now, aggregate, loc, v)
  }

  /** The value one step leaves, if it takes effect. */
  function StepEffect(entries: seq<RowMutation>, step: Step, aggregate: Aggregator, loc: Location, v: Value): Value
    requires step.Applied? ==> step.index < |entries|
  {
    match step
    case Applied(index, now) => Effect(entries[index], now, aggregate, loc, v)
    case Foreign(write) => write(loc, v)
  }

  /** The server has met the token of the entry before. */
  predicate Ignored(entries: seq<RowMutation>, step: Step, done: set<nat>)
    requires step.Applied? ==> step.index < |entries|
  {
    step.Applied? && entries[step.index].token.Some? && step.index in done
  }

  function Met(step: Step, done: set<nat>): set<nat> { if step.Applied? then done + {step.index} else done }

  /** The value at a location after the server has worked through a log; `done` are the entries it has met. */
  ghost function Serve(
    entries: seq<RowMutation>, log: seq<Step>, done: set<nat>, aggregate: Aggregator, loc: Location, v: Value): Value
    requires InRangeOf(entries, log)
  {
    if log == [] then v
    else if Ignored(entries, log[0], done) then Serve(entries, log[1..], done, aggregate, loc, v)
    else Serve(entries, log[1..], Met(log[0], done), aggregate, loc, StepEffect(entries, log[0], aggregate, loc, v))
  }

  /** The value after every step of a list takes effect. */
  ghost function Play(entries: seq<RowMutation>, log: seq<Step>, aggregate: Aggregator, loc: Location, v: Value): Value
    requires InRangeOf(entries, log)
  {
    if log == [] then v
    else Play(entries, log[1..], aggregate, loc, StepEffect(entries, log[0], aggregate, loc, v))
  }

  // ---------- what a replay cannot change ----------

  /** What a change without aggregation leaves at a location whatever was there; nothing where it does not reach. */
  function Overwrite(m: Mutation, row: Bytes, loc: Location): Option<Value> {
    match m
    case SetCell(family, qualifier, timestamp, value) =>
      if loc == Location(row, family, qualifier, timestamp) then Some(Some(value)) else None
    case DeleteFromColumn(family, qualifier, range) =>
      if InColumn(loc, row, family, qualifier) && Covers(range, loc.timestamp) then Some(None) else None
    case DeleteFromFamily(family) => if loc.row == row && loc.family == family then Some(None) else None
    case DeleteFromRow => if loc.row == row then Some(None) else None
    case _ => None
  }

  function Overwrites(ms: seq<Mutation>, row: Bytes, loc: Location): Option<Value> {
    if ms == [] then None
    else
      match Overwrite(Last(ms), row, loc)
      case Some(v) => Some(v)
      case None => Overwrites(Init(ms), row, loc)
  }

  /** A retry-safe entry without a token is constant or the identity at every location, at any time. */
  lemma {:induction false} SafeIsConstantOrIdentity(
    ms: seq<Mutation>, row: Bytes, now: int, aggregate: Aggregator, loc: Location, v: Value)
    requires forall i :: 0 <= i < |ms| ==> IsSafe(ms[i], false)
    ensures ApplyChanges(ms, row, now, aggregate, loc, v) == Overwrites(ms, row, loc).GetOr(v)
  {
    if ms == [] {
    } else {
      SafeIsConstantOrIdentity(Init(ms), row, now, aggregate, loc, v);
      assert IsSafe(ms[|ms| - 1], false);
    }
  }

  ghost predicate Replayable(e: RowMutation) { IsRetrySafe(e) && e.token.None? }

  lemma {:induction false} ReplayableEffect(e: RowMutation, now: int, aggregate: Aggregator, loc: Location, v: Value)
    requires Replayable(e)
    ensures Effect(e, now, aggregate, loc, v) == Overwrites(e.mutations, e.rowKey, loc).GetOr(v)
  {
    SafeIsConstantOrIdentity(e.mutations, e.rowKey, now, aggregate, loc, v);
  }

  /** If an entry still to come overwrites the location, what is there now does not matter, whoever writes till then. */
  lemma {:induction false} LaterOverwriteWins(
    entries: seq<RowMutation>, log: seq<Step>, index: nat, aggregate: Aggregator, loc: Location, v: Value, w: Value)
    requires InRangeOf(entries, log) && index < |entries| && Times(log, index) > 0 && Replayable(entries[index])
    requires Overwrites(entries[index].mutations, entries[index].rowKey, loc).Some?
    ensures Play(entries, log, aggregate, loc, v) == Play(entries, log, aggregate, loc, w)
  {
    hide Overwrites, Effect;
    var step := log[0];
    if step.Applied? && step.index == index {
      ReplayableEffect(entries[index], step.now, aggregate, loc, v);
      ReplayableEffect(entries[index], step.now, aggregate, loc, w);
    } else {
      LaterOverwriteWins(entries, log[1..], index, aggregate, loc,
                         StepEffect(entries, step, aggregate, loc, v), StepEffect(entries, step, aggregate, loc, w));
    }
  }

  // ---------- one application each ----------

  /** Drops the applications the server ignores. */
  ghost function TakesEffect(entries: seq<RowMutation>, log: seq<Step>, done: set<nat>): (kept: seq<Step>)
    requires InRangeOf(entries, log)
    ensures InRangeOf(entries, kept)
  {
    if log == [] then []
    else if Ignored(entries, log[0], done) then TakesEffect(entries, log[1..], done)
    else [log[0]] + TakesEffect(entries, log[1..], Met(log[0], done))
  }

  /** The entry is applied again later. */
  ghost predicate ComesAgain(step: Step, rest: seq<Step>) { step.Applied? && Times(rest, step.index) > 0 }

  /** Keeps the last application of each entry, and what others wrote. */
  ghost function LastOnly(log: seq<Step>): seq<Step> {
    if log == [] then []
    else if ComesAgain(log[0], log[1..]) then LastOnly(log[1..])
    else [log[0]] + LastOnly(log[1..])
  }

  /** Leaving out applications leaves what others wrote, in its order. */
  lemma {:induction false} OthersAreKept(entries: seq<RowMutation>, log: seq<Step>, done: set<nat>)
    requires InRangeOf(entries, log)
    ensures ForeignOf(LastOnly(log)) == ForeignOf(log)
    ensures ForeignOf(TakesEffect(entries, log, done)) == ForeignOf(log)
  {
    if log == [] {
    } else {
      var step := log[0];
      OthersAreKept(entries, log[1..], done);
      OthersAreKept(entries, log[1..], Met(step, done));
      assert ([step] + LastOnly(log[1..]))[1..] == LastOnly(log[1..]);
      var rest := TakesEffect(entries, log[1..], Met(step, done));
      assert ([step] + rest)[1..] == rest;
      hide Times, InRangeOf;
    }
  }

  lemma {:induction false} ServeIsPlay(
    entries: seq<RowMutation>, log: seq<Step>, done: set<nat>, aggregate: Aggregator, loc: Location, v: Value)
    requires InRangeOf(entries, log)
    ensures Serve(entries, log, done, aggregate, loc, v)
         == Play(entries, TakesEffect(entries, log, done), aggregate, loc, v)
  {
    hide StepEffect, Met, Ignored;
    if log == [] {
    } else if Ignored(entries, log[0], done) {
      ServeIsPlay(entries, log[1..], done, aggregate, loc, v);
    } else {
      var next := Met(log[0], done);
      ServeIsPlay(entries, log[1..], next, aggregate, loc, StepEffect(entries, log[0], aggregate, loc, v));
      var kept := TakesEffect(entries, log, done);
      assert kept[1..] == TakesEffect(entries, log[1..], next);
    }
  }

  /** An entry applied more than once is one that may be replayed. */
  ghost predicate RepeatsAreReplayable(entries: seq<RowMutation>, log: seq<Step>) {
    forall i :: 0 <= i < |entries| && Times(log, i) > 1 ==> Replayable(entries[i])
  }

  lemma {:induction false} LastOnlyOnce(log: seq<Step>, index: nat)
    ensures Times(LastOnly(log), index) == if Times(log, index) > 0 then 1 else 0
  {
    if log == [] {
    } else {
      LastOnlyOnce(log[1..], index);
      assert ([log[0]] + LastOnly(log[1..]))[1..] == LastOnly(log[1..]);
    }
  }

  /** The server ignores repeats of tokened entries and nothing else. */
  lemma {:induction false} TakesEffectTimes(entries: seq<RowMutation>, log: seq<Step>, done: set<nat>, index: nat)
    requires InRangeOf(entries, log) && index < |entries|
    ensures var kept := Times(TakesEffect(entries, log, done), index);
      if entries[index].token.None? then kept == Times(log, index)
      else kept == if index in done || Times(log, index) == 0 then 0 else 1
  {
    if log == [] {
    } else if Ignored(entries, log[0], done) {
      TakesEffectTimes(entries, log[1..], done, index);
    } else {
      TakesEffectTimes(entries, log[1..], Met(log[0], done), index);
      var rest := TakesEffect(entries, log[1..], Met(log[0], done));
      assert ([log[0]] + rest)[1..] == rest;
    }
  }

  /** An application may be left out if the entry, which may be replayed, comes again. */
  lemma {:induction false} EarlierMayGo(
    entries: seq<RowMutation>, step: Step, rest: seq<Step>, aggregate: Aggregator, loc: Location, v: Value)
    requires InRangeOf(entries, [step] + rest) && InRangeOf(entries, rest)
    requires ComesAgain(step, rest) && step.index < |entries| && Replayable(entries[step.index])
    ensures Play(entries, rest, aggregate, loc, StepEffect(entries, step, aggregate, loc, v))
         == Play(entries, rest, aggregate, loc, v)
  {
    hide Play, Effect, Overwrites;
    var e := entries[step.index];
    ReplayableEffect(e, step.now, aggregate, loc, v);
    if Overwrites(e.mutations, e.rowKey, loc).Some? {
      LaterOverwriteWins(entries, rest, step.index, aggregate, loc, v, StepEffect(entries, step, aggregate, loc, v));
    }
  }

  /** Leaving out all but the last application of each replayable entry changes no location, whatever others write. */
  lemma {:induction false} LastOnlyPlaysTheSame(
    entries: seq<RowMutation>, log: seq<Step>, aggregate: Aggregator, loc: Location, v: Value)
    requires InRangeOf(entries, log) && RepeatsAreReplayable(entries, log)
    ensures InRangeOf(entries, LastOnly(log))
    ensures Play(entries, LastOnly(log), aggregate, loc, v) == Play(entries, log, aggregate, loc, v)
  {
    hide StepEffect;
    if log == [] {
    } else {
      var step, rest := log[0], log[1..];
      var after := StepEffect(entries, step, aggregate, loc, v);
      assert forall i :: 0 <= i < |entries| && Times(rest, i) > 1 ==> Times(log, i) > 1;
      LastOnlyPlaysTheSame(entries, rest, aggregate, loc, v);
      LastOnlyPlaysTheSame(entries, rest, aggregate, loc, after);
      if ComesAgain(step, rest) {
        assert Times(log, step.index) > 1;
        assert [step] + rest == log;
        EarlierMayGo(entries, step, rest, aggregate, loc, v);
      } else {
        assert ([step] + LastOnly(rest))[1..] == LastOnly(rest);
      }
    }
  }

  // ---------- over a whole bulk mutation ----------

  /** How many requests of a batch carried an entry. */
  function Sends(rounds: seq<Round>, index: nat): nat {
    if rounds == [] then 0 else Sends(Init(rounds), index) + if index in Ids(Last(rounds).sent) then 1 else 0
  }

  function TotalSends(finals: seq<Batch>, index: nat): nat {
    if finals == [] then 0 else TotalSends(Init(finals), index) + Sends(Last(finals).rounds, index)
  }

  /** An entry of a request is the entry the batch began with, but for its attempts. */
  lemma {:induction false} SentComesFrom(sent: seq<PendingEntry>, initial: seq<PendingEntry>, index: nat)
    requires IsSubsequence(Unsent(sent), Unsent(initial)) && index in Ids(sent)
    ensures exists e, k ::
      && e in sent && 0 <= k < |initial|
      && e.originalIndex == index && e.(attempts := 0) == initial[k].(attempts := 0)
  {
    var i :| 0 <= i < |sent| && Ids(sent)[i] == index;
    SubsequenceMembers(Unsent(sent), Unsent(initial));
    assert Unsent(sent)[i] in Unsent(initial);
    var k :| 0 <= k < |initial| && Unsent(initial)[k] == Unsent(sent)[i];
    assert sent[i] in sent;
  }

  /** Safety and index of a batch's entries are those of the bulk mutation. */
  ghost predicate PartOf(initial: seq<PendingEntry>, entries: seq<RowMutation>) {
    forall k :: 0 <= k < |initial| ==>
      initial[k].originalIndex < |entries| && initial[k].retrySafe == IsRetrySafe(entries[initial[k].originalIndex])
  }

  /** Within a batch, an entry that is not retry safe is sent at most once, and a foreign one never. */
  lemma {:induction false} SendsInBatch(
    rounds: seq<Round>, initial: seq<PendingEntry>, entries: seq<RowMutation>, index: nat)
    requires PartOf(initial, entries) && index < |entries|
    requires forall r :: 0 <= r < |rounds| ==> LegalRound(rounds[r], r, initial)
    ensures !IsRetrySafe(entries[index]) ==> Sends(rounds, index) <= 1
    ensures index !in Ids(initial) ==> Sends(rounds, index) == 0
  {
    if rounds == [] {
    } else {
      hide IsSubsequence, IsRetrySafe;
      var r := |rounds| - 1;
      SendsInBatch(Init(rounds), initial, entries, index);
      if index in Ids(rounds[r].sent) {
        SentComesFrom(rounds[r].sent, initial, index);
        var e, k :| e in rounds[r].sent && 0 <= k < |initial| && e.originalIndex == index &&
          e.(attempts := 0) == initial[k].(attempts := 0);
        assert Ids(initial)[k] == index;
        assert r > 0 ==> e.retrySafe;
        if r == 0 {
          assert Sends(Init(rounds), index) == 0;
        }
      }
    }
  }

  lemma {:induction false} NumberedParts(entries: seq<RowMutation>, batches: seq<seq<PendingEntry>>)
    requires forall e :: e in Concat(batches) ==>
      e.originalIndex < |entries| && e.retrySafe == IsRetrySafe(entries[e.originalIndex])
    ensures forall k :: 0 <= k < |batches| ==> PartOf(batches[k], entries)
  {
    hide IsRetrySafe;
    forall k | 0 <= k < |batches| ensures PartOf(batches[k], entries) {
      forall i | 0 <= i < |batches[k]| ensures batches[k][i] in Concat(batches) {
        PartOfConcat(batches, k, batches[k][i]);
      }
    }
  }

  /** Over all batches, an entry that is not retry safe is sent at most once. */
  lemma {:induction false} UnsafeIsSentOnce(
    entries: seq<RowMutation>, batches: seq<seq<PendingEntry>>, finals: seq<Batch>, maxAttempts: nat, index: nat)
    requires index < |entries| && |finals| == |batches|
    requires forall k :: 0 <= k < |batches| ==>
      Conserved(finals[k], batches[k], maxAttempts) && PartOf(batches[k], entries)
    requires Once(multiset(Ids(Concat(batches))))
    ensures !IsRetrySafe(entries[index]) ==> TotalSends(finals, index) <= 1
    ensures index !in Ids(Concat(batches)) ==> TotalSends(finals, index) == 0
  {
    if batches == [] {
    } else {
      var front, last := Init(batches), Last(batches);
      BatchesAreOnce(batches);
      IdsJoin(Concat(front), last);
      hide Once, PartOf, Conserved, IsRetrySafe, Ids, Sends;
      UnsafeIsSentOnce(entries, front, Init(finals), maxAttempts, index);
      LastSends(entries, last, Last(finals), maxAttempts, index);
    }
  }

  lemma {:induction false} LastSends(
    entries: seq<RowMutation>, initial: seq<PendingEntry>, final: Batch, maxAttempts: nat, index: nat)
    requires index < |entries| && Conserved(final, initial, maxAttempts) && PartOf(initial, entries)
    ensures !IsRetrySafe(entries[index]) ==> Sends(final.rounds, index) <= 1
    ensures index !in Ids(initial) ==> Sends(final.rounds, index) == 0
  {
    hide LegalRound, PartOf;
    SendsInBatch(final.rounds, initial, entries, index);
  }

  /**
   * Take any run of a bulk mutation and any log in which no entry is applied more often than it was sent, in any
   * order, at any times and with any writes of others in between. At every location the table ends as if each
   * applied entry had taken effect exactly once, among the same writes of others: a tokened entry when it first
   * arrived, any other when it last did.
   */
  lemma {:induction false} ReplaysAreInvisible(
    entries: seq<RowMutation>, batches: seq<seq<PendingEntry>>, finals: seq<Batch>, maxAttempts: nat,
    log: seq<Step>, aggregate: Aggregator, loc: Location, v: Value)
    requires Ran(entries, batches, finals, maxAttempts)
    requires InRangeOf(entries, log) && forall i: nat :: Times(log, i) <= TotalSends(finals, i)
    ensures var once := LastOnly(TakesEffect(entries, log, {}));
      && InRangeOf(entries, once)
      && Serve(entries, log, {}, aggregate, loc, v) == Play(entries, once, aggregate, loc, v)
      && ForeignOf(once) == ForeignOf(log)
      && forall i :: 0 <= i < |entries| ==> Times(once, i) == if Times(log, i) > 0 then 1 else 0
  {
    var kept := TakesEffect(entries, log, {});
    NumberedIds(entries);
    NumberedMembers(entries);
    NumberedParts(entries, batches);
    hide Ids, Once, PartOf, Conserved, TotalSends, IsRetrySafe, Serve, Play, LastOnly, TakesEffect, Times, ForeignOf;
    forall i | 0 <= i < |entries| && Times(kept, i) > 1 ensures Replayable(entries[i]) {
      TakesEffectTimes(entries, log, {}, i);
      UnsafeIsSentOnce(entries, batches, finals, maxAttempts, i);
    }
    ServeIsPlay(entries, log, {}, aggregate, loc, v);
    LastOnlyPlaysTheSame(entries, kept, aggregate, loc, v);
    OthersAreKept(entries, log, {});
    OthersAreKept(entries, kept, {});
    forall i | 0 <= i < |entries| ensures Times(LastOnly(kept), i) == if Times(log, i) > 0 then 1 else 0 {
      TakesEffectTimes(entries, log, {}, i);
      LastOnlyOnce(kept, i);
    }
  }

  /** The server has applied what it confirmed. */
  ghost predicate ConfirmedWereApplied(finals: seq<Batch>, log: seq<Step>) {
    forall x :: x in Ids(AllConfirmedIn(finals)) ==> Times(log, x) > 0
  }

  /** If every entry is confirmed, so is every index. */
  lemma {:induction false} AllConfirmedMeansEach(
    entries: seq<RowMutation>, batches: seq<seq<PendingEntry>>, finals: seq<Batch>, maxAttempts: nat)
    requires Ran(entries, batches, finals, maxAttempts) && |AllConfirmedIn(finals)| == |entries|
    ensures forall i :: 0 <= i < |entries| ==> i in Ids(AllConfirmedIn(finals))
  {
    hide Conserved, AllConfirmedIn, AllFailures, SumSuccessful, Once;
    BatchesAddUp(batches, finals, maxAttempts);
    NumberedIds(entries);
    var confirmed := Ids(AllConfirmedIn(finals));
    assert |AllFailures(OutcomesOf(finals))| == 0;
    assert FailureIds(AllFailures(OutcomesOf(finals))) == [];
    forall i | 0 <= i < |entries| ensures i in confirmed {
      assert UpTo(|entries|)[i] == i;
      assert i in multiset(UpTo(|entries|));
    }
  }

  /**
   * What a success means for the table: if the report says that the operation is complete, and the server has
   * applied what it confirmed, every location ends as if each of the entries had taken effect exactly once.
   */
  lemma {:induction false} CompleteMeansEachOnce(
    entries: seq<RowMutation>, batches: seq<seq<PendingEntry>>, finals: seq<Batch>, maxAttempts: nat,
    log: seq<Step>, aggregate: Aggregator, loc: Location, v: Value)
    requires Ran(entries, batches, finals, maxAttempts) && Assemble(|entries|, OutcomesOf(finals)).Complete?
    requires InRangeOf(entries, log) && forall i: nat :: Times(log, i) <= TotalSends(finals, i)
    requires ConfirmedWereApplied(finals, log)
    ensures var once := LastOnly(TakesEffect(entries, log, {}));
      && InRangeOf(entries, once)
      && Serve(entries, log, {}, aggregate, loc, v) == Play(entries, once, aggregate, loc, v)
      && ForeignOf(once) == ForeignOf(log)
      && forall i :: 0 <= i < |entries| ==> Times(once, i) == 1
  {
    hide Ran, Assemble, Serve, Play, LastOnly, TakesEffect, Times, ForeignOf, InRangeOf, TotalSends;
    SuccessConfirmsAll(entries, batches, finals, maxAttempts);
    AllConfirmedMeansEach(entries, batches, finals, maxAttempts);
    ReplaysAreInvisible(entries, batches, finals, maxAttempts, log, aggregate, loc, v);
  }

  lemma {:induction false} SuccessConfirmsAll(
    entries: seq<RowMutation>, batches: seq<seq<PendingEntry>>, finals: seq<Batch>, maxAttempts: nat)
    requires Ran(entries, batches, finals, maxAttempts) && Assemble(|entries|, OutcomesOf(finals)).Complete?
    ensures |AllConfirmedIn(finals)| == |entries|
  {
    hide Conserved, AllConfirmedIn, AllFailures, SumSuccessful, SortBy;
    BatchesAddUp(batches, finals, maxAttempts);
    SortKeeps(IndexOf, AllFailures(OutcomesOf(finals)));
    assert |multiset(AllFailures(OutcomesOf(finals)))| == 0;
  }

  lemma {:induction false} NumberedMembers(entries: seq<RowMutation>)
    ensures forall e :: e in Numbered(entries) ==>
      e.originalIndex < |entries| && e.retrySafe == IsRetrySafe(entries[e.originalIndex])
  {
    hide IsRetrySafe;
    forall e | e in Numbered(entries)
      ensures e.originalIndex < |entries| && e.retrySafe == IsRetrySafe(entries[e.originalIndex]) {
      var i :| 0 <= i < |entries| && Numbered(entries)[i] == e;
    }
  }

  /** Applied at `first` and again at `second`, a change leaves something else than applied at `second` only. */
  ghost predicate ReplayShows(
    m: Mutation, row: Bytes, first: int, second: int, aggregate: Aggregator, loc: Location, v: Value) {
    ApplyMutation(m, row, second, aggregate, loc, ApplyMutation(m, row, first, aggregate, loc, v))
    != ApplyMutation(m, row, second, aggregate, loc, v)
  }

  /** Without a token, safety is tight: a change that does something shows its replays exactly if it is not safe. */
  lemma {:induction false} SafetyIsTight(m: Mutation, row: Bytes)
    requires m != Unset
    ensures IsSafe(m, false) <==>
      forall first, second, aggregate, loc, v :: !ReplayShows(m, row, first, second, aggregate, loc, v)
  {
    match m {
      case SetCell(family, qualifier, timestamp, value) =>
        if timestamp == SERVER_TIME {
          assert ReplayShows(m, row, 5, 6, (_, v) => v, Location(row, family, qualifier, 5), None);
        }
      case AddToCell(family, qualifier, timestamp, _) =>
        assert ReplayShows(m, row, 0, 0, Longer, Location(row, family, qualifier, timestamp), None);
      case MergeToCell(family, qualifier, timestamp, _) =>
        assert ReplayShows(m, row, 0, 0, Longer, Location(row, family, qualifier, timestamp), None);
      case _ =>
    }
  }

  /** An aggregate that appends a byte. */
  function Longer(m: Mutation, v: Value): Value { Some(v.GetOr([]) + [0]) }
}
