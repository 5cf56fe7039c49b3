/** Row mutations and when one may be sent again. */
module Mutations {
  import opened Wrappers
  import opened Keys

  datatype TimestampRange = TimestampRange(start: int, end: int)

  datatype Mutation =
    | Unset
    | SetCell(family: string, qualifier: Bytes, timestamp: int, value: Bytes)
    | DeleteFromColumn(family: string, qualifier: Bytes, range: Option<TimestampRange>)
    | DeleteFromFamily(family: string)
    | DeleteFromRow
    | AddToCell(family: string, qualifier: Bytes, timestamp: int, input: Bytes)
    | MergeToCell(family: string, qualifier: Bytes, timestamp: int, input: Bytes)

  /** One entry; `encodedLen` is the length of its protobuf message. */
  datatype RowMutation = RowMutation(rowKey: Bytes, mutations: seq<Mutation>, token: Option<Bytes>, encodedLen: nat)

  const SERVER_TIME := -1

  const MAX_MUTATIONS: nat := 100_000

  predicate IsSafe(m: Mutation, hasToken: bool) {
    match m
    case SetCell(_, _, timestamp, _) => timestamp != SERVER_TIME
    case DeleteFromColumn(_, _, _) => true
    case DeleteFromFamily(_) => true
    case DeleteFromRow => true
    case AddToCell(_, _, _, _) => hasToken
    case MergeToCell(_, _, _, _) => hasToken
    case Unset => false
  }

  predicate IsRetrySafe(row: RowMutation) {
    forall i :: 0 <= i < |row.mutations| ==> IsSafe(row.mutations[i], row.token.Some?)
  }

  const MAX_ROW_KEY_BYTES: nat := 4096

  const MIN_TOKEN_BYTES: nat := 8

  /**
   * Which changes are safe, one by one: deletions and cells with a timestamp always, aggregates with a token only,
   * cells at server time and changes without an operation never.
   */
  lemma {:induction false} SafetyByKind(m: Mutation, hasToken: bool)
    ensures m.DeleteFromColumn? || m.DeleteFromFamily? || m.DeleteFromRow? ==> IsSafe(m, hasToken)
    ensures m.SetCell? ==> (IsSafe(m, hasToken) <==> m.timestamp != -1)
    ensures m.AddToCell? || m.MergeToCell? ==> (IsSafe(m, hasToken) <==> hasToken)
    ensures m.Unset? ==> !IsSafe(m, hasToken)
    ensures IsSafe(m, true) != IsSafe(m, false) <==> m.AddToCell? || m.MergeToCell?
  {
  }

  datatype MutationIssue = EmptyRowKey | RowKeyTooLong | TooManyMutations | IdempotencyTokenTooShort

  /** A row mutation without changes; `encodedLen` is its length so far. */
  function NewRow(rowKey: Bytes, encodedLen: nat): Result<RowMutation, MutationIssue> {
    if rowKey == [] then Failure(EmptyRowKey)
    else if |rowKey| > MAX_ROW_KEY_BYTES then Failure(RowKeyTooLong)
    else Success(RowMutation(rowKey, [], None, encodedLen))
  }

  /** Appends one change, up to the service limit; `encodedLen` is the length with it. */
  function Append(row: RowMutation, m: Mutation, encodedLen: nat): Result<RowMutation, MutationIssue> {
    if |row.mutations| == MAX_MUTATIONS then Failure(TooManyMutations)
    else Success(row.(mutations := row.mutations + [m], encodedLen := encodedLen))
  }

  function WithToken(row: RowMutation, token: Bytes, encodedLen: nat): Result<RowMutation, MutationIssue> {
    if |token| < MIN_TOKEN_BYTES then Failure(IdempotencyTokenTooShort)
    else Success(row.(token := Some(token), encodedLen := encodedLen))
  }

  /** A call of the builder. */
  datatype Call = AddChange(m: Mutation, encodedLen: nat) | AddToken(token: Bytes, encodedLen: nat)

  function Apply(row: RowMutation, call: Call): Result<RowMutation, MutationIssue> {
    match call
    case AddChange(m, encodedLen) => Append(row, m, encodedLen)
    case AddToken(token, encodedLen) => WithToken(row, token, encodedLen)
  }

  function Build(row: RowMutation, calls: seq<Call>): Result<RowMutation, MutationIssue>
    decreases |calls|
  {
    if calls == [] then Success(row)
    else
      match Apply(row, calls[0])
      case Failure(issue) => Failure(issue)
      case Success(next) => Build(next, calls[1..])
  }

  /** A row that a caller can have: there is no way around the builder. */
  ghost predicate Buildable(row: RowMutation) {
    exists key: Bytes, len: nat, calls ::
      NewRow(key, len).Success? && Build(NewRow(key, len).value, calls) == Success(row)
  }

  function ChangeOf(call: Call): seq<Mutation> { if call.AddChange? then [call.m] else [] }

  function ChangesOf(calls: seq<Call>): seq<Mutation> {
    if calls == [] then [] else ChangeOf(calls[0]) + ChangesOf(calls[1..])
  }

  /** The token given last, or the one there was. */
  function TokenAfter(token: Option<Bytes>, calls: seq<Call>): Option<Bytes>
    decreases |calls|
  {
    if calls == [] then token
    else TokenAfter(if calls[0].AddToken? then Some(calls[0].token) else token, calls[1..])
  }

  ghost predicate TokensAreLong(calls: seq<Call>) {
    forall i :: 0 <= i < |calls| && calls[i].AddToken? ==> |calls[i].token| >= 8
  }

  lemma {:induction false} ApplySucceeds(row: RowMutation, call: Call)
    requires |row.mutations| <= 100_000
    ensures var r := Apply(row, call);
      && (r.Success? <==> |row.mutations| + |ChangeOf(call)| <= 100_000 && (call.AddToken? ==> |call.token| >= 8))
      && (r.Success? ==>
            && r.value.rowKey == row.rowKey && r.value.mutations == row.mutations + ChangeOf(call)
            && r.value.token == if call.AddToken? then Some(call.token) else row.token)
  {
  }

  /** The builder succeeds exactly within its limits, and then holds the changes in order and the last token. */
  lemma {:induction false} BuildKeepsTheLimit(row: RowMutation, calls: seq<Call>)
    requires |row.mutations| <= 100_000
    ensures var r := Build(row, calls);
      && (r.Success? <==> |row.mutations| + |ChangesOf(calls)| <= 100_000 && TokensAreLong(calls))
      && (r.Success? ==>
            && r.value.rowKey == row.rowKey && r.value.mutations == row.mutations + ChangesOf(calls)
            && r.value.token == TokenAfter(row.token, calls))
    decreases |calls|
  {
    hide Apply, ChangeOf;
    if calls == [] {
    } else {
      ApplySucceeds(row, calls[0]);
      TokensOneByOne(calls);
      hide TokensAreLong;
      var next := Apply(row, calls[0]);
      if next.Success? {
        BuildKeepsTheLimit(next.value, calls[1..]);
      }
    }
  }

  lemma {:induction false} TokensOneByOne(calls: seq<Call>)
    requires calls != []
    ensures TokensAreLong(calls) <==> (calls[0].AddToken? ==> |calls[0].token| >= 8) && TokensAreLong(calls[1..])
  {
    assert forall i :: 0 < i < |calls| ==> calls[i] == calls[1..][i - 1];
  }

  /** Whatever a caller does with the builder. */
  lemma {:induction false} BuildableIsBounded(row: RowMutation)
    requires Buildable(row)
    ensures 0 < |row.rowKey| <= 4096 && |row.mutations| <= 100_000
  {
    var key: Bytes, len: nat, calls :|
      NewRow(key, len).Success? && Build(NewRow(key, len).value, calls) == Success(row);
    BuildKeepsTheLimit(NewRow(key, len).value, calls);
  }

  /** Safety is decided change by change, so an appended change matters only by itself. */
  lemma {:induction false} AppendSafety(row: RowMutation, m: Mutation, encodedLen: nat)
    requires |row.mutations| <= MAX_MUTATIONS
    ensures var r := Append(row, m, encodedLen);
      && (r.Failure? <==> |row.mutations| == MAX_MUTATIONS)
      && (r.Success? ==>
            && |r.value.mutations| <= MAX_MUTATIONS
            && (IsRetrySafe(r.value) <==> IsRetrySafe(row) && IsSafe(m, row.token.Some?)))
  {
    var r := Append(row, m, encodedLen);
    if r.Success? {
      assert forall i :: 0 <= i < |row.mutations| ==> r.value.mutations[i] == row.mutations[i];
      assert r.value.mutations[|row.mutations|] == m;
    }
  }
}
