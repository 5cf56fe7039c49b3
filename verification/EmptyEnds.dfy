/**
 * Exactly which queries survive broken streams.
 *
 * The service takes an empty range end for no end. The resume code compares it as a key, below every other key, so a
 * forward read drops the range after its first break and a reversed read asks for the whole range again. Whether
 * that shows is decided from the query: `Resumable` is not only enough for an exact read but also needed.
 */
module EmptyEnds {
  import opened Wrappers
  import opened Keys
  import opened Rows
  import opened Codes
  import opened Queries
  import opened Coverage
  import opened Merging
  import opened Wire
  import opened Resuming
  import opened Scanning
  import opened Reading
  import opened Selection
  import opened Exactness
  import opened Spelling

  /** Against every table, clock and obedient server, the read of the query looks like one uninterrupted scan. */
  ghost predicate AlwaysGood(query: Query, maxAttempts: nat)
    requires maxAttempts > 0
  {
    forall table, clocks, service, rows ::
      IsTable(table) && ObedientService(table, service) && AnswersQuery(rows, table, query) ==>
        Good(Run(Start(IntoRequest(query), maxAttempts), None, clocks, service), rows)
  }

  const NO_DELAY: nat -> Clock := _ => Clock(false, Slept, false)

  // ---------- a stream of one scan marker ----------

  function MarkerAt(key: Bytes): Delivery { Delivery(Message(key, []), 0) }

  function Interrupted(key: Bytes): Answer { Stream([MarkerAt(key)], Broken(Unavailable)) }

  lemma {:induction false} OneMarker(key: Bytes)
    requires key != []
    ensures EventsOf(MarkerAt(key).message) == [Marker(key)] && Flatten([MarkerAt(key)]) == [Marker(key)]
  {
    assert [MarkerAt(key)][1..] == [];
    assert [Marker(key)] + [] == [Marker(key)];
  }

  /** A marked key, and then the rows in plain spelling. */
  function MarkedScript(key: Bytes, rows: seq<Stored>): seq<Item> { [Mark(key)] + PlainScript(rows) }

  lemma {:induction false} MarkedScriptFulfils(request: ReadRowsRequest, key: Bytes, rows: seq<Stored>)
    requires key != [] && Selects(request.rows, key)
    requires forall i :: 0 <= i < |rows| ==>
      rows[i].key != [] && rows[i].cells != [] && Precedes(request.reversed, key, rows[i].key)
    ensures Fulfils(MarkedScript(key, rows), rows, request, None) && [Marker(key)] <= Print(MarkedScript(key, rows))
  {
    hide Selects, Precedes, PlainScript, LastOf, Print;
    PlainScriptFulfils(rows, request, LastOf(None, [Mark(key)]));
    var script := MarkedScript(key, rows);
    assert script[0] == Mark(key) && script[1..] == PlainScript(rows);
    PrintHead(script);
  }

  /** Marking a selected key before all rows, and then breaking, is the beginning of an answer. */
  lemma {:induction false} InterruptedObeys(table: seq<Stored>, request: ReadRowsRequest, key: Bytes)
    requires IsTable(table) && key != [] && Selects(request.rows, key)
    requires forall r :: r in table ==> Precedes(request.reversed, key, r.key)
    ensures Obeys(table, request, Interrupted(key))
  {
    hide Unlimited, Selects, Flatten, Precedes, Print, MarkedScript, Fulfils, IsTable, Scan;
    var rows := Scan(table, request);
    OneMarker(key);
    ScannedRowsHoldCells(table, request);
    MatchingIsStored(table, request);
    MarkedScriptFulfils(request, key, rows);
    var answer := Interrupted(key);
    assert Answers(table, request, MarkedScript(key, rows), Flatten(answer.deliveries), answer.end.Ended?);
  }

  lemma {:induction false} MatchingIsStored(table: seq<Stored>, request: ReadRowsRequest)
    requires IsTable(table)
    ensures forall r :: r in Unlimited(table, request) ==> r in table
  {
    var rows := InDirection(table, request.reversed);
    assert Ordered(request.reversed, rows);
    MatchingIsOrdered(request.reversed, rows, request.rows);
  }

  /** Reading the marker: a new position if it is in order, a violation if not. */
  lemma {:induction false} ServeMarker(op: Op, key: Bytes)
    requires op.machine.at.Between? && key != [] && !LimitReached(op)
    ensures var turn := Serve(op, [MarkerAt(key)], Broken(Unavailable));
      if InOrder(op.machine, key) then
        turn == Again(op.(machine := Machine(op.machine.reversed, Some(key), Between)), Unavailable)
      else turn.Over? && turn.report.ending.Failed? && turn.report.ending.error.InvalidReadRowsResponse?
  {
    OneMarker(key);
    FeedSnoc(op.machine, [], Marker(key));
    assert [] + [Marker(key)] == [Marker(key)];
    assert [MarkerAt(key)][1..] == [];
    assert op.delivered + [] == op.delivered;
  }

  /** The first attempt of a read, interrupted after a marker. */
  lemma {:induction false} FirstAttempt(original: ReadRowsRequest, maxAttempts: nat, service: Service, key: Bytes)
    requires maxAttempts > 0 && key != [] && service(1, original) == Interrupted(key)
    ensures var op := Start(original, maxAttempts);
      Try(op, None, NO_DELAY(0), service)
      == Again(op.(attempts := 1, machine := Machine(original.reversed, Some(key), Between)), Unavailable)
  {
    ServeMarker(Start(original, maxAttempts).(attempts := 1), key);
    hide Serve;
  }

  /** A run whose second attempt ends it. */
  lemma {:induction false} SecondAttemptEnds(original: ReadRowsRequest, maxAttempts: nat, service: Service, key: Bytes)
    requires maxAttempts > 1 && key != [] && service(1, original) == Interrupted(key)
    requires var op :=
      Start(original, maxAttempts).(attempts := 1, machine := Machine(original.reversed, Some(key), Between));
      Try(op, Some(Unavailable), NO_DELAY(1), service).Over?
    ensures var op :=
      Start(original, maxAttempts).(attempts := 1, machine := Machine(original.reversed, Some(key), Between));
      Run(Start(original, maxAttempts), None, NO_DELAY, service)
        == Try(op, Some(Unavailable), NO_DELAY(1), service).report
  {
    FirstAttempt(original, maxAttempts, service, key);
    hide Try;
  }

  /** One run that is not good. */
  lemma {:induction false} NotAlwaysGood(query: Query, maxAttempts: nat, table: seq<Stored>, service: Service)
    requires maxAttempts > 0 && IsTable(table) && ObedientService(table, service)
    requires var original := IntoRequest(query);
      !Good(Run(Start(original, maxAttempts), None, NO_DELAY, service), Scan(table, original))
    ensures !AlwaysGood(query, maxAttempts)
  {
    hide IntoRequest, Run, IsTable, ObedientService, Scan, Good, AnswersQuery;
    ScanAnswersQuery(table, query);
  }

  // ---------- a reversed read that is blamed on the server ----------

  /** Marks one key in every answer that may mark it. */
  function MarkingService(key: Bytes): Service {
    (n, request: ReadRowsRequest) =>
      if Selects(request.rows, key) then Interrupted(key) else Answer.Refused(Unavailable)
  }

  lemma {:induction false} MarkingServiceObeys(key: Bytes)
    requires key != []
    ensures ObedientService([], MarkingService(key))
  {
    forall n: nat, request: ReadRowsRequest ensures Obeys([], request, MarkingService(key)(n, request)) {
      if Selects(request.rows, key) {
        InterruptedObeys([], request, key);
      }
    }
  }

  /** The passed key is selected again. */
  lemma {:induction false} AskedAgain(original: ReadRowsRequest, i: nat, key: Bytes)
    requires NamesSomething(original) && original.reversed && i < |AskedRows(original).rowRanges| && key != []
    requires StaysWhole(AskedRows(original).rowRanges[i], key)
    ensures var resumed := ResumeRequest(original, Some(key), 0); resumed.Some? && Selects(resumed.value.rows, key)
  {
    assert !EndsProperly(AskedRows(original).rowRanges[i]);
    hide StaysWhole, InRange, ResumeRequest, TrimRowSet;
    WholeHolds(AskedRows(original).rowRanges[i], key);
    TrimRowSetKeeps(AskedRows(original), key, true, key);
    ResumedSelects(original, key, 0, key);
  }

  /** The second marker comes at the position already reached. */
  lemma {:induction false} MarkingRun(original: ReadRowsRequest, maxAttempts: nat, key: Bytes)
    requires maxAttempts > 1 && key != [] && Selects(original.rows, key)
    requires var resumed := ResumeRequest(original, Some(key), 0); resumed.Some? && Selects(resumed.value.rows, key)
    ensures var report := Run(Start(original, maxAttempts), None, NO_DELAY, MarkingService(key));
      report.ending.Failed? && report.ending.error.InvalidReadRowsResponse?
  {
    var service := MarkingService(key);
    hide Selects, Run, ResumeRequest, Serve, Precedes;
    var op := Start(original, maxAttempts).(attempts := 1, machine := Machine(original.reversed, Some(key), Between));
    PrecedesIrreflexive(original.reversed, key);
    ServeMarker(op.(attempts := 2), key);
    var turn := Try(op, Some(Unavailable), NO_DELAY(1), service);
    assert turn.Over? && turn.report.ending.Failed? && turn.report.ending.error.InvalidReadRowsResponse?;
    SecondAttemptEnds(original, maxAttempts, service, key);
  }

  lemma {:induction false} PrecedesIrreflexive(reversed: bool, key: Bytes)
    ensures !Precedes(reversed, key, key)
  {
    LessIrreflexive(key);
  }

  lemma {:induction false} ReversedIsBlamed(query: Query, maxAttempts: nat)
    requires query.reversed && maxAttempts > 1 && !Resumable(IntoRequest(query))
    ensures !AlwaysGood(query, maxAttempts)
  {
    var original := IntoRequest(query);
    QueriesNameSomething(query);
    assert original.reversed;
    hide IntoRequest, Run, Selects, InRange, EndsProperly, StartAtOrAfter, ObedientService, ResumeRequest;
    hide MarkingService, Scan, AlwaysGood;
    var i :| 0 <= i < |AskedRows(original).rowRanges| && !EndsProperly(AskedRows(original).rowRanges[i]);
    var key := ImproperIsKept(AskedRows(original), i);
    AskedRowsSelect(original, key);
    MarkingServiceObeys(key);
    AskedAgain(original, i, key);
    MarkingRun(original, maxAttempts, key);
    assert IsTable([]);
    NotAlwaysGood(query, maxAttempts, [], MarkingService(key));
  }

  // ---------- a forward read that loses a row ----------

  function OneRow(key: Bytes): seq<Stored> { [Stored(key, [Placed("", [], Cell(0, [], []))])] }

  /** Marks a key in the original answer; answers in full what does not ask for the row. */
  function LosingService(original: ReadRowsRequest, marked: Bytes, lost: Bytes): Service {
    (n, request) =>
      if request == original then Interrupted(marked)
      else if Selects(request.rows, lost) then Answer.Refused(Unavailable)
      else Stream([], Ended)
  }

  lemma {:induction false} ScanOfOneRow(key: Bytes, request: ReadRowsRequest)
    ensures Selects(request.rows, key) <==> Scan(OneRow(key), request) != []
  {
    hide Selects;
    var rows := InDirection(OneRow(key), request.reversed);
    assert rows == OneRow(key) && rows[1..] == [];
    assert Matching(rows[1..], request.rows) == [];
    assert [rows[0]] + [] == OneRow(key);
  }

  lemma {:induction false} LosingServiceObeys(original: ReadRowsRequest, marked: Bytes, lost: Bytes)
    requires !original.reversed && marked != [] && lost != [] && Less(marked, lost)
    requires Selects(original.rows, marked) && Selects(original.rows, lost)
    ensures IsTable(OneRow(lost)) && ObedientService(OneRow(lost), LosingService(original, marked, lost))
  {
    InterruptedObeys(OneRow(lost), original, marked);
    hide Selects, Less, Scan;
    forall n: nat, request: ReadRowsRequest
      ensures Obeys(OneRow(lost), request, LosingService(original, marked, lost)(n, request)) {
      if request != original && !Selects(request.rows, lost) {
        ScanOfOneRow(lost, request);
        var answer := LosingService(original, marked, lost)(n, request);
        assert Answers(OneRow(lost), request, [], Flatten(answer.deliveries), answer.end.Ended?);
      }
    }
  }

  /** A key that was due and is not asked for any more. */
  lemma {:induction false} LostKey(original: ReadRowsRequest) returns (marked: Bytes, lost: Bytes)
    requires NamesSomething(original) && !original.reversed && !Resumable(original)
    ensures marked != [] && lost != [] && Less(marked, lost)
    ensures Selects(original.rows, marked) && Selects(original.rows, lost)
    ensures var resumed := ResumeRequest(original, Some(marked), 0);
      resumed.Some? ==> !Selects(resumed.value.rows, lost)
  {
    hide Selects, TrimsRight, InRowSet, AskedRows, ResumeRequest, SpansOf, TrimRowSet;
    var rows := AskedRows(original);
    LeastInIsLeast(SpansOf(rows));
    marked := LeastIn(SpansOf(rows)).value;
    SpansHoldRows(rows, marked);
    ForwardTrimsRight(rows, marked);
    lost :| InRowSet(rows, lost) && Less(marked, lost) && !InRowSet(ProperPart(rows), lost);
    AskedRowsSelect(original, marked);
    AskedRowsSelect(original, lost);
    TrimRowSetKeeps(rows, marked, false, lost);
    ResumedSelects(original, marked, 0, lost);
  }

  /** After the break nothing more is asked for, or nothing more is sent. */
  lemma {:induction false} LosingRun(original: ReadRowsRequest, maxAttempts: nat, marked: Bytes, lost: Bytes)
    requires maxAttempts > 1 && marked != [] && Selects(original.rows, lost)
    requires var resumed := ResumeRequest(original, Some(marked), 0);
      resumed.Some? ==> !Selects(resumed.value.rows, lost)
    ensures var report := Run(Start(original, maxAttempts), None, NO_DELAY, LosingService(original, marked, lost));
      report.ending.Finished? && report.delivered == []
  {
    hide Selects, Run, ResumeRequest;
    var service := LosingService(original, marked, lost);
    var op := Start(original, maxAttempts).(attempts := 1,
      machine := Machine(original.reversed, Some(marked), Between));
    var turn := Try(op, Some(Unavailable), NO_DELAY(1), service);
    assert turn.Over? && turn.report.ending.Finished? && turn.report.delivered == [];
    SecondAttemptEnds(original, maxAttempts, service, marked);
  }

  lemma {:induction false} ForwardLosesRow(query: Query, maxAttempts: nat)
    requires !query.reversed && maxAttempts > 1 && !Resumable(IntoRequest(query))
    ensures !AlwaysGood(query, maxAttempts)
  {
    var original := IntoRequest(query);
    QueriesNameSomething(query);
    assert !original.reversed;
    hide IntoRequest, Run, Selects, Resumable, ObedientService, ResumeRequest, Scan, OneRow, Less, NamesSomething;
    hide LosingService, IsTable, AlwaysGood;
    var marked, lost := LostKey(original);
    LosingServiceObeys(original, marked, lost);
    ScanOfOneRow(lost, original);
    LosingRun(original, maxAttempts, marked, lost);
    var report := Run(Start(original, maxAttempts), None, NO_DELAY, LosingService(original, marked, lost));
    EmptyReportIsNotGood(report, Scan(OneRow(lost), original));
    NotAlwaysGood(query, maxAttempts, OneRow(lost), LosingService(original, marked, lost));
  }

  lemma {:induction false} EmptyReportIsNotGood(report: Report, rows: seq<Stored>)
    requires report.ending.Finished? && report.delivered == [] && rows != []
    ensures !Good(report, rows)
  {
  }

  // ---------- the exact condition ----------

  /**
   * For every query, in both directions, with any keys, ranges and limit: its reads look like one uninterrupted scan
   * against all obedient servers if and only if there is a single attempt, or the request is resumable.
   */
  lemma {:induction false} AlwaysGoodIffResumable(query: Query, maxAttempts: nat)
    requires maxAttempts > 0
    ensures AlwaysGood(query, maxAttempts) <==> maxAttempts == 1 || Resumable(IntoRequest(query))
  {
    hide Run, IntoRequest, IsTable, ObedientService, Good, Resumable, AnswersQuery;
    if maxAttempts == 1 || Resumable(IntoRequest(query)) {
      forall table, clocks, service, rows
        | IsTable(table) && ObedientService(table, service) && AnswersQuery(rows, table, query)
        ensures Good(Run(Start(IntoRequest(query), maxAttempts), None, clocks, service), rows) {
        BrokenStreamsReadAsOneScan(table, query, maxAttempts, clocks, service, rows);
      }
    } else if query.reversed {
      ReversedIsBlamed(query, maxAttempts);
    } else {
      ForwardLosesRow(query, maxAttempts);
    }
  }

  /** Reversed, an empty range end always shows; forwards, a query without one is always safe. */
  lemma {:induction false} EmptyEndsDecideReversedReads(query: Query, maxAttempts: nat)
    requires maxAttempts > 1
    ensures !HasEmptyEnd(query) ==> AlwaysGood(query, maxAttempts)
    ensures query.reversed ==> (AlwaysGood(query, maxAttempts) <==> !HasEmptyEnd(query))
  {
    hide Resumable, HasEmptyEnd, AlwaysGood, IntoRequest;
    AlwaysGoodIffResumable(query, maxAttempts);
    QueriesAreResumable(query);
  }

  /** A lone range with an empty end always shows. */
  lemma {:induction false} LoneEmptyEndShows(range: RowRange, limit: Option<nat>, reversed: bool)
    requires !EndsProperly(ToProto(range))
    ensures !Resumable(IntoRequest(Query([], [range], limit, reversed)))
  {
    var rows := AskedRows(IntoRequest(Query([], [range], limit, reversed)));
    assert rows == RowSet([], [ToProto(range)]);
    assert !EndsProperly(rows.rowRanges[0]);
    if !reversed {
      assert ProperOnes(rows.rowRanges[1..]) == [];
      assert SpansOf(ProperPart(rows)) == [];
      hide InRange, SpanOf, LeastIn;
      var key := ImproperIsKept(rows, 0);
      SpansHoldRows(rows, key);
      LeastInIsLeast(SpansOf(rows));
      assert LeastIn(SpansOf(rows)).Some?;
      assert !HoldsFrom([], Later(SpanOf(rows.rowRanges[0]).start, Successor(LeastIn(SpansOf(rows)).value)));
    }
  }

  /** Beside a range of the whole table it does not show in a forward read. */
  lemma {:induction false} CoveredEmptyEndIsHarmless(range: RowRange, limit: Option<nat>)
    requires !EndsProperly(ToProto(range))
    ensures Resumable(IntoRequest(Query([], [range, RowRange(Unbounded, Unbounded)], limit, false)))
  {
    var rows, whole :=
      AskedRows(IntoRequest(Query([], [range, RowRange(Unbounded, Unbounded)], limit, false))), ProtoRange(None, None);
    assert rows == RowSet([], [ToProto(range), whole]);
    hide InRange, LeastIn;
    assert rows.rowRanges[1..] == [whole] && [whole][1..] == [];
    assert ProperOnes(rows.rowRanges[1..]) == [whole];
    assert SpansOf(ProperPart(rows)) == [Span([], None)];
  }
}
