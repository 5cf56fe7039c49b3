/** The request that continues a broken scan: what it asks for, and that it asks for exactly the rest. */
module Resuming {
  import opened Wrappers
  import opened Keys
  import opened Queries
  import opened Coverage

  predicate StartAtOrBefore(start: Option<StartKey>, key: Bytes) {
    start.None? || !Less(key, start.value.key)
  }

  predicate StartAtOrAfter(start: Option<StartKey>, key: Bytes) {
    start.Some? && !Less(start.value.key, key)
  }

  predicate EndAtOrBefore(end: Option<EndKey>, key: Bytes) {
    end.Some? && !Less(key, end.value.key)
  }

  predicate EndAtOrAfter(end: Option<EndKey>, key: Bytes) {
    end.None? || !Less(end.value.key, key)
  }

  function TrimRange(range: ProtoRange, progress: Bytes, reversed: bool): Option<ProtoRange> {
    if reversed then
      if StartAtOrAfter(range.startKey, progress) then None
      else if EndAtOrAfter(range.endKey, progress) then Some(range.(endKey := Some(EndKeyOpen(progress))))
      else Some(range)
    else
      if EndAtOrBefore(range.endKey, progress) then None
      else if StartAtOrBefore(range.startKey, progress) then Some(range.(startKey := Some(StartKeyOpen(progress))))
      else Some(range)
  }

  function TrimKeys(keys: seq<Bytes>, progress: Bytes, reversed: bool): seq<Bytes> {
    if keys == [] then []
    else (if Precedes(reversed, progress, keys[0]) then [keys[0]] else []) + TrimKeys(keys[1..], progress, reversed)
  }

  function TrimRanges(ranges: seq<ProtoRange>, progress: Bytes, reversed: bool): seq<ProtoRange> {
    if ranges == [] then []
    else
      var rest := TrimRanges(ranges[1..], progress, reversed);
      match TrimRange(ranges[0], progress, reversed)
      case Some(range) => [range] + rest
      case None => rest
  }

  function TrimRowSet(rows: RowSet, progress: Bytes, reversed: bool): Option<RowSet> {
    var result := RowSet(TrimKeys(rows.rowKeys, progress, reversed), TrimRanges(rows.rowRanges, progress, reversed));
    if result.rowKeys == [] && result.rowRanges == [] then None else Some(result)
  }

  const WHOLE_TABLE := RowSet([], [ProtoRange(None, None)])

  function ResumeRequest(
    original: ReadRowsRequest, progress: Option<Bytes>, rowsReturned: nat): Option<ReadRowsRequest> {
    if original.rowsLimit > 0 && rowsReturned >= original.rowsLimit then None
    else
      var request :=
        if original.rowsLimit > 0 then original.(rowsLimit := original.rowsLimit - rowsReturned) else original;
      if progress.None? then Some(request)
      else
        match TrimRowSet(original.rows.GetOr(WHOLE_TABLE), progress.value, original.reversed)
        case Some(rows) => Some(request.(rows := Some(rows)))
        case None => None
  }

  // ---------- one range ----------

  /** The end of the range is absent, or a key the byte comparison can be trusted with. */
  predicate EndsProperly(range: ProtoRange) { range.endKey.None? || range.endKey.value.key != [] }

  ghost predicate KeptBy(range: Option<ProtoRange>, key: Bytes) { range.Some? && InRange(range.value, key) }

  /** The trimmed range holds the keys of the range that lie strictly after the progress key, and no others. */
  ghost predicate TrimsExactly(range: ProtoRange, progress: Bytes, reversed: bool) {
    forall key: Bytes :: key != [] ==>
      (KeptBy(TrimRange(range, progress, reversed), key) <==> InRange(range, key) && Precedes(reversed, progress, key))
  }

  lemma {:induction false} ProperEndTrimsExactly(range: ProtoRange, progress: Bytes, reversed: bool, key: Bytes)
    requires progress != []
    requires EndsProperly(range)
    ensures KeptBy(TrimRange(range, progress, reversed), key) <==>
      InRange(range, key) && Precedes(reversed, progress, key)
  {
    if range.startKey.Some? {
      StrictTotalOrder(range.startKey.value.key, progress, key);
      StrictTotalOrder(key, range.startKey.value.key, progress);
      StrictTotalOrder(progress, range.startKey.value.key, key);
    }
    if range.endKey.Some? {
      StrictTotalOrder(range.endKey.value.key, progress, key);
      StrictTotalOrder(key, range.endKey.value.key, progress);
      StrictTotalOrder(progress, range.endKey.value.key, key);
    }
  }

  /**
   * An empty end key means an unbounded range to the service, but compares below every key.
   * Trimming is exact if and only if the end key is not empty, or the scan is reversed and the range starts
   * at or after the progress key.
   */
  lemma {:induction false} TrimRangeExactness(range: ProtoRange, progress: Bytes, reversed: bool)
    requires progress != []
    ensures TrimsExactly(range, progress, reversed)
      <==> EndsProperly(range) || (reversed && StartAtOrAfter(range.startKey, progress))
  {
    if EndsProperly(range) {
      forall key: Bytes ensures KeptBy(TrimRange(range, progress, reversed), key)
        <==> InRange(range, key) && Precedes(reversed, progress, key) {
        ProperEndTrimsExactly(range, progress, reversed, key);
      }
    } else if reversed && StartAtOrAfter(range.startKey, progress) {
      forall key: Bytes ensures !(InRange(range, key) && Less(key, progress)) {
        StrictTotalOrder(key, progress, range.startKey.value.key);
        StrictTotalOrder(range.startKey.value.key, key, progress);
      }
    } else if reversed {
      LessIrreflexive(progress);
      if range.startKey.Some? {
        StrictTotalOrder(range.startKey.value.key, progress, progress);
      }
      assert KeptBy(TrimRange(range, progress, reversed), progress);
    } else {
      var from := if StartAtOrBefore(range.startKey, progress) then progress else range.startKey.value.key;
      var key := Successor(from);
      LessIrreflexive(from);
      SuccessorIsNext(from, from);
      StrictTotalOrder(progress, from, key);
      StrictTotalOrder(from, key, key);
      if range.startKey.Some? {
        StrictTotalOrder(range.startKey.value.key, from, key);
        StrictTotalOrder(from, range.startKey.value.key, key);
      }
      assert InRange(range, key) && Precedes(reversed, progress, key);
      assert TrimRange(range, progress, reversed).None?;
    }
  }

  /** The forward and the reversed failure, on the range from "a" with an empty exclusive end. */
  lemma {:induction false} EmptyEndDiverges()
    ensures var range := ProtoRange(Some(StartKeyClosed([97])), Some(EndKeyOpen([])));
      && InRange(range, [99]) && TrimRange(range, [98], false) == None
      && !Precedes(true, [98], [99]) && TrimRange(range, [98], true) == Some(range)
  {
    var a: Bytes, b: Bytes, c: Bytes := [97], [98], [99];
    assert Less(a, b) && Less(b, c) && !Less(c, a) && !Less(c, b) && !Less(b, []);
  }

  /**
   * Trimming moves or adds one bound, the one behind the scan, to lie strictly after the progress key, and never past
   * the other bound.
   */
  lemma {:induction false} TrimmingDoesNotInvert(range: ProtoRange, progress: Bytes, reversed: bool)
    ensures match TrimRange(range, progress, reversed)
      case None => true
      case Some(trimmed) =>
        || trimmed == range
        || (&& trimmed == (if reversed then range.(endKey := Some(EndKeyOpen(progress)))
                           else range.(startKey := Some(StartKeyOpen(progress))))
            && (trimmed.startKey.Some? && trimmed.endKey.Some? ==>
                  Less(trimmed.startKey.value.key, trimmed.endKey.value.key)))
  {
  }

  /** Two bounds that are in order stay in order, so that resuming never sends an inverted range. */
  lemma {:induction false} NoInvertedRange(ranges: seq<ProtoRange>, progress: Bytes, reversed: bool)
    requires forall r :: r in ranges ==> !Inverted(r)
    ensures forall r :: r in TrimRanges(ranges, progress, reversed) ==> !Inverted(r)
  {
    if ranges == [] {
    } else {
      hide TrimRange;
      assert ranges[0] in ranges && forall r :: r in ranges[1..] ==> r in ranges;
      NoInvertedRange(ranges[1..], progress, reversed);
      var trimmed := TrimRange(ranges[0], progress, reversed);
      TrimmingDoesNotInvert(ranges[0], progress, reversed);
      if trimmed.Some? && trimmed.value.startKey.Some? && trimmed.value.endKey.Some? {
        var start, end := trimmed.value.startKey.value.key, trimmed.value.endKey.value.key;
        StrictTotalOrder(start, end, end);
      }
      hide Inverted;
    }
  }

  /** The end lies below the start; an empty end is none. */
  predicate Inverted(range: ProtoRange) {
    && range.startKey.Some? && range.endKey.Some?
    && range.endKey.value.key != [] && Less(range.endKey.value.key, range.startKey.value.key)
  }

  // ---------- the whole row set ----------

  lemma {:induction false} TrimKeysExact(keys: seq<Bytes>, progress: Bytes, reversed: bool, key: Bytes)
    ensures key in TrimKeys(keys, progress, reversed) <==> key in keys && Precedes(reversed, progress, key)
  {
    if keys == [] {
    } else {
      TrimKeysExact(keys[1..], progress, reversed, key);
      assert keys == [keys[0]] + keys[1..];
    }
  }

  ghost predicate InSome(ranges: seq<ProtoRange>, key: Bytes) {
    exists i :: 0 <= i < |ranges| && InRange(ranges[i], key)
  }

  lemma {:induction false} InSomeCons(range: ProtoRange, rest: seq<ProtoRange>, key: Bytes)
    ensures InSome([range] + rest, key) <==> InRange(range, key) || InSome(rest, key)
  {
    var all := [range] + rest;
    if InSome(rest, key) {
      var i :| 0 <= i < |rest| && InRange(rest[i], key);
      assert all[i + 1] == rest[i];
    }
    if InSome(all, key) && !InRange(range, key) {
      var i :| 0 <= i < |all| && InRange(all[i], key);
      assert all[i] == rest[i - 1];
    }
    assert all[0] == range;
  }

  /** A range that a reversed scan keeps whole although part of it was passed. */
  predicate StaysWhole(range: ProtoRange, progress: Bytes) {
    !EndsProperly(range) && !StartAtOrAfter(range.startKey, progress)
  }

  function ProperOnes(ranges: seq<ProtoRange>): (proper: seq<ProtoRange>)
    ensures forall range :: range in proper ==> EndsProperly(range)
  {
    if ranges == [] then []
    else (if EndsProperly(ranges[0]) then [ranges[0]] else []) + ProperOnes(ranges[1..])
  }

  ghost predicate InSomeWhole(ranges: seq<ProtoRange>, progress: Bytes, key: Bytes) {
    exists i :: 0 <= i < |ranges| && StaysWhole(ranges[i], progress) && InRange(ranges[i], key)
  }

  lemma {:induction false} InSomeWholeCons(ranges: seq<ProtoRange>, progress: Bytes, key: Bytes)
    requires ranges != []
    ensures InSomeWhole(ranges, progress, key)
      <==> (StaysWhole(ranges[0], progress) && InRange(ranges[0], key)) || InSomeWhole(ranges[1..], progress, key)
  {
    hide StaysWhole, InRange;
    assert forall i :: 0 <= i < |ranges| - 1 ==> ranges[1..][i] == ranges[i + 1];
    if InSomeWhole(ranges[1..], progress, key) {
      var i :| 0 <= i < |ranges| - 1 && StaysWhole(ranges[1..][i], progress) && InRange(ranges[1..][i], key);
      assert StaysWhole(ranges[i + 1], progress);
    }
  }

  /** What trimming leaves of one range. */
  lemma {:induction false} TrimRangeKeeps(range: ProtoRange, progress: Bytes, reversed: bool, key: Bytes)
    requires progress != []
    ensures KeptBy(TrimRange(range, progress, reversed), key) <==>
      if EndsProperly(range) then InRange(range, key) && Precedes(reversed, progress, key)
      else reversed && StaysWhole(range, progress) && InRange(range, key)
  {
    if EndsProperly(range) {
      ProperEndTrimsExactly(range, progress, reversed, key);
    }
  }

  /**
   * What trimming leaves of any list of ranges: of those that end properly the keys after the progress key, and
   * of the others nothing, except that a reversed scan keeps them whole if they start before it.
   */
  lemma {:induction false} TrimRangesExact(ranges: seq<ProtoRange>, progress: Bytes, reversed: bool, key: Bytes)
    requires progress != []
    ensures InSome(TrimRanges(ranges, progress, reversed), key) <==>
      || (InSome(ProperOnes(ranges), key) && Precedes(reversed, progress, key))
      || (reversed && InSomeWhole(ranges, progress, key))
  {
    if ranges == [] {
    } else {
      var range, rest := ranges[0], TrimRanges(ranges[1..], progress, reversed);
      TrimRangesExact(ranges[1..], progress, reversed, key);
      TrimRangeKeeps(range, progress, reversed, key);
      InSomeWholeCons(ranges, progress, key);
      hide InRange, StaysWhole, TrimRange, InSome, InSomeWhole;
      InSomeCons(range, ProperOnes(ranges[1..]), key);
      assert [] + ProperOnes(ranges[1..]) == ProperOnes(ranges[1..]);
      if TrimRange(range, progress, reversed).Some? {
        InSomeCons(TrimRange(range, progress, reversed).value, rest, key);
      }
    }
  }

  ghost predicate InSomeImproper(ranges: seq<ProtoRange>, key: Bytes) {
    exists i :: 0 <= i < |ranges| && !EndsProperly(ranges[i]) && InRange(ranges[i], key)
  }

  /** Every key of the ranges is in one that ends properly or in one that does not. */
  lemma {:induction false} ProperOrNot(ranges: seq<ProtoRange>, key: Bytes)
    ensures InSome(ranges, key) <==> InSome(ProperOnes(ranges), key) || InSomeImproper(ranges, key)
  {
    if ranges == [] {
    } else {
      ProperOrNot(ranges[1..], key);
      hide InRange, EndsProperly, InSome;
      InSomeCons(ranges[0], ProperOnes(ranges[1..]), key);
      InSomeCons(ranges[0], ranges[1..], key);
      assert [] + ProperOnes(ranges[1..]) == ProperOnes(ranges[1..]);
      assert [ranges[0]] + ranges[1..] == ranges;
      assert forall i :: 0 <= i < |ranges| - 1 ==> ranges[1..][i] == ranges[i + 1];
    }
  }

  /** The named keys and the ranges that end properly. */
  function ProperPart(rows: RowSet): RowSet { RowSet(rows.rowKeys, ProperOnes(rows.rowRanges)) }

  /**
   * Whether trimming after the progress key is exact, decided range by range. A range with an empty end must not
   * matter any more: in reverse all of it must have been passed, forwards what is left of it must be held by the
   * named keys and the ranges that end properly.
   */
  predicate TrimsRight(rows: RowSet, progress: Bytes, reversed: bool) {
    forall i :: 0 <= i < |rows.rowRanges| && !EndsProperly(rows.rowRanges[i]) ==>
      if reversed then StartAtOrAfter(rows.rowRanges[i].startKey, progress)
      else HoldsFrom(SpansOf(ProperPart(rows)), Later(SpanOf(rows.rowRanges[i]).start, Successor(progress)))
  }

  ghost predicate KeptByRows(rows: Option<RowSet>, key: Bytes) { rows.Some? && InRowSet(rows.value, key) }

  lemma {:induction false} TrimRowSetKeeps(rows: RowSet, progress: Bytes, reversed: bool, key: Bytes)
    requires progress != []
    ensures KeptByRows(TrimRowSet(rows, progress, reversed), key) <==>
      || (InRowSet(ProperPart(rows), key) && Precedes(reversed, progress, key))
      || (reversed && InSomeWhole(rows.rowRanges, progress, key))
  {
    TrimKeysExact(rows.rowKeys, progress, reversed, key);
    TrimRangesExact(rows.rowRanges, progress, reversed, key);
    var trimmed := RowSet(TrimKeys(rows.rowKeys, progress, reversed), TrimRanges(rows.rowRanges, progress, reversed));
    hide InRange, InSomeWhole;
    assert InRowSet(trimmed, key) <==> key in trimmed.rowKeys || InSome(trimmed.rowRanges, key);
    assert InRowSet(ProperPart(rows), key) <==> key in rows.rowKeys || InSome(ProperOnes(rows.rowRanges), key);
  }

  lemma {:induction false} RowsAreProperOrNot(rows: RowSet, key: Bytes)
    ensures InRowSet(rows, key) <==> InRowSet(ProperPart(rows), key) || InSomeImproper(rows.rowRanges, key)
  {
    hide InRange, EndsProperly;
    ProperOrNot(rows.rowRanges, key);
    assert InRowSet(rows, key) <==> key in rows.rowKeys || InSome(rows.rowRanges, key);
    assert InRowSet(ProperPart(rows), key) <==> key in rows.rowKeys || InSome(ProperOnes(rows.rowRanges), key);
  }

  /** What is left of a range with an empty end after the progress key. */
  lemma {:induction false} RestOfImproper(range: ProtoRange, progress: Bytes, key: Bytes)
    requires !EndsProperly(range)
    ensures InRange(range, key) && Less(progress, key) <==> !Less(key, Later(SpanOf(range).start, Successor(progress)))
  {
    SpanHoldsRange(range, key);
    SuccessorIsNext(progress, key);
    LaterIsBoth(SpanOf(range).start, Successor(progress), key);
  }

  /** Every selected key after the progress key is kept by the ranges that end properly. */
  ghost predicate HoldsRest(rows: RowSet, progress: Bytes) {
    forall key :: InRowSet(rows, key) && Less(progress, key) ==> InRowSet(ProperPart(rows), key)
  }

  lemma {:induction false} ForwardTrimsRight(rows: RowSet, progress: Bytes)
    ensures TrimsRight(rows, progress, false) <==> HoldsRest(rows, progress)
  {
    hide InRange, EndsProperly, SpanOf, Successor, Later, InRowSet, ProperPart, SpansOf;
    var spans := SpansOf(ProperPart(rows));
    forall key ensures InSomeSpan(spans, key) <==> InRowSet(ProperPart(rows), key) {
      SpansHoldRows(ProperPart(rows), key);
    }
    forall key ensures InRowSet(rows, key) <==> InRowSet(ProperPart(rows), key) || InSomeImproper(rows.rowRanges, key) {
      RowsAreProperOrNot(rows, key);
    }
    forall i | 0 <= i < |rows.rowRanges| && !EndsProperly(rows.rowRanges[i])
      ensures HoldsFrom(spans, Later(SpanOf(rows.rowRanges[i]).start, Successor(progress)))
        <==> forall key :: InRange(rows.rowRanges[i], key) && Less(progress, key) ==> InRowSet(ProperPart(rows), key) {
      HoldsFromIsComplete(spans, Later(SpanOf(rows.rowRanges[i]).start, Successor(progress)));
      forall key ensures InRange(rows.rowRanges[i], key) && Less(progress, key)
        <==> !Less(key, Later(SpanOf(rows.rowRanges[i]).start, Successor(progress))) {
        RestOfImproper(rows.rowRanges[i], progress, key);
      }
    }
  }

  /** The trimmed rows are those after the progress key, and no others. */
  ghost predicate KeepsTheRest(rows: RowSet, progress: Bytes, reversed: bool) {
    forall key :: KeptByRows(TrimRowSet(rows, progress, reversed), key) <==>
      InRowSet(rows, key) && Precedes(reversed, progress, key)
  }

  /** A range with an empty end that starts before a key holds the key. */
  lemma {:induction false} WholeHolds(range: ProtoRange, progress: Bytes)
    requires !EndsProperly(range)
    ensures StaysWhole(range, progress) ==> InRange(range, progress)
    ensures !StaysWhole(range, progress) ==> forall key :: InRange(range, key) ==> !Less(key, progress)
  {
    if range.startKey.Some? {
      var start := range.startKey.value.key;
      StrictTotalOrder(start, progress, progress);
      forall key | InRange(range, key) && !Less(start, progress) ensures !Less(key, progress) {
        StrictTotalOrder(start, key, progress);
        StrictTotalOrder(progress, start, key);
      }
    }
  }

  lemma {:induction false} ReversedTrimsRight(rows: RowSet, progress: Bytes)
    requires progress != []
    ensures TrimsRight(rows, progress, true) <==> KeepsTheRest(rows, progress, true)
  {
    hide InRange, EndsProperly, InRowSet, ProperPart, StartAtOrAfter, TrimRowSet;
    forall i | 0 <= i < |rows.rowRanges| && !EndsProperly(rows.rowRanges[i])
      ensures StaysWhole(rows.rowRanges[i], progress) ==> InRange(rows.rowRanges[i], progress)
      ensures !StaysWhole(rows.rowRanges[i], progress) ==>
        forall key :: InRange(rows.rowRanges[i], key) ==> !Less(key, progress) {
      WholeHolds(rows.rowRanges[i], progress);
    }
    forall key ensures KeptByRows(TrimRowSet(rows, progress, true), key) <==>
      (InRowSet(ProperPart(rows), key) && Less(key, progress)) || InSomeWhole(rows.rowRanges, progress, key) {
      TrimRowSetKeeps(rows, progress, true, key);
    }
    forall key ensures InRowSet(rows, key) <==> InRowSet(ProperPart(rows), key) || InSomeImproper(rows.rowRanges, key) {
      RowsAreProperOrNot(rows, key);
    }
    LessIrreflexive(progress);
    if TrimsRight(rows, progress, true) {
      assert forall key :: !InSomeWhole(rows.rowRanges, progress, key);
    } else {
      assert InSomeWhole(rows.rowRanges, progress, progress);
    }
  }

  /** Trimming a row set is exact if and only if the decision says so. */
  lemma {:induction false} TrimRowSetExactness(rows: RowSet, progress: Bytes, reversed: bool)
    requires progress != []
    ensures TrimsRight(rows, progress, reversed) <==> KeepsTheRest(rows, progress, reversed)
  {
    hide InRowSet, ProperPart, TrimRowSet, TrimsRight;
    if reversed {
      ReversedTrimsRight(rows, progress);
    } else {
      ForwardTrimsRight(rows, progress);
      forall key
        ensures KeptByRows(TrimRowSet(rows, progress, false), key) <==>
          InRowSet(ProperPart(rows), key) && Less(progress, key) {
        TrimRowSetKeeps(rows, progress, false, key);
      }
      forall key ensures InRowSet(ProperPart(rows), key) ==> InRowSet(rows, key) {
        RowsAreProperOrNot(rows, key);
      }
    }
  }

  // ---------- the whole request ----------

  /** The row set is not the empty one, which the service takes for the whole table. */
  predicate NamesSomething(request: ReadRowsRequest) {
    request.rows.Some? ==> request.rows.value.rowKeys != [] || request.rows.value.rowRanges != []
  }

  lemma {:induction false} QueriesNameSomething(query: Query)
    ensures NamesSomething(IntoRequest(query))
  {
  }

  function AskedRows(request: ReadRowsRequest): RowSet { request.rows.GetOr(WHOLE_TABLE) }

  lemma {:induction false} AskedRowsSelect(request: ReadRowsRequest, key: Bytes)
    requires NamesSomething(request)
    ensures Selects(request.rows, key) <==> InRowSet(AskedRows(request), key)
  {
    if request.rows.None? {
      assert InRange(WHOLE_TABLE.rowRanges[0], key);
    }
  }

  /** Of this key the resumed request asks if and only if the original did and it lies strictly after the progress. */
  ghost predicate AsksRight(original: ReadRowsRequest, progress: Option<Bytes>, rowsReturned: nat, key: Bytes) {
    var resumed := ResumeRequest(original, progress, rowsReturned);
    var due := Selects(original.rows, key) && !Passed(original.reversed, progress, key);
    if resumed.Some? then Selects(resumed.value.rows, key) <==> due
    else (original.rowsLimit > 0 && rowsReturned >= original.rowsLimit) || !due
  }

  /** A resumed request never becomes a whole-table read, and asks for what is left of the limit, at least one. */
  lemma {:induction false} ResumeKeepsTheLimit(original: ReadRowsRequest, progress: Option<Bytes>, rowsReturned: nat)
    requires NamesSomething(original)
    ensures var resumed := ResumeRequest(original, progress, rowsReturned);
      resumed.Some? ==>
        && NamesSomething(resumed.value)
        && resumed.value.reversed == original.reversed
        && (if original.rowsLimit == 0 then resumed.value.rowsLimit == 0
            else resumed.value.rowsLimit >= 1 && resumed.value.rowsLimit + rowsReturned == original.rowsLimit)
  {
    hide TrimKeys, TrimRanges;
  }

  /** What the resumed request selects, in terms of the trimmed rows. */
  lemma {:induction false} ResumedSelects(original: ReadRowsRequest, progress: Bytes, rowsReturned: nat, key: Bytes)
    requires original.rowsLimit == 0 || rowsReturned < original.rowsLimit
    ensures var resumed := ResumeRequest(original, Some(progress), rowsReturned);
      (resumed.Some? && Selects(resumed.value.rows, key)) <==>
        KeptByRows(TrimRowSet(AskedRows(original), progress, original.reversed), key)
  {
    hide TrimKeys, TrimRanges, InRange;
  }

  /**
   * Resuming is exact if and only if the limit is reached, nothing was passed yet, or trimming is right at the
   * progress key.
   */
  lemma {:induction false} ResumeIsExact(original: ReadRowsRequest, progress: Option<Bytes>, rowsReturned: nat)
    requires NamesSomething(original) && progress != Some([])
    ensures (forall key :: AsksRight(original, progress, rowsReturned, key)) <==>
      || (original.rowsLimit > 0 && rowsReturned >= original.rowsLimit)
      || progress.None? || TrimsRight(AskedRows(original), progress.value, original.reversed)
  {
    hide TrimsRight, TrimRowSet, Selects, InRowSet, AskedRows;
    if progress.Some? && (original.rowsLimit == 0 || rowsReturned < original.rowsLimit) {
      TrimRowSetExactness(AskedRows(original), progress.value, original.reversed);
      hide ResumeRequest;
      var rows := TrimRowSet(AskedRows(original), progress.value, original.reversed);
      forall key ensures AsksRight(original, progress, rowsReturned, key)
        <==> (KeptByRows(rows, key) <==>
          InRowSet(AskedRows(original), key) && Precedes(original.reversed, progress.value, key)) {
        AskedRowsSelect(original, key);
        ResumedSelects(original, progress.value, rowsReturned, key);
      }
    }
  }

  // ---------- requests that may be resumed anywhere ----------

  /**
   * Whether resuming is right wherever an obedient server may have stopped, decided from the request. Forwards it
   * is enough to look at the least selected key, since less and less is left after it.
   */
  predicate Resumable(request: ReadRowsRequest) {
    var rows := AskedRows(request);
    if request.reversed then forall i :: 0 <= i < |rows.rowRanges| ==> EndsProperly(rows.rowRanges[i])
    else
      var least := LeastIn(SpansOf(rows));
      least.Some? ==> TrimsRight(rows, least.value, false)
  }

  lemma {:induction false} RestShrinks(rows: RowSet, p: Bytes, q: Bytes)
    requires HoldsRest(rows, p) && !Less(q, p)
    ensures HoldsRest(rows, q)
  {
    forall key | Less(q, key) ensures Less(p, key) {
      StrictTotalOrder(p, q, key);
    }
  }

  /** A range with an empty end is never empty, and a reversed scan keeps it whole after a key near its start. */
  lemma {:induction false} ImproperIsKept(rows: RowSet, i: nat) returns (key: Bytes)
    requires i < |rows.rowRanges| && !EndsProperly(rows.rowRanges[i])
    ensures key != [] && InRowSet(rows, key) && !StartAtOrAfter(rows.rowRanges[i].startKey, key)
  {
    var start := SpanOf(rows.rowRanges[i]).start;
    key := Successor(start);
    SpanHoldsRange(rows.rowRanges[i], key);
    SuccessorIsNext(start, start);
    SuccessorIsNext(start, key);
    StrictTotalOrder(start, key, key);
    if rows.rowRanges[i].startKey.Some? {
      var bound := rows.rowRanges[i].startKey.value.key;
      SuccessorIsNext(bound, bound);
      StrictTotalOrder(bound, start, key);
      StrictTotalOrder(bound, bound, key);
    }
  }

  /** The decision is right: it says yes if and only if trimming is exact at every selected key. */
  lemma {:induction false} ResumableExactly(request: ReadRowsRequest)
    requires NamesSomething(request)
    ensures Resumable(request) <==>
      forall p :: p != [] && Selects(request.rows, p) ==> TrimsRight(AskedRows(request), p, request.reversed)
  {
    var rows := AskedRows(request);
    hide SpansOf, AskedRows, Selects, LeastIn, InRange, EndsProperly;
    forall key ensures Selects(request.rows, key) <==> InRowSet(rows, key) {
      AskedRowsSelect(request, key);
    }
    if request.reversed {
      if i :| 0 <= i < |rows.rowRanges| && !EndsProperly(rows.rowRanges[i]) {
        var key := ImproperIsKept(rows, i);
        assert !TrimsRight(rows, key, true);
      }
    } else {
      hide InRowSet, TrimsRight;
      LeastInIsLeast(SpansOf(rows));
      forall key ensures InSomeSpan(SpansOf(rows), key) <==> InRowSet(rows, key) {
        SpansHoldRows(rows, key);
      }
      forall p ensures TrimsRight(rows, p, false) <==> HoldsRest(rows, p) {
        ForwardTrimsRight(rows, p);
      }
      var least := LeastIn(SpansOf(rows));
      if least.Some? && HoldsRest(rows, least.value) {
        forall p | p != [] && InRowSet(rows, p) ensures HoldsRest(rows, p) {
          RestShrinks(rows, least.value, p);
        }
      }
    }
  }

  /**
   * Forwards that means: of any two selected keys the later one is named or lies in a range that ends properly. So
   * only the least selected key may depend on a range with an empty end.
   */
  lemma {:induction false} ResumableForwards(request: ReadRowsRequest)
    requires NamesSomething(request) && !request.reversed
    ensures Resumable(request) <==>
      forall p, key :: p != [] && Selects(request.rows, p) && Selects(request.rows, key) && Less(p, key) ==>
        InRowSet(ProperPart(AskedRows(request)), key)
  {
    var rows := AskedRows(request);
    hide Selects, InRowSet, TrimsRight, Resumable, AskedRows, Less;
    ResumableExactly(request);
    forall key ensures Selects(request.rows, key) <==> InRowSet(rows, key) {
      AskedRowsSelect(request, key);
    }
    forall p ensures TrimsRight(rows, p, false) <==> HoldsRest(rows, p) {
      ForwardTrimsRight(rows, p);
    }
  }

  ghost predicate HasEmptyEnd(query: Query) {
    exists i :: 0 <= i < |query.rowRanges| && !query.rowRanges[i].end.Unbounded? && query.rowRanges[i].end.key == []
  }

  /** A query without an empty range end is resumable, and in reverse no other query is. */
  lemma {:induction false} QueriesAreResumable(query: Query)
    ensures !HasEmptyEnd(query) ==> Resumable(IntoRequest(query))
    ensures query.reversed ==> (Resumable(IntoRequest(query)) <==> !HasEmptyEnd(query))
  {
    hide HoldsFrom, LeastIn;
    var request := IntoRequest(query);
    if request.rows.Some? {
      assert forall i :: 0 <= i < |query.rowRanges| ==>
        (EndsProperly(request.rows.value.rowRanges[i]) <==>
          query.rowRanges[i].end.Unbounded? || query.rowRanges[i].end.key != []);
    }
  }
}
