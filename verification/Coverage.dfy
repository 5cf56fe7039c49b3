/** Which keys a row set holds, decided from its bounds: whether it holds all from some key on, and its least key. */
module Coverage {
  import opened Wrappers
  import opened Keys
  import opened Queries

  /** The next key: nothing lies between the two. */
  function Successor(key: Bytes): Bytes { key + [0] }

  function Later(a: Bytes, b: Bytes): Bytes { if Less(a, b) then b else a }

  lemma {:induction false} SuccessorIsNext(a: Bytes, key: Bytes)
    ensures Less(key, Successor(a)) <==> !Less(a, key)
  {
    if a == [] || key == [] {
    } else {
      SuccessorIsNext(a[1..], key[1..]);
      assert Successor(a)[1..] == Successor(a[1..]);
    }
  }

  lemma {:induction false} LaterIsBoth(a: Bytes, b: Bytes, key: Bytes)
    ensures !Less(key, Later(a, b)) <==> !Less(key, a) && !Less(key, b)
  {
    StrictTotalOrder(a, b, key);
    StrictTotalOrder(b, a, key);
  }

  /** The keys from `start` up to but not including `end`. */
  datatype Span = Span(start: Bytes, end: Option<Bytes>)

  predicate InSpan(span: Span, key: Bytes) {
    !Less(key, span.start) && (span.end.Some? ==> Less(key, span.end.value))
  }

  ghost predicate InSomeSpan(spans: seq<Span>, key: Bytes) {
    exists i :: 0 <= i < |spans| && InSpan(spans[i], key)
  }

  /** A range as a span. An empty end is no end. */
  function SpanOf(range: ProtoRange): Span {
    Span(
      match range.startKey
      case None => []
      case Some(StartKeyClosed(key)) => key
      case Some(StartKeyOpen(key)) => Successor(key),
      match range.endKey
      case None => None
      case Some(EndKeyOpen(key)) => if key == [] then None else Some(key)
      case Some(EndKeyClosed(key)) => if key == [] then None else Some(Successor(key)))
  }

  function SpansOf(rows: RowSet): (spans: seq<Span>)
    ensures |spans| == |rows.rowKeys| + |rows.rowRanges|
    ensures forall i :: 0 <= i < |rows.rowKeys| ==> spans[i] == Span(rows.rowKeys[i], Some(Successor(rows.rowKeys[i])))
    ensures forall i :: 0 <= i < |rows.rowRanges| ==> spans[|rows.rowKeys| + i] == SpanOf(rows.rowRanges[i])
  {
    seq(|rows.rowKeys|, i requires 0 <= i < |rows.rowKeys| => Span(rows.rowKeys[i], Some(Successor(rows.rowKeys[i]))))
    + seq(|rows.rowRanges|, i requires 0 <= i < |rows.rowRanges| => SpanOf(rows.rowRanges[i]))
  }

  lemma {:induction false} SpanHoldsRange(range: ProtoRange, key: Bytes)
    ensures InSpan(SpanOf(range), key) <==> InRange(range, key)
  {
    if range.startKey.Some? {
      SuccessorIsNext(range.startKey.value.key, key);
    }
    if range.endKey.Some? {
      SuccessorIsNext(range.endKey.value.key, key);
    }
  }

  lemma {:induction false} SpanHoldsKey(named: Bytes, key: Bytes)
    ensures InSpan(Span(named, Some(Successor(named))), key) <==> key == named
  {
    SuccessorIsNext(named, key);
    StrictTotalOrder(named, key, key);
  }

  lemma {:induction false} SpansHoldRows(rows: RowSet, key: Bytes)
    ensures InSomeSpan(SpansOf(rows), key) <==> InRowSet(rows, key)
  {
    var spans, n := SpansOf(rows), |rows.rowKeys|;
    hide InSpan, InRange, SpanOf;
    forall i | 0 <= i < n ensures InSpan(spans[i], key) <==> key == rows.rowKeys[i] {
      SpanHoldsKey(rows.rowKeys[i], key);
    }
    forall i | 0 <= i < |rows.rowRanges| ensures InSpan(spans[n + i], key) <==> InRange(rows.rowRanges[i], key) {
      SpanHoldsRange(rows.rowRanges[i], key);
    }
    if InSomeSpan(spans, key) {
      var i :| 0 <= i < |spans| && InSpan(spans[i], key);
      if i >= n {
        assert InRange(rows.rowRanges[i - n], key);
      }
    }
  }

  // ---------- all keys from here on ----------

  /** The first span that holds the key, or none. */
  function Holding(spans: seq<Span>, key: Bytes): (i: nat)
    ensures i <= |spans|
    ensures i < |spans| ==> InSpan(spans[i], key)
    ensures i == |spans| ==> !InSomeSpan(spans, key)
  {
    if spans == [] then 0
    else if InSpan(spans[0], key) then 0
    else
      var i := Holding(spans[1..], key);
      assert spans == [spans[0]] + spans[1..];
      assert forall k :: 1 <= k < |spans| ==> spans[k] == spans[1..][k - 1];
      i + 1
  }

  /** Walks from one span that holds the key to the next. */
  predicate HoldsFrom(spans: seq<Span>, from: Bytes)
    decreases |spans|
  {
    var i := Holding(spans, from);
    i < |spans| && (spans[i].end.None? || HoldsFrom(spans[..i] + spans[i + 1..], spans[i].end.value))
  }

  lemma {:induction false} InSomeOther(spans: seq<Span>, i: nat, key: Bytes)
    requires i < |spans|
    ensures InSomeSpan(spans, key) <==> InSpan(spans[i], key) || InSomeSpan(spans[..i] + spans[i + 1..], key)
  {
    hide InSpan;
    var rest := spans[..i] + spans[i + 1..];
    if InSomeSpan(spans, key) && !InSpan(spans[i], key) {
      var k :| 0 <= k < |spans| && InSpan(spans[k], key);
      assert rest[if k < i then k else k - 1] == spans[k];
    }
    if InSomeSpan(rest, key) {
      var k :| 0 <= k < |rest| && InSpan(rest[k], key);
      assert spans[if k < i then k else k + 1] == rest[k];
    }
  }

  /** The walk succeeds if and only if no key from here on is left out. */
  lemma {:induction false} HoldsFromIsComplete(spans: seq<Span>, from: Bytes)
    ensures HoldsFrom(spans, from) <==> forall key :: !Less(key, from) ==> InSomeSpan(spans, key)
    decreases |spans|
  {
    hide InSomeSpan;
    var i := Holding(spans, from);
    LessIrreflexive(from);
    if i == |spans| {
      assert !InSomeSpan(spans, from);
    } else {
      var span, rest := spans[i], spans[..i] + spans[i + 1..];
      forall key ensures InSomeSpan(spans, key) <==> InSpan(span, key) || InSomeSpan(rest, key) {
        InSomeOther(spans, i, key);
      }
      forall key: Bytes | !Less(key, from) ensures !Less(key, span.start) {
        StrictTotalOrder(span.start, from, key);
      }
      if span.end.Some? {
        HoldsFromIsComplete(rest, span.end.value);
        forall key: Bytes | !Less(key, span.end.value) ensures !Less(key, from) {
          StrictTotalOrder(from, span.end.value, key);
        }
      }
    }
  }

  // ---------- the least key ----------

  /** The least key, other than the empty one, that some span holds. */
  function LeastIn(spans: seq<Span>): Option<Bytes> {
    if spans == [] then None
    else
      var first, rest := Later(spans[0].start, [0]), LeastIn(spans[1..]);
      if InSpan(spans[0], first) && (rest.None? || Less(first, rest.value)) then Some(first) else rest
  }

  lemma {:induction false} LeastOfSpan(span: Span, key: Bytes)
    requires key != [] && InSpan(span, key)
    ensures var first := Later(span.start, [0]); InSpan(span, first) && !Less(key, first)
  {
    var first := Later(span.start, [0]);
    SuccessorIsNext([], key);
    LaterIsBoth(span.start, [0], key);
    LaterIsBoth(span.start, [0], first);
    LessIrreflexive(first);
    if span.end.Some? {
      StrictTotalOrder(first, key, span.end.value);
    }
  }

  lemma {:induction false} LeastInIsLeast(spans: seq<Span>)
    ensures match LeastIn(spans)
      case None => forall key :: key != [] ==> !InSomeSpan(spans, key)
      case Some(least) =>
        && least != [] && InSomeSpan(spans, least)
        && forall key :: key != [] && InSomeSpan(spans, key) ==> !Less(key, least)
  {
    if spans == [] {
    } else {
      hide InSomeSpan;
      var first, rest := Later(spans[0].start, [0]), LeastIn(spans[1..]);
      LeastInIsLeast(spans[1..]);
      assert spans[..0] + spans[1..] == spans[1..];
      forall key: Bytes ensures InSomeSpan(spans, key) <==> InSpan(spans[0], key) || InSomeSpan(spans[1..], key) {
        InSomeOther(spans, 0, key);
      }
      forall key: Bytes | key != [] && InSpan(spans[0], key) ensures InSpan(spans[0], first) && !Less(key, first) {
        LeastOfSpan(spans[0], key);
      }
      if rest.Some? {
        forall key: Bytes
          ensures Less(first, rest.value) && !Less(key, rest.value) ==> !Less(key, first)
          ensures !Less(first, rest.value) && !Less(key, first) ==> !Less(key, rest.value) {
          StrictTotalOrder(first, rest.value, key);
          StrictTotalOrder(rest.value, first, key);
        }
      }
    }
  }
}
