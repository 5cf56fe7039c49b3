/**
 * What a query asks for, said of the query itself: which keys its bounds admit, in which order, and how many.
 *
 * The request it is sent as, and what the service makes of that request, come in only where the two are compared.
 */
module Selection {
  import opened Wrappers
  import opened Keys
  import opened Rows
  import opened Queries
  import opened Scanning

  predicate AdmittedByStart(bound: RowBound, key: Bytes) {
    match bound
    case Unbounded => true
    case Inclusive(start) => key == start || Less(start, key)
    case Exclusive(start) => Less(start, key)
  }

  /** The service takes an empty end key for no end. */
  predicate AdmittedByEnd(bound: RowBound, key: Bytes) {
    match bound
    case Unbounded => true
    case Inclusive(end) => end == [] || key == end || Less(key, end)
    case Exclusive(end) => end == [] || Less(key, end)
  }

  /** A query without keys and ranges reads the whole table. */
  ghost predicate QuerySelects(query: Query, key: Bytes) {
    || (query.rowKeys == [] && query.rowRanges == [])
    || key in query.rowKeys
    || exists i ::
         && 0 <= i < |query.rowRanges|
         && AdmittedByStart(query.rowRanges[i].start, key) && AdmittedByEnd(query.rowRanges[i].end, key)
  }

  /** All rows the query selects and no others, in ascending key order, or in descending order if it is reversed. */
  ghost predicate IsSelection(all: seq<Stored>, table: seq<Stored>, query: Query) {
    && (forall i, j :: 0 <= i < j < |all| ==>
          if query.reversed then Less(all[j].key, all[i].key) else Less(all[i].key, all[j].key))
    && (forall r :: r in all <==> r in table && QuerySelects(query, r.key))
  }

  /** The first rows, as many as the limit allows. */
  ghost predicate IsCut(rows: seq<Stored>, all: seq<Stored>, limit: Option<nat>) {
    rows <= all && |rows| == if limit.Some? && 0 < limit.value < |all| then limit.value else |all|
  }

  /** The rows one uninterrupted scan for the query returns. */
  ghost predicate AnswersQuery(rows: seq<Stored>, table: seq<Stored>, query: Query) {
    exists all :: IsSelection(all, table, query) && IsCut(rows, all, query.limit)
  }

  lemma {:induction false} BoundsAreSent(range: RowRange, key: Bytes)
    ensures InRange(ToProto(range), key) <==> AdmittedByStart(range.start, key) && AdmittedByEnd(range.end, key)
  {
    if !range.start.Unbounded? {
      StrictTotalOrder(range.start.key, key, key);
    }
    if !range.end.Unbounded? {
      StrictTotalOrder(key, range.end.key, range.end.key);
    }
  }

  /** The service reads from the request what the query selects. */
  lemma {:induction false} KeysAreSent(query: Query, key: Bytes)
    ensures Selects(IntoRequest(query).rows, key) <==> QuerySelects(query, key)
  {
    hide InRange, AdmittedByStart, AdmittedByEnd;
    var rows := IntoRequest(query).rows;
    forall i | 0 <= i < |query.rowRanges|
      ensures rows.Some? && i < |rows.value.rowRanges|
      ensures InRange(rows.value.rowRanges[i], key) <==>
        AdmittedByStart(query.rowRanges[i].start, key) && AdmittedByEnd(query.rowRanges[i].end, key) {
      BoundsAreSent(query.rowRanges[i], key);
    }
  }

  /** The one-shot scan of the request is the answer to the query: no bound, no direction and no limit is lost. */
  lemma {:induction false} ScanAnswersQuery(table: seq<Stored>, query: Query)
    requires IsTable(table)
    ensures AnswersQuery(Scan(table, IntoRequest(query)), table, query)
  {
    var request := IntoRequest(query);
    var all, rows := Unlimited(table, request), InDirection(table, request.reversed);
    assert request.reversed == query.reversed && request.rowsLimit == query.limit.GetOr(0);
    assert Ordered(request.reversed, rows);
    MatchingIsOrdered(request.reversed, rows, request.rows);
    forall r ensures r in rows <==> r in table {
      DirectionKeepsRows(table, request.reversed, r);
    }
    hide IntoRequest, Selects, QuerySelects, Less, InDirection, Matching;
    forall r | r in table ensures Selects(request.rows, r.key) <==> QuerySelects(query, r.key) {
      KeysAreSent(query, r.key);
    }
    assert IsSelection(all, table, query);
    assert IsCut(Scan(table, request), all, query.limit);
  }

  lemma {:induction false} DirectionKeepsRows(table: seq<Stored>, reversed: bool, r: Stored)
    ensures r in InDirection(table, reversed) <==> r in table
  {
    var rows := InDirection(table, reversed);
    if r in table {
      var i :| 0 <= i < |table| && table[i] == r;
      assert rows[if reversed then |table| - 1 - i else i] == r;
    }
  }

  /** Two strictly ordered lists with the same members are the same. */
  lemma {:induction false} OrderedIsUnique(reversed: bool, a: seq<Stored>, b: seq<Stored>)
    requires Ordered(reversed, a) && Ordered(reversed, b) && forall r :: r in a <==> r in b
    ensures a == b
  {
    if a == [] || b == [] {
      SomeMember(a);
      SomeMember(b);
    } else {
      SameFirst(reversed, a, b);
      forall r ensures r in a[1..] <==> r in b[1..] {
        InTail(reversed, a, r);
        InTail(reversed, b, r);
      }
      assert Ordered(reversed, a[1..]) && Ordered(reversed, b[1..]);
      OrderedIsUnique(reversed, a[1..], b[1..]);
      assert a == [a[0]] + a[1..] && b == [b[0]] + b[1..];
    }
  }

  lemma {:induction false} InTail(reversed: bool, rows: seq<Stored>, r: Stored)
    requires Ordered(reversed, rows) && rows != []
    ensures r in rows[1..] <==> r in rows && r != rows[0]
  {
    hide Precedes;
    if r in rows[1..] {
      PrecedesRest(reversed, rows, r);
      PrecedesTransitive(reversed, r.key, r.key, r.key);
    }
  }

  lemma {:induction false} SameFirst(reversed: bool, a: seq<Stored>, b: seq<Stored>)
    requires Ordered(reversed, a) && Ordered(reversed, b) && forall r :: r in a <==> r in b
    requires a != [] && b != []
    ensures a[0] == b[0]
  {
    hide Precedes;
    assert a[0] in b && b[0] in a;
    if a[0] != b[0] {
      InTail(reversed, a, b[0]);
      InTail(reversed, b, a[0]);
      PrecedesRest(reversed, a, b[0]);
      PrecedesRest(reversed, b, a[0]);
      PrecedesTransitive(reversed, a[0].key, b[0].key, a[0].key);
    }
  }

  /** A query has one answer on a table. */
  lemma {:induction false} AnswerIsUnique(a: seq<Stored>, b: seq<Stored>, table: seq<Stored>, query: Query)
    requires AnswersQuery(a, table, query) && AnswersQuery(b, table, query)
    ensures a == b
  {
    hide QuerySelects;
    var all :| IsSelection(all, table, query) && IsCut(a, all, query.limit);
    var also :| IsSelection(also, table, query) && IsCut(b, also, query.limit);
    OrderedIsUnique(query.reversed, all, also);
  }
}
