/** The service as seen by a reader: a sorted table, the scan a request asks for, and the streams that answer it. */
module Scanning {
  import opened Wrappers
  import opened Keys
  import opened Rows
  import opened Queries
  import opened Merging
  import opened Wire
  import opened RoundTrip
  import opened ScanOrder

  /** A stored row, as the flat list of its cells after the filter. */
  datatype Stored = Stored(key: Bytes, cells: seq<Placed>)

  ghost predicate Ordered(reversed: bool, rows: seq<Stored>) {
    forall i, j :: 0 <= i < j < |rows| ==> Precedes(reversed, rows[i].key, rows[j].key)
  }

  ghost predicate IsTable(table: seq<Stored>) {
    Ordered(false, table) && forall i :: 0 <= i < |table| ==> table[i].key != [] && table[i].cells != []
  }

  function InDirection(table: seq<Stored>, reversed: bool): (rows: seq<Stored>)
    ensures |rows| == |table|
    ensures forall i :: 0 <= i < |table| ==> rows[i] == table[if reversed then |table| - 1 - i else i]
  {
    if reversed then seq(|table|, i requires 0 <= i < |table| => table[|table| - 1 - i]) else table
  }

  function Matching(rows: seq<Stored>, rowSet: Option<RowSet>): seq<Stored> {
    if rows == [] then []
    else (if Selects(rowSet, rows[0].key) then [rows[0]] else []) + Matching(rows[1..], rowSet)
  }

  function Truncate(rows: seq<Stored>, limit: nat): seq<Stored> {
    if limit > 0 && |rows| > limit then rows[..limit] else rows
  }

  /** Everything the request selects, in scan order, without the limit. */
  function Unlimited(table: seq<Stored>, request: ReadRowsRequest): seq<Stored> {
    Matching(InDirection(table, request.reversed), request.rows)
  }

  /** The rows one uninterrupted scan returns. */
  function Scan(table: seq<Stored>, request: ReadRowsRequest): seq<Stored> {
    Truncate(Unlimited(table, request), request.rowsLimit)
  }

  /** Stored rows as the client hands them out. */
  function Deliver(rows: seq<Stored>): (delivered: seq<Row>)
    ensures |delivered| == |rows|
    ensures forall i :: 0 <= i < |rows| ==> delivered[i] == Row(rows[i].key, Group(rows[i].cells))
  {
    seq(|rows|, i requires 0 <= i < |rows| => Row(rows[i].key, Group(rows[i].cells)))
  }

  lemma {:induction false} DeliverJoin(a: seq<Stored>, b: seq<Stored>)
    ensures Deliver(a + b) == Deliver(a) + Deliver(b)
  {
  }

  lemma {:induction false} MatchingMembers(rows: seq<Stored>, rowSet: Option<RowSet>, r: Stored)
    ensures r in Matching(rows, rowSet) <==> r in rows && Selects(rowSet, r.key)
  {
    hide Selects;
    if rows == [] {
    } else {
      MatchingMembers(rows[1..], rowSet, r);
      assert r in rows <==> r == rows[0] || r in rows[1..];
    }
  }

  lemma {:induction false} PrecedesRest(reversed: bool, rows: seq<Stored>, r: Stored)
    requires Ordered(reversed, rows) && rows != [] && r in rows[1..]
    ensures Precedes(reversed, rows[0].key, r.key)
  {
    var j :| 0 <= j < |rows| - 1 && rows[1..][j] == r;
    assert rows[j + 1] == r;
  }

  lemma {:induction false} OneMoreInFront(reversed: bool, first: Stored, rest: seq<Stored>)
    requires Ordered(reversed, rest) && forall r :: r in rest ==> Precedes(reversed, first.key, r.key)
    ensures Ordered(reversed, [first] + rest)
  {
    hide Precedes;
    var rows := [first] + rest;
    forall i, j | 0 <= i < j < |rows| ensures Precedes(reversed, rows[i].key, rows[j].key) {
      assert rows[j] == rest[j - 1] && rest[j - 1] in rest;
    }
  }

  lemma {:induction false} MatchingIsOrdered(reversed: bool, rows: seq<Stored>, rowSet: Option<RowSet>)
    requires Ordered(reversed, rows)
    ensures Ordered(reversed, Matching(rows, rowSet))
    ensures forall r :: r in Matching(rows, rowSet) <==> r in rows && Selects(rowSet, r.key)
  {
    hide Selects, Precedes;
    forall r ensures r in Matching(rows, rowSet) <==> r in rows && Selects(rowSet, r.key) {
      MatchingMembers(rows, rowSet, r);
    }
    if rows == [] {
    } else {
      var rest := Matching(rows[1..], rowSet);
      assert Ordered(reversed, rows[1..]);
      MatchingIsOrdered(reversed, rows[1..], rowSet);
      forall r | r in rest ensures Precedes(reversed, rows[0].key, r.key) {
        PrecedesRest(reversed, rows, r);
      }
      OneMoreInFront(reversed, rows[0], rest);
      assert [] + rest == rest;
    }
  }

  lemma {:induction false} UnlimitedIsOrdered(table: seq<Stored>, request: ReadRowsRequest)
    requires IsTable(table)
    ensures Ordered(request.reversed, Unlimited(table, request))
    ensures forall r :: r in Unlimited(table, request) ==> r.key != [] && r.cells != [] && Selects(request.rows, r.key)
  {
    var rows := InDirection(table, request.reversed);
    assert Ordered(request.reversed, rows);
    MatchingIsOrdered(request.reversed, rows, request.rows);
    forall r | r in rows ensures r in table {
      var i :| 0 <= i < |rows| && rows[i] == r;
      assert r == table[if request.reversed then |table| - 1 - i else i];
    }
  }

  // ---------- what answers a request ----------

  ghost predicate After(reversed: bool, last: Option<Bytes>, key: Bytes) { !Passed(reversed, last, key) }

  /**
   * The script spells exactly these rows, in order. It may abandon selected rows on the way, and may mark a
   * selected key as scanned once every remaining row lies strictly after it.
   */
  ghost predicate Fulfils(script: seq<Item>, rows: seq<Stored>, request: ReadRowsRequest, last: Option<Bytes>)
    decreases |script|
  {
    if script == [] then rows == []
    else
      && FulfilsItem(script[0], rows, request, last)
      && Fulfils(script[1..], RowsAfter(script[0], rows), request, LastOf(last, [script[0]]))
  }

  ghost predicate FulfilsItem(item: Item, rows: seq<Stored>, request: ReadRowsRequest, last: Option<Bytes>) {
    match item
    case Send(key, cells) => rows != [] && LegalRow(key, cells) && rows[0] == Stored(key, Meaning(cells))
    case Abandon(open) => LegalOpen(open) && Selects(request.rows, open.key) && After(request.reversed, last, open.key)
    case Mark(key) =>
      && key != [] && Selects(request.rows, key) && After(request.reversed, last, key)
      && (forall i :: 0 <= i < |rows| ==> Precedes(request.reversed, key, rows[i].key))
  }

  lemma {:induction false} PrintJoin(a: seq<Item>, b: seq<Item>)
    ensures Print(a + b) == Print(a) + Print(b)
  {
    hide PrintItem;
    if b == [] {
      assert a + b == a;
    } else {
      PrintJoin(a, Init(b));
      assert Init(a + b) == a + Init(b) && Last(a + b) == Last(b);
    }
  }

  lemma {:induction false} PrintHead(script: seq<Item>)
    requires script != []
    ensures Print(script) == PrintItem(script[0]) + Print(script[1..])
  {
    hide PrintItem;
    PrintJoin(script[..1], script[1..]);
    assert script[..1] + script[1..] == script;
    assert Init(script[..1]) == [] && Last(script[..1]) == script[0];
  }

  ghost predicate AllData(events: seq<Event>) { forall e :: e in events ==> e.Data? }

  lemma {:induction false} PiecesAreData(head: Head, size: nat, pieces: seq<Piece>)
    ensures AllData(PrintPieces(head, size, pieces))
  {
    if pieces == [] {
    } else {
      PiecesAreData(head, size, Init(pieces));
    }
  }

  lemma {:induction false} CellsAreData(cells: seq<CellPlan>)
    ensures AllData(PrintCells(cells))
  {
    if cells == [] {
    } else {
      CellsAreData(Init(cells));
      if Last(cells).pieces != [] {
        PiecesAreData(Last(cells).head, |Total(Last(cells).pieces)|, Init(Last(cells).pieces));
      }
    }
  }

  lemma {:induction false} OpenIsData(open: OpenRow)
    ensures AllData(PrintOpen(open) + [RESET])
  {
    CellsAreData(open.cells);
    if open.part.Some? {
      PiecesAreData(open.part.value.head, open.part.value.size, open.part.value.pieces);
    }
  }

  /** Chunks that complete no row move nothing but the row under assembly. */
  lemma {:induction false} NoRowNoProgress(m: Machine, events: seq<Event>)
    requires AllData(events) && Feed(m, events).rows == []
    ensures Feed(m, events).machine.last == m.last && Feed(m, events).machine.reversed == m.reversed
  {
    if events == [] {
    } else {
      hide Push;
      assert Last(events) in events && forall e :: e in Init(events) ==> e in events;
      NoRowNoProgress(m, Init(events));
      ChunkMovesLast(Feed(m, Init(events)).machine, Last(events).chunk);
    }
  }

  /** The rows of a strict prefix of a spelled row: none, since its commit has not arrived. */
  lemma {:induction false} PartialSend(m: Machine, key: Bytes, cells: seq<CellPlan>, events: seq<Event>)
    requires m.at.Between? && LegalItem(m.reversed, m.last, Send(key, cells))
    requires events <= PrintCells(cells) && |events| < |PrintCells(cells)|
    ensures Feed(m, events).rows == [] && AllData(events)
  {
    var all := PrintCells(cells);
    FeedItem(m, Send(key, cells));
    assert |RowsOf([Send(key, cells)])| == 1;
    CellsAreData(cells);
    EndsInCommit(key, cells);
    hide Push, PushMarker, LegalRow, LegalOpen, Meaning, Group, PrintCells, Feed, LegalItem;
    BeforeCommit(m, all);
    FeedPrefix(m, Init(all), |events|);
    assert Init(all)[..|events|] == events;
  }

  /** A strict prefix of a spelled row or of an abandoned one completes nothing. */
  lemma {:induction false} PartialItem(m: Machine, item: Item, events: seq<Event>)
    requires m.at.Between? && LegalItem(m.reversed, m.last, item)
    requires events <= PrintItem(item) && |events| < |PrintItem(item)|
    ensures Feed(m, events).issue.None? && Feed(m, events).rows == []
    ensures Feed(m, events).machine.last == m.last && Feed(m, events).machine.reversed == m.reversed
  {
    hide Push, PushMarker, LegalRow, LegalOpen, Meaning, Group, PrintCells, PrintOpen;
    var all := PrintItem(item);
    FeedItem(m, item);
    FeedPrefix(m, all, |events|);
    assert all[..|events|] == events;
    match item {
      case Mark(_) =>
      case Abandon(open) =>
        OpenIsData(open);
        assert RowsOf([item]) == [];
        NoRowNoProgress(m, events);
      case Send(key, cells) =>
        PartialSend(m, key, cells, events);
        NoRowNoProgress(m, events);
    }
  }

  lemma {:induction false} EndsInCommit(key: Bytes, cells: seq<CellPlan>)
    requires LegalRow(key, cells)
    ensures var events := PrintCells(cells); events != [] && Last(events).Data? && IsCommit(Last(events).chunk)
  {
  }

  /** An accepted commit completes a row, so the chunks before it completed one row less. */
  lemma {:induction false} BeforeCommit(m: Machine, events: seq<Event>)
    requires events != [] && Last(events).Data? && IsCommit(Last(events).chunk)
    requires Feed(m, events).issue.None?
    ensures |Feed(m, Init(events)).rows| + 1 == |Feed(m, events).rows|
  {
  }

  /** What has arrived of an answer, against the rows it was to carry. */
  ghost predicate OnTrack(fed: Fed, rows: seq<Stored>) {
    var n, m := |fed.rows|, fed.machine;
    && fed.issue.None?
    && m.last != Some([])
    && n <= |rows| && fed.rows == Deliver(rows[..n])
    && (forall i :: 0 <= i < n ==> Passed(m.reversed, m.last, rows[i].key))
    && (forall i :: n <= i < |rows| ==> After(m.reversed, m.last, rows[i].key))
  }

  /** The machine has not passed anything the answer may still mention. */
  ghost predicate Expects(m: Machine, rows: seq<Stored>, request: ReadRowsRequest, last: Option<Bytes>) {
    && m.at.Between? && m.reversed == request.reversed && m.last != Some([])
    && Ordered(m.reversed, rows)
    && (forall i :: 0 <= i < |rows| ==> rows[i].key != [] && After(m.reversed, m.last, rows[i].key))
    && (last.Some? ==> m.last == last)
    && (last.None? ==> forall key :: key != [] && Selects(request.rows, key) ==> After(m.reversed, m.last, key))
  }

  lemma {:induction false} OneRowSent(fed: Fed, rows: seq<Stored>)
    requires rows != [] && OnTrack(fed, rows[1..])
    requires Passed(fed.machine.reversed, fed.machine.last, rows[0].key)
    ensures OnTrack(fed.(rows := Deliver(rows[..1]) + fed.rows), rows)
  {
    var n := |fed.rows|;
    assert rows[..1] + rows[1..][..n] == rows[..n + 1];
    DeliverJoin(rows[..1], rows[1..][..n]);
    var m := fed.machine;
    assert forall i :: 1 <= i < |rows| ==> rows[i] == rows[1..][i - 1];
  }

  /** Cut anywhere, an answer is read without an issue into the first rows it carries; uncut, into all of them. */
  lemma {:induction false} AnswersAreRead(
    script: seq<Item>, rows: seq<Stored>, request: ReadRowsRequest, last: Option<Bytes>, m: Machine, events: seq<Event>)
    requires Fulfils(script, rows, request, last) && Expects(m, rows, request, last)
    requires events <= Print(script)
    ensures OnTrack(Feed(m, events), rows) && Feed(m, events).machine.reversed == m.reversed
    ensures events == Print(script) ==> |Feed(m, events).rows| == |rows| && Feed(m, events).machine.at.Between?
    decreases |script|
  {
    if script == [] {
      NothingYet(m, rows, request, last, Feed(m, events));
    } else {
      hide PrintItem, LegalItem, Feed, Print, OnTrack, LastOf, FulfilsItem, RowsAfter, Expects;
      var item := script[0];
      var head := PrintItem(item);
      PrintHead(script);
      ItemIsExpected(item, rows, request, last, m);
      CutAt(head, Print(script[1..]), events);
      if |events| < |head| {
        PartialItem(m, item, events);
        NothingYet(m, rows, request, last, Feed(m, events));
      } else {
        var rest := events[|head|..];
        var next := Machine(m.reversed, LastOf(m.last, [item]), Between);
        AnswersAreRead(script[1..], RowsAfter(item, rows), request, LastOf(last, [item]), next, rest);
        ItemThenRest(m, item, rows, request, last, rest);
      }
    }
  }

  /** Cut anywhere, an answer leaves the position where it was or at a key the request selects. */
  lemma {:induction false} PositionIsSelected(
    script: seq<Item>, rows: seq<Stored>, request: ReadRowsRequest, last: Option<Bytes>, m: Machine, events: seq<Event>)
    requires Fulfils(script, rows, request, last) && Expects(m, rows, request, last)
    requires events <= Print(script) && forall i :: 0 <= i < |rows| ==> Selects(request.rows, rows[i].key)
    ensures var reached := Feed(m, events).machine.last;
      reached == m.last || (reached.Some? && Selects(request.rows, reached.value))
    decreases |script|
  {
    if script == [] {
    } else {
      hide PrintItem, LegalItem, Feed, Print, LastOf, FulfilsItem, RowsAfter, Expects, Selects;
      var item := script[0];
      var head := PrintItem(item);
      PrintHead(script);
      ItemIsExpected(item, rows, request, last, m);
      CutAt(head, Print(script[1..]), events);
      if |events| < |head| {
        PartialItem(m, item, events);
      } else {
        var rest := events[|head|..];
        var next := Machine(m.reversed, LastOf(m.last, [item]), Between);
        ItemIsSelected(item, rows, request, last, m);
        PositionIsSelected(script[1..], RowsAfter(item, rows), request, LastOf(last, [item]), next, rest);
        ItemLeadsOn(m, item, rows, request, last, rest);
      }
    }
  }

  lemma {:induction false} ItemIsSelected(
    item: Item, rows: seq<Stored>, request: ReadRowsRequest, last: Option<Bytes>, m: Machine)
    requires FulfilsItem(item, rows, request, last)
    requires forall i :: 0 <= i < |rows| ==> Selects(request.rows, rows[i].key)
    ensures var reached := LastOf(m.last, [item]);
      reached == m.last || (reached.Some? && Selects(request.rows, reached.value))
    ensures forall i :: 0 <= i < |RowsAfter(item, rows)| ==> Selects(request.rows, RowsAfter(item, rows)[i].key)
  {
    hide Selects;
    assert Init([item]) == [] && Last([item]) == item;
  }

  lemma {:induction false} ItemLeadsOn(
    m: Machine, item: Item, rows: seq<Stored>, request: ReadRowsRequest, last: Option<Bytes>, rest: seq<Event>)
    requires m.at.Between? && LegalItem(m.reversed, m.last, item) && FulfilsItem(item, rows, request, last)
    ensures Feed(m, PrintItem(item) + rest).machine
      == Feed(Machine(m.reversed, LastOf(m.last, [item]), Between), rest).machine
  {
    hide Feed, PrintItem, LegalItem, LastOf, Meaning, LegalRow, LegalOpen, Selects;
    AfterItem(m, item, rows, rest);
  }

  lemma {:induction false} CutAt<T>(head: seq<T>, tail: seq<T>, s: seq<T>)
    requires s <= head + tail
    ensures |s| < |head| ==> s <= head && s != head + tail
    ensures |s| >= |head| ==>
      s == head + s[|head|..] && s[|head|..] <= tail && (s == head + tail <==> s[|head|..] == tail)
  {
    if |s| >= |head| {
      assert s[|head|..] <= tail by {
        assert forall k :: |head| <= k < |s| ==> s[k] == (head + tail)[k];
      }
      assert s == head + s[|head|..];
    }
  }

  lemma {:induction false} NothingYet(
    m: Machine, rows: seq<Stored>, request: ReadRowsRequest, last: Option<Bytes>, fed: Fed)
    requires Expects(m, rows, request, last)
    requires fed.rows == [] && fed.issue.None? && fed.machine.last == m.last && fed.machine.reversed == m.reversed
    ensures OnTrack(fed, rows)
  {
    assert rows[..0] == [];
  }

  lemma {:induction false} RowsOfItem(item: Item, rows: seq<Stored>)
    requires item.Send? ==> rows != [] && rows[0] == Stored(item.key, Meaning(item.cells))
    ensures RowsOf([item]) == if item.Send? then Deliver(rows[..1]) else []
    ensures item.Send? ==> forall last :: LastOf(last, [item]) == Some(rows[0].key)
  {
    assert Init([item]) == [] && Last([item]) == item;
  }

  lemma {:induction false} PositionIsKept(m: Machine, events: seq<Event>)
    requires m.at.Between?
    ensures Feed(m, events).machine.reversed == m.reversed
    ensures m.last.Some? ==> Passed(m.reversed, Feed(m, events).machine.last, m.last.value)
  {
    RowsComeInOrder(m, events);
  }

  /** If the rest of an answer is read as it should, so is the item and the rest. */
  lemma {:induction false} ItemThenRest(
    m: Machine, item: Item, rows: seq<Stored>, request: ReadRowsRequest, last: Option<Bytes>, rest: seq<Event>)
    requires m.at.Between? && LegalItem(m.reversed, m.last, item) && FulfilsItem(item, rows, request, last)
    requires OnTrack(Feed(Machine(m.reversed, LastOf(m.last, [item]), Between), rest), RowsAfter(item, rows))
    ensures var next := Machine(m.reversed, LastOf(m.last, [item]), Between);
      var before, after := Feed(next, rest), Feed(m, PrintItem(item) + rest);
      && OnTrack(after, rows)
      && after.machine == before.machine && after.machine.reversed == m.reversed
      && |rows| - |after.rows| == |RowsAfter(item, rows)| - |before.rows|
  {
    hide Feed, PrintItem, LegalItem, LastOf, Meaning, LegalRow, LegalOpen;
    AfterItem(m, item, rows, rest);
    if item.Send? {
      OneRowSent(Feed(Machine(m.reversed, LastOf(m.last, [item]), Between), rest), rows);
    }
  }

  /** One item read, then the rest. */
  lemma {:induction false} AfterItem(m: Machine, item: Item, rows: seq<Stored>, rest: seq<Event>)
    requires m.at.Between? && LegalItem(m.reversed, m.last, item)
    requires item.Send? ==> rows != [] && rows[0] == Stored(item.key, Meaning(item.cells))
    ensures var next := Machine(m.reversed, LastOf(m.last, [item]), Between);
      && Feed(m, PrintItem(item) + rest)
         == Feed(next, rest).(rows := (if item.Send? then Deliver(rows[..1]) else []) + Feed(next, rest).rows)
      && Feed(next, rest).machine.reversed == m.reversed
      && (item.Send? ==> Passed(m.reversed, Feed(next, rest).machine.last, rows[0].key))
  {
    FeedItem(m, item);
    FeedJoin(m, PrintItem(item), rest);
    PositionIsKept(Machine(m.reversed, LastOf(m.last, [item]), Between), rest);
    RowsOfItem(item, rows);
  }

  function RowsAfter(item: Item, rows: seq<Stored>): seq<Stored> {
    if item.Send? && rows != [] then rows[1..] else rows
  }

  /** After one item of an answer the machine expects the rest of it. */
  lemma {:induction false} ItemIsExpected(
    item: Item, rows: seq<Stored>, request: ReadRowsRequest, last: Option<Bytes>, m: Machine)
    requires Expects(m, rows, request, last) && FulfilsItem(item, rows, request, last)
    ensures m.at.Between? && LegalItem(m.reversed, m.last, item)
    ensures var next := Machine(m.reversed, LastOf(m.last, [item]), Between);
      Expects(next, RowsAfter(item, rows), request, LastOf(last, [item]))
  {
    assert Init([item]) == [] && Last([item]) == item;
    assert forall i :: 1 <= i < |rows| ==> Precedes(m.reversed, rows[0].key, rows[i].key);
  }
}
