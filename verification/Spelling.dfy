/** Every request can be answered in full: the plain spelling, one chunk a cell. */
module Spelling {
  import opened Wrappers
  import opened Keys
  import opened Rows
  import opened Queries
  import opened Merging
  import opened Wire
  import opened Scanning
  import opened Reading
  import opened Exactness

  function PlainCell(key: Bytes, p: Placed, status: RowStatus): CellPlan {
    CellPlan(Head(key, Some(p.family), Some(p.qualifier), p.cell.timestamp, p.cell.labels),
      [Piece(p.cell.value, status)])
  }

  function PlainCells(key: Bytes, cells: seq<Placed>, status: RowStatus): seq<CellPlan> {
    if cells == [] then [] else PlainCells(key, Init(cells), NoStatus) + [PlainCell(key, Last(cells), status)]
  }

  /** One plain cell at the end of legal ones that commit nothing. */
  lemma {:induction false} PlainCellIsLegal(key: Bytes, front: seq<CellPlan>, p: Placed, status: RowStatus)
    requires LegalCells(key, front) && (front != [] ==> Quiet(Last(Last(front).pieces).status))
    ensures var plain := front + [PlainCell(key, p, status)];
      LegalCells(key, plain) && Meaning(plain) == Meaning(front) + [p]
  {
    var cell := PlainCell(key, p, status);
    var plain := front + [cell];
    assert Init(plain) == front && Last(plain) == cell;
    forall i | 0 <= i < |plain| - 1 ensures Quiet(Last(plain[i].pieces).status) {
      if i == |front| - 1 {
        assert plain[i] == Last(front);
      }
    }
    assert Init(cell.pieces) == [] && Total(cell.pieces) == p.cell.value;
  }

  lemma {:induction false} PlainCellsAreLegal(key: Bytes, cells: seq<Placed>, status: RowStatus)
    requires key != []
    ensures var plain := PlainCells(key, cells, status);
      && |plain| == |cells| && LegalCells(key, plain) && Meaning(plain) == cells
      && (cells != [] ==> Last(plain) == PlainCell(key, Last(cells), status))
  {
    hide LegalCells, Meaning;
    if cells == [] {
      NothingIsLegal(key);
    } else {
      var front := PlainCells(key, Init(cells), NoStatus);
      PlainCellsAreLegal(key, Init(cells), NoStatus);
      PlainCellIsLegal(key, front, Last(cells), status);
      InitAndLast(cells);
    }
  }

  lemma {:induction false} NothingIsLegal(key: Bytes)
    requires key != []
    ensures LegalCells(key, []) && Meaning([]) == []
  {
  }

  function PlainScript(rows: seq<Stored>): seq<Item> {
    if rows == [] then []
    else [Send(rows[0].key, PlainCells(rows[0].key, rows[0].cells, CommitRow(true)))] + PlainScript(rows[1..])
  }

  lemma {:induction false} PlainItemFulfils(rows: seq<Stored>, request: ReadRowsRequest, last: Option<Bytes>)
    requires rows != [] && rows[0].key != [] && rows[0].cells != []
    ensures var item := PlainScript(rows)[0];
      && FulfilsItem(item, rows, request, last) && RowsAfter(item, rows) == rows[1..]
      && AllData(PrintItem(item))
  {
    hide PrintCells, LegalCells, Meaning;
    PlainCellsAreLegal(rows[0].key, rows[0].cells, CommitRow(true));
    CellsAreData(PlainScript(rows)[0].cells);
  }

  lemma {:induction false} PlainScriptFulfils(rows: seq<Stored>, request: ReadRowsRequest, last: Option<Bytes>)
    requires forall i :: 0 <= i < |rows| ==> rows[i].key != [] && rows[i].cells != []
    ensures Fulfils(PlainScript(rows), rows, request, last)
    ensures AllData(Print(PlainScript(rows)))
  {
    if rows == [] {
    } else {
      hide PlainCells, PrintItem, FulfilsItem, RowsAfter, LastOf, Print;
      var script := PlainScript(rows);
      PlainItemFulfils(rows, request, last);
      assert script[1..] == PlainScript(rows[1..]);
      PlainScriptFulfils(rows[1..], request, LastOf(last, [script[0]]));
      PrintHead(script);
    }
  }

  ghost function ChunksOf(events: seq<Event>): seq<Chunk>
    requires AllData(events)
    ensures DataOf(ChunksOf(events)) == events
  {
    if events == [] then [] else assert Last(events) in events; ChunksOf(Init(events)) + [Last(events).chunk]
  }

  lemma {:induction false} InOneMessage(events: seq<Event>, room: nat) returns (deliveries: seq<Delivery>)
    requires AllData(events)
    ensures Flatten(deliveries) == events && |deliveries| == 1 && deliveries[0].room == room
  {
    hide ChunksOf, DataOf, AllData;
    var message := Message([], ChunksOf(events));
    deliveries := [Delivery(message, room)];
    assert EventsOf(message) == events;
    assert deliveries[1..] == [] && events + [] == events;
  }

  lemma {:induction false} ScannedRowsHoldCells(table: seq<Stored>, request: ReadRowsRequest)
    requires IsTable(table)
    ensures var rows := Scan(table, request);
      forall i :: 0 <= i < |rows| ==> rows[i].key != [] && rows[i].cells != [] && rows[i] in Unlimited(table, request)
  {
    hide Unlimited, Selects;
    UnlimitedIsOrdered(table, request);
    var rows, all := Scan(table, request), Unlimited(table, request);
    forall i | 0 <= i < |rows| ensures rows[i].key != [] && rows[i].cells != [] && rows[i] in all {
      assert rows[i] == all[i] && all[i] in all;
    }
  }

  /** There is a full answer to every request on every table, so the obedient servers are not a vacuous class. */
  lemma {:induction false} EveryRequestHasAFullAnswer(
    table: seq<Stored>, request: ReadRowsRequest) returns (answer: Answer)
    requires IsTable(table)
    ensures Obeys(table, request, answer)
    ensures answer.Stream? && answer.end.Ended? && Patient(answer.deliveries, answer.end, |table|)
  {
    hide Print, PlainScript, Fulfils, Flatten, AllData, Scan;
    var rows := Scan(table, request);
    ScannedRowsHoldCells(table, request);
    var script := PlainScript(rows);
    PlainScriptFulfils(rows, request, None);
    var deliveries := InOneMessage(Print(script), |table|);
    answer := Stream(deliveries, Ended);
    assert Answers(table, request, script, Flatten(answer.deliveries), answer.end.Ended?);
  }
}
