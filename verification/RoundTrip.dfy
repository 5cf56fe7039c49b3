/** The merger accepts exactly the chunk language of `Wire`, and reads from it exactly the rows that were spelled. */
module RoundTrip {
  import opened Wrappers
  import opened Keys
  import opened Rows
  import opened Merging
  import opened Wire

  /** The machine after the given complete cells of a row that started from `m`. */
  function AtCell(m: Machine, key: Bytes, cells: seq<CellPlan>): Machine {
    if cells == [] then m else m.(at := InRow(key, FamilyAfter(cells), QualifierAfter(cells), Meaning(cells)))
  }

  function AtPart(m: Machine, key: Bytes, cells: seq<CellPlan>, part: Part): Machine {
    m.(at := InCell(key, part.head.family.GetOr(FamilyAfter(cells)), part.head.qualifier.GetOr(QualifierAfter(cells)),
                    Meaning(cells), part.head.timestamp, part.head.labels, part.size, Total(part.pieces)))
  }

  function AtOpen(m: Machine, open: OpenRow): Machine {
    if open.part.None? then AtCell(m, open.key, open.cells) else AtPart(m, open.key, open.cells, open.part.value)
  }

  ghost predicate CanStart(m: Machine, key: Bytes) { m.at.Between? && InOrder(m, key) && key != [] }

  lemma {:induction false} StartPart(m: Machine, key: Bytes, cells: seq<CellPlan>, part: Part)
    requires CanStart(m, key)
    requires LegalPart(part, key, cells == []) && |part.pieces| == 1
    ensures Handle(AtCell(m, key, cells), HeadChunk(part.head, part.pieces[0], part.size))
         == Pushed(AtPart(m, key, cells, part), Success(None))
  {
    assert part.pieces[0] in part.pieces && Quiet(part.pieces[0].status);
    assert Init(part.pieces) == [];
    assert Total(part.pieces) == part.pieces[0].bytes;
  }

  lemma {:induction false} GrowPart(m: Machine, key: Bytes, cells: seq<CellPlan>, part: Part)
    requires CanStart(m, key)
    requires LegalPart(part, key, cells == []) && |part.pieces| > 1
    ensures Handle(AtPart(m, key, cells, part.(pieces := Init(part.pieces))), BareChunk(Last(part.pieces), part.size))
         == Pushed(AtPart(m, key, cells, part), Success(None))
  {
    assert Last(part.pieces) in part.pieces && Quiet(Last(part.pieces).status);
    PiecesNotEmpty(part.pieces);
  }

  lemma {:induction false} PiecesNotEmpty(pieces: seq<Piece>)
    requires pieces != [] && pieces[0].bytes != []
    ensures Total(pieces) != []
  {
    if |pieces| > 1 {
      PiecesNotEmpty(Init(pieces));
    } else {
      assert Init(pieces) == [];
    }
  }

  lemma {:induction false} FeedPart(m: Machine, key: Bytes, cells: seq<CellPlan>, part: Part)
    requires CanStart(m, key)
    requires LegalPart(part, key, cells == [])
    ensures Feed(AtCell(m, key, cells), PrintPieces(part.head, part.size, part.pieces))
         == Fed(AtPart(m, key, cells, part), [], None)
    decreases |part.pieces|
  {
    var start, pieces := AtCell(m, key, cells), part.pieces;
    var front := PrintPieces(part.head, part.size, Init(pieces));
    if |pieces| == 1 {
      assert Init(pieces) == [] && front == [];
      StartPart(m, key, cells, part);
      FeedSnoc(start, front, HeadChunk(part.head, pieces[0], part.size));
    } else {
      assert forall p :: p in Init(pieces) ==> p in pieces;
      FeedPart(m, key, cells, part.(pieces := Init(pieces)));
      GrowPart(m, key, cells, part);
      FeedSnoc(start, front, BareChunk(Last(pieces), part.size));
    }
  }

  /** The machine when the last cell of the list, and with a commit the row, is complete. */
  function AfterCell(m: Machine, key: Bytes, cells: seq<CellPlan>): Pushed
    requires cells != [] && Last(cells).pieces != []
  {
    if Last(Last(cells).pieces).status == CommitRow(true)
    then Pushed(Machine(m.reversed, Some(key), Between), Success(Some(Row(key, Group(Meaning(cells))))))
    else Pushed(AtCell(m, key, cells), Success(None))
  }

  lemma {:induction false} CellCompletes(m: Machine, key: Bytes, cells: seq<CellPlan>, status: RowStatus)
    requires cells != [] && Last(cells).pieces != [] && Last(Last(cells).pieces).status == status
    ensures var head := Last(cells).head;
      var family, qualifier :=
        head.family.GetOr(FamilyAfter(Init(cells))), head.qualifier.GetOr(QualifierAfter(Init(cells)));
      var cell := Placed(family, qualifier, Cell(head.timestamp, Total(Last(cells).pieces), head.labels));
      PushComplete(m, key, family, qualifier, Meaning(Init(cells)) + [cell], status == CommitRow(true))
        == AfterCell(m, key, cells)
  {
    hide Group;
  }

  lemma {:induction false} WholeCellEnds(m: Machine, key: Bytes, cells: seq<CellPlan>)
    requires CanStart(m, key) && cells != [] && |Last(cells).pieces| == 1
    requires LegalCell(Last(cells), key, |cells| == 1) && Last(Last(cells).pieces).status != ResetRow(true)
    ensures Handle(AtCell(m, key, Init(cells)), HeadChunk(Last(cells).head, Last(Last(cells).pieces), 0))
      == AfterCell(m, key, cells)
  {
    var cell := Last(cells);
    assert Init(cell.pieces) == [];
    assert Total(cell.pieces) == Last(cell.pieces).bytes;
    CellCompletes(m, key, cells, Last(cell.pieces).status);
    hide Group, AfterCell, PushContinuation, PushMarker;
  }

  lemma {:induction false} SplitCellEnds(m: Machine, key: Bytes, cells: seq<CellPlan>)
    requires CanStart(m, key) && cells != [] && |Last(cells).pieces| > 1
    requires LegalCell(Last(cells), key, |cells| == 1) && Last(Last(cells).pieces).status != ResetRow(true)
    ensures var cell := Last(cells);
      var part := Part(cell.head, |Total(cell.pieces)|, Init(cell.pieces));
      Handle(AtPart(m, key, Init(cells), part), BareChunk(Last(cell.pieces), 0)) == AfterCell(m, key, cells)
  {
    var cell := Last(cells);
    assert Total(cell.pieces) == Total(Init(cell.pieces)) + Last(cell.pieces).bytes;
    assert AtPart(m, key, Init(cells), Part(cell.head, |Total(cell.pieces)|, Init(cell.pieces))).at.InCell?;
    CellCompletes(m, key, cells, Last(cell.pieces).status);
    hide Group, AfterCell, PushCell, PushStart, PushMarker, Total, LegalCell;
  }

  lemma {:induction false} FeedCell(m: Machine, key: Bytes, cells: seq<CellPlan>)
    requires CanStart(m, key) && cells != []
    requires LegalCell(Last(cells), key, |cells| == 1) && Last(Last(cells).pieces).status != ResetRow(true)
    ensures Feed(AtCell(m, key, Init(cells)), PrintCell(Last(cells)))
      == if Last(Last(cells).pieces).status == CommitRow(true)
         then Fed(Machine(m.reversed, Some(key), Between), [Row(key, Group(Meaning(cells)))], None)
         else Fed(AtCell(m, key, cells), [], None)
  {
    var start, cell := AtCell(m, key, Init(cells)), Last(cells);
    var part := Part(cell.head, |Total(cell.pieces)|, Init(cell.pieces));
    var front := PrintPieces(cell.head, part.size, part.pieces);
    hide Handle, Group, LegalHead;
    if |cell.pieces| == 1 {
      WholeCellEnds(m, key, cells);
      assert front == [];
      FeedSnoc(start, front, HeadChunk(cell.head, Last(cell.pieces), 0));
    } else {
      SplitCellEnds(m, key, cells);
      FeedPart(m, key, Init(cells), part);
      FeedSnoc(start, front, BareChunk(Last(cell.pieces), 0));
    }
  }

  lemma {:induction false} FeedCells(m: Machine, key: Bytes, cells: seq<CellPlan>)
    requires CanStart(m, key) && LegalCells(key, cells)
    requires cells != [] ==> Quiet(Last(Last(cells).pieces).status)
    ensures Feed(m, PrintCells(cells)) == Fed(AtCell(m, key, cells), [], None)
  {
    if cells == [] {
    } else {
      hide Handle, PrintCell, Group, LegalCell;
      var front := Init(cells);
      if front != [] {
        assert Last(front) == cells[|cells| - 2];
      }
      FeedCells(m, key, front);
      FeedCell(m, key, cells);
      FeedJoin(m, PrintCells(front), PrintCell(Last(cells)));
    }
  }

  /** A committed row is delivered once, grouped; nothing is left of it in the machine but its key. */
  lemma {:induction false} FeedSend(m: Machine, key: Bytes, cells: seq<CellPlan>)
    requires CanStart(m, key) && LegalRow(key, cells)
    ensures Feed(m, PrintCells(cells))
         == Fed(Machine(m.reversed, Some(key), Between), [Row(key, Group(Meaning(cells)))], None)
  {
    hide Handle, PrintCell, Group;
    var front := Init(cells);
    if front != [] {
      assert Last(front) == cells[|cells| - 2];
    }
    FeedCells(m, key, front);
    FeedCell(m, key, cells);
    FeedJoin(m, PrintCells(front), PrintCell(Last(cells)));
  }

  lemma {:induction false} FeedOpen(m: Machine, open: OpenRow)
    requires CanStart(m, open.key) && LegalOpen(open)
    ensures Feed(m, PrintOpen(open)) == Fed(AtOpen(m, open), [], None)
    ensures !AtOpen(m, open).at.Between?
  {
    FeedCells(m, open.key, open.cells);
    if open.part.Some? {
      var part := open.part.value;
      FeedPart(m, open.key, open.cells, part);
      FeedJoin(m, PrintCells(open.cells), PrintPieces(part.head, part.size, part.pieces));
    } else {
      assert PrintOpen(open) == PrintCells(open.cells);
    }
  }

  /** A reset leaves the machine as if the row had never been started. */
  lemma {:induction false} FeedAbandon(m: Machine, open: OpenRow)
    requires CanStart(m, open.key) && LegalOpen(open)
    ensures Feed(m, PrintOpen(open) + [RESET]) == Fed(m, [], None)
  {
    FeedOpen(m, open);
    FeedSnoc(m, PrintOpen(open), RESET);
  }

  lemma {:induction false} FeedItem(m: Machine, item: Item)
    requires m.at.Between? && LegalItem(m.reversed, m.last, item)
    ensures Feed(m, PrintItem(item)) == Fed(Machine(m.reversed, LastOf(m.last, [item]), Between), RowsOf([item]), None)
  {
    assert Init([item]) == [] && Last([item]) == item;
    match item {
      case Mark(key) => FeedSnoc(m, [], Marker(key)); assert [] + [Marker(key)] == [Marker(key)];
      case Send(key, cells) => FeedSend(m, key, cells);
      case Abandon(open) => FeedAbandon(m, open);
    }
  }

  /** Every legal script is read without an issue, into exactly its rows, and ends between rows. */
  lemma {:induction false} ScriptRoundTrip(reversed: bool, last: Option<Bytes>, script: seq<Item>)
    requires LegalScript(reversed, last, script)
    ensures Feed(Machine(reversed, last, Between), Print(script))
         == Fed(Machine(reversed, LastOf(last, script), Between), RowsOf(script), None)
  {
    if script == [] {
    } else {
      hide Handle, PrintItem, LegalItem, Group, Meaning;
      var m, front, item := Machine(reversed, last, Between), Init(script), Last(script);
      ScriptRoundTrip(reversed, last, front);
      FeedItem(Machine(reversed, LastOf(last, front), Between), item);
      FeedJoin(m, Print(front), PrintItem(item));
      assert Init([item]) == [] && Last([item]) == item;
    }
  }
}
