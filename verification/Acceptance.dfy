/** The converse of the round trip: whatever the merger accepts was spelled by some legal script. */
module Acceptance {
  import opened Wrappers
  import opened Keys
  import opened Rows
  import opened Merging
  import opened Wire
  import opened RoundTrip

  /** A script and the row it has started, if any. */
  datatype Reading = Reading(script: seq<Item>, tail: Option<OpenRow>)

  ghost predicate Legal(reversed: bool, last: Option<Bytes>, r: Reading) {
    && LegalScript(reversed, last, r.script)
    && (r.tail.Some? ==>
      LegalOpen(r.tail.value) && CanStart(Machine(reversed, LastOf(last, r.script), Between), r.tail.value.key))
  }

  function PrintReading(r: Reading): seq<Event> {
    Print(r.script) + if r.tail.Some? then PrintOpen(r.tail.value) else []
  }

  function StateOf(reversed: bool, last: Option<Bytes>, r: Reading): Machine {
    var m := Machine(reversed, LastOf(last, r.script), Between);
    if r.tail.None? then m else AtOpen(m, r.tail.value)
  }

  lemma {:induction false} FeedReading(reversed: bool, last: Option<Bytes>, r: Reading)
    requires Legal(reversed, last, r)
    ensures Feed(Machine(reversed, last, Between), PrintReading(r))
         == Fed(StateOf(reversed, last, r), RowsOf(r.script), None)
  {
    var m := Machine(reversed, last, Between);
    ScriptRoundTrip(reversed, last, r.script);
    if r.tail.Some? {
      FeedOpen(Machine(reversed, LastOf(last, r.script), Between), r.tail.value);
      FeedJoin(m, Print(r.script), PrintOpen(r.tail.value));
    } else {
      assert PrintReading(r) == Print(r.script);
    }
  }

  function HeadOf(chunk: Chunk): Head {
    Head(chunk.rowKey, chunk.family, chunk.qualifier, chunk.timestamp, chunk.labels)
  }

  function PieceOf(chunk: Chunk): Piece { Piece(chunk.value, chunk.status) }

  function CellDone(script: seq<Item>, key: Bytes, cells: seq<CellPlan>, cell: CellPlan, commit: bool): Reading {
    if commit then Reading(script + [Send(key, cells + [cell])], None)
    else Reading(script, Some(OpenRow(key, cells + [cell], None)))
  }

  function CellBegun(script: seq<Item>, key: Bytes, cells: seq<CellPlan>, chunk: Chunk): Reading {
    if chunk.valueSize > 0 then
      Reading(script, Some(OpenRow(key, cells, Some(Part(HeadOf(chunk), chunk.valueSize, [PieceOf(chunk)])))))
    else CellDone(script, key, cells, CellPlan(HeadOf(chunk), [PieceOf(chunk)]), IsCommit(chunk))
  }

  /** The reading of one more event. */
  function Extend(r: Reading, e: Event): Reading {
    match e
    case Marker(key) => Reading(r.script + [Mark(key)], None)
    case Data(chunk) =>
      if r.tail.None? then CellBegun(r.script, chunk.rowKey, [], chunk)
      else
        var open := r.tail.value;
        if IsReset(chunk) then Reading(r.script + [Abandon(open)], None)
        else if open.part.None? then CellBegun(r.script, open.key, open.cells, chunk)
        else
          var part := open.part.value.(pieces := open.part.value.pieces + [PieceOf(chunk)]);
          if chunk.valueSize == 0 then
            CellDone(r.script, open.key, open.cells, CellPlan(part.head, part.pieces), IsCommit(chunk))
          else Reading(r.script, Some(open.(part := Some(part))))
  }

  lemma {:induction false} OneItemMore(reversed: bool, last: Option<Bytes>, script: seq<Item>, item: Item)
    requires LegalScript(reversed, last, script) && LegalItem(reversed, LastOf(last, script), item)
    ensures LegalScript(reversed, last, script + [item])
    ensures Print(script + [item]) == Print(script) + PrintItem(item)
  {
    assert Init(script + [item]) == script && Last(script + [item]) == item;
  }

  lemma {:induction false} OneCellMore(key: Bytes, cells: seq<CellPlan>, cell: CellPlan)
    requires LegalCells(key, cells) && (cells != [] ==> Quiet(Last(Last(cells).pieces).status))
    requires LegalCell(cell, key, cells == [])
    ensures LegalCells(key, cells + [cell])
    ensures PrintCells(cells + [cell]) == PrintCells(cells) + PrintCell(cell)
  {
    var more := cells + [cell];
    assert Init(more) == cells && Last(more) == cell;
    forall i | 0 <= i < |more| - 1 ensures Quiet(Last(more[i].pieces).status) {
      if i == |cells| - 1 {
        assert more[i] == Last(cells);
      }
    }
  }

  /** The row a reading has open, or would open with `key`. */
  ghost predicate Ready(reversed: bool, last: Option<Bytes>, script: seq<Item>, key: Bytes, cells: seq<CellPlan>) {
    && LegalScript(reversed, last, script)
    && CanStart(Machine(reversed, LastOf(last, script), Between), key)
    && LegalCells(key, cells)
    && (cells != [] ==> Quiet(Last(Last(cells).pieces).status))
  }

  lemma {:induction false} CellDoneIsLegal(
    reversed: bool, last: Option<Bytes>, script: seq<Item>, key: Bytes, cells: seq<CellPlan>, cell: CellPlan)
    requires Ready(reversed, last, script, key, cells)
    requires LegalCell(cell, key, cells == []) && Last(cell.pieces).status != ResetRow(true)
    ensures var r := CellDone(script, key, cells, cell, Last(cell.pieces).status == CommitRow(true));
      Legal(reversed, last, r) && PrintReading(r) == Print(script) + (PrintCells(cells) + PrintCell(cell))
  {
    hide PrintCell, LegalCells, Meaning;
    OneCellMore(key, cells, cell);
    if Last(cell.pieces).status == CommitRow(true) {
      OneItemMore(reversed, last, script, Send(key, cells + [cell]));
    }
  }

  /** The first chunk of a cell, in a row with the given complete cells. */
  lemma {:induction false} CellBegunIsLegal(
    reversed: bool, last: Option<Bytes>, script: seq<Item>, key: Bytes, cells: seq<CellPlan>, chunk: Chunk)
    requires Ready(reversed, last, script, key, cells)
    requires cells == [] ==> chunk.rowKey == key
    requires !IsReset(chunk)
    requires Push(AtCell(Machine(reversed, LastOf(last, script), Between), key, cells), chunk).result.Success?
    ensures var r := CellBegun(script, key, cells, chunk);
      Legal(reversed, last, r) && PrintReading(r) == Print(script) + (PrintCells(cells) + [Data(chunk)])
  {
    var pieces := [PieceOf(chunk)];
    assert Init(pieces) == [] && Total(pieces) == chunk.value;
    if chunk.valueSize > 0 {
      var part := Part(HeadOf(chunk), chunk.valueSize, pieces);
      assert LegalPart(part, key, cells == []);
      assert PrintPieces(part.head, part.size, pieces) == [Data(chunk)];
    } else {
      var cell := CellPlan(HeadOf(chunk), pieces);
      assert LegalCell(cell, key, cells == []);
      assert PrintCell(cell) == [Data(chunk)];
      CellDoneIsLegal(reversed, last, script, key, cells, cell);
    }
  }

  /** What it takes for a chunk to continue a split cell. */
  predicate Continues(part: Part, chunk: Chunk) {
    && !IsReset(chunk) && !CarriesMetadata(chunk)
    && (if chunk.valueSize == 0 then |Total(part.pieces)| + |chunk.value| == part.size
        else chunk.valueSize == part.size && |Total(part.pieces)| + |chunk.value| <= part.size && !IsCommit(chunk))
  }

  lemma {:induction false} AcceptedContinues(m: Machine, key: Bytes, cells: seq<CellPlan>, part: Part, chunk: Chunk)
    requires !IsReset(chunk) && Push(AtPart(m, key, cells, part), chunk).result.Success?
    ensures Continues(part, chunk)
  {
  }

  lemma {:induction false} OnePieceMore(part: Part, chunk: Chunk, key: Bytes, first: bool)
    requires LegalPart(part, key, first) && Continues(part, chunk)
    ensures var pieces := part.pieces + [PieceOf(chunk)];
      && Init(pieces) == part.pieces && Last(pieces) == PieceOf(chunk)
      && |Total(pieces)| == |Total(part.pieces)| + |chunk.value|
      && (chunk.valueSize != 0 ==>
            && LegalPart(part.(pieces := pieces), key, first)
            && PrintPieces(part.head, part.size, pieces)
              == PrintPieces(part.head, part.size, part.pieces) + [Data(chunk)])
      && (chunk.valueSize == 0 ==>
            && LegalCell(CellPlan(part.head, pieces), key, first)
            && PrintCell(CellPlan(part.head, pieces)) == PrintPieces(part.head, part.size, part.pieces) + [Data(chunk)])
  {
    var pieces := part.pieces + [PieceOf(chunk)];
    assert Init(pieces) == part.pieces && Last(pieces) == PieceOf(chunk);
    assert Total(pieces) == Total(part.pieces) + chunk.value;
    assert BareChunk(PieceOf(chunk), chunk.valueSize) == Data(chunk);
  }

  /** The last chunk of a split cell. */
  lemma {:induction false} LastPieceIsLegal(
    reversed: bool, last: Option<Bytes>, script: seq<Item>, key: Bytes, cells: seq<CellPlan>, part: Part, chunk: Chunk)
    requires Ready(reversed, last, script, key, cells) && LegalPart(part, key, cells == [])
    requires Continues(part, chunk) && chunk.valueSize == 0
    ensures var r := CellDone(script, key, cells, CellPlan(part.head, part.pieces + [PieceOf(chunk)]), IsCommit(chunk));
      && Legal(reversed, last, r)
      && PrintReading(r)
        == Print(script) + (PrintCells(cells) + (PrintPieces(part.head, part.size, part.pieces) + [Data(chunk)]))
  {
    OnePieceMore(part, chunk, key, cells == []);
    assert !IsReset(chunk);
    hide Ready, CellDone, PrintReading, Legal, LegalPart, LegalCell, PrintCells, PrintCell, PrintPieces, Continues;
    hide Print;
    CellDoneIsLegal(reversed, last, script, key, cells, CellPlan(part.head, part.pieces + [PieceOf(chunk)]));
  }

  /** A further chunk of a split cell that is not its last. */
  lemma {:induction false} NextPieceIsLegal(
    reversed: bool, last: Option<Bytes>, script: seq<Item>, open: OpenRow, chunk: Chunk)
    requires Ready(reversed, last, script, open.key, open.cells)
    requires open.part.Some? && LegalPart(open.part.value, open.key, open.cells == [])
    requires Continues(open.part.value, chunk) && chunk.valueSize != 0
    ensures var part := open.part.value;
      var r := Reading(script, Some(open.(part := Some(part.(pieces := part.pieces + [PieceOf(chunk)])))));
      && Legal(reversed, last, r)
      && PrintReading(r)
        == Print(script) + (PrintCells(open.cells) + (PrintPieces(part.head, part.size, part.pieces) + [Data(chunk)]))
  {
    OnePieceMore(open.part.value, chunk, open.key, open.cells == []);
    hide LegalCells, LegalPart, LegalScript, PrintCells, PrintPieces, Print, Continues, CanStart;
  }

  lemma {:induction false} PrintOneMore(script: seq<Item>, open: OpenRow, e: Event)
    requires open.part.Some?
    ensures var part := open.part.value;
      PrintReading(Reading(script, Some(open))) + [e]
      == Print(script) + (PrintCells(open.cells) + (PrintPieces(part.head, part.size, part.pieces) + [e]))
  {
    hide Print, PrintCells, PrintPieces;
  }

  /** A later chunk of a split cell. */
  lemma {:induction false} ContinuationIsLegal(
    reversed: bool, last: Option<Bytes>, script: seq<Item>, open: OpenRow, chunk: Chunk)
    requires Ready(reversed, last, script, open.key, open.cells)
    requires open.part.Some? && LegalPart(open.part.value, open.key, open.cells == [])
    requires Continues(open.part.value, chunk)
    ensures var r := Reading(script, Some(open));
      && Legal(reversed, last, Extend(r, Data(chunk)))
      && PrintReading(Extend(r, Data(chunk))) == PrintReading(r) + [Data(chunk)]
  {
    assert !IsReset(chunk);
    var part := open.part.value;
    PrintOneMore(script, open, Data(chunk));
    hide Ready, CellDone, PrintReading, Legal, LegalPart, PrintCells, PrintPieces, Continues, Print, IsReset;
    if chunk.valueSize == 0 {
      LastPieceIsLegal(reversed, last, script, open.key, open.cells, part, chunk);
    } else {
      NextPieceIsLegal(reversed, last, script, open, chunk);
    }
  }

  lemma {:induction false} ExtendBetween(reversed: bool, last: Option<Bytes>, script: seq<Item>, e: Event)
    requires LegalScript(reversed, last, script)
    requires Handle(Machine(reversed, LastOf(last, script), Between), e).result.Success?
    ensures var r := Reading(script, None);
      Legal(reversed, last, Extend(r, e)) && PrintReading(Extend(r, e)) == PrintReading(r) + [e]
  {
    assert PrintReading(Reading(script, None)) == Print(script);
    match e {
      case Marker(key) =>
        OneItemMore(reversed, last, script, Mark(key));
      case Data(chunk) =>
        CellBegunIsLegal(reversed, last, script, chunk.rowKey, [], chunk);
        assert PrintCells([]) + [Data(chunk)] == [Data(chunk)];
    }
  }

  lemma {:induction false} ExtendInRow(reversed: bool, last: Option<Bytes>, script: seq<Item>, open: OpenRow, e: Event)
    requires Legal(reversed, last, Reading(script, Some(open)))
    requires Handle(StateOf(reversed, last, Reading(script, Some(open))), e).result.Success?
    ensures var r := Reading(script, Some(open));
      Legal(reversed, last, Extend(r, e)) && PrintReading(Extend(r, e)) == PrintReading(r) + [e]
  {
    hide PushCell, PushContinuation, PushStart, CellBegun, CellDone, LegalCell, LegalPart, Meaning, PrintCells;
    hide PrintPieces, Print, LegalCells;
    var m := Machine(reversed, LastOf(last, script), Between);
    OpenTakesChunks(m, open, e);
    if IsReset(e.chunk) {
      OneItemMore(reversed, last, script, Abandon(open));
      assert Print(script) + PrintOpen(open) + [RESET] == Print(script) + (PrintOpen(open) + [RESET]);
    } else if open.part.None? {
      CellBegunIsLegal(reversed, last, script, open.key, open.cells, e.chunk);
      assert PrintOpen(open) == PrintCells(open.cells);
      assert Print(script) + PrintOpen(open) + [e] == Print(script) + (PrintCells(open.cells) + [e]);
    } else {
      AcceptedContinues(m, open.key, open.cells, open.part.value, e.chunk);
      ContinuationIsLegal(reversed, last, script, open, e.chunk);
    }
  }

  /** Inside a row only chunks are accepted, and of the resets only the bare one. */
  lemma {:induction false} OpenTakesChunks(m: Machine, open: OpenRow, e: Event)
    requires LegalOpen(open) && Handle(AtOpen(m, open), e).result.Success?
    ensures e.Data? && (IsReset(e.chunk) ==> e == RESET)
  {
    assert !AtOpen(m, open).at.Between?;
  }

  lemma {:induction false} FeedAccepts(m: Machine, events: seq<Event>)
    requires events != [] && Feed(m, events).issue.None?
    ensures Feed(m, Init(events)).issue.None?
    ensures Handle(Feed(m, Init(events)).machine, Last(events)).result.Success?
  {
  }

  lemma {:induction false} ExtendReading(
    reversed: bool, last: Option<Bytes>, r: Reading, e: Event) returns (longer: Reading)
    requires Legal(reversed, last, r)
    requires Handle(StateOf(reversed, last, r), e).result.Success?
    ensures Legal(reversed, last, longer) && PrintReading(longer) == PrintReading(r) + [e]
  {
    longer := Extend(r, e);
    if r.tail.None? {
      ExtendBetween(reversed, last, r.script, e);
    } else {
      ExtendInRow(reversed, last, r.script, r.tail.value, e);
    }
  }

  /** Every accepted sequence of events is the spelling of a legal reading. */
  lemma {:induction false} AcceptedWasSpelled(
    reversed: bool, last: Option<Bytes>, events: seq<Event>) returns (r: Reading)
    requires Feed(Machine(reversed, last, Between), events).issue.None?
    ensures Legal(reversed, last, r) && PrintReading(r) == events
  {
    if events == [] {
      r := Reading([], None);
    } else {
      hide *;
      FeedAccepts(Machine(reversed, last, Between), events);
      var before := AcceptedWasSpelled(reversed, last, Init(events));
      FeedReading(reversed, last, before);
      r := ExtendReading(reversed, last, before, Last(events));
      InitAndLast(events);
    }
  }

  /** The merger accepts a sequence of events exactly when it is a legal spelling, finished or cut short. */
  lemma {:induction false} AcceptsExactlyTheLanguage(reversed: bool, last: Option<Bytes>, events: seq<Event>)
    ensures Feed(Machine(reversed, last, Between), events).issue.None?
      <==> exists r :: Legal(reversed, last, r) && PrintReading(r) == events
  {
    if Feed(Machine(reversed, last, Between), events).issue.None? {
      var r := AcceptedWasSpelled(reversed, last, events);
    }
    forall r | Legal(reversed, last, r) && PrintReading(r) == events
      ensures Feed(Machine(reversed, last, Between), events).issue.None? {
      FeedReading(reversed, last, r);
    }
  }

  /** A spelling determines its rows: no event sequence can be read as two different lists of rows. */
  lemma {:induction false} SpellingIsUnambiguous(reversed: bool, last: Option<Bytes>, a: Reading, b: Reading)
    requires Legal(reversed, last, a) && Legal(reversed, last, b)
    requires PrintReading(a) == PrintReading(b)
    ensures RowsOf(a.script) == RowsOf(b.script) && StateOf(reversed, last, a) == StateOf(reversed, last, b)
  {
    FeedReading(reversed, last, a);
    FeedReading(reversed, last, b);
  }
}
