/**
 * The chunk language of `ReadRows`: every way a server may spell rows, and what the merger makes of it.
 *
 * A script is a list of sent rows, abandoned rows and scan markers. Each cell may be cut into any pieces,
 * repeated keys, families and qualifiers may be left out, and false status flags may stand anywhere.
 */
module Wire {
  import opened Wrappers
  import opened Keys
  import opened Rows
  import opened Merging

  datatype Event = Marker(key: Bytes) | Data(chunk: Chunk)

  /** What feeding a sequence of events leaves: the machine, the rows completed, the first issue. */
  datatype Fed = Fed(machine: Machine, rows: seq<Row>, issue: Option<Issue>)

  function Handle(m: Machine, e: Event): Pushed {
    match e
    case Marker(key) => PushMarker(m, key)
    case Data(chunk) => Push(m, chunk)
  }

  /** Feeding stops at the first issue. */
  function Feed(m: Machine, events: seq<Event>): Fed {
    if events == [] then Fed(m, [], None)
    else
      var before := Feed(m, Init(events));
      if before.issue.Some? then before
      else
        var p := Handle(before.machine, Last(events));
        match p.result
        case Failure(issue) => Fed(p.next, before.rows, Some(issue))
        case Success(None) => Fed(p.next, before.rows, None)
        case Success(Some(row)) => Fed(p.next, before.rows + [row], None)
  }

  lemma {:induction false} FeedJoin(m: Machine, a: seq<Event>, b: seq<Event>)
    ensures Feed(m, a).issue.Some? ==> Feed(m, a + b) == Feed(m, a)
    ensures Feed(m, a).issue.None? ==>
      var rest := Feed(Feed(m, a).machine, b);
      Feed(m, a + b) == rest.(rows := Feed(m, a).rows + rest.rows)
  {
    if b == [] {
      assert a + b == a;
    } else {
      FeedJoin(m, a, Init(b));
      assert Init(a + b) == a + Init(b) && Last(a + b) == Last(b);
    }
  }

  /** Feeding one more event. */
  lemma {:induction false} FeedSnoc(m: Machine, events: seq<Event>, e: Event)
    ensures Feed(m, events + [e]) ==
      var before := Feed(m, events);
      if before.issue.Some? then before
      else
        var p := Handle(before.machine, e);
        match p.result
        case Failure(issue) => Fed(p.next, before.rows, Some(issue))
        case Success(None) => Fed(p.next, before.rows, None)
        case Success(Some(row)) => Fed(p.next, before.rows + [row], None)
  {
    assert Init(events + [e]) == events && Last(events + [e]) == e;
  }

  /** What the first `n` events leave is part of what all of them leave, and an issue among them is final. */
  lemma {:induction false} FeedPrefix(m: Machine, events: seq<Event>, n: nat)
    requires n <= |events|
    ensures Feed(m, events[..n]).rows <= Feed(m, events).rows
    ensures Feed(m, events[..n]).issue.Some? ==> Feed(m, events) == Feed(m, events[..n])
  {
    hide Feed;
    FeedJoin(m, events[..n], events[n..]);
    assert events[..n] + events[n..] == events;
  }

  /** Event `n` of a feed: either it fails and decides the feed, or the feed goes on from it. */
  lemma {:induction false} FeedStep(m: Machine, events: seq<Event>, n: nat)
    requires n < |events| && Feed(m, events[..n]).issue.None?
    ensures var before := Feed(m, events[..n]);
      var p := Handle(before.machine, events[n]);
      match p.result
      case Failure(issue) => Feed(m, events) == Fed(p.next, before.rows, Some(issue))
      case Success(None) => Feed(m, events[..n + 1]) == Fed(p.next, before.rows, None)
      case Success(Some(row)) =>
        Feed(m, events[..n + 1]) == Fed(p.next, before.rows + [row], None) &&
          before.rows + [row] <= Feed(m, events).rows
  {
    assert events[..n + 1] == events[..n] + [events[n]];
    FeedSnoc(m, events[..n], events[n]);
    FeedPrefix(m, events, n + 1);
  }

  // ---------- what a server may print ----------

  /** The first chunk of a cell; `key`, `family` and `qualifier` may be left out where they repeat. */
  datatype Head = Head(
    key: Bytes, family: Option<string>, qualifier: Option<Bytes>, timestamp: int, labels: seq<string>)

  datatype Piece = Piece(bytes: Bytes, status: RowStatus)

  /** A complete cell in one piece, or split into several. */
  datatype CellPlan = CellPlan(head: Head, pieces: seq<Piece>)

  /** A split cell of declared size whose last piece has not been sent. */
  datatype Part = Part(head: Head, size: nat, pieces: seq<Piece>)

  datatype OpenRow = OpenRow(key: Bytes, cells: seq<CellPlan>, part: Option<Part>)

  datatype Item = Mark(key: Bytes) | Send(key: Bytes, cells: seq<CellPlan>) | Abandon(open: OpenRow)

  function HeadChunk(head: Head, piece: Piece, size: nat): Event {
    Data(Chunk(head.key, head.family, head.qualifier, head.timestamp, head.labels, piece.bytes, size, piece.status))
  }

  function BareChunk(piece: Piece, size: nat): Event {
    Data(Chunk([], None, None, 0, [], piece.bytes, size, piece.status))
  }

  function Total(pieces: seq<Piece>): Bytes {
    if pieces == [] then [] else Total(Init(pieces)) + Last(pieces).bytes
  }

  /** Pieces that are not the last of their cell all declare its size. */
  function PrintPieces(head: Head, size: nat, pieces: seq<Piece>): seq<Event> {
    if pieces == [] then []
    else
      PrintPieces(head, size, Init(pieces))
      + [if |pieces| == 1 then HeadChunk(head, Last(pieces), size) else BareChunk(Last(pieces), size)]
  }

  /** The last piece declares size zero, and so does a cell in one piece. */
  function PrintCell(cell: CellPlan): seq<Event> {
    if cell.pieces == [] then []
    else
      PrintPieces(cell.head, |Total(cell.pieces)|, Init(cell.pieces))
      + [if |cell.pieces| == 1 then HeadChunk(cell.head, Last(cell.pieces), 0) else BareChunk(Last(cell.pieces), 0)]
  }

  function PrintCells(cells: seq<CellPlan>): seq<Event> {
    if cells == [] then [] else PrintCells(Init(cells)) + PrintCell(Last(cells))
  }

  function PrintOpen(open: OpenRow): seq<Event> {
    PrintCells(open.cells)
    + if open.part.Some? then PrintPieces(open.part.value.head, open.part.value.size, open.part.value.pieces) else []
  }

  const RESET := BareChunk(Piece([], ResetRow(true)), 0)

  function PrintItem(item: Item): seq<Event> {
    match item
    case Mark(key) => [Marker(key)]
    case Send(_, cells) => PrintCells(cells)
    case Abandon(open) => PrintOpen(open) + [RESET]
  }

  function Print(script: seq<Item>): seq<Event> {
    if script == [] then [] else Print(Init(script)) + PrintItem(Last(script))
  }

  // ---------- what it means ----------

  /** Family and qualifier in force after the cells. */
  function FamilyAfter(cells: seq<CellPlan>): string {
    if cells == [] then "" else Last(cells).head.family.GetOr(FamilyAfter(Init(cells)))
  }

  function QualifierAfter(cells: seq<CellPlan>): Bytes {
    if cells == [] then [] else Last(cells).head.qualifier.GetOr(QualifierAfter(Init(cells)))
  }

  /** The cells that were spelled. */
  function Meaning(cells: seq<CellPlan>): seq<Placed> {
    if cells == [] then []
    else
      var c := Last(cells);
      Meaning(Init(cells))
      + [Placed(FamilyAfter(cells), QualifierAfter(cells), Cell(c.head.timestamp, Total(c.pieces), c.head.labels))]
  }

  function RowsOf(script: seq<Item>): seq<Row> {
    if script == [] then []
    else
      RowsOf(Init(script))
      + match Last(script)
        case Send(key, cells) => [Row(key, Group(Meaning(cells)))]
        case _ => []
  }

  /** The scan position a script leaves. */
  function LastOf(last: Option<Bytes>, script: seq<Item>): Option<Bytes> {
    if script == [] then last
    else
      match Last(script)
      case Send(key, _) => Some(key)
      case Mark(key) => Some(key)
      case Abandon(_) => LastOf(last, Init(script))
  }

  // ---------- what is legal ----------

  predicate Quiet(status: RowStatus) { status != ResetRow(true) && status != CommitRow(true) }

  predicate LegalHead(head: Head, key: Bytes, first: bool) {
    if first then head.key == key && head.family.Some? && head.qualifier.Some?
    else (head.key == [] || head.key == key) && (head.family.Some? ==> head.qualifier.Some?)
  }

  predicate LegalPart(part: Part, key: Bytes, first: bool) {
    && LegalHead(part.head, key, first)
    && part.pieces != [] && part.pieces[0].bytes != []
    && (forall p :: p in part.pieces ==> Quiet(p.status))
    && |Total(part.pieces)| <= part.size
  }

  /** A complete cell; its last status is left to the row. */
  predicate LegalCell(cell: CellPlan, key: Bytes, first: bool) {
    && cell.pieces != []
    && LegalHead(cell.head, key, first)
    && (|cell.pieces| > 1 ==> LegalPart(Part(cell.head, |Total(cell.pieces)|, Init(cell.pieces)), key, first))
  }

  ghost predicate LegalCells(key: Bytes, cells: seq<CellPlan>) {
    && key != []
    && (forall i :: 0 <= i < |cells| ==> LegalCell(cells[i], key, i == 0))
    && (forall i :: 0 <= i < |cells| - 1 ==> Quiet(Last(cells[i].pieces).status))
  }

  ghost predicate LegalOpen(open: OpenRow) {
    && LegalCells(open.key, open.cells)
    && (open.cells != [] ==> Quiet(Last(Last(open.cells).pieces).status))
    && (open.part.Some? ==> LegalPart(open.part.value, open.key, open.cells == []))
    && (open.cells == [] ==> open.part.Some?)
  }

  ghost predicate LegalRow(key: Bytes, cells: seq<CellPlan>) {
    && cells != []
    && LegalCells(key, cells)
    && Last(Last(cells).pieces).status == CommitRow(true)
  }

  ghost predicate LegalItem(reversed: bool, last: Option<Bytes>, item: Item) {
    match item
    case Mark(key) => last.None? || Precedes(reversed, last.value, key)
    case Send(key, cells) => LegalRow(key, cells) && (last.None? || Precedes(reversed, last.value, key))
    case Abandon(open) => LegalOpen(open) && (last.None? || Precedes(reversed, last.value, open.key))
  }

  ghost predicate LegalScript(reversed: bool, last: Option<Bytes>, script: seq<Item>) {
    script == [] ||
      (LegalScript(reversed, last, Init(script)) && LegalItem(reversed, LastOf(last, Init(script)), Last(script)))
  }
}
