/**
 * The incremental row merger.
 *
 * `Machine` is what a merger means: the last complete key and, inside a row, the flat list
 * of completed cells. `RowMerger` is the object that is updated in place; it also holds
 * family, qualifier, timestamp and size fields that keep stale contents between rows.
 */
module Merging {
  import opened Wrappers
  import opened Keys
  import opened Rows

  datatype Issue =
    | ResetBetweenRows
    | MissingRowKey
    | MissingFamily
    | MissingQualifier
    | RowKeyChanged
    | FamilyWithoutQualifier
    | OutOfOrderRowKey
    | ScanMarkerDuringRow
    | ResetWithData
    | NegativeValueSize
    | SplitValueMissingData
    | SplitValueTooLarge
    | CommitBeforeCellComplete
    | CellMetadataOnContinuation
    | SplitValueSizeChanged
    | SplitValueWrongSize
    | IncompleteRow

  datatype RowStatus = NoStatus | ResetRow(reset: bool) | CommitRow(commit: bool)

  datatype Chunk = Chunk(
    rowKey: Bytes,
    family: Option<string>,
    qualifier: Option<Bytes>,
    timestamp: int,
    labels: seq<string>,
    value: Bytes,
    valueSize: int,
    status: RowStatus)

  /** Where a merger stands in the row it is assembling. */
  datatype Assembly =
    | Between
    | InRow(key: Bytes, family: string, qualifier: Bytes, done: seq<Placed>)
    | InCell(key: Bytes, family: string, qualifier: Bytes, done: seq<Placed>,
             timestamp: int, labels: seq<string>, expected: nat, got: Bytes)

  datatype Machine = Machine(reversed: bool, last: Option<Bytes>, at: Assembly)

  datatype Pushed = Pushed(next: Machine, result: Result<Option<Row>, Issue>)

  predicate IsReset(chunk: Chunk) { chunk.status == ResetRow(true) }

  predicate IsCommit(chunk: Chunk) { chunk.status == CommitRow(true) }

  predicate CarriesMetadata(chunk: Chunk) {
    chunk.rowKey != [] || chunk.family.Some? || chunk.qualifier.Some? || chunk.timestamp != 0 || chunk.labels != []
  }

  predicate CarriesData(chunk: Chunk) {
    CarriesMetadata(chunk) || chunk.value != [] || chunk.valueSize != 0
  }

  predicate InOrder(m: Machine, key: Bytes) {
    m.last.None? || Precedes(m.reversed, m.last.value, key)
  }

  function Fail(m: Machine, issue: Issue): Pushed { Pushed(m, Failure(issue)) }

  function Continue(m: Machine, at: Assembly): Pushed { Pushed(m.(at := at), Success(None)) }

  /** A reset drops the row being assembled and nothing else. */
  function PushReset(m: Machine, chunk: Chunk): Pushed {
    if CarriesData(chunk) then Fail(m, ResetWithData) else Continue(m, Between)
  }

  /** A cell is complete; a commit also completes its row. */
  function PushComplete(
    m: Machine, key: Bytes, family: string, qualifier: Bytes, done: seq<Placed>, commit: bool): Pushed {
    if commit then
      Pushed(Machine(m.reversed, Some(key), Between), Success(Some(Row(key, Group(done)))))
    else Continue(m, InRow(key, family, qualifier, done))
  }

  function PushStart(m: Machine, chunk: Chunk): Pushed
    requires m.at.Between?
  {
    if IsReset(chunk) then Fail(m, ResetBetweenRows)
    else if chunk.rowKey == [] then Fail(m, MissingRowKey)
    else if chunk.family.None? then Fail(m, MissingFamily)
    else if chunk.qualifier.None? then Fail(m, MissingQualifier)
    else if !InOrder(m, chunk.rowKey) then Fail(m, OutOfOrderRowKey)
    else PushCell(m.(at := InRow(chunk.rowKey, chunk.family.value, chunk.qualifier.value, [])), chunk)
  }

  function PushCell(m: Machine, chunk: Chunk): Pushed
    requires m.at.InRow?
  {
    if IsReset(chunk) then PushReset(m, chunk)
    else if chunk.rowKey != [] && chunk.rowKey != m.at.key then Fail(m, RowKeyChanged)
    else if chunk.family.Some? && chunk.qualifier.None? then Fail(m, FamilyWithoutQualifier)
    else
      var family, qualifier := chunk.family.GetOr(m.at.family), chunk.qualifier.GetOr(m.at.qualifier);
      var here := m.(at := InRow(m.at.key, family, qualifier, m.at.done));
      if chunk.valueSize < 0 then Fail(here, NegativeValueSize)
      else if chunk.valueSize > 0 then
        if chunk.value == [] then Fail(here, SplitValueMissingData)
        else if IsCommit(chunk) then Fail(here, CommitBeforeCellComplete)
        else if |chunk.value| > chunk.valueSize then Fail(here, SplitValueTooLarge)
        else Continue(m, InCell(m.at.key, family, qualifier, m.at.done,
                                chunk.timestamp, chunk.labels, chunk.valueSize, chunk.value))
      else
        var cell := Placed(family, qualifier, Cell(chunk.timestamp, chunk.value, chunk.labels));
        PushComplete(m, m.at.key, family, qualifier, m.at.done + [cell], IsCommit(chunk))
  }

  function PushContinuation(m: Machine, chunk: Chunk): Pushed
    requires m.at.InCell?
  {
    var got := m.at.got + chunk.value;
    if IsReset(chunk) then PushReset(m, chunk)
    else if CarriesMetadata(chunk) then Fail(m, CellMetadataOnContinuation)
    else if chunk.valueSize < 0 then Fail(m, NegativeValueSize)
    else if |got| > m.at.expected then Fail(m, SplitValueTooLarge)
    else if chunk.valueSize == 0 then
      if |got| != m.at.expected then Fail(m, SplitValueWrongSize)
      else
        var cell := Placed(m.at.family, m.at.qualifier, Cell(m.at.timestamp, got, m.at.labels));
        PushComplete(m, m.at.key, m.at.family, m.at.qualifier, m.at.done + [cell], IsCommit(chunk))
    else if chunk.valueSize != m.at.expected then Fail(m, SplitValueSizeChanged)
    else if IsCommit(chunk) then Fail(m, CommitBeforeCellComplete)
    else Continue(m, m.at.(got := got))
  }

  function Push(m: Machine, chunk: Chunk): Pushed {
    match m.at
    case Between => PushStart(m, chunk)
    case InRow(_, _, _, _) => PushCell(m, chunk)
    case InCell(_, _, _, _, _, _, _, _) => PushContinuation(m, chunk)
  }

  function PushMarker(m: Machine, key: Bytes): Pushed {
    if !m.at.Between? then Fail(m, ScanMarkerDuringRow)
    else if !InOrder(m, key) then Fail(m, OutOfOrderRowKey)
    else Pushed(m.(last := Some(key)), Success(None))
  }

  /** Where a machine stood in the row has no influence on what completing a cell leaves. */
  lemma {:induction false} PlaceIsIrrelevant(
    a: Machine, b: Machine, key: Bytes, family: string, qualifier: Bytes, done: seq<Placed>, commit: bool)
    requires a.reversed == b.reversed && a.last == b.last
    ensures PushComplete(a, key, family, qualifier, done, commit)
      == PushComplete(b, key, family, qualifier, done, commit)
  {
    hide Group;
  }

  function Discard(m: Machine): Machine { m.(at := Between) }

  function Fresh(reversed: bool): Machine { Machine(reversed, None, Between) }

  datatype State = NewRow | NewCell | CellValue

  class RowMerger {
    const reversed: bool
    var state: State
    var lastCompleteKey: Option<Bytes>
    var row: Row
    var family: string
    var qualifier: Bytes
    var timestamp: int
    var labels: seq<string>
    var value: Bytes
    var expectedValueSize: nat
    var remainingValueBytes: nat
    /** The completed cells of the active row, in arrival order. */
    ghost var done: seq<Placed>

    ghost predicate Valid()
      reads this
    {
      && (state != NewRow ==> row.families == Group(done))
      && (state == CellValue ==> |value| + remainingValueBytes == expectedValueSize)
    }

    /** The meaning of the object. Outside a row no field but `lastCompleteKey` matters. */
    ghost function View(): Machine
      reads this
    {
      Machine(reversed, lastCompleteKey,
        match state
        case NewRow => Between
        case NewCell => InRow(row.key, family, qualifier, done)
        case CellValue => InCell(row.key, family, qualifier, done, timestamp, labels, expectedValueSize, value))
    }

    constructor (reversed: bool)
      ensures Valid() && View() == Fresh(reversed)
    {
      this.reversed := reversed;
      state, lastCompleteKey, row, done := NewRow, None, Row([], []), [];
      family, qualifier, timestamp, labels, value := "", [], 0, [], [];
      expectedValueSize, remainingValueBytes := 0, 0;
    }

    method PushChunk(chunk: Chunk) returns (result: Result<Option<Row>, Issue>)
      requires Valid()
      modifies this
      ensures Valid() && Pushed(View(), result) == Push(old(View()), chunk)
    {
      match state {
        case NewRow => result := StartRow(chunk);
        case NewCell => result := StartCell(chunk);
        case CellValue => result := ContinueCell(chunk);
      }
    }

    method ScanMarker(key: Bytes) returns (result: Result<(), Issue>)
      requires Valid()
      modifies this
      ensures Valid() && View() == PushMarker(old(View()), key).next
      ensures result == match PushMarker(old(View()), key).result
                        case Success(_) => Success(())
                        case Failure(issue) => Failure(issue)
    {
      if state != NewRow {
        return Failure(ScanMarkerDuringRow);
      }
      var ordered := ValidateOrder(key);
      if !ordered {
        return Failure(OutOfOrderRowKey);
      }
      lastCompleteKey := Some(key);
      return Success(());
    }

    method DiscardPartial()
      requires Valid()
      modifies this
      ensures Valid() && View() == Discard(old(View()))
    {
      if state != NewRow {
        ClearActiveRow();
      }
    }

    method Finish() returns (result: Result<(), Issue>)
      ensures result == if View().at.Between? then Success(()) else Failure(IncompleteRow)
    {
      return if state == NewRow then Success(()) else Failure(IncompleteRow);
    }

    method StartRow(chunk: Chunk) returns (result: Result<Option<Row>, Issue>)
      requires Valid() && state == NewRow
      modifies this
      ensures Valid() && Pushed(View(), result) == PushStart(old(View()), chunk)
    {
      if chunk.status == ResetRow(true) {
        return Failure(ResetBetweenRows);
      }
      if chunk.rowKey == [] {
        return Failure(MissingRowKey);
      }
      if chunk.family.None? {
        return Failure(MissingFamily);
      }
      if chunk.qualifier.None? {
        return Failure(MissingQualifier);
      }
      var ordered := ValidateOrder(chunk.rowKey);
      if !ordered {
        return Failure(OutOfOrderRowKey);
      }
      row := Row(chunk.rowKey, []);
      done := [];
      family := chunk.family.value;
      qualifier := chunk.qualifier.value;
      state := NewCell;
      assert row.families == Group(done);
      result := StartCell(chunk);
    }

    method StartCell(chunk: Chunk) returns (result: Result<Option<Row>, Issue>)
      requires Valid() && state == NewCell
      modifies this
      ensures Valid() && Pushed(View(), result) == PushCell(old(View()), chunk)
    {
      hide Group, Push, PushStart, PushContinuation, PushMarker, InOrder, PushReset, PushComplete, CarriesData;
      if chunk.status == ResetRow(true) {
        result := ResetActiveRow(chunk);
        return;
      }
      if chunk.rowKey != [] && chunk.rowKey != row.key {
        return Failure(RowKeyChanged);
      }
      if chunk.family.Some? && chunk.qualifier.None? {
        return Failure(FamilyWithoutQualifier);
      }
      EnterColumn(chunk);
      if chunk.valueSize < 0 {
        return Failure(NegativeValueSize);
      }
      timestamp := chunk.timestamp;
      labels := chunk.labels;
      value := [];
      if chunk.valueSize > 0 {
        result := BeginSplit(chunk);
        return;
      }
      value := value + chunk.value;
      assert value == chunk.value;
      ghost var cell := Placed(family, qualifier, Cell(timestamp, value, labels));
      PlaceIsIrrelevant(old(View()), View(), row.key, family, qualifier, done + [cell], IsCommit(chunk));
      result := EndCell(chunk.status == CommitRow(true));
    }

    /** A family or qualifier that is left out repeats the one before. */
    method EnterColumn(chunk: Chunk)
      modifies this`family, this`qualifier
      ensures family == chunk.family.GetOr(old(family)) && qualifier == chunk.qualifier.GetOr(old(qualifier))
    {
      if chunk.family.Some? {
        family := chunk.family.value;
      }
      if chunk.qualifier.Some? {
        qualifier := chunk.qualifier.value;
      }
    }

    /** The first piece of a split cell, once its column and metadata are set. */
    method BeginSplit(chunk: Chunk) returns (result: Result<Option<Row>, Issue>)
      requires Valid() && state == NewCell && value == [] && chunk.valueSize > 0
      modifies this`value, this`expectedValueSize, this`remainingValueBytes, this`state
      ensures Valid() && result ==
        if chunk.value == [] then Failure(SplitValueMissingData)
        else if IsCommit(chunk) then Failure(CommitBeforeCellComplete)
        else if |chunk.value| > chunk.valueSize then Failure(SplitValueTooLarge)
        else Success(None)
      ensures state == if result.Success? then CellValue else NewCell
      ensures result.Success? ==> value == chunk.value && expectedValueSize == chunk.valueSize
    {
      if chunk.value == [] {
        return Failure(SplitValueMissingData);
      }
      if chunk.status == CommitRow(true) {
        return Failure(CommitBeforeCellComplete);
      }
      if |chunk.value| > chunk.valueSize {
        return Failure(SplitValueTooLarge);
      }
      value := value + chunk.value;
      expectedValueSize := chunk.valueSize;
      remainingValueBytes := chunk.valueSize - |chunk.value|;
      state := CellValue;
      return Success(None);
    }

    method ContinueCell(chunk: Chunk) returns (result: Result<Option<Row>, Issue>)
      requires Valid() && state == CellValue
      modifies this
      ensures Valid() && Pushed(View(), result) == PushContinuation(old(View()), chunk)
    {
      if chunk.status == ResetRow(true) {
        result := ResetActiveRow(chunk);
        return;
      }
      if chunk.rowKey != [] || chunk.family.Some? || chunk.qualifier.Some? || chunk.timestamp != 0 ||
        chunk.labels != [] {
        return Failure(CellMetadataOnContinuation);
      }
      if chunk.valueSize < 0 {
        return Failure(NegativeValueSize);
      }
      if |chunk.value| > remainingValueBytes {
        return Failure(SplitValueTooLarge);
      }
      var terminal := chunk.valueSize == 0;
      if terminal {
        if |chunk.value| != remainingValueBytes {
          return Failure(SplitValueWrongSize);
        }
      } else {
        if chunk.valueSize != expectedValueSize {
          return Failure(SplitValueSizeChanged);
        }
        if chunk.status == CommitRow(true) {
          return Failure(CommitBeforeCellComplete);
        }
      }
      value := value + chunk.value;
      remainingValueBytes := remainingValueBytes - |chunk.value|;
      if !terminal {
        return Success(None);
      }
      result := EndCell(chunk.status == CommitRow(true));
    }

    /** The shared tail of a whole cell and of the last piece of a split one. */
    method EndCell(commit: bool) returns (result: Result<Option<Row>, Issue>)
      requires state != NewRow && row.families == Group(done)
      modifies this
      ensures Valid()
      ensures var cell := Placed(old(family), old(qualifier), Cell(old(timestamp), old(value), old(labels)));
        Pushed(View(), result)
          == PushComplete(old(View()), old(row.key), old(family), old(qualifier), old(done) + [cell], commit)
    {
      FinishCell();
      if commit {
        var complete := CommitRowNow();
        return Success(Some(complete));
      }
      state := NewCell;
      return Success(None);
    }

    /** The cell goes to the end of its column; a new column to the end of its family; a new family to the end. */
    method FinishCell()
      requires row.families == Group(done)
      modifies this`row, this`value, this`labels, this`done
      ensures done == old(done) + [Placed(family, qualifier, Cell(timestamp, old(value), old(labels)))]
      ensures row == Row(old(row.key), Group(done))
    {
      var cell := Cell(timestamp, value, labels);
      ghost var p := Placed(family, qualifier, cell);
      value, labels := [], [];
      var i := 0;
      while i < |row.families| && row.families[i].name != family
        invariant i <= |row.families|
        invariant forall k :: 0 <= k < i ==> row.families[k].name != family
      {
        i := i + 1;
      }
      if i < |row.families| {
        FamilyExtends(done, p, i);
        var columns := PushIntoColumns(row.families[i].columns, cell);
        row := row.(families := row.families[i := Family(family, columns)]);
      } else {
        FamilyAbsent(done, family, row.families);
        FamilyOpens(done, p);
        row := row.(families := row.families + [Family(family, [Column(qualifier, [cell])])]);
      }
      done := done + [p];
    }

    method PushIntoColumns(columns: seq<Column>, cell: Cell) returns (after: seq<Column>)
      requires columns == FamilyOf(done, family).columns
      ensures Family(family, after) == FamilyOf(done + [Placed(family, qualifier, cell)], family)
    {
      ghost var p := Placed(family, qualifier, cell);
      var j := 0;
      while j < |columns| && columns[j].qualifier != qualifier
        invariant j <= |columns|
        invariant forall k :: 0 <= k < j ==> columns[k].qualifier != qualifier
      {
        j := j + 1;
      }
      if j < |columns| {
        ColumnExtends(done, p, j);
        after := columns[j := Column(qualifier, columns[j].cells + [cell])];
      } else {
        assert forall k :: 0 <= k < |columns| ==> Qualifiers(done, family)[k] == columns[k].qualifier;
        ColumnOpens(done, p);
        after := columns + [Column(qualifier, [cell])];
      }
    }

    method CommitRowNow() returns (complete: Row)
      modifies this
      ensures complete == old(row)
      ensures state == NewRow && lastCompleteKey == Some(old(row.key)) && View().at.Between?
    {
      complete := row;
      row := Row([], []);
      lastCompleteKey := Some(complete.key);
      ClearCell();
      state := NewRow;
    }

    method ValidateOrder(key: Bytes) returns (ordered: bool)
      ensures ordered == InOrder(View(), key)
    {
      if lastCompleteKey.None? {
        return true;
      }
      return if reversed then Less(key, lastCompleteKey.value) else Less(lastCompleteKey.value, key);
    }

    method ResetActiveRow(chunk: Chunk) returns (result: Result<Option<Row>, Issue>)
      requires Valid() && state != NewRow
      modifies this
      ensures Valid() && Pushed(View(), result) == PushReset(old(View()), chunk)
    {
      if chunk.rowKey != [] || chunk.family.Some? || chunk.qualifier.Some? || chunk.timestamp != 0
         || chunk.labels != [] || chunk.value != [] || chunk.valueSize != 0 {
        return Failure(ResetWithData);
      }
      ClearActiveRow();
      return Success(None);
    }

    method ClearActiveRow()
      modifies this
      ensures Valid() && View() == Discard(old(View()))
    {
      row := Row([], []);
      family := "";
      qualifier := [];
      ClearCell();
      state := NewRow;
    }

    method ClearCell()
      modifies this`timestamp, this`labels, this`value, this`expectedValueSize, this`remainingValueBytes
    {
      timestamp, labels, value := 0, [], [];
      expectedValueSize, remainingValueBytes := 0, 0;
    }
  }
}
