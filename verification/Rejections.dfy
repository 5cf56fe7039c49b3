/** Which chunk is rejected for which reason, in which state. */
module Rejections {
  import opened Wrappers
  import opened Keys
  import opened Rows
  import opened Merging

  predicate Resets(chunk: Chunk) { chunk.status == ResetRow(true) }

  predicate Commits(chunk: Chunk) { chunk.status == CommitRow(true) }

  predicate NamesCell(chunk: Chunk) {
    chunk.rowKey != [] || chunk.family != None || chunk.qualifier != None || chunk.timestamp != 0 || chunk.labels != []
  }

  /** The chunk lies after the last complete key, in the direction of the scan. */
  predicate InDirection(m: Machine, chunk: Chunk) {
    m.last == None || if m.reversed then Less(chunk.rowKey, m.last.value) else Less(m.last.value, chunk.rowKey)
  }

  /** The chunk opens a row. */
  predicate OpensRow(m: Machine, chunk: Chunk) {
    && m.at.Between? && !Resets(chunk)
    && chunk.rowKey != [] && chunk.family != None && chunk.qualifier != None && InDirection(m, chunk)
  }

  /** The chunk opens a cell in a row that is open. */
  predicate OpensCell(m: Machine, chunk: Chunk) {
    && m.at.InRow? && !Resets(chunk)
    && (chunk.rowKey == [] || chunk.rowKey == m.at.key) && (chunk.family == None || chunk.qualifier != None)
  }

  /** The chunk is taken for the first one of a cell. */
  predicate First(m: Machine, chunk: Chunk) { OpensRow(m, chunk) || OpensCell(m, chunk) }

  /** The chunk is taken for a further one of a split cell. */
  predicate Further(m: Machine, chunk: Chunk) { m.at.InCell? && !Resets(chunk) && !NamesCell(chunk) }

  /** More bytes than the cell has declared. */
  predicate TooLarge(m: Machine, chunk: Chunk) { m.at.InCell? && |m.at.got| + |chunk.value| > m.at.expected }

  /** The chunk is rejected in this state for this reason. No two reasons apply at once. */
  ghost predicate Rejected(m: Machine, chunk: Chunk, issue: Issue) {
    match issue
    case ResetBetweenRows => m.at.Between? && Resets(chunk)
    case MissingRowKey => m.at.Between? && !Resets(chunk) && chunk.rowKey == []
    case MissingFamily => m.at.Between? && !Resets(chunk) && chunk.rowKey != [] && chunk.family == None
    case MissingQualifier =>
      m.at.Between? && !Resets(chunk) && chunk.rowKey != [] && chunk.family != None && chunk.qualifier == None
    case OutOfOrderRowKey =>
      && m.at.Between? && !Resets(chunk) && chunk.rowKey != [] && chunk.family != None && chunk.qualifier != None
      && !InDirection(m, chunk)
    case RowKeyChanged => m.at.InRow? && !Resets(chunk) && chunk.rowKey != [] && chunk.rowKey != m.at.key
    case FamilyWithoutQualifier =>
      && m.at.InRow? && !Resets(chunk) && (chunk.rowKey == [] || chunk.rowKey == m.at.key)
      && chunk.family != None && chunk.qualifier == None
    case ResetWithData =>
      !m.at.Between? && Resets(chunk) && (NamesCell(chunk) || chunk.value != [] || chunk.valueSize != 0)
    case NegativeValueSize => (First(m, chunk) || Further(m, chunk)) && chunk.valueSize < 0
    case SplitValueMissingData => First(m, chunk) && chunk.valueSize > 0 && chunk.value == []
    case CommitBeforeCellComplete =>
      || (First(m, chunk) && chunk.valueSize > 0 && chunk.value != [] && Commits(chunk))
      || (&& Further(m, chunk) && chunk.valueSize > 0 && !TooLarge(m, chunk)
          && chunk.valueSize == m.at.expected && Commits(chunk))
    case SplitValueTooLarge =>
      || (First(m, chunk) && 0 < chunk.valueSize < |chunk.value| && !Commits(chunk))
      || (Further(m, chunk) && chunk.valueSize >= 0 && TooLarge(m, chunk))
    case CellMetadataOnContinuation => m.at.InCell? && !Resets(chunk) && NamesCell(chunk)
    case SplitValueSizeChanged =>
      Further(m, chunk) && chunk.valueSize > 0 && !TooLarge(m, chunk) && chunk.valueSize != m.at.expected
    case SplitValueWrongSize =>
      Further(m, chunk) && chunk.valueSize == 0 && |m.at.got| + |chunk.value| < m.at.expected
    case ScanMarkerDuringRow => false
    case IncompleteRow => false
  }

  lemma {:induction false} RejectedBetween(m: Machine, chunk: Chunk, issue: Issue)
    requires m.at.Between?
    ensures PushStart(m, chunk).result == Failure(issue) <==> Rejected(m, chunk, issue)
  {
    hide Group, Less, CarriesData;
  }

  lemma {:induction false} RejectedInRow(m: Machine, chunk: Chunk, issue: Issue)
    requires m.at.InRow?
    ensures PushCell(m, chunk).result == Failure(issue) <==> Rejected(m, chunk, issue)
  {
    hide Group, InDirection;
  }

  lemma {:induction false} RejectedInCell(m: Machine, chunk: Chunk, issue: Issue)
    requires m.at.InCell?
    ensures PushContinuation(m, chunk).result == Failure(issue) <==> Rejected(m, chunk, issue)
  {
    hide Group, InDirection;
  }

  /** A chunk is rejected for a reason if and only if that reason applies. */
  lemma {:induction false} RejectedForAReason(m: Machine, chunk: Chunk, issue: Issue)
    ensures Push(m, chunk).result == Failure(issue) <==> Rejected(m, chunk, issue)
  {
    hide PushStart, PushCell, PushContinuation, Rejected;
    match m.at {
      case Between => RejectedBetween(m, chunk, issue);
      case InRow(_, _, _, _) => RejectedInRow(m, chunk, issue);
      case InCell(_, _, _, _, _, _, _, _) => RejectedInCell(m, chunk, issue);
    }
  }

  /** A scan marker is rejected within a row, and if its key does not lie after the last complete one. */
  lemma {:induction false} MarkerRejectedForAReason(m: Machine, key: Bytes, issue: Issue)
    ensures PushMarker(m, key).result == Failure(issue) <==>
      || (issue == ScanMarkerDuringRow && !m.at.Between?)
      || (&& issue == OutOfOrderRowKey && m.at.Between? && m.last != None
          && !if m.reversed then Less(key, m.last.value) else Less(m.last.value, key))
  {
    hide Less;
  }
}
