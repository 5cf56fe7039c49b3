/** Whatever a server sends, the merger only moves forwards. */
module ScanOrder {
  import opened Wrappers
  import opened Keys
  import opened Rows
  import opened Merging
  import opened Wire

  /** The row under assembly lies after everything completed. */
  ghost predicate Sound(m: Machine) { m.at.Between? || InOrder(m, m.at.key) }

  /** Inside a row a chunk leaves the row open, drops it or completes it. */
  ghost predicate StaysAtRow(m: Machine, p: Pushed)
    requires !m.at.Between?
  {
    && p.next.reversed == m.reversed
    && match p.result
       case Success(Some(row)) => row.key == m.at.key && p.next == Machine(m.reversed, Some(m.at.key), Between)
       case _ => p.next.last == m.last && (p.next.at.Between? || p.next.at.key == m.at.key)
  }

  lemma {:induction false} CellStaysAtRow(m: Machine, chunk: Chunk)
    requires m.at.InRow?
    ensures StaysAtRow(m, PushCell(m, chunk))
  {
    hide Group, CarriesData;
  }

  lemma {:induction false} ContinuationStaysAtRow(m: Machine, chunk: Chunk)
    requires m.at.InCell?
    ensures StaysAtRow(m, PushContinuation(m, chunk))
  {
    hide Group, CarriesData, CarriesMetadata;
  }

  lemma {:induction false} StepMovesForward(m: Machine, e: Event)
    requires Sound(m)
    ensures var p := Handle(m, e);
      && Sound(p.next) && p.next.reversed == m.reversed
      && (p.next.last == m.last || (p.next.last.Some? && InOrder(m, p.next.last.value)))
      && (p.result.Failure? ==> p.next.last == m.last)
      && (p.result.Success? && p.result.value.Some? ==>
            p.next.last == Some(p.result.value.value.key) && InOrder(m, p.result.value.value.key))
  {
    hide Group, Precedes, PushCell, PushContinuation;
    match e {
      case Marker(key) =>
      case Data(chunk) =>
        match m.at {
          case Between =>
            if chunk.family.Some? && chunk.qualifier.Some? {
              CellStaysAtRow(m.(at := InRow(chunk.rowKey, chunk.family.value, chunk.qualifier.value, [])), chunk);
            }
          case InRow(_, _, _, _) => CellStaysAtRow(m, chunk);
          case InCell(_, _, _, _, _, _, _, _) => ContinuationStaysAtRow(m, chunk);
        }
    }
  }

  /** Of the chunks, only the one that completes a row moves the position, and it moves it to that row. */
  lemma {:induction false} ChunkMovesLast(m: Machine, chunk: Chunk)
    ensures var p := Push(m, chunk);
      && p.next.reversed == m.reversed
      && p.next.last == if p.result.Success? && p.result.value.Some? then Some(p.result.value.value.key) else m.last
  {
    hide Group, InOrder, PushCell, PushContinuation;
    match m.at {
      case Between =>
        if chunk.family.Some? && chunk.qualifier.Some? {
          CellStaysAtRow(m.(at := InRow(chunk.rowKey, chunk.family.value, chunk.qualifier.value, [])), chunk);
        }
      case InRow(_, _, _, _) => CellStaysAtRow(m, chunk);
      case InCell(_, _, _, _, _, _, _, _) => ContinuationStaysAtRow(m, chunk);
    }
  }

  ghost predicate StrictlyOrdered(reversed: bool, rows: seq<Row>) {
    forall i, j :: 0 <= i < j < |rows| ==> Precedes(reversed, rows[i].key, rows[j].key)
  }

  /** Completed rows come in strict scan order, after the position the machine started from, up to the one reached. */
  lemma {:induction false} RowsComeInOrder(m: Machine, events: seq<Event>)
    requires Sound(m)
    ensures var fed := Feed(m, events);
      && Sound(fed.machine) && fed.machine.reversed == m.reversed
      && StrictlyOrdered(m.reversed, fed.rows)
      && (forall i :: 0 <= i < |fed.rows| ==>
        InOrder(m, fed.rows[i].key) && Passed(m.reversed, fed.machine.last, fed.rows[i].key))
      && (m.last.Some? ==> Passed(m.reversed, fed.machine.last, m.last.value))
  {
    if events == [] {
      if m.last.Some? {
        PrecedesTransitive(m.reversed, m.last.value, m.last.value, m.last.value);
      }
    } else {
      hide Handle;
      RowsComeInOrder(m, Init(events));
      var before := Feed(m, Init(events));
      var after := Feed(m, events);
      if before.issue.None? {
        StepMovesForward(before.machine, Last(events));
        forall key | Passed(m.reversed, before.machine.last, key) ensures Passed(m.reversed, after.machine.last, key) {
          PassedIsMonotone(before.machine, after.machine, key);
        }
        if |after.rows| > |before.rows| {
          NewRowIsNext(m, before, Last(after.rows));
        }
      }
    }
  }

  lemma {:induction false} PassedIsMonotone(a: Machine, b: Machine, key: Bytes)
    requires a.reversed == b.reversed && Passed(a.reversed, a.last, key)
    requires b.last == a.last || (b.last.Some? && InOrder(a, b.last.value))
    ensures Passed(b.reversed, b.last, key)
  {
    if b.last != a.last {
      PrecedesTransitive(a.reversed, a.last.value, b.last.value, key);
    }
  }

  lemma {:induction false} NewRowIsNext(m: Machine, before: Fed, row: Row)
    requires before.machine.reversed == m.reversed && InOrder(before.machine, row.key)
    requires forall i :: 0 <= i < |before.rows| ==> Passed(m.reversed, before.machine.last, before.rows[i].key)
    requires m.last.Some? ==> Passed(m.reversed, before.machine.last, m.last.value)
    ensures forall i :: 0 <= i < |before.rows| ==> Precedes(m.reversed, before.rows[i].key, row.key)
    ensures InOrder(m, row.key)
    ensures Passed(m.reversed, Some(row.key), row.key)
  {
    PrecedesTransitive(m.reversed, row.key, row.key, row.key);
    forall i | 0 <= i < |before.rows| ensures Precedes(m.reversed, before.rows[i].key, row.key) {
      PrecedesTransitive(m.reversed, before.rows[i].key, before.machine.last.value, row.key);
    }
    if m.last.Some? {
      PrecedesTransitive(m.reversed, m.last.value, before.machine.last.value, row.key);
    }
  }
}
