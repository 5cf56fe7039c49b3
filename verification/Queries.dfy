/** Row ranges and row sets of a query, and the request they are sent as. */
module Queries {
  import opened Wrappers
  import opened Keys

  datatype RowBound = Unbounded | Inclusive(key: Bytes) | Exclusive(key: Bytes)

  datatype RowRange = RowRange(start: RowBound, end: RowBound)

  /** Bounds as the wire carries them. */
  datatype StartKey = StartKeyClosed(key: Bytes) | StartKeyOpen(key: Bytes)

  datatype EndKey = EndKeyOpen(key: Bytes) | EndKeyClosed(key: Bytes)

  datatype ProtoRange = ProtoRange(startKey: Option<StartKey>, endKey: Option<EndKey>)

  datatype RowSet = RowSet(rowKeys: seq<Bytes>, rowRanges: seq<ProtoRange>)

  /** A high-level read; table, filter and profile do not influence row selection here. */
  datatype Query = Query(rowKeys: seq<Bytes>, rowRanges: seq<RowRange>, limit: Option<nat>, reversed: bool)

  datatype ReadRowsRequest = ReadRowsRequest(rows: Option<RowSet>, rowsLimit: nat, reversed: bool)

  /** What the service reads for a range. An empty bound leaves its side unbounded. */
  predicate InRange(range: ProtoRange, key: Bytes) {
    && (match range.startKey
        case None => true
        case Some(StartKeyClosed(start)) => !Less(key, start)
        case Some(StartKeyOpen(start)) => Less(start, key))
    && (match range.endKey
        case None => true
        case Some(EndKeyOpen(end)) => end == [] || Less(key, end)
        case Some(EndKeyClosed(end)) => end == [] || !Less(end, key))
  }

  /** The key is named, or lies in one of the ranges. */
  predicate InRowSet(rows: RowSet, key: Bytes) {
    key in rows.rowKeys || exists i :: 0 <= i < |rows.rowRanges| && InRange(rows.rowRanges[i], key)
  }

  /** What the service reads for a request: the whole table unless the row set names something. */
  predicate Selects(rows: Option<RowSet>, key: Bytes) {
    match rows
    case None => true
    case Some(named) => (named.rowKeys == [] && named.rowRanges == []) || InRowSet(named, key)
  }

  function ToProto(range: RowRange): ProtoRange {
    ProtoRange(
      match range.start
      case Unbounded => None
      case Inclusive(key) => Some(StartKeyClosed(key))
      case Exclusive(key) => Some(StartKeyOpen(key)),
      match range.end
      case Unbounded => None
      case Inclusive(key) => Some(EndKeyClosed(key))
      case Exclusive(key) => Some(EndKeyOpen(key)))
  }

  function IntoRequest(query: Query): ReadRowsRequest {
    ReadRowsRequest(
      if query.rowKeys == [] && query.rowRanges == [] then None
      else
        var ranges := seq(|query.rowRanges|, i requires 0 <= i < |query.rowRanges| => ToProto(query.rowRanges[i]));
        Some(RowSet(query.rowKeys, ranges)),
      query.limit.GetOr(0),
      query.reversed)
  }

  /** The smallest key greater than every key with this prefix, when there is one. */
  method PrefixSuccessor(prefix: Bytes) returns (successor: Option<Bytes>)
    ensures successor.None? ==> forall k :: 0 <= k < |prefix| ==> prefix[k] == 0xFF
    ensures successor.Some? ==> forall key: Bytes :: Less(key, successor.value) <==> prefix <= key || Less(key, prefix)
  {
    var index := |prefix|;
    while index > 0 && prefix[index - 1] == 0xFF
      invariant 0 <= index <= |prefix|
      invariant forall k :: index <= k < |prefix| ==> prefix[k] == 0xFF
    {
      index := index - 1;
    }
    if index == 0 {
      return None;
    }
    var end := prefix[index - 1 := prefix[index - 1] + 1];
    end := end[..index];
    forall key: Bytes ensures Less(key, end) <==> prefix <= key || Less(key, prefix) {
      BumpedBound(prefix, index - 1, key);
      assert end == prefix[..index - 1] + [prefix[index - 1] + 1];
    }
    return Some(end);
  }

  /** Raising the last byte that is not 0xFF, and dropping what follows it, bounds the prefix from above. */
  lemma {:induction false} BumpedBound(prefix: Bytes, at: nat, key: Bytes)
    requires at < |prefix| && prefix[at] < 0xFF
    requires forall k :: at < k < |prefix| ==> prefix[k] == 0xFF
    ensures Less(key, prefix[..at] + [prefix[at] + 1]) <==> prefix <= key || Less(key, prefix)
  {
    var end := prefix[..at] + [prefix[at] + 1];
    if key == [] {
    } else if at > 0 {
      BumpedBound(prefix[1..], at - 1, key[1..]);
      assert end[1..] == prefix[1..][..at - 1] + [prefix[1..][at - 1] + 1];
      assert prefix <= key <==> key[0] == prefix[0] && prefix[1..] <= key[1..];
    } else {
      assert end[1..] == [];
      AllOnes(prefix[1..], key[1..]);
      assert prefix <= key <==> key[0] == prefix[0] && prefix[1..] <= key[1..];
    }
  }

  /** Every key is below a string of 0xFF bytes, or starts with it. */
  lemma {:induction false} AllOnes(ones: Bytes, key: Bytes)
    requires forall k :: 0 <= k < |ones| ==> ones[k] == 0xFF
    ensures ones <= key || Less(key, ones)
  {
    if ones == [] || key == [] {
    } else {
      AllOnes(ones[1..], key[1..]);
      assert ones[1..] <= key[1..] && key[0] == 0xFF ==> ones <= key;
    }
  }

  /** A key with the prefix is never below it. */
  lemma {:induction false} PrefixIsLeast(prefix: Bytes, key: Bytes)
    requires prefix <= key
    ensures !Less(key, prefix)
  {
    if prefix == [] {
    } else {
      PrefixIsLeast(prefix[1..], key[1..]);
    }
  }

  /** `RowRange::prefix` holds exactly the keys that start with the prefix. */
  method PrefixRange(prefix: Bytes) returns (range: RowRange)
    ensures forall key: Bytes :: InRange(ToProto(range), key) <==> prefix <= key
  {
    var successor := PrefixSuccessor(prefix);
    var end := if successor.Some? then Exclusive(successor.value) else Unbounded;
    range := RowRange(Inclusive(prefix), end);
    assert successor.Some? ==> Less(prefix, successor.value) by {
      assert prefix <= prefix;
    }
    forall key: Bytes ensures InRange(ToProto(range), key) <==> prefix <= key {
      if prefix <= key {
        PrefixIsLeast(prefix, key);
      } else if successor.None? {
        AllOnes(prefix, key);
      }
    }
  }
}
