/**
 * The limits of a request, said of the request itself: its entries, its changes and its bytes.
 *
 * Section "Base 128 Varints" and "Length-Delimited Records" of the Protocol Buffers Encoding guide.
 */
module Encoding {
  import opened Keys
  import opened Rows
  import opened Mutations
  import opened Splitting

  const ENTRIES_FIELD: nat := 2

  const LENGTH_DELIMITED: nat := 2

  /** A field that holds a message: its tag, the length of the message, the message. */
  function EncodedField(message: seq<Byte>): seq<Byte> {
    Varint(8 * ENTRIES_FIELD + LENGTH_DELIMITED) + Varint(|message|) + message
  }

  /** A request: what it holds besides entries, and the entries in order. */
  function EncodedRequest(head: seq<Byte>, batch: seq<PendingEntry>, encode: RowMutation -> seq<Byte>): seq<Byte> {
    if batch == [] then head
    else EncodedRequest(head, Init(batch), encode) + EncodedField(encode(Last(batch).entry))
  }

  function AllChanges(batch: seq<PendingEntry>): seq<Mutation> {
    if batch == [] then [] else AllChanges(Init(batch)) + Last(batch).entry.mutations
  }

  /** The lengths that entries carry are those of their messages. */
  ghost predicate Encodes(encode: RowMutation -> seq<Byte>) {
    forall row :: |encode(row)| == row.encodedLen
  }

  /** The running byte count is the length of the encoded request. */
  lemma {:induction false} BytesAreCounted(head: seq<Byte>, batch: seq<PendingEntry>, encode: RowMutation -> seq<Byte>)
    requires Encodes(encode)
    ensures |EncodedRequest(head, batch, encode)| == |head| + EntryBytes(batch)
  {
    if batch == [] {
    } else {
      BytesAreCounted(head, Init(batch), encode);
      assert |Varint(18)| == 1;
      assert |encode(Last(batch).entry)| == Last(batch).entry.encodedLen;
    }
  }

  lemma {:induction false} ChangesAreCounted(batch: seq<PendingEntry>)
    ensures |AllChanges(batch)| == MutationCount(batch)
  {
    if batch == [] {
    } else {
      ChangesAreCounted(Init(batch));
    }
  }

  /** A single entry is always sent; several only within the three limits. */
  ghost predicate MayBeSent(
    policy: BatchPolicy, head: seq<Byte>, batch: seq<PendingEntry>, encode: RowMutation -> seq<Byte>) {
    && batch != []
    && (|batch| > 1 ==>
          && |batch| <= policy.maxEntries
          && |AllChanges(batch)| <= 100_000
          && |EncodedRequest(head, batch, encode)| <= policy.maxBytes)
  }

  lemma {:induction false} FitsIfItMayBeSent(
    policy: BatchPolicy, head: seq<Byte>, batch: seq<PendingEntry>, encode: RowMutation -> seq<Byte>)
    requires Encodes(encode)
    ensures Fits(policy, |head|, batch) <==> MayBeSent(policy, head, batch, encode)
  {
    BytesAreCounted(head, batch, encode);
    ChangesAreCounted(batch);
  }

  /**
   * Packed batches, said of the requests: each may be sent, none could have taken the next entry as well, and no
   * other way to cut the same entries into requests that may be sent makes do with fewer.
   */
  lemma {:induction false} PackedRequests(
    policy: BatchPolicy, head: seq<Byte>, packed: seq<seq<PendingEntry>>, encode: RowMutation -> seq<Byte>,
    other: seq<seq<PendingEntry>>)
    requires Encodes(encode) && Packed(policy, |head|, packed)
    ensures forall i :: 0 <= i < |packed| ==> MayBeSent(policy, head, packed[i], encode)
    ensures forall i, j :: 0 <= i && j == i + 1 && j < |packed| ==>
      packed[j] != [] && !MayBeSent(policy, head, packed[i] + packed[j][..1], encode)
    ensures
      (&& Concat(other) == Concat(packed)
       && forall i :: 0 <= i < |other| ==> MayBeSent(policy, head, other[i], encode))
      ==> |packed| <= |other|
  {
    forall batch ensures Fits(policy, |head|, batch) <==> MayBeSent(policy, head, batch, encode) {
      FitsIfItMayBeSent(policy, head, batch, encode);
    }
    hide Fits, MayBeSent, Concat;
    forall i, j | 0 <= i && j == i + 1 && j < |packed|
      ensures packed[j] != [] && !MayBeSent(policy, head, packed[i] + packed[j][..1], encode) {
      assert Full(policy, |head|, packed[i], packed[j]);
    }
    if Concat(other) == Concat(packed) && forall i :: 0 <= i < |other| ==> MayBeSent(policy, head, other[i], encode) {
      PackedIsOptimal(policy, |head|, packed, other);
    }
  }
}
