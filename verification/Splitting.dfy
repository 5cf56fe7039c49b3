/** Packing the entries of a bulk mutation into requests. */
module Splitting {
  import opened Keys
  import opened Rows
  import opened Mutations

  datatype PendingEntry = PendingEntry(originalIndex: nat, entry: RowMutation, retrySafe: bool, attempts: nat)

  datatype BatchPolicy = BatchPolicy(maxEntries: nat, maxBytes: nat, maxInFlight: nat)

  // ---------- encoded sizes ----------

  /** A base-128 varint: seven bits a byte, the high bit set on all but the last. */
  function Varint(v: nat): seq<Byte> {
    if v < 128 then [v as Byte] else [(v % 128 + 128) as Byte] + Varint(v / 128)
  }

  function Pow128(k: nat): nat {
    if k == 0 then 1 else 128 * Pow128(k - 1)
  }

  function Decode(bytes: seq<Byte>): nat {
    if bytes == [] then 0 else bytes[0] as nat % 128 + 128 * Decode(bytes[1..])
  }

  /** The encoding can be read back, and no shorter one could hold the value. */
  lemma {:induction false} VarintIsLeast(v: nat)
    ensures Decode(Varint(v)) == v
    ensures |Varint(v)| >= 1 && v < Pow128(|Varint(v)|)
    ensures forall k: nat :: 1 <= k && v < Pow128(k) ==> |Varint(v)| <= k
    decreases v
  {
    if v < 128 {
      assert Varint(v)[1..] == [];
    } else {
      VarintIsLeast(v / 128);
      assert Varint(v)[1..] == Varint(v / 128);
      forall k: nat | 1 <= k && v < Pow128(k) ensures |Varint(v)| <= k {
        if k > 1 {
          assert v / 128 < Pow128(k - 1);
        }
      }
    }
  }

  method VarintSize(value: nat) returns (bytes: nat)
    ensures bytes == |Varint(value)|
  {
    var rest := value;
    bytes := 1;
    while rest >= 0x80
      invariant bytes - 1 + |Varint(rest)| == |Varint(value)|
    {
      rest := rest / 128;
      bytes := bytes + 1;
    }
  }

  /** The bytes a message adds to the request that repeats it: tag, length, message. */
  function FieldSize(e: PendingEntry): nat { 1 + |Varint(e.entry.encodedLen)| + e.entry.encodedLen }

  function EntryBytes(batch: seq<PendingEntry>): nat {
    if batch == [] then 0 else EntryBytes(Init(batch)) + FieldSize(Last(batch))
  }

  function MutationCount(batch: seq<PendingEntry>): nat {
    if batch == [] then 0 else MutationCount(Init(batch)) + |Last(batch).entry.mutations|
  }

  // ---------- what a batch may hold ----------

  /** A request: one entry, or several within the entry, mutation and byte limits. */
  predicate Fits(policy: BatchPolicy, base: nat, batch: seq<PendingEntry>) {
    || |batch| == 1
    || (&& 1 < |batch| <= policy.maxEntries
        && MutationCount(batch) <= MAX_MUTATIONS
        && base + EntryBytes(batch) <= policy.maxBytes)
  }

  /** The entries with their original indexes, none of them sent yet. */
  function Numbered(entries: seq<RowMutation>): (pending: seq<PendingEntry>)
    ensures |pending| == |entries|
    ensures forall i :: 0 <= i < |entries| ==> pending[i] == PendingEntry(i, entries[i], IsRetrySafe(entries[i]), 0)
  {
    seq(|entries|, i requires 0 <= i < |entries| => PendingEntry(i, entries[i], IsRetrySafe(entries[i]), 0))
  }

  function Concat<T>(parts: seq<seq<T>>): seq<T> {
    if parts == [] then [] else Concat(Init(parts)) + Last(parts)
  }

  /** A batch is full for what follows: it could not have taken the next entry as well. */
  ghost predicate Full(policy: BatchPolicy, base: nat, batch: seq<PendingEntry>, following: seq<PendingEntry>) {
    following != [] && !Fits(policy, base, batch + following[..1])
  }

  /** Every batch may be sent, and none could have taken the first entry of the next. */
  ghost predicate Packed(policy: BatchPolicy, base: nat, batches: seq<seq<PendingEntry>>) {
    && (forall i :: 0 <= i < |batches| ==> Fits(policy, base, batches[i]))
    && (forall i, j :: 0 <= i && j == i + 1 && j < |batches| ==> Full(policy, base, batches[i], batches[j]))
  }

  /** `base` is the encoded length of the request without entries. */
  method SplitBatches(
    entries: seq<RowMutation>, base: nat, policy: BatchPolicy) returns (batches: seq<seq<PendingEntry>>)
    requires policy.maxEntries > 0
    ensures Concat(batches) == Numbered(entries) && Packed(policy, base, batches)
  {
    hide Varint, Fits, Packed, EntryBytes, MutationCount;
    batches := [];
    var current: seq<PendingEntry> := [];
    var currentBytes, currentMutations := base, 0;
    EmptyBatch();
    for i := 0 to |entries|
      invariant Concat(batches) + current == Numbered(entries)[..i]
      invariant current == [] ==> i == 0 && batches == []
      invariant currentBytes == base + EntryBytes(current) && currentMutations == MutationCount(current)
      invariant current != [] ==> Packed(policy, base, batches + [current])
      invariant |current| <= policy.maxEntries
    {
      var next := PendingEntry(i, entries[i], IsRetrySafe(entries[i]), 0);
      var size := VarintSize(entries[i].encodedLen);
      var entryBytes := 1 + size + entries[i].encodedLen;
      var mutations := |entries[i].mutations|;
      var exceeds := current != [] &&
        (|current| == policy.maxEntries || currentMutations + mutations > MAX_MUTATIONS ||
          currentBytes + entryBytes > policy.maxBytes);
      OneEntryMore(policy, base, current, next);
      ghost var before := Concat(batches) + current;
      if exceeds {
        OneBatchMore(policy, base, batches, current, next);
        batches := batches + [current];
        current, currentBytes, currentMutations := [], base, 0;
        OneEntryMore(policy, base, current, next);
      } else {
        LongerBatch(policy, base, batches, current, next);
      }
      assert Numbered(entries)[..i + 1] == before + [next];
      currentBytes := currentBytes + entryBytes;
      currentMutations := currentMutations + mutations;
      current := current + [next];
    }
    assert Numbered(entries)[..|entries|] == Numbered(entries);
    if current != [] {
      JoinBatch(batches, current);
      batches := batches + [current];
    } else {
      NothingPacked(policy, base);
    }
  }

  lemma {:induction false} EmptyBatch()
    ensures EntryBytes([]) == 0 && MutationCount([]) == 0
  {
  }

  lemma {:induction false} NothingPacked(policy: BatchPolicy, base: nat)
    ensures Packed(policy, base, [])
  {
  }

  lemma {:induction false} JoinBatch<T>(parts: seq<seq<T>>, part: seq<T>)
    ensures Concat(parts + [part]) == Concat(parts) + part
  {
    assert Init(parts + [part]) == parts && Last(parts + [part]) == part;
  }

  lemma {:induction false} OneEntryMore(policy: BatchPolicy, base: nat, batch: seq<PendingEntry>, next: PendingEntry)
    ensures EntryBytes(batch + [next]) == EntryBytes(batch) + FieldSize(next)
    ensures MutationCount(batch + [next]) == MutationCount(batch) + |next.entry.mutations|
    ensures Fits(policy, base, batch + [next]) <==>
      batch == [] || (&& |batch| < policy.maxEntries
                      && MutationCount(batch) + |next.entry.mutations| <= MAX_MUTATIONS
                      && base + EntryBytes(batch) + FieldSize(next) <= policy.maxBytes)
  {
    assert Init(batch + [next]) == batch && Last(batch + [next]) == next;
  }

  lemma {:induction false} OneBatchMore(
    policy: BatchPolicy, base: nat, batches: seq<seq<PendingEntry>>, current: seq<PendingEntry>, next: PendingEntry)
    requires Packed(policy, base, batches + [current])
    requires !Fits(policy, base, current + [next])
    ensures Concat(batches + [current]) == Concat(batches) + current
    ensures Packed(policy, base, batches + [current] + [[] + [next]])
  {
    hide Fits;
    JoinBatch(batches, current);
    var before := batches + [current];
    var after := before + [[] + [next]];
    OneEntryMore(policy, base, [], next);
    assert [next][..1] == [next] && [] + [next] == [next];
    forall i, j | 0 <= i && j == i + 1 && j < |after| ensures Full(policy, base, after[i], after[j]) {
      assert j < |before| ==> after[i] == before[i] && after[j] == before[j];
    }
  }

  lemma {:induction false} LongerBatch(
    policy: BatchPolicy, base: nat, batches: seq<seq<PendingEntry>>, current: seq<PendingEntry>, next: PendingEntry)
    requires current != [] ==> Packed(policy, base, batches + [current])
    requires current == [] ==> batches == []
    requires Fits(policy, base, current + [next])
    ensures Packed(policy, base, batches + [current + [next]])
  {
    hide Fits;
    var before, after := batches + [current], batches + [current + [next]];
    forall i | 0 <= i < |after| ensures Fits(policy, base, after[i]) {
      assert i < |batches| ==> after[i] == before[i];
    }
    forall i, j | 0 <= i && j == i + 1 && j < |after| ensures Full(policy, base, after[i], after[j]) {
      assert after[i] == before[i];
      assert j < |batches| ==> after[j] == before[j];
      assert current != [] ==> (current + [next])[..1] == current[..1];
      assert Full(policy, base, before[i], before[j]);
    }
  }

  // ---------- the split uses the fewest requests ----------

  /** An order-preserving selection. */
  ghost predicate IsSubsequence<T>(a: seq<T>, b: seq<T>) {
    || a == []
    || (b != [] && Last(a) == Last(b) && IsSubsequence(Init(a), Init(b)))
    || (b != [] && IsSubsequence(a, Init(b)))
  }

  lemma {:induction false} SubsequenceIsLighter(a: seq<PendingEntry>, b: seq<PendingEntry>)
    requires IsSubsequence(a, b)
    ensures |a| <= |b| && EntryBytes(a) <= EntryBytes(b) && MutationCount(a) <= MutationCount(b)
  {
    if a == [] {
    } else {
      hide FieldSize;
      if Last(a) == Last(b) && IsSubsequence(Init(a), Init(b)) {
        SubsequenceIsLighter(Init(a), Init(b));
      } else {
        SubsequenceIsLighter(a, Init(b));
      }
    }
  }

  /** Whatever is left of a batch may be sent again as one request. */
  lemma {:induction false} SubsequenceFits(policy: BatchPolicy, base: nat, a: seq<PendingEntry>, b: seq<PendingEntry>)
    requires Fits(policy, base, b) && IsSubsequence(a, b) && a != []
    ensures Fits(policy, base, a)
  {
    SubsequenceIsLighter(a, b);
  }

  lemma {:induction false} SliceIsSubsequence<T>(s: seq<T>, lo: nat, hi: nat)
    requires lo <= hi <= |s|
    ensures IsSubsequence(s[lo..hi], s)
    decreases |s|
  {
    if lo == hi {
    } else if hi == |s| {
      var slice := s[lo..hi];
      assert Init(s) == s[..|s| - 1];
      SliceIsSubsequence(Init(s), lo, hi - 1);
      assert Init(slice) == Init(s)[lo..hi - 1];
      assert Last(slice) == Last(s) && IsSubsequence(Init(slice), Init(s));
    } else {
      SliceIsSubsequence(Init(s), lo, hi);
      assert s[lo..hi] == Init(s)[lo..hi];
      assert IsSubsequence(s[lo..hi], Init(s));
    }
  }

  lemma {:induction false} ConcatHead<T>(parts: seq<seq<T>>)
    requires parts != []
    ensures Concat(parts) == parts[0] + Concat(parts[1..])
  {
    if |parts| == 1 {
      assert Init(parts) == [] && parts[1..] == [];
    } else {
      ConcatHead(Init(parts));
      assert Init(parts)[1..] == Init(parts[1..]) && Last(parts[1..]) == Last(parts);
      assert Concat(parts) == (parts[0] + Concat(Init(parts)[1..])) + Last(parts);
    }
  }

  /** A batch that lies inside one that fits, with the entry after it, could have taken that entry. */
  lemma {:induction false} InnerBatchHasRoom(
    policy: BatchPolicy, base: nat, mine: seq<PendingEntry>, rest: seq<PendingEntry>, theirs: seq<PendingEntry>,
    from: nat)
    requires Fits(policy, base, theirs)
    requires from + |mine| < |theirs| && theirs[from..] <= mine + rest
    ensures rest != [] && Fits(policy, base, mine + rest[..1])
  {
    hide Fits;
    var slice := theirs[from..from + |mine| + 1];
    assert slice == theirs[from..][..|mine| + 1] == (mine + rest)[..|mine| + 1] == mine + rest[..1];
    SliceIsSubsequence(theirs, from, from + |mine| + 1);
    SubsequenceFits(policy, base, slice, theirs);
  }

  /** The first packed batch reaches at least as far as the other split's first batch. */
  lemma {:induction false} FirstReachesAsFar(
    policy: BatchPolicy, base: nat, packed: seq<seq<PendingEntry>>, theirs: seq<PendingEntry>, from: nat)
    requires Packed(policy, base, packed) && packed != [] && Fits(policy, base, theirs)
    requires from <= |theirs| && theirs[from..] <= packed[0] + Concat(packed[1..])
    ensures from + |packed[0]| >= |theirs|
  {
    hide Fits, Concat, Packed;
    FirstIsFull(policy, base, packed);
    if from + |packed[0]| < |theirs| {
      InnerBatchHasRoom(policy, base, packed[0], Concat(packed[1..]), theirs, from);
    }
  }

  lemma {:induction false} FirstIsFull(policy: BatchPolicy, base: nat, packed: seq<seq<PendingEntry>>)
    requires Packed(policy, base, packed) && packed != []
    ensures var rest := Concat(packed[1..]); rest != [] ==> !Fits(policy, base, packed[0] + rest[..1])
  {
    hide Fits, Concat;
    NothingConcat(packed[1..]);
    if |packed| > 1 {
      ConcatHead(packed[1..]);
      assert Full(policy, base, packed[0], packed[1]);
      assert Concat(packed[1..])[..1] == packed[1][..1];
    }
  }

  lemma {:induction false} NothingConcat<T>(parts: seq<seq<T>>)
    ensures parts == [] ==> Concat(parts) == []
  {
  }

  /** The packed split is never behind another one: it needs no more requests for a suffix of the entries. */
  lemma {:induction false} PackedStaysAhead(
    policy: BatchPolicy, base: nat, packed: seq<seq<PendingEntry>>, other: seq<seq<PendingEntry>>, from: nat)
    requires Packed(policy, base, packed)
    requires forall i :: 0 <= i < |other| ==> Fits(policy, base, other[i])
    requires from <= |Concat(other)| && Concat(packed) == Concat(other)[from..]
    ensures |packed| <= |other|
    decreases |packed|
  {
    if packed == [] {
    } else {
      hide Fits, Concat, Packed;
      TailIsPacked(policy, base, packed);
      ConcatHead(packed);
      NothingConcat(other);
      ConcatHead(other);
      var mine, theirs, rest := packed[0], other[0], Concat(other[1..]);
      if from <= |theirs| {
        assert theirs[from..] <= Concat(packed);
        FirstReachesAsFar(policy, base, packed, theirs, from);
      }
      assert Concat(packed[1..]) == Concat(packed)[|mine|..] == rest[from + |mine| - |theirs|..];
      PackedStaysAhead(policy, base, packed[1..], other[1..], from + |mine| - |theirs|);
    }
  }

  lemma {:induction false} FitsIsNotEmpty(policy: BatchPolicy, base: nat, batch: seq<PendingEntry>)
    requires Fits(policy, base, batch)
    ensures batch != []
  {
  }

  lemma {:induction false} TailIsPacked(policy: BatchPolicy, base: nat, packed: seq<seq<PendingEntry>>)
    requires Packed(policy, base, packed) && packed != []
    ensures Packed(policy, base, packed[1..]) && packed[0] != []
  {
    FitsIsNotEmpty(policy, base, packed[0]);
    hide Fits, Full;
    var tail := packed[1..];
    forall i, j | 0 <= i && j == i + 1 && j < |tail| ensures Full(policy, base, tail[i], tail[j]) {
      assert tail[i] == packed[i + 1] && tail[j] == packed[j + 1];
    }
  }

  /** Among all ways to cut the entries, in order, into requests that fit, the greedy one uses the fewest. */
  lemma {:induction false} PackedIsOptimal(
    policy: BatchPolicy, base: nat, packed: seq<seq<PendingEntry>>, other: seq<seq<PendingEntry>>)
    requires Packed(policy, base, packed)
    requires forall i :: 0 <= i < |other| ==> Fits(policy, base, other[i])
    requires Concat(packed) == Concat(other)
    ensures |packed| <= |other|
  {
    assert Concat(other)[0..] == Concat(other);
    PackedStaysAhead(policy, base, packed, other, 0);
  }

  /** There is only one packed split, so that being packed says all there is to say about the batches. */
  lemma {:induction false} PackedIsUnique(
    policy: BatchPolicy, base: nat, a: seq<seq<PendingEntry>>, b: seq<seq<PendingEntry>>)
    requires Packed(policy, base, a) && Packed(policy, base, b) && Concat(a) == Concat(b)
    ensures a == b
  {
    if a != [] && b != [] {
      FirstIsNoLonger(policy, base, a, b);
      FirstIsNoLonger(policy, base, b, a);
      hide Fits, Concat, Packed;
      TailIsPacked(policy, base, a);
      TailIsPacked(policy, base, b);
      ConcatHead(a);
      ConcatHead(b);
      assert Concat(a)[..|a[0]|] == a[0] && Concat(b)[..|b[0]|] == b[0];
      assert Concat(a[1..]) == Concat(a)[|a[0]|..] == Concat(b[1..]);
      PackedIsUnique(policy, base, a[1..], b[1..]);
      assert a == [a[0]] + a[1..] && b == [b[0]] + b[1..];
    } else {
      PackedIsOptimal(policy, base, a, b);
      PackedIsOptimal(policy, base, b, a);
    }
  }

  lemma {:induction false} FirstIsNoLonger(
    policy: BatchPolicy, base: nat, packed: seq<seq<PendingEntry>>, other: seq<seq<PendingEntry>>)
    requires Packed(policy, base, packed) && Packed(policy, base, other) && Concat(packed) == Concat(other)
    requires packed != [] && other != []
    ensures |other[0]| <= |packed[0]|
  {
    assert Fits(policy, base, other[0]);
    hide Fits, Concat, Packed;
    ConcatHead(packed);
    ConcatHead(other);
    assert other[0][0..] == other[0] <= Concat(other);
    FirstReachesAsFar(policy, base, packed, other[0], 0);
  }
}
