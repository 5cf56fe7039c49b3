/** Row keys: byte strings in lexicographic order, read forwards or backwards. */
module Keys {
  import opened Wrappers

  newtype Byte = b: int | 0 <= b < 0x100

  type Bytes = seq<Byte>

  /** Strict lexicographic order, the order of `bytes::Bytes` and of Bigtable row keys. */
  predicate Less(a: Bytes, b: Bytes) {
    b != [] && (a == [] || a[0] < b[0] || (a[0] == b[0] && Less(a[1..], b[1..])))
  }

  /** `a` comes strictly before `b` in the direction of the scan. */
  predicate Precedes(reversed: bool, a: Bytes, b: Bytes) {
    if reversed then Less(b, a) else Less(a, b)
  }

  /** `key` is at or before `last`, the position a scan has reached. */
  predicate Passed(reversed: bool, last: Option<Bytes>, key: Bytes) {
    last.Some? && !Precedes(reversed, last.value, key)
  }

  lemma {:induction false} LessIrreflexive(a: Bytes)
    ensures !Less(a, a)
  {
    if a == [] {
    } else {
      LessIrreflexive(a[1..]);
    }
  }

  lemma {:induction false} LessTransitive(a: Bytes, b: Bytes, c: Bytes)
    requires Less(a, b) && Less(b, c)
    ensures Less(a, c)
  {
    if a == [] || a[0] < b[0] || b[0] < c[0] {
    } else {
      LessTransitive(a[1..], b[1..], c[1..]);
    }
  }

  lemma {:induction false} LessTotal(a: Bytes, b: Bytes)
    ensures Less(a, b) || a == b || Less(b, a)
  {
    if a == [] || b == [] || a[0] != b[0] {
    } else {
      LessTotal(a[1..], b[1..]);
      assert a == [a[0]] + a[1..] && b == [b[0]] + b[1..];
    }
  }

  /** Lexicographic order is a strict total order: the three facts at once, for three keys. */
  lemma {:induction false} StrictTotalOrder(a: Bytes, b: Bytes, c: Bytes)
    ensures !Less(a, a)
    ensures Less(a, b) ==> !Less(b, a) && a != b
    ensures Less(a, b) || a == b || Less(b, a)
    ensures Less(a, b) && Less(b, c) ==> Less(a, c)
    ensures !Less(b, a) && Less(b, c) ==> Less(a, c)
    ensures Less(a, b) && !Less(c, b) ==> Less(a, c)
    ensures !Less(b, a) && !Less(c, b) ==> !Less(c, a)
  {
    LessIrreflexive(a);
    LessIrreflexive(b);
    LessTotal(a, b);
    LessTotal(b, c);
    LessTotal(a, c);
    if Less(a, b) && Less(b, c) { LessTransitive(a, b, c); }
    if Less(a, b) && Less(b, a) { LessTransitive(a, b, a); }
    if Less(b, c) && Less(c, b) { LessTransitive(b, c, b); }
    if Less(c, a) && Less(a, b) { LessTransitive(c, a, b); }
    if Less(b, c) && Less(c, a) { LessTransitive(b, c, a); }
    if Less(c, b) && Less(b, a) { LessTransitive(c, b, a); }
  }

  /** What scan order needs, in either direction. */
  lemma {:induction false} PrecedesTransitive(reversed: bool, a: Bytes, b: Bytes, c: Bytes)
    ensures Precedes(reversed, a, b) && Precedes(reversed, b, c) ==> Precedes(reversed, a, c)
    ensures !Precedes(reversed, b, a) && Precedes(reversed, b, c) ==> Precedes(reversed, a, c)
    ensures Precedes(reversed, a, b) ==> !Precedes(reversed, b, a)
    ensures !Precedes(reversed, b, a) && !Precedes(reversed, c, b) ==> !Precedes(reversed, c, a)
  {
    StrictTotalOrder(a, b, c);
    StrictTotalOrder(c, b, a);
  }
}
