/** Sorting by a numeric key, and the uniqueness of the result when keys are distinct. */
module Sorting {
  import opened Rows

  ghost predicate Increasing<T(!new)>(key: T -> nat, s: seq<T>) {
    forall i, j :: 0 <= i < j < |s| ==> key(s[i]) < key(s[j])
  }

  ghost predicate Apart<T(!new)>(key: T -> nat, s: seq<T>) {
    forall i, j :: 0 <= i < j < |s| ==> key(s[i]) != key(s[j])
  }

  function Insert<T>(key: T -> nat, x: T, sorted: seq<T>): seq<T> {
    if sorted == [] || key(x) < key(sorted[0]) then [x] + sorted else [sorted[0]] + Insert(key, x, sorted[1..])
  }

  function SortBy<T>(key: T -> nat, s: seq<T>): seq<T> {
    if s == [] then [] else Insert(key, s[0], SortBy(key, s[1..]))
  }

  function Without<T>(s: seq<T>, i: nat): seq<T>
    requires i < |s|
  {
    s[..i] + s[i + 1..]
  }

  lemma {:induction false} WithoutOne<T>(s: seq<T>, i: nat)
    requires i < |s|
    ensures multiset(s) == multiset(Without(s, i)) + multiset{s[i]}
    ensures i == |s| - 1 ==> Without(s, i) == Init(s)
    ensures i < |s| - 1 ==>
      Without(s, i) != [] && Init(Without(s, i)) == Without(Init(s), i) && Last(Without(s, i)) == Last(s)
  {
    assert s == s[..i] + [s[i]] + s[i + 1..];
  }

  /** The last element of one arrangement, found in another. */
  lemma {:induction false} MatchLast<T>(a: seq<T>, b: seq<T>) returns (i: nat)
    requires multiset(a) == multiset(b) && a != []
    ensures i < |b| && b[i] == Last(a) && multiset(Without(b, i)) == multiset(Init(a))
  {
    hide Without;
    assert Last(a) in multiset(b);
    i :| 0 <= i < |b| && b[i] == Last(a);
    WithoutOne(a, |a| - 1);
    WithoutOne(b, i);
    assert multiset(Init(a)) == multiset(a) - multiset{Last(a)};
    assert multiset(Without(b, i)) == multiset(b) - multiset{Last(a)};
  }

  lemma {:induction false} OneMoreMember<T>(a: seq<T>, b: seq<T>, x: T)
    requires multiset(a) == multiset(b) + multiset{x}
    ensures forall y :: y in a <==> y == x || y in b
  {
    forall y ensures y in a <==> y == x || y in b {
      assert y in a <==> y in multiset(a);
      assert y in b <==> y in multiset(b);
    }
  }

  lemma {:induction false} InsertKeeps<T>(key: T -> nat, x: T, sorted: seq<T>)
    ensures multiset(Insert(key, x, sorted)) == multiset(sorted) + multiset{x}
  {
    if sorted == [] || key(x) < key(sorted[0]) {
    } else {
      InsertKeeps(key, x, sorted[1..]);
      assert sorted == [sorted[0]] + sorted[1..];
    }
  }

  lemma {:induction false} InsertIsSorted<T(!new)>(key: T -> nat, x: T, sorted: seq<T>)
    requires Increasing(key, sorted)
    requires forall i :: 0 <= i < |sorted| ==> key(sorted[i]) != key(x)
    ensures Increasing(key, Insert(key, x, sorted))
  {
    if sorted == [] || key(x) <= key(sorted[0]) {
    } else {
      InsertIsSorted(key, x, sorted[1..]);
      InsertKeeps(key, x, sorted[1..]);
      var rest := Insert(key, x, sorted[1..]);
      OneMoreMember(rest, sorted[1..], x);
      forall i | 0 <= i < |rest| ensures key(sorted[0]) < key(rest[i]) {
        if rest[i] != x {
          assert rest[i] in sorted[1..];
          var j :| 0 <= j < |sorted[1..]| && sorted[1..][j] == rest[i];
          assert sorted[j + 1] == rest[i];
        }
      }
    }
  }

  lemma {:induction false} SortKeeps<T>(key: T -> nat, s: seq<T>)
    ensures multiset(SortBy(key, s)) == multiset(s)
    ensures forall x :: x in SortBy(key, s) <==> x in s
  {
    if s == [] {
    } else {
      SortKeeps(key, s[1..]);
      InsertKeeps(key, s[0], SortBy(key, s[1..]));
      assert s == [s[0]] + s[1..];
      OneMoreMember(s, s[1..], s[0]);
      OneMoreMember(SortBy(key, s), s[1..], s[0]);
    }
  }

  lemma {:induction false} SortIsSorted<T(!new)>(key: T -> nat, s: seq<T>)
    requires Apart(key, s)
    ensures Increasing(key, SortBy(key, s))
  {
    if s == [] {
    } else {
      SortIsSorted(key, s[1..]);
      SortKeeps(key, s[1..]);
      var rest := SortBy(key, s[1..]);
      forall i | 0 <= i < |rest| ensures key(rest[i]) != key(s[0]) {
        assert rest[i] in s[1..];
        var j :| 0 <= j < |s[1..]| && s[1..][j] == rest[i];
        assert s[j + 1] == rest[i];
      }
      InsertIsSorted(key, s[0], rest);
    }
  }

  /** There is only one increasing arrangement of the same elements. */
  lemma {:induction false} SortedIsUnique<T(!new)>(key: T -> nat, a: seq<T>, b: seq<T>)
    requires Increasing(key, a) && Increasing(key, b) && multiset(a) == multiset(b)
    ensures a == b
  {
    assert |a| == |multiset(a)| == |multiset(b)| == |b|;
    if a == [] {
    } else {
      hide Without;
      var i := MatchLast(a, b);
      var j := MatchLast(b, a);
      LastIsGreatest(key, a, j);
      LastIsGreatest(key, b, i);
      WithoutOne(b, i);
      SortedIsUnique(key, Init(a), Init(b));
      InitAndLast(a);
      InitAndLast(b);
    }
  }

  lemma {:induction false} LastIsGreatest<T(!new)>(key: T -> nat, s: seq<T>, i: nat)
    requires Increasing(key, s) && i < |s|
    ensures key(s[i]) <= key(Last(s)) && (key(s[i]) == key(Last(s)) ==> i == |s| - 1)
    ensures Increasing(key, Init(s))
  {
    if i < |s| - 1 {
      assert key(s[i]) < key(s[|s| - 1]);
    }
  }
}
