/** Looking a column up in a row: binary search, and a linear scan where that finds nothing. */
module Columns {
  import opened Wrappers
  import opened Keys
  import opened Rows

  /** The bisection of a slice's binary search; on columns in any order a hit is a match. */
  function Bisect(columns: seq<Column>, qualifier: Bytes, base: nat, size: nat): (hit: Option<nat>)
    requires 1 <= size && base + size <= |columns|
    ensures hit.Some? ==> hit.value < |columns| && columns[hit.value].qualifier == qualifier
    decreases size
  {
    if size == 1 then if columns[base].qualifier == qualifier then Some(base) else None
    else
      var half := size / 2;
      if Less(qualifier, columns[base + half].qualifier) then Bisect(columns, qualifier, base, size - half)
      else Bisect(columns, qualifier, base + half, size - half)
  }

  function BinarySearch(columns: seq<Column>, qualifier: Bytes): Option<nat> {
    if columns == [] then None else Bisect(columns, qualifier, 0, |columns|)
  }

  function LinearSearch(columns: seq<Column>, qualifier: Bytes): (hit: Option<nat>)
    ensures hit.Some? ==> hit.value < |columns| && columns[hit.value].qualifier == qualifier
  {
    if columns == [] then None
    else if columns[0].qualifier == qualifier then Some(0)
    else
      match LinearSearch(columns[1..], qualifier)
      case Some(i) => Some(i + 1)
      case None => None
  }

  function FindColumn(columns: seq<Column>, qualifier: Bytes): Option<Column> {
    match BinarySearch(columns, qualifier)
    case Some(i) => Some(columns[i])
    case None =>
      match LinearSearch(columns, qualifier)
      case Some(i) => Some(columns[i])
      case None => None
  }

  /** The family, then the column, of a row. */
  function OptionalColumn(families: seq<Family>, family: string, qualifier: Bytes): Option<Column> {
    if families == [] then None
    else if families[0].name == family then FindColumn(families[0].columns, qualifier)
    else OptionalColumn(families[1..], family, qualifier)
  }

  lemma {:induction false} LinearSearchIsComplete(columns: seq<Column>, qualifier: Bytes, i: nat)
    requires i < |columns| && columns[i].qualifier == qualifier
    ensures LinearSearch(columns, qualifier).Some?
  {
    if columns[0].qualifier == qualifier {
    } else {
      LinearSearchIsComplete(columns[1..], qualifier, i - 1);
    }
  }

  ghost predicate Sorted(columns: seq<Column>) {
    forall j, k :: 0 <= j < k < |columns| ==> Less(columns[j].qualifier, columns[k].qualifier)
  }

  lemma {:induction false} SideOf(columns: seq<Column>, i: nat, j: nat)
    requires Sorted(columns) && i < |columns| && j < |columns|
    ensures Less(columns[i].qualifier, columns[j].qualifier) <==> i < j
  {
    hide Less;
    StrictTotalOrder(columns[i].qualifier, columns[j].qualifier, columns[j].qualifier);
  }

  lemma {:induction false} BisectStep(columns: seq<Column>, qualifier: Bytes, base: nat, size: nat) returns (half: nat)
    requires 1 < size && base + size <= |columns|
    ensures 1 <= half < size
    ensures Bisect(columns, qualifier, base, size) ==
      if Less(qualifier, columns[base + half].qualifier) then Bisect(columns, qualifier, base, size - half)
      else Bisect(columns, qualifier, base + half, size - half)
    ensures half <= size - half
  {
    half := size / 2;
  }

  /** On sorted columns the bisection misses nothing. */
  lemma {:induction false} BisectIsComplete(columns: seq<Column>, qualifier: Bytes, base: nat, size: nat, i: nat)
    requires 1 <= size && base + size <= |columns|
    requires Sorted(columns)
    requires base <= i < base + size && columns[i].qualifier == qualifier
    ensures Bisect(columns, qualifier, base, size) == Some(i)
    decreases size
  {
    hide Less, Sorted;
    if size == 1 {
      assert i == base;
    } else {
      hide Bisect;
      var half := BisectStep(columns, qualifier, base, size);
      SideOf(columns, i, base + half);
      if i < base + half {
        BisectIsComplete(columns, qualifier, base, size - half, i);
      } else {
        BisectIsComplete(columns, qualifier, base + half, size - half, i);
      }
    }
  }

  /** Sorted or not, with distinct qualifiers the search finds a column if and only if there is one, and that one. */
  lemma {:induction false} FindsTheColumn(columns: seq<Column>, qualifier: Bytes)
    requires forall i, j :: 0 <= i < j < |columns| ==> columns[i].qualifier != columns[j].qualifier
    ensures FindColumn(columns, qualifier).None? <==>
      forall i :: 0 <= i < |columns| ==> columns[i].qualifier != qualifier
    ensures forall i :: 0 <= i < |columns| && columns[i].qualifier == qualifier ==>
      FindColumn(columns, qualifier) == Some(columns[i])
    ensures FindColumn(columns, qualifier) ==
      match LinearSearch(columns, qualifier) case Some(i) => Some(columns[i]) case None => None
  {
    forall i | 0 <= i < |columns| && columns[i].qualifier == qualifier ensures LinearSearch(columns, qualifier).Some? {
      LinearSearchIsComplete(columns, qualifier, i);
    }
  }

  /** In every row the merger emits, a lookup returns exactly the cells that were placed in that column, in order. */
  lemma {:induction false} LookupFindsTheCells(cells: seq<Placed>, family: string, qualifier: Bytes)
    ensures OptionalColumn(Group(cells), family, qualifier) ==
      var found := CellsOf(cells, family, qualifier);
      if found == [] then None else Some(Column(qualifier, found))
  {
    NamesAreDistinct(cells);
    GroupedParts(cells);
    if family in FamilyNames(cells) {
      var i :| 0 <= i < |FamilyNames(cells)| && FamilyNames(cells)[i] == family;
      FirstFamily(Group(cells), family, qualifier, i);
      var columns := FamilyOf(cells, family).columns;
      FindsTheColumn(columns, qualifier);
      if qualifier in Qualifiers(cells, family) {
        var j :| 0 <= j < |columns| && Qualifiers(cells, family)[j] == qualifier;
        assert columns[j].qualifier == qualifier;
      } else {
        forall j | 0 <= j < |columns| ensures columns[j].qualifier != qualifier {
          assert columns[j].qualifier in Qualifiers(cells, family);
        }
      }
    } else {
      forall i | 0 <= i < |Group(cells)| ensures Group(cells)[i].name != family {
        assert Group(cells)[i].name in FamilyNames(cells);
      }
      NoFamily(Group(cells), family, qualifier);
      assert qualifier !in Qualifiers(cells, family);
    }
  }

  lemma {:induction false} FirstFamily(families: seq<Family>, family: string, qualifier: Bytes, i: nat)
    requires forall j, k :: 0 <= j < k < |families| ==> families[j].name != families[k].name
    requires i < |families| && families[i].name == family
    ensures OptionalColumn(families, family, qualifier) == FindColumn(families[i].columns, qualifier)
  {
    if i == 0 {
    } else {
      assert families[0].name != families[i].name;
      FirstFamily(families[1..], family, qualifier, i - 1);
    }
  }

  lemma {:induction false} NoFamily(families: seq<Family>, family: string, qualifier: Bytes)
    requires forall i :: 0 <= i < |families| ==> families[i].name != family
    ensures OptionalColumn(families, family, qualifier) == None
  {
    if families == [] {
    } else {
      NoFamily(families[1..], family, qualifier);
    }
  }
}
