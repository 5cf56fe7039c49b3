/** Rows as the client returns them, and the flat list of cells they are grouped from. */
module Rows {
  import opened Keys

  datatype Cell = Cell(timestamp: int, value: Bytes, labels: seq<string>)

  datatype Column = Column(qualifier: Bytes, cells: seq<Cell>)

  datatype Family = Family(name: string, columns: seq<Column>)

  datatype Row = Row(key: Bytes, families: seq<Family>)

  /** One complete cell together with the column it belongs to. */
  datatype Placed = Placed(family: string, qualifier: Bytes, cell: Cell)

  function Init<T>(s: seq<T>): seq<T>
    requires s != []
  {
    s[..|s| - 1]
  }

  function Last<T>(s: seq<T>): T
    requires s != []
  {
    s[|s| - 1]
  }

  lemma {:induction false} InitAndLast<T>(s: seq<T>)
    requires s != []
    ensures Init(s) + [Last(s)] == s
  {
  }

  lemma {:induction false} SomeMember<T>(s: seq<T>)
    ensures s != [] ==> exists x :: x in s
  {
    if s != [] {
      assert s[0] in s;
    }
  }

  /** The families of the cells, in order of first appearance. */
  function FamilyNames(cells: seq<Placed>): seq<string> {
    if cells == [] then []
    else
      var names := FamilyNames(Init(cells));
      if Last(cells).family in names then names else names + [Last(cells).family]
  }

  /** The qualifiers seen in one family, in order of first appearance. */
  function Qualifiers(cells: seq<Placed>, family: string): seq<Bytes> {
    if cells == [] then []
    else
      var qualifiers := Qualifiers(Init(cells), family);
      if Last(cells).family != family || Last(cells).qualifier in qualifiers then qualifiers
      else qualifiers + [Last(cells).qualifier]
  }

  /** The cells of one column, in arrival order. */
  function CellsOf(cells: seq<Placed>, family: string, qualifier: Bytes): seq<Cell> {
    if cells == [] then []
    else
      CellsOf(Init(cells), family, qualifier)
      + if Last(cells).family == family && Last(cells).qualifier == qualifier then [Last(cells).cell] else []
  }

  function FamilyOf(cells: seq<Placed>, family: string): (f: Family)
    ensures f.name == family && |f.columns| == |Qualifiers(cells, family)|
    ensures forall i :: 0 <= i < |f.columns| ==>
      && f.columns[i].qualifier == Qualifiers(cells, family)[i]
      && f.columns[i].cells == CellsOf(cells, family, f.columns[i].qualifier)
  {
    var qualifiers := Qualifiers(cells, family);
    Family(family, seq(|qualifiers|, i requires 0 <= i < |qualifiers| =>
      Column(qualifiers[i], CellsOf(cells, family, qualifiers[i]))))
  }

  /** Cells grouped by family, then by qualifier. */
  function Group(cells: seq<Placed>): (families: seq<Family>)
    ensures |families| == |FamilyNames(cells)|
    ensures forall i :: 0 <= i < |families| ==> families[i] == FamilyOf(cells, FamilyNames(cells)[i])
  {
    var names := FamilyNames(cells);
    seq(|names|, i requires 0 <= i < |names| => FamilyOf(cells, names[i]))
  }

  ghost predicate Distinct<T>(s: seq<T>) {
    forall i, j :: 0 <= i < j < |s| ==> s[i] != s[j]
  }

  /** Every listed family and column holds a cell, and no name is listed twice. */
  lemma {:induction false} NamesAreDistinct(cells: seq<Placed>)
    ensures Distinct(FamilyNames(cells))
    ensures forall name :: name in FamilyNames(cells) <==> Qualifiers(cells, name) != []
    ensures forall name :: Distinct(Qualifiers(cells, name))
    ensures forall name, q :: q in Qualifiers(cells, name) <==> CellsOf(cells, name, q) != []
  {
    if cells == [] {
    } else {
      NamesAreDistinct(Init(cells));
    }
  }

  /** Where a family first appears; the number of cells if it does not. */
  function FirstOfFamily(cells: seq<Placed>, family: string): (first: nat)
    ensures first <= |cells| && forall k :: 0 <= k < first ==> cells[k].family != family
    ensures first < |cells| ==> cells[first].family == family
  {
    if cells == [] then 0
    else
      var first := FirstOfFamily(Init(cells), family);
      if first < |cells| - 1 || Last(cells).family == family then first else |cells|
  }

  /** Where a column first appears; the number of cells if it does not. */
  function FirstOfColumn(cells: seq<Placed>, family: string, qualifier: Bytes): (first: nat)
    ensures first <= |cells|
    ensures forall k :: 0 <= k < first ==> cells[k].family != family || cells[k].qualifier != qualifier
    ensures first < |cells| ==> cells[first].family == family && cells[first].qualifier == qualifier
  {
    if cells == [] then 0
    else
      var first := FirstOfColumn(Init(cells), family, qualifier);
      if first < |cells| - 1 || (Last(cells).family == family && Last(cells).qualifier == qualifier) then first
      else |cells|
  }

  lemma {:induction false} FamiliesByFirstAppearance(cells: seq<Placed>)
    ensures var names := FamilyNames(cells);
      && (forall i, j :: 0 <= i < j < |names| ==> FirstOfFamily(cells, names[i]) < FirstOfFamily(cells, names[j]))
      && (forall i :: 0 <= i < |names| ==> FirstOfFamily(cells, names[i]) < |cells|)
      && (forall name :: name !in names ==> FirstOfFamily(cells, name) == |cells|)
  {
    if cells == [] {
    } else {
      FamiliesByFirstAppearance(Init(cells));
    }
  }

  lemma {:induction false} ColumnsByFirstAppearance(cells: seq<Placed>, family: string)
    ensures var qualifiers := Qualifiers(cells, family);
      && (forall i, j :: 0 <= i < j < |qualifiers| ==>
            FirstOfColumn(cells, family, qualifiers[i]) < FirstOfColumn(cells, family, qualifiers[j]))
      && (forall i :: 0 <= i < |qualifiers| ==> FirstOfColumn(cells, family, qualifiers[i]) < |cells|)
      && (forall q :: q !in qualifiers ==> FirstOfColumn(cells, family, q) == |cells|)
  {
    if cells == [] {
    } else {
      ColumnsByFirstAppearance(Init(cells), family);
    }
  }

  /** A family of the row: no column twice, none empty, each with its cells in arrival order. */
  ghost predicate HoldsItsCells(cells: seq<Placed>, f: Family) {
    && f.columns != []
    && (forall i, j :: 0 <= i < j < |f.columns| ==> f.columns[i].qualifier != f.columns[j].qualifier)
    && (forall c :: c in f.columns ==> c.cells != [] && c.cells == CellsOf(cells, f.name, c.qualifier))
  }

  /** The columns of a family, each listed in the order in which it first appears among the cells. */
  ghost predicate ColumnsInOrder(cells: seq<Placed>, f: Family) {
    forall i, j :: 0 <= i < j < |f.columns| ==>
      && FirstOfColumn(cells, f.name, f.columns[i].qualifier) < FirstOfColumn(cells, f.name, f.columns[j].qualifier)
      && FirstOfColumn(cells, f.name, f.columns[j].qualifier) < |cells|
  }

  lemma {:induction false} GroupedParts(cells: seq<Placed>)
    ensures var families := Group(cells);
      && (forall i, j :: 0 <= i < j < |families| ==> families[i].name != families[j].name)
      && (forall f :: f in families ==> HoldsItsCells(cells, f))
  {
    NamesAreDistinct(cells);
  }

  lemma {:induction false} FamilyInOrder(cells: seq<Placed>, f: Family)
    requires f in Group(cells)
    ensures ColumnsInOrder(cells, f)
  {
    ColumnsByFirstAppearance(cells, f.name);
    hide FirstOfColumn, Qualifiers, FamilyNames;
    var i :| 0 <= i < |Group(cells)| && Group(cells)[i] == f;
    assert f == FamilyOf(cells, FamilyNames(cells)[i]);
    var qualifiers := Qualifiers(cells, f.name);
    assert |f.columns| == |qualifiers| && forall j :: 0 <= j < |f.columns| ==> f.columns[j].qualifier == qualifiers[j];
  }

  /**
   * Families and columns are distinct, none is empty, each is listed in the order in which it first appears among
   * the cells, and each column holds its cells in arrival order.
   */
  lemma {:induction false} GroupedShape(cells: seq<Placed>)
    ensures var families := Group(cells);
      && (forall i, j :: 0 <= i < j < |families| ==>
            && families[i].name != families[j].name
            && FirstOfFamily(cells, families[i].name) < FirstOfFamily(cells, families[j].name) < |cells|)
      && (forall f :: f in families ==> HoldsItsCells(cells, f) && ColumnsInOrder(cells, f))
  {
    var families, names := Group(cells), FamilyNames(cells);
    forall i | 0 <= i < |families| ensures families[i].name == names[i] {
      assert families[i] == FamilyOf(cells, names[i]);
    }
    hide FirstOfFamily, ColumnsInOrder, HoldsItsCells, FamilyNames, FamilyOf;
    GroupedParts(cells);
    FamiliesByFirstAppearance(cells);
    forall i, j | 0 <= i < j < |families|
      ensures FirstOfFamily(cells, families[i].name) < FirstOfFamily(cells, families[j].name) < |cells| {
      assert families[i].name == names[i] && families[j].name == names[j];
    }
    forall f | f in families ensures ColumnsInOrder(cells, f) {
      FamilyInOrder(cells, f);
    }
  }

  function PlaceColumn(family: string, column: Column): seq<Placed> {
    seq(|column.cells|, i requires 0 <= i < |column.cells| => Placed(family, column.qualifier, column.cells[i]))
  }

  function ColumnContents(family: string, columns: seq<Column>): multiset<Placed> {
    if columns == [] then multiset{}
    else ColumnContents(family, Init(columns)) + multiset(PlaceColumn(family, Last(columns)))
  }

  /** Every cell of a grouped row, with its column, as often as it occurs. */
  function Contents(families: seq<Family>): multiset<Placed> {
    if families == [] then multiset{}
    else Contents(Init(families)) + ColumnContents(Last(families).name, Last(families).columns)
  }

  lemma {:induction false} PlaceOneMore(family: string, column: Column, cell: Cell)
    ensures multiset(PlaceColumn(family, Column(column.qualifier, column.cells + [cell])))
         == multiset(PlaceColumn(family, column)) + multiset{Placed(family, column.qualifier, cell)}
  {
    assert PlaceColumn(family, Column(column.qualifier, column.cells + [cell]))
        == PlaceColumn(family, column) + [Placed(family, column.qualifier, cell)];
  }

  lemma {:induction false} ColumnContentsLast(family: string, columns: seq<Column>)
    requires columns != []
    ensures ColumnContents(family, columns)
         == ColumnContents(family, Init(columns)) + multiset(PlaceColumn(family, Last(columns)))
  {
  }

  lemma {:induction false} ColumnContentsGrow(family: string, columns: seq<Column>, i: nat, cell: Cell)
    requires i < |columns|
    ensures var column := Column(columns[i].qualifier, columns[i].cells + [cell]);
      ColumnContents(family, columns[i := column])
      == ColumnContents(family, columns) + multiset{Placed(family, columns[i].qualifier, cell)}
  {
    hide PlaceColumn, ColumnContents;
    var column := Column(columns[i].qualifier, columns[i].cells + [cell]);
    var after := columns[i := column];
    ColumnContentsLast(family, columns);
    ColumnContentsLast(family, after);
    if i == |columns| - 1 {
      assert Init(after) == Init(columns) && Last(after) == column;
      PlaceOneMore(family, columns[i], cell);
    } else {
      ColumnContentsGrow(family, Init(columns), i, cell);
      assert Init(after) == Init(columns)[i := column] && Last(after) == Last(columns);
    }
  }

  lemma {:induction false} ContentsGrow(families: seq<Family>, i: nat, family: Family, extra: Placed)
    requires i < |families| && family.name == families[i].name
    requires ColumnContents(family.name, family.columns)
          == ColumnContents(family.name, families[i].columns) + multiset{extra}
    ensures Contents(families[i := family]) == Contents(families) + multiset{extra}
  {
    hide ColumnContents;
    var after := families[i := family];
    if i == |families| - 1 {
      assert Init(after) == Init(families);
    } else {
      ContentsGrow(Init(families), i, family, extra);
      assert Init(after) == Init(families)[i := family];
    }
  }

  lemma {:induction false} ColumnAbsent(cells: seq<Placed>, family: string, qualifier: Bytes)
    requires qualifier !in Qualifiers(cells, family)
    ensures CellsOf(cells, family, qualifier) == []
  {
    NamesAreDistinct(cells);
  }

  /** What one more cell adds to each of the three lists. */
  lemma {:induction false} OneMore(cells: seq<Placed>, p: Placed, family: string)
    ensures FamilyNames(cells + [p]) ==
      if p.family in FamilyNames(cells) then FamilyNames(cells) else FamilyNames(cells) + [p.family]
    ensures Qualifiers(cells + [p], family) ==
      if p.family != family || p.qualifier in Qualifiers(cells, family) then Qualifiers(cells, family)
      else Qualifiers(cells, family) + [p.qualifier]
    ensures forall q :: CellsOf(cells + [p], family, q) ==
                        CellsOf(cells, family, q) + (if p.family == family && p.qualifier == q then [p.cell] else [])
  {
    assert Init(cells + [p]) == cells && Last(cells + [p]) == p;
  }

  /** One more cell with a new qualifier opens a column at the end of its family. */
  lemma {:induction false} ColumnOpens(cells: seq<Placed>, p: Placed)
    requires p.qualifier !in Qualifiers(cells, p.family)
    ensures FamilyOf(cells + [p], p.family).columns
         == FamilyOf(cells, p.family).columns + [Column(p.qualifier, [p.cell])]
  {
    OneMore(cells, p, p.family);
    ColumnAbsent(cells, p.family, p.qualifier);
    var before, after := FamilyOf(cells, p.family).columns, FamilyOf(cells + [p], p.family).columns;
    var expected := before + [Column(p.qualifier, [p.cell])];
    forall k | 0 <= k < |expected| ensures after[k] == expected[k] {
      assert k < |before| ==> before[k].qualifier in Qualifiers(cells, p.family);
    }
  }

  /** One more cell with a known qualifier goes to the end of column `i`. */
  lemma {:induction false} ColumnExtends(cells: seq<Placed>, p: Placed, i: nat)
    requires i < |Qualifiers(cells, p.family)| && Qualifiers(cells, p.family)[i] == p.qualifier
    ensures var before := FamilyOf(cells, p.family).columns;
      FamilyOf(cells + [p], p.family).columns == before[i := Column(p.qualifier, before[i].cells + [p.cell])]
  {
    OneMore(cells, p, p.family);
    NamesAreDistinct(cells);
    var before, after := FamilyOf(cells, p.family).columns, FamilyOf(cells + [p], p.family).columns;
    var expected := before[i := Column(p.qualifier, before[i].cells + [p.cell])];
    forall k | 0 <= k < |before| ensures after[k] == expected[k] {
      assert k != i ==> before[k].qualifier != p.qualifier;
    }
  }

  lemma {:induction false} FamilyUntouched(cells: seq<Placed>, p: Placed, family: string)
    requires family != p.family
    ensures FamilyOf(cells + [p], family) == FamilyOf(cells, family)
  {
    OneMore(cells, p, family);
    var before, after := FamilyOf(cells, family).columns, FamilyOf(cells + [p], family).columns;
    assert forall k :: 0 <= k < |before| ==> after[k] == before[k];
    assert after == before;
  }

  lemma {:induction false} FamilyAbsent(cells: seq<Placed>, family: string, families: seq<Family>)
    requires families == Group(cells)
    requires forall i :: 0 <= i < |families| ==> families[i].name != family
    ensures family !in FamilyNames(cells)
  {
    forall i | 0 <= i < |families| ensures FamilyNames(cells)[i] != family {
      assert families[i].name == FamilyNames(cells)[i];
    }
  }

  lemma {:induction false} NewFamily(cells: seq<Placed>, p: Placed)
    requires p.family !in FamilyNames(cells)
    ensures FamilyOf(cells + [p], p.family) == Family(p.family, [Column(p.qualifier, [p.cell])])
  {
    NamesAreDistinct(cells);
    assert Qualifiers(cells, p.family) == [];
    hide Qualifiers, FamilyNames, CellsOf;
    ColumnOpens(cells, p);
    assert FamilyOf(cells, p.family).columns == [];
  }

  /** One more cell with a new family opens a family at the end of the row. */
  lemma {:induction false} FamilyOpens(cells: seq<Placed>, p: Placed)
    requires p.family !in FamilyNames(cells)
    ensures Group(cells + [p]) == Group(cells) + [Family(p.family, [Column(p.qualifier, [p.cell])])]
  {
    hide FamilyNames, Qualifiers, CellsOf, FamilyOf;
    OneMore(cells, p, p.family);
    NewFamily(cells, p);
    var before, after := Group(cells), Group(cells + [p]);
    var expected := before + [Family(p.family, [Column(p.qualifier, [p.cell])])];
    forall k | 0 <= k < |expected| ensures after[k] == expected[k] {
      if k < |before| {
        FamilyUntouched(cells, p, FamilyNames(cells)[k]);
      }
    }
  }

  /** One more cell of family `i` changes that family alone. */
  lemma {:induction false} FamilyExtends(cells: seq<Placed>, p: Placed, i: nat)
    requires i < |FamilyNames(cells)| && FamilyNames(cells)[i] == p.family
    ensures Group(cells + [p]) == Group(cells)[i := FamilyOf(cells + [p], p.family)]
  {
    OneMore(cells, p, p.family);
    NamesAreDistinct(cells);
    var expected := Group(cells)[i := FamilyOf(cells + [p], p.family)];
    forall k | 0 <= k < |expected| ensures Group(cells + [p])[k] == expected[k] {
      if k != i {
        FamilyUntouched(cells, p, FamilyNames(cells)[k]);
      }
    }
  }

  /** Grouping loses no cell, invents none and duplicates none. */
  lemma {:induction false} GroupIsLossless(cells: seq<Placed>)
    ensures Contents(Group(cells)) == multiset(cells)
  {
    if cells == [] {
    } else {
      var front, p := Init(cells), Last(cells);
      assert cells == front + [p];
      GroupIsLossless(front);
      if p.family !in FamilyNames(front) {
        FamilyOpens(front, p);
        var added := Family(p.family, [Column(p.qualifier, [p.cell])]);
        assert Init(Group(front) + [added]) == Group(front);
        assert PlaceColumn(p.family, added.columns[0]) == [p];
        assert ColumnContents(p.family, added.columns) == multiset{p};
      } else {
        var i :| 0 <= i < |FamilyNames(front)| && FamilyNames(front)[i] == p.family;
        FamilyExtends(front, p, i);
        FamilyLossless(front, p);
        ContentsGrow(Group(front), i, FamilyOf(cells, p.family), p);
      }
    }
  }

  lemma {:induction false} FamilyLossless(cells: seq<Placed>, p: Placed)
    ensures ColumnContents(p.family, FamilyOf(cells + [p], p.family).columns)
         == ColumnContents(p.family, FamilyOf(cells, p.family).columns) + multiset{p}
  {
    var before := FamilyOf(cells, p.family).columns;
    if p.qualifier !in Qualifiers(cells, p.family) {
      ColumnOpens(cells, p);
      assert Init(before + [Column(p.qualifier, [p.cell])]) == before;
      assert PlaceColumn(p.family, Column(p.qualifier, [p.cell])) == [p];
    } else {
      var i :| 0 <= i < |before| && Qualifiers(cells, p.family)[i] == p.qualifier;
      ColumnExtends(cells, p, i);
      ColumnContentsGrow(p.family, before, i, p.cell);
    }
  }
}
