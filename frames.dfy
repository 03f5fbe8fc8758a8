/**
 * The DataFrame the script works on, as an ordered sequence of named columns
 * of equal length. Column names may repeat in uploaded data; the script
 * removes the repeats with `df.loc[:, ~df.columns.duplicated()]`
 * (ITN.py:57 and ITN.py:76), which keeps the first column of each name.
 */
module Frames {
  import opened Results
  import opened Order

  /** One cell: an integer, a text value, or NaN (pandas' missing value). */
  datatype Cell = Num(n: int) | Text(s: string) | Missing

  datatype Column = Column(name: string, values: seq<Cell>)

  function Names(cols: seq<Column>): (r: seq<string>)
    ensures |r| == |cols|
    ensures forall i :: 0 <= i < |cols| ==> r[i] == cols[i].name
  {
    seq(|cols|, i requires 0 <= i < |cols| => cols[i].name)
  }

  /** Every column holds one value per row. */
  predicate WellFormed(cols: seq<Column>, rows: nat)
  {
    forall i :: 0 <= i < |cols| ==> |cols[i].values| == rows
  }

  predicate UniqueNames(cols: seq<Column>)
  {
    forall i, j :: 0 <= i < j < |cols| ==> cols[i].name != cols[j].name
  }

  /** Index of the first column called `name`. */
  function FirstIndex(cols: seq<Column>, name: string): nat
    requires name in Names(cols)
  {
    IndexOf(Names(cols), name)
  }

  /**
   * `df.loc[:, ~df.columns.duplicated()]`: column i survives exactly when no
   * earlier column has its name (`duplicated()` marks every repeat after the first).
   */
  function KeepFirst(cols: seq<Column>): seq<Column>
    decreases |cols|
  {
    if cols == [] then []
    else
      var init := cols[..|cols| - 1];
      var last := cols[|cols| - 1];
      KeepFirst(init) + (if last.name in Names(init) then [] else [last])
  }

  /** `df[name]` on a frame: the values of the first column called `name`, or
      None where pandas would raise KeyError. */
  function Lookup(cols: seq<Column>, name: string): Option<seq<Cell>>
  {
    if name in Names(cols) then Some(cols[FirstIndex(cols, name)].values) else None
  }

  /** `df[name] = values`: overwrite the column of that name in place, or add it at the end. */
  function Assign(cols: seq<Column>, name: string, values: seq<Cell>): seq<Column>
  {
    if name in Names(cols) then
      seq(|cols|, i requires 0 <= i < |cols| =>
        if cols[i].name == name then Column(name, values) else cols[i])
    else cols + [Column(name, values)]
  }

  /** `df.drop(columns=[name])`: remove every column called `name`. */
  function Drop(cols: seq<Column>, name: string): seq<Column>
    decreases |cols|
  {
    if cols == [] then []
    else (if cols[0].name == name then [] else [cols[0]]) + Drop(cols[1..], name)
  }

  // ---------------------------------------------------------------------
  // Duplicate-column removal

  lemma {:induction false} KeepFirstIsSubsequence(cols: seq<Column>)
    ensures forall j :: 0 <= j < |KeepFirst(cols)| ==> KeepFirst(cols)[j] in cols
    ensures forall n :: n in Names(KeepFirst(cols)) <==> n in Names(cols)
    decreases |cols|
  {
    if cols != [] {
      var init := cols[..|cols| - 1];
      KeepFirstIsSubsequence(init);
      assert cols == init + [cols[|cols| - 1]];
      assert Names(cols) == Names(init) + [cols[|cols| - 1].name];
      var r := KeepFirst(cols);
      forall j | 0 <= j < |r| ensures r[j] in cols {
        if j < |KeepFirst(init)| {
          assert r[j] == KeepFirst(init)[j];
          assert KeepFirst(init)[j] in init;
        }
      }
      forall n ensures n in Names(r) <==> n in Names(cols) {
        if n in Names(r) {
          var j :| 0 <= j < |r| && r[j].name == n;
          if j < |KeepFirst(init)| {
            assert KeepFirst(init)[j].name == n;
            assert n in Names(KeepFirst(init));
          }
        }
        if n in Names(cols) && n !in Names(init) {
          assert n == cols[|cols| - 1].name;
          assert r[|r| - 1] == cols[|cols| - 1];
        }
        if n in Names(init) {
          var j :| 0 <= j < |KeepFirst(init)| && KeepFirst(init)[j].name == n;
          assert r[j].name == n;
        }
      }
    }
  }

  lemma {:induction false} KeepFirstUnique(cols: seq<Column>)
    ensures UniqueNames(KeepFirst(cols))
    decreases |cols|
  {
    if cols != [] {
      var init := cols[..|cols| - 1];
      var last := cols[|cols| - 1];
      KeepFirstUnique(init);
      KeepFirstIsSubsequence(init);
      var prev := KeepFirst(init);
      if last.name !in Names(init) {
        forall j | 0 <= j < |prev| ensures prev[j].name != last.name {
          assert Names(prev)[j] == prev[j].name;
        }
      }
    }
  }

  /** One step of the recursion: the columns that survive from `init` sit at
      the same first position in `init` and in `init + [last]`. */
  lemma FirstIndexExtend(init: seq<Column>, last: Column, n: string)
    requires n in Names(init)
    ensures n in Names(init + [last])
    ensures FirstIndex(init + [last], n) == FirstIndex(init, n)
    ensures (init + [last])[FirstIndex(init, n)] == init[FirstIndex(init, n)]
  {
    assert Names(init + [last]) == Names(init) + [last.name];
    IndexOfAppend(Names(init), [last.name], n);
  }

  lemma {:induction false} KeepFirstFirstOfName(cols: seq<Column>)
    ensures forall j :: 0 <= j < |KeepFirst(cols)| ==>
      KeepFirst(cols)[j].name in Names(cols) &&
      KeepFirst(cols)[j] == cols[FirstIndex(cols, KeepFirst(cols)[j].name)]
    decreases |cols|
  {
    if cols != [] {
      var init := cols[..|cols| - 1];
      var last := cols[|cols| - 1];
      assert cols == init + [last];
      KeepFirstFirstOfName(init);
      var prev := KeepFirst(init);
      var r := KeepFirst(cols);
      forall j | 0 <= j < |r|
        ensures r[j].name in Names(cols) && r[j] == cols[FirstIndex(cols, r[j].name)]
      {
        if j < |prev| {
          assert r[j] == prev[j];
          FirstIndexExtend(init, last, prev[j].name);
        } else {
          assert last.name !in Names(init) && r[j] == last;
          assert Names(cols) == Names(init) + [last.name];
          IndexOfAppend(Names(init), [last.name], last.name);
        }
      }
    }
  }

  lemma {:induction false} KeepFirstOrder(cols: seq<Column>)
    ensures forall j :: 0 <= j < |KeepFirst(cols)| ==> KeepFirst(cols)[j].name in Names(cols)
    ensures forall j1, j2 :: 0 <= j1 < j2 < |KeepFirst(cols)| ==>
      FirstIndex(cols, KeepFirst(cols)[j1].name) < FirstIndex(cols, KeepFirst(cols)[j2].name)
    decreases |cols|
  {
    KeepFirstFirstOfName(cols);
    if cols != [] {
      var init := cols[..|cols| - 1];
      var last := cols[|cols| - 1];
      assert cols == init + [last];
      KeepFirstOrder(init);
      var prev := KeepFirst(init);
      var r := KeepFirst(cols);
      forall j1, j2 | 0 <= j1 < j2 < |r|
        ensures FirstIndex(cols, r[j1].name) < FirstIndex(cols, r[j2].name)
      {
        assert r[j1] == prev[j1];
        FirstIndexExtend(init, last, prev[j1].name);
        if j2 < |prev| {
          assert r[j2] == prev[j2];
          FirstIndexExtend(init, last, prev[j2].name);
        } else {
          assert last.name !in Names(init) && r[j2] == last;
          assert Names(cols) == Names(init) + [last.name];
          IndexOfAppend(Names(init), [last.name], last.name);
        }
      }
    }
  }

  /** After duplicate removal no name appears twice; every surviving column is
      the first column of its name in the input; the survivors keep their
      relative order; and no name is lost. */
  lemma KeepFirstKeepsFirstInOrder(cols: seq<Column>)
    ensures UniqueNames(KeepFirst(cols))
    ensures forall n :: n in Names(KeepFirst(cols)) <==> n in Names(cols)
    ensures forall j :: 0 <= j < |KeepFirst(cols)| ==>
      KeepFirst(cols)[j].name in Names(cols) &&
      KeepFirst(cols)[j] == cols[FirstIndex(cols, KeepFirst(cols)[j].name)]
    ensures forall j1, j2 :: 0 <= j1 < j2 < |KeepFirst(cols)| ==>
      FirstIndex(cols, KeepFirst(cols)[j1].name) < FirstIndex(cols, KeepFirst(cols)[j2].name)
  {
    KeepFirstIsSubsequence(cols);
    KeepFirstUnique(cols);
    KeepFirstFirstOfName(cols);
    KeepFirstOrder(cols);
  }

  /** A frame whose names are already unique is left unchanged. */
  lemma {:induction false} KeepFirstOfUnique(cols: seq<Column>)
    requires UniqueNames(cols)
    ensures KeepFirst(cols) == cols
    decreases |cols|
  {
    if cols != [] {
      var init := cols[..|cols| - 1];
      var last := cols[|cols| - 1];
      assert UniqueNames(init) by {
        forall i, j | 0 <= i < j < |init| ensures init[i].name != init[j].name {
          assert init[i] == cols[i] && init[j] == cols[j];
        }
      }
      KeepFirstOfUnique(init);
      assert last.name !in Names(init) by {
        if last.name in Names(init) {
          assert false;
        }
      }
      assert KeepFirst(cols) == KeepFirst(init) + [last];
      assert cols == init + [last];
    }
  }

  /** Removing duplicates twice is the same as removing them once: the second
      pass at ITN.py:76 can change nothing on its own. */
  lemma KeepFirstIdempotent(cols: seq<Column>)
    ensures KeepFirst(KeepFirst(cols)) == KeepFirst(cols)
  {
    KeepFirstKeepsFirstInOrder(cols);
    KeepFirstOfUnique(KeepFirst(cols));
  }

  /** `df[name]` reads the same column before and after duplicate removal. */
  lemma KeepFirstLookup(cols: seq<Column>, name: string)
    ensures Lookup(KeepFirst(cols), name) == Lookup(cols, name)
  {
    var r := KeepFirst(cols);
    KeepFirstKeepsFirstInOrder(cols);
    if name in Names(cols) {
      assert name in Names(r);
      var j := FirstIndex(r, name);
      assert r[j].name == name;
      IndexOfDistinct(Names(r), j);
    }
  }

  lemma {:induction false} KeepFirstWellFormed(cols: seq<Column>, rows: nat)
    requires WellFormed(cols, rows)
    ensures WellFormed(KeepFirst(cols), rows)
  {
    KeepFirstIsSubsequence(cols);
  }

  // ---------------------------------------------------------------------
  // Column assignment and removal

  /** After `df[name] = values` the column reads back as `values`, every other
      name reads as before, and names stay unique if they were. */
  lemma AssignReadsBack(cols: seq<Column>, name: string, values: seq<Cell>)
    ensures Lookup(Assign(cols, name, values), name) == Some(values)
    ensures forall other :: other != name ==> Lookup(Assign(cols, name, values), other) == Lookup(cols, other)
    ensures forall n :: n in Names(Assign(cols, name, values)) <==> n == name || n in Names(cols)
    ensures UniqueNames(cols) ==> UniqueNames(Assign(cols, name, values))
  {
    if name in Names(cols) {
      AssignOverwrites(cols, name, values);
    } else {
      AssignAppends(cols, name, values);
    }
  }

  /** Overwriting keeps the names and their order. */
  lemma AssignOverwrites(cols: seq<Column>, name: string, values: seq<Cell>)
    requires name in Names(cols)
    ensures Names(Assign(cols, name, values)) == Names(cols)
    ensures Lookup(Assign(cols, name, values), name) == Some(values)
    ensures forall other :: other != name ==> Lookup(Assign(cols, name, values), other) == Lookup(cols, other)
  {
    var r := Assign(cols, name, values);
    assert Names(r) == Names(cols);
    forall other | other != name ensures Lookup(r, other) == Lookup(cols, other) {
      if other in Names(cols) {
        assert r[FirstIndex(cols, other)] == cols[FirstIndex(cols, other)];
      }
    }
  }

  /** A new name is appended as the last column. */
  lemma AssignAppends(cols: seq<Column>, name: string, values: seq<Cell>)
    requires name !in Names(cols)
    ensures Names(Assign(cols, name, values)) == Names(cols) + [name]
    ensures Lookup(Assign(cols, name, values), name) == Some(values)
    ensures forall other :: other != name ==> Lookup(Assign(cols, name, values), other) == Lookup(cols, other)
  {
    var r := Assign(cols, name, values);
    assert Names(r) == Names(cols) + [name];
    IndexOfAppend(Names(cols), [name], name);
    forall other | other != name ensures Lookup(r, other) == Lookup(cols, other) {
      if other in Names(r) {
        IndexOfAppend(Names(cols), [name], other);
      }
    }
  }

  lemma AssignWellFormed(cols: seq<Column>, rows: nat, name: string, values: seq<Cell>)
    requires WellFormed(cols, rows) && |values| == rows
    ensures WellFormed(Assign(cols, name, values), rows)
  {
  }

  lemma {:induction false} DropKeepsOthers(cols: seq<Column>, name: string)
    ensures forall c :: c in Drop(cols, name) <==> c in cols && c.name != name
    decreases |cols|
  {
    if cols != [] {
      DropKeepsOthers(cols[1..], name);
      assert cols == [cols[0]] + cols[1..];
    }
  }

  /** `df[name]` on a frame is the first column when it has that name, else a lookup in the rest. */
  lemma LookupCons(c: Column, tail: seq<Column>, name: string)
    ensures Lookup([c] + tail, name) == if c.name == name then Some(c.values) else Lookup(tail, name)
  {
    var cols := [c] + tail;
    assert cols[1..] == tail;
    assert Names(cols) == [c.name] + Names(tail);
    if c.name != name && name in Names(tail) {
      assert Names(cols)[1..] == Names(tail);
      var k := IndexOf(Names(tail), name);
      assert IndexOf(Names(cols), name) == 1 + k;
      assert cols[1 + k] == tail[k];
    }
  }

  lemma {:induction false} DropLookup(cols: seq<Column>, name: string, other: string)
    requires other != name
    ensures Lookup(Drop(cols, name), other) == Lookup(cols, other)
    decreases |cols|
  {
    if cols != [] {
      var tail := cols[1..];
      DropLookup(tail, name, other);
      assert cols == [cols[0]] + tail;
      LookupCons(cols[0], tail, other);
      if cols[0].name != name {
        assert Drop(cols, name) == [cols[0]] + Drop(tail, name);
        LookupCons(cols[0], Drop(tail, name), other);
      } else {
        assert Drop(cols, name) == Drop(tail, name);
      }
    }
  }

  /** `df.drop(columns=[name])` leaves no column of that name, keeps every other
      column, and reads every other name as before. */
  lemma DropRemovesOnlyName(cols: seq<Column>, name: string)
    ensures name !in Names(Drop(cols, name))
    ensures forall n :: n != name ==> (n in Names(Drop(cols, name)) <==> n in Names(cols))
    ensures forall other :: other != name ==> Lookup(Drop(cols, name), other) == Lookup(cols, other)
    ensures forall c :: c in Drop(cols, name) <==> c in cols && c.name != name
  {
    DropKeepsOthers(cols, name);
    var r := Drop(cols, name);
    forall other | other != name ensures Lookup(r, other) == Lookup(cols, other) {
      DropLookup(cols, name, other);
    }
    forall n ensures n in Names(r) ==> n != name && n in Names(cols) {
      if n in Names(r) {
        var j :| 0 <= j < |r| && Names(r)[j] == n;
        assert r[j] in r;
      }
    }
    forall n | n != name && n in Names(cols) ensures n in Names(r) {
      var j :| 0 <= j < |cols| && Names(cols)[j] == n;
      assert cols[j] in r;
      var k :| 0 <= k < |r| && r[k] == cols[j];
      assert Names(r)[k] == n;
    }
  }

  /** Duplicate-free names stay duplicate-free after a drop. */
  lemma {:induction false} DropUnique(cols: seq<Column>, name: string)
    requires UniqueNames(cols)
    ensures UniqueNames(Drop(cols, name))
    decreases |cols|
  {
    if cols != [] {
      var tail := cols[1..];
      assert UniqueNames(tail);
      DropUnique(tail, name);
      DropKeepsOthers(tail, name);
      var rest := Drop(tail, name);
      forall j | 0 <= j < |rest| ensures rest[j].name != cols[0].name {
        assert rest[j] in tail;
      }
    }
  }

  lemma DropWellFormed(cols: seq<Column>, rows: nat, name: string)
    requires WellFormed(cols, rows)
    ensures WellFormed(Drop(cols, name), rows)
  {
    DropKeepsOthers(cols, name);
    var r := Drop(cols, name);
    forall j | 0 <= j < |r| ensures |r[j].values| == rows {
      assert r[j] in cols;
    }
  }

  /** In a well-formed frame every column that can be looked up has one value per row. */
  lemma LookupWellFormed(cols: seq<Column>, rows: nat)
    requires WellFormed(cols, rows)
    ensures forall n :: n in Names(cols) ==> Lookup(cols, n).Some? && |Lookup(cols, n).value| == rows
  {
  }

  // ---------------------------------------------------------------------
  // The frame as the script holds it in the variable `data`

  class Frame {
    var columns: seq<Column>
    var rows: nat

    ghost predicate Valid()
      reads this
    {
      WellFormed(columns, rows)
    }

    constructor (columns: seq<Column>, rows: nat)
      requires WellFormed(columns, rows)
      ensures Valid() && this.columns == columns && this.rows == rows
    {
      this.columns := columns;
      this.rows := rows;
    }

    /** `data = data.loc[:, ~data.columns.duplicated()]` */
    method DropDuplicateColumns()
      requires Valid()
      modifies this
      ensures Valid() && UniqueNames(columns)
      ensures columns == KeepFirst(old(columns)) && rows == old(rows)
    {
      KeepFirstWellFormed(columns, rows);
      KeepFirstKeepsFirstInOrder(columns);
      columns := KeepFirst(columns);
    }

    /** `data[name] = values` */
    method SetColumn(name: string, values: seq<Cell>)
      requires Valid() && |values| == rows
      modifies this
      ensures Valid() && rows == old(rows)
      ensures columns == Assign(old(columns), name, values)
      ensures Lookup(columns, name) == Some(values)
      ensures forall other :: other != name ==> Lookup(columns, other) == old(Lookup(columns, other))
    {
      AssignWellFormed(columns, rows, name, values);
      AssignReadsBack(columns, name, values);
      columns := Assign(columns, name, values);
    }

    /** `data = data.drop(columns=[name])` */
    method DropColumn(name: string)
      requires Valid()
      modifies this
      ensures Valid() && rows == old(rows)
      ensures columns == Drop(old(columns), name)
      ensures name !in Names(columns)
      ensures forall other :: other != name ==> Lookup(columns, other) == old(Lookup(columns, other))
    {
      DropWellFormed(columns, rows, name);
      DropRemovesOnlyName(columns, name);
      columns := Drop(columns, name);
    }
  }
}
