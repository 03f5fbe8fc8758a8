/**
 * `LabelEncoder().fit_transform(column)` (ITN.py:68-71), refitted on every
 * call: the classes are the distinct values of the column in ascending
 * order, and each value is replaced by its position among the classes.
 */
module LabelEncoding {
  import opened Results
  import opened Order
  import opened Frames

  /**
   * The order in which numpy and Python sort a column: numbers by value, text
   * by code point, NaN after everything else. Python refuses to compare a
   * number with a text value (FitTransform fails on such a column); placing
   * numbers first only makes the relation total.
   */
  predicate CellLess(a: Cell, b: Cell)
  {
    match (a, b)
    case (Num(x), Num(y)) => x < y
    case (Text(x), Text(y)) => LexLess(x, y)
    case (Missing, _) => false
    case (_, Missing) => true
    case (Num(_), Text(_)) => true
    case (Text(_), Num(_)) => false
  }

  lemma CellLessIsStrictTotal(s: set<Cell>)
    ensures StrictTotalOn(CellLess, s)
  {
    forall x | x in s ensures !CellLess(x, x) {
      if x.Text? { LexLessIrreflexive(x.s); }
    }
    forall x, y, z | x in s && y in s && z in s && CellLess(x, y) && CellLess(y, z)
      ensures CellLess(x, z)
    {
      if x.Text? && y.Text? && z.Text? { LexLessTransitive(x.s, y.s, z.s); }
    }
    forall x, y | x in s && y in s ensures x == y || CellLess(x, y) || CellLess(y, x) {
      if x.Text? && y.Text? { LexLessTotal(x.s, y.s); }
    }
  }

  /** Sorting a column holding both numbers and text raises TypeError. */
  datatype EncodeError = MixedTypes

  predicate HasNumber(col: seq<Cell>)
    decreases |col|
  {
    col != [] && (col[0].Num? || HasNumber(col[1..]))
  }

  predicate HasText(col: seq<Cell>)
    decreases |col|
  {
    col != [] && (col[0].Text? || HasText(col[1..]))
  }

  /** The column holds both a number and a text value. */
  predicate Mixed(col: seq<Cell>)
  {
    HasNumber(col) && HasText(col)
  }

  lemma {:induction false} HasNumberMeans(col: seq<Cell>)
    ensures HasNumber(col) <==> exists i :: 0 <= i < |col| && col[i].Num?
    decreases |col|
  {
    if col != [] {
      HasNumberMeans(col[1..]);
      if HasNumber(col[1..]) {
        var i :| 0 <= i < |col| - 1 && col[1..][i].Num?;
        assert col[i + 1].Num?;
      }
      if exists i :: 0 <= i < |col| && col[i].Num? {
        var i :| 0 <= i < |col| && col[i].Num?;
        if i > 0 { assert col[1..][i - 1].Num?; }
      }
    }
  }

  lemma {:induction false} HasTextMeans(col: seq<Cell>)
    ensures HasText(col) <==> exists i :: 0 <= i < |col| && col[i].Text?
    decreases |col|
  {
    if col != [] {
      HasTextMeans(col[1..]);
      if HasText(col[1..]) {
        var i :| 0 <= i < |col| - 1 && col[1..][i].Text?;
        assert col[i + 1].Text?;
      }
      if exists i :: 0 <= i < |col| && col[i].Text? {
        var i :| 0 <= i < |col| && col[i].Text?;
        if i > 0 { assert col[1..][i - 1].Text?; }
      }
    }
  }

  /** A column is mixed exactly when some cell is a number and some cell is text. */
  lemma MixedMeans(col: seq<Cell>)
    ensures Mixed(col) <==>
      (exists i :: 0 <= i < |col| && col[i].Num?) && (exists j :: 0 <= j < |col| && col[j].Text?)
  {
    HasNumberMeans(col);
    HasTextMeans(col);
  }

  function Distinct(col: seq<Cell>): set<Cell>
  {
    set i | 0 <= i < |col| :: col[i]
  }

  /** `classes_` of the encoder fitted on `col`. */
  function Classes(col: seq<Cell>): seq<Cell>
  {
    CellLessIsStrictTotal(Distinct(col));
    SortSet(Distinct(col), CellLess)
  }

  function FitTransform(col: seq<Cell>): Result<seq<nat>, EncodeError>
  {
    if Mixed(col) then Failure(MixedTypes)
    else
      var classes := Classes(col);
      assert forall i :: 0 <= i < |col| ==> col[i] in Distinct(col);
      Success(seq(|col|, i requires 0 <= i < |col| => IndexOf(classes, col[i])))
  }

  /** The classes are the distinct values of the column, each once, in ascending order. */
  lemma ClassesAreSortedDistinctValues(col: seq<Cell>)
    ensures |Classes(col)| == |Distinct(col)|
    ensures forall c :: c in Classes(col) <==> c in col
    ensures StrictlySorted(Classes(col), CellLess)
  {
    CellLessIsStrictTotal(Distinct(col));
    forall c ensures c in Distinct(col) <==> c in col {
      if c in col {
        var i :| 0 <= i < |col| && col[i] == c;
        assert col[i] in Distinct(col);
      }
    }
  }

  /** The codes of a column that is not mixed locate, compare and order like its values. */
  lemma CodesFollowValues(col: seq<Cell>)
    requires !Mixed(col)
    ensures var codes := FitTransform(col).value;
      && |codes| == |col|
      && (forall i :: 0 <= i < |col| ==>
            codes[i] < |Distinct(col)| && Classes(col)[codes[i]] == col[i])
      && (forall i, j :: 0 <= i < |col| && 0 <= j < |col| ==>
            (codes[i] == codes[j] <==> col[i] == col[j]))
      && (forall i, j :: 0 <= i < |col| && 0 <= j < |col| ==>
            (codes[i] < codes[j] <==> CellLess(col[i], col[j])))
  {
    ClassesAreSortedDistinctValues(col);
    var codes := FitTransform(col).value;
    var classes := Classes(col);
    CellLessIsStrictTotal(Distinct(col));
    forall i, j | 0 <= i < |col| && 0 <= j < |col|
      ensures codes[i] < codes[j] <==> CellLess(col[i], col[j])
    {
      assert classes[codes[i]] == col[i] && classes[codes[j]] == col[j];
      SortedPositions(classes, CellLess, Distinct(col), codes[i], codes[j]);
    }
  }

  /**
   * A column of numbers, or of text, with or without missing values, is
   * encoded into one code per row; equal values get equal codes and distinct
   * values distinct codes; every code is below the number of distinct values;
   * codes follow the sort order of the values; decoding a code through
   * `classes_` gives the value back. A column mixing numbers and text is refused.
   */
  lemma FitTransformEncodes(col: seq<Cell>)
    ensures FitTransform(col).Success? <==> !Mixed(col)
    ensures FitTransform(col).Success? ==>
      var codes := FitTransform(col).value;
      && |codes| == |col|
      && (forall i :: 0 <= i < |col| ==>
            codes[i] < |Distinct(col)| && Classes(col)[codes[i]] == col[i])
      && (forall i, j :: 0 <= i < |col| && 0 <= j < |col| ==>
            (codes[i] == codes[j] <==> col[i] == col[j]))
      && (forall i, j :: 0 <= i < |col| && 0 <= j < |col| ==>
            (codes[i] < codes[j] <==> CellLess(col[i], col[j])))
  {
    if !Mixed(col) {
      CodesFollowValues(col);
    }
  }

  /** A missing value gets the last code, one past every present value. */
  lemma MissingGetsLastCode(col: seq<Cell>, i: nat)
    requires i < |col| && col[i] == Missing && !Mixed(col)
    ensures FitTransform(col).value[i] == |Distinct(col)| - 1
  {
    FitTransformEncodes(col);
    ClassesAreSortedDistinctValues(col);
    var classes := Classes(col);
    var k := FitTransform(col).value[i];
    assert classes[k] == Missing;
    // Every later class would have to sort above NaN, and nothing does.
    assert k + 1 < |classes| ==> CellLess(classes[k], classes[k + 1]);
  }
}
