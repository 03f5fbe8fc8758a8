/**
 * The "Trends Over Time" tab (ITN.py:111-126): every CSV file of the history
 * folder, in sorted name order, that has a `predicted_label` column gives one
 * row: the date taken from its name and the share of each label; the rows are
 * then made dense, each missing label filled with 0, and indexed by date.
 */
module Trends {
  import opened Results
  import opened Order
  import opened Frames
  import opened PyStrings
  import opened ValueCounts
  import History
  import Prediction

  datatype TrendError =
    | NoHistoryFolder            // the tab shows "Upload prediction data first" instead
    | NoTimestampColumn          // `set_index("timestamp")` on an empty frame raises KeyError
    | NoUnderscore(file: string) // `file.split("_")[1]` raises IndexError

  /** One entry of `trend_data`: the "timestamp" key and the label shares. */
  datatype TrendRow = TrendRow(timestamp: string, shares: map<Cell, real>)

  /** `file.split("_")[1].replace(".csv", "")` (ITN.py:120). */
  function TrendKey(file: string): Result<string, TrendError>
  {
    var parts := Split(file, "_");
    if |parts| < 2 then Failure(NoUnderscore(file)) else Success(Replace(parts[1], History.FILE_SUFFIX, ""))
  }

  /** `sorted([f for f in os.listdir("history") if f.endswith(".csv")])` (ITN.py:112). */
  function HistoryFiles(files: map<string, seq<Column>>): (r: seq<string>)
    ensures forall f :: f in r <==> f in files && EndsWith(f, History.FILE_SUFFIX)
    ensures StrictlySorted(r, LexLess)
  {
    var csv := set f | f in files && EndsWith(f, History.FILE_SUFFIX);
    LexLessIsStrictTotal(csv);
    SortSet(csv, LexLess)
  }

  /** The row one file contributes, or None when it has no `predicted_label`
      column (the `continue` at ITN.py:117-118). */
  function RunRow(file: string, table: seq<Column>): Result<Option<TrendRow>, TrendError>
  {
    match Lookup(table, Prediction.PREDICTED_LABEL)
    case None => Success(None)
    case Some(labels) =>
      match TrendKey(file)
      case Failure(e) => Failure(e)
      case Success(key) => Success(Some(TrendRow(key, Shares(labels))))
  }

  /** `trend_data` after the loop has processed the files `fs`, in order. */
  function TrendData(files: map<string, seq<Column>>, fs: seq<string>): Result<seq<TrendRow>, TrendError>
    requires forall f :: f in fs ==> f in files
    decreases |fs|
  {
    if fs == [] then Success([])
    else
      var last := fs[|fs| - 1];
      match TrendData(files, fs[..|fs| - 1])
      case Failure(e) => Failure(e)
      case Success(rows) =>
        match RunRow(last, files[last])
        case Failure(e) => Failure(e)
        case Success(None) => Success(rows)
        case Success(Some(row)) => Success(rows + [row])
  }

  /** The files among `fs` that have a `predicted_label` column, in order. */
  function Included(files: map<string, seq<Column>>, fs: seq<string>): (r: seq<string>)
    requires forall f :: f in fs ==> f in files
    ensures forall f :: f in r <==> f in fs && Prediction.PREDICTED_LABEL in Names(files[f])
    decreases |fs|
  {
    if fs == [] then []
    else
      var last := fs[|fs| - 1];
      Included(files, fs[..|fs| - 1]) + (if Prediction.PREDICTED_LABEL in Names(files[last]) then [last] else [])
  }

  /** Every label that some row has a share for. */
  function Labels(rows: seq<TrendRow>): set<Cell>
  {
    set i, l | 0 <= i < |rows| && l in rows[i].shares :: l
  }

  /** `pd.DataFrame(trend_data).fillna(0)`: one column per label seen in any row. */
  function FillZero(rows: seq<TrendRow>): seq<TrendRow>
  {
    var all := Labels(rows);
    seq(|rows|, i requires 0 <= i < |rows| =>
      TrendRow(rows[i].timestamp,
               map l | l in all :: if l in rows[i].shares then rows[i].shares[l] else 0.0))
  }

  /** The table the tab charts: dense rows, or the exception or message the tab shows instead. */
  function TrendTable(present: bool, files: map<string, seq<Column>>): Result<seq<TrendRow>, TrendError>
  {
    if !present then Failure(NoHistoryFolder)
    else
      match TrendData(files, HistoryFiles(files))
      case Failure(e) => Failure(e)
      case Success(rows) => if rows == [] then Failure(NoTimestampColumn) else Success(FillZero(rows))
  }

  // ---------------------------------------------------------------------
  // The loop of ITN.py:115-122

  lemma {:induction false} TrendDataFailureSticks(files: map<string, seq<Column>>, fs: seq<string>, i: nat, e: TrendError)
    requires forall f :: f in fs ==> f in files
    requires i <= |fs| && TrendData(files, fs[..i]) == Failure(e)
    ensures TrendData(files, fs) == Failure(e)
    decreases |fs| - i
  {
    if i < |fs| {
      assert fs[..i + 1][..i] == fs[..i];
      TrendDataFailureSticks(files, fs, i + 1, e);
    } else {
      assert fs[..i] == fs;
    }
  }

  /** One more file: its row, if any, is appended to the rows so far. */
  lemma TrendDataNext(files: map<string, seq<Column>>, fs: seq<string>, i: nat, rows: seq<TrendRow>)
    requires forall f :: f in fs ==> f in files
    requires i < |fs| && TrendData(files, fs[..i]) == Success(rows)
    ensures TrendData(files, fs[..i + 1]) ==
      match RunRow(fs[i], files[fs[i]])
      case Failure(e) => Failure(e)
      case Success(None) => Success(rows)
      case Success(Some(row)) => Success(rows + [row])
  {
    assert fs[..i + 1][..i] == fs[..i];
  }

  /** The loop over the sorted history files, appending one row per file that
      has predictions; an exception ends the whole tab. */
  method CollectTrendData(files: map<string, seq<Column>>) returns (r: Result<seq<TrendRow>, TrendError>)
    ensures r == TrendData(files, HistoryFiles(files))
  {
    var historyFiles := HistoryFiles(files);
    var trendData: seq<TrendRow> := [];
    var i := 0;
    while i < |historyFiles|
      invariant 0 <= i <= |historyFiles|
      invariant TrendData(files, historyFiles[..i]) == Success(trendData)
    {
      var file := historyFiles[i];
      TrendDataNext(files, historyFiles, i, trendData);
      var dfHist := files[file];
      match Lookup(dfHist, Prediction.PREDICTED_LABEL) {
        case None =>
        case Some(labels) =>
          var counts := Shares(labels);
          var key := TrendKey(file);
          if key.Failure? {
            TrendDataFailureSticks(files, historyFiles, i + 1, key.error);
            return Failure(key.error);
          }
          trendData := trendData + [TrendRow(key.value, counts)];
      }
      i := i + 1;
    }
    assert historyFiles[..i] == historyFiles;
    r := Success(trendData);
  }

  /** The tab as a whole: no folder, the loop, then the dense table. */
  method TrendsOverTime(store: History.Store) returns (r: Result<seq<TrendRow>, TrendError>)
    ensures r == TrendTable(store.present, store.files)
  {
    if !store.present {
      return Failure(NoHistoryFolder);
    }
    var trendData := CollectTrendData(store.files);
    match trendData {
      case Failure(e) => r := Failure(e);
      case Success(rows) =>
        if rows == [] {
          r := Failure(NoTimestampColumn);
        } else {
          r := Success(FillZero(rows));
        }
    }
  }

  // ---------------------------------------------------------------------
  // Properties

  /** For a file the prediction tab wrote, the trend key is only the date part
      of its timestamp: the timestamp itself contains an underscore. */
  lemma TrendKeyIsDatePart(t: History.DateTime)
    requires History.ValidDateTime(t)
    ensures TrendKey(History.FileName(t)) == Success(History.DatePart(t))
  {
    var date := History.DatePart(t);
    var rest := History.TimePart(t) + History.FILE_SUFFIX;
    History.FileNameShape(t);
    History.DatePartCharacters(t);
    assert forall i :: 0 <= i < |"predictions"| ==> "predictions"[i] != '_';
    SplitAfterPiece("predictions", '_', date + ['_'] + rest);
    SplitAfterPiece(date, '_', rest);
    var parts := Split(History.FileName(t), "_");
    assert "_" == ['_'];
    assert parts == ["predictions"] + ([date] + Split(rest, "_"));
    assert parts[1] == date;
    ReplaceWithoutLead(date, History.FILE_SUFFIX, "");
  }

  /** Two runs on the same day at different times are two history files, yet
      both give the same trend key. */
  lemma SameDayRunsShareKey(a: History.DateTime, b: History.DateTime)
    requires History.ValidDateTime(a) && History.ValidDateTime(b)
    requires a.year == b.year && a.month == b.month && a.day == b.day && a != b
    ensures History.FileName(a) != History.FileName(b)
    ensures TrendKey(History.FileName(a)) == TrendKey(History.FileName(b))
  {
    History.FileNamesSortChronologically(a, b);
    TrendKeyIsDatePart(a);
    TrendKeyIsDatePart(b);
  }

  /** Every one of the files `inc` has a trend key. */
  predicate AllKeyed(inc: seq<string>)
  {
    forall f :: f in inc ==> TrendKey(f).Success?
  }

  /** The row the file `f` contributes, given that it has a label column. */
  ghost predicate RowOf(files: map<string, seq<Column>>, f: string, row: TrendRow)
    requires f in files
  {
    && Lookup(files[f], Prediction.PREDICTED_LABEL).Some?
    && TrendKey(f) == Success(row.timestamp)
    && row.shares == Shares(Lookup(files[f], Prediction.PREDICTED_LABEL).value)
  }

  /** `rows` are, one for one, the trend rows of the files `inc`. */
  ghost predicate RowsMatch(files: map<string, seq<Column>>, inc: seq<string>, rows: seq<TrendRow>)
    requires forall f :: f in inc ==> f in files
  {
    |rows| == |inc| && forall k :: 0 <= k < |inc| ==> RowOf(files, inc[k], rows[k])
  }

  lemma RowsMatchAppend(files: map<string, seq<Column>>, inc: seq<string>, rows: seq<TrendRow>, f: string, row: TrendRow)
    requires forall g :: g in inc ==> g in files
    requires f in files
    requires RowsMatch(files, inc, rows) && RowOf(files, f, row)
    ensures RowsMatch(files, inc + [f], rows + [row])
  {
    assert forall k :: 0 <= k < |inc| ==> (inc + [f])[k] == inc[k] && (rows + [row])[k] == rows[k];
  }

  /** One more file: what the loop does with it. */
  lemma TrendDataStep(files: map<string, seq<Column>>, fs: seq<string>)
    requires forall f :: f in fs ==> f in files
    requires fs != []
    ensures var init := fs[..|fs| - 1];
            var last := fs[|fs| - 1];
            && (Prediction.PREDICTED_LABEL !in Names(files[last]) ==>
                  Included(files, fs) == Included(files, init) && TrendData(files, fs) == TrendData(files, init))
            && (Prediction.PREDICTED_LABEL in Names(files[last]) ==>
                  && Included(files, fs) == Included(files, init) + [last]
                  && (TrendData(files, init).Success? && TrendKey(last).Success? ==>
                        TrendData(files, fs) == Success(TrendData(files, init).value +
                          [TrendRow(TrendKey(last).value, Shares(Lookup(files[last], Prediction.PREDICTED_LABEL).value))]))
                  && (!TrendData(files, init).Success? || !TrendKey(last).Success? ==> !TrendData(files, fs).Success?))
  {
    var init := fs[..|fs| - 1];
    var last := fs[|fs| - 1];
    if Prediction.PREDICTED_LABEL !in Names(files[last]) {
      assert Lookup(files[last], Prediction.PREDICTED_LABEL) == None;
      assert Included(files, fs) == Included(files, init) + [];
    }
  }

  /**
   * The loop yields exactly one row per file that has a `predicted_label`
   * column, in the order of the files, each with that file's key and label
   * shares; it fails exactly when one of those files has no key.
   */
  lemma {:induction false} TrendDataFollowsIncluded(files: map<string, seq<Column>>, fs: seq<string>)
    requires forall f :: f in fs ==> f in files
    ensures TrendData(files, fs).Success? <==> AllKeyed(Included(files, fs))
    ensures TrendData(files, fs).Success? ==> RowsMatch(files, Included(files, fs), TrendData(files, fs).value)
    decreases |fs|
  {
    if fs != [] {
      var init := fs[..|fs| - 1];
      var last := fs[|fs| - 1];
      TrendDataFollowsIncluded(files, init);
      TrendDataStep(files, fs);
      var prev := Included(files, init);
      if Prediction.PREDICTED_LABEL in Names(files[last]) {
        assert Included(files, fs) == prev + [last];
        if TrendData(files, init).Success? && TrendKey(last).Success? {
          var row := TrendRow(TrendKey(last).value, Shares(Lookup(files[last], Prediction.PREDICTED_LABEL).value));
          RowsMatchAppend(files, prev, TrendData(files, init).value, last, row);
        } else if !TrendKey(last).Success? {
          assert last in Included(files, fs);
        } else {
          var f :| f in prev && !TrendKey(f).Success?;
          assert f in Included(files, fs);
        }
      }
    }
  }

  /** Keeping only some files keeps them in sorted order. */
  lemma {:induction false} IncludedSorted(files: map<string, seq<Column>>, fs: seq<string>)
    requires forall f :: f in fs ==> f in files
    requires StrictlySorted(fs, LexLess)
    ensures StrictlySorted(Included(files, fs), LexLess)
    decreases |fs|
  {
    if fs != [] {
      var init := fs[..|fs| - 1];
      var last := fs[|fs| - 1];
      IncludedSorted(files, init);
      var prev := Included(files, init);
      forall k | 0 <= k < |prev| ensures LexLess(prev[k], last) {
        assert prev[k] in init;
        var j :| 0 <= j < |init| && init[j] == prev[k];
        assert fs[j] == init[j];
      }
    }
  }

  /** After zero-filling, every row has an entry for every label of any row:
      its own share, or 0 where its run never predicted that label. */
  lemma FillZeroIsDense(rows: seq<TrendRow>)
    ensures |FillZero(rows)| == |rows|
    ensures forall i :: 0 <= i < |rows| ==>
      && FillZero(rows)[i].timestamp == rows[i].timestamp
      && (forall l :: l in FillZero(rows)[i].shares <==> exists j :: 0 <= j < |rows| && l in rows[j].shares)
      && (forall l :: l in rows[i].shares ==> FillZero(rows)[i].shares[l] == rows[i].shares[l])
      && (forall l :: l in FillZero(rows)[i].shares && l !in rows[i].shares ==> FillZero(rows)[i].shares[l] == 0.0)
  {
    forall i, l | 0 <= i < |rows| && l in rows[i].shares ensures l in Labels(rows) {
    }
  }

  /** The history files the tab turns into rows, in chart order. */
  function Charted(files: map<string, seq<Column>>): (r: seq<string>)
    ensures forall f :: f in r ==> f in files
  {
    Included(files, HistoryFiles(files))
  }

  /**
   * When the tab charts anything: not without the folder, not when no history
   * file has a `predicted_label` column, and not when one of those files has
   * no underscore in its name; the charted files come in sorted name order.
   */
  lemma TrendTableOutcome(present: bool, files: map<string, seq<Column>>)
    ensures !present ==> TrendTable(present, files) == Failure(NoHistoryFolder)
    ensures StrictlySorted(Charted(files), LexLess)
    ensures present && AllKeyed(Charted(files)) && Charted(files) == [] ==>
      TrendTable(present, files) == Failure(NoTimestampColumn)
    ensures TrendTable(present, files).Success? <==>
      present && Charted(files) != [] && AllKeyed(Charted(files))
  {
    var fs := HistoryFiles(files);
    IncludedSorted(files, fs);
    TrendDataFollowsIncluded(files, fs);
  }

  /**
   * A charted table has one dense row per charted file, keyed by that file's
   * trend key: the file's label shares, 0 for a label the run never predicted,
   * and, for a run with any label, shares that add up to 1.
   */
  lemma TrendTableRows(present: bool, files: map<string, seq<Column>>, k: nat)
    requires TrendTable(present, files).Success?
    ensures |TrendTable(present, files).value| == |Charted(files)|
    ensures k < |Charted(files)| ==>
      var dense := TrendTable(present, files).value[k];
      var labels := Lookup(files[Charted(files)[k]], Prediction.PREDICTED_LABEL).value;
      && Lookup(files[Charted(files)[k]], Prediction.PREDICTED_LABEL).Some?
      && TrendKey(Charted(files)[k]) == Success(dense.timestamp)
      && Shares(labels).Keys <= dense.shares.Keys
      && (forall l :: l in Shares(labels) ==> dense.shares[l] == Shares(labels)[l])
      && (forall l :: l in dense.shares && l !in Shares(labels) ==> dense.shares[l] == 0.0)
      && (forall keys :: Present(labels) > 0 && Enumerates(keys, dense.shares.Keys) ==>
            SumShares(keys, dense.shares) == 1.0)
  {
    var fs := HistoryFiles(files);
    TrendDataFollowsIncluded(files, fs);
    var rows := TrendData(files, fs).value;
    FillZeroIsDense(rows);
    if k < |Charted(files)| {
      var inc := Charted(files);
      var dense := FillZero(rows)[k];
      var labels := Lookup(files[inc[k]], Prediction.PREDICTED_LABEL).value;
      assert RowOf(files, inc[k], rows[k]);
      assert rows[k].shares == Shares(labels);
      forall keys | Present(labels) > 0 && Enumerates(keys, dense.shares.Keys)
        ensures SumShares(keys, dense.shares) == 1.0
      {
        ZeroFilledSharesSumToOne(labels, keys, dense.shares);
      }
    }
  }
}
