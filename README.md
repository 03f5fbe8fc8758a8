# ITN usage prediction — a Dafny model of its data logic

`ITN.py` is a Streamlit app with four tabs. It predicts whether survey
respondents use insecticide-treated nets (ITNs), which support malaria
prevention. Beneath the widgets lies a small, deterministic core, and this
project models that core and proves what it does:

- **Sheet link** (`SheetLink`): a pasted Google Sheet link becomes its CSV
  export link. The sheet id is `url.split("/d/")[1].split("/")[0]`.
- **Frames** (`Frames`): a DataFrame is a sequence of named columns, each a
  sequence of cells. A cell is `Num`, `Text` or `Missing` (NaN). The model
  has pandas' `df.loc[:, ~df.columns.duplicated()]` (keep the first column
  of each name), column reading, `df[name] = …` and `drop(columns=…)`.
  `Frames.Frame` is the mutable `data` object of the prediction tab; its
  methods change it in place.
- **Label encoding** (`LabelEncoding`): `LabelEncoder().fit_transform`. The
  classes are the sorted distinct values, with NaN last, and a value's code
  is its position among them. A column that mixes numbers and strings cannot
  be sorted, so Python raises `TypeError`.
- **Prediction tab** (`Prediction`, `Inference`): the steps are
  1. the first de-duplication;
  2. four encodings into the fixed feature columns of `model_features`;
  3. `predicted`, the fitted model applied to each feature row;
  4. the second de-duplication;
  5. replacing any old `predicted_label` with the decoded predictions;
  6. saving the frame under a timestamped name.

  The model and the label decoder loaded with `pickle` become parameters: a
  classifier function and the decoder's class list. ITN.py:57-82 is the
  function `PredictionRun`; the method `PredictUsage` is proved to carry it
  out on the frame object and then saves the frame (ITN.py:86-89).
- **Risk segmentation** (`RiskCounts`): `value_counts()` of the labels.
- **History** (`History`): the timestamp format `%Y-%m-%d_%H-%M-%S`, the file
  name `predictions_<timestamp>.csv`, and the `history` folder as a map from
  file name to table (`History.Store`). Sorting file names as strings sorts
  runs by time.
- **Trends** (`Trends`, `ValueCounts`):
  - the sorted `.csv` history files are read in order;
  - files without `predicted_label` are skipped;
  - each remaining file yields its label shares (`value_counts(normalize=True)`)
    under the key `file.split("_")[1].replace(".csv", "")`;
  - the rows are zero-filled into a dense table (`fillna(0)`).

  `CollectTrendData` is the loop, proved against the function `TrendData`.
- **What-if simulation** (`Inference.Simulate`): one row of four chosen codes
  goes through the same classifier and decoder.

`Results` (the `Result`/`Option` wrappers) and `Order` (string order,
sorting a finite set, index lookup) are supporting modules.

Where the code and its natural description differ, the model follows the
code:

- The trend key is only the **date** of the run, not the full timestamp,
  because the timestamp format contains an underscore. `TrendKeyIsDatePart`
  proves it, and `SameDayRunsShareKey` shows that two runs on one day end up
  with the same key.
- When no history file has `predicted_label`, `set_index("timestamp")` on
  the empty frame raises `KeyError`. The model returns
  `Failure(NoTimestampColumn)` instead of an empty chart.
- The first de-duplication happens **before** the columns are selected, so
  every selection reads the first column of its name.
- The four encoding lines run one after another on the frame the earlier
  lines left, so a selection may name a feature column an earlier line has
  just written, and it then reads those codes. The model states what each
  line reads (`Input`) in general; `UploadSelections` adds what that means
  when no selection is such a feature column.
- A select box over a frame without columns gives `None`, and `data[None]`
  raises `KeyError`, as does any name that is not a column. The model gives
  the error `Unbound` for it (`MissingSelectionFails`).
- When the prediction fails part-way, `data` keeps the columns already
  added; the risk tab then shows whatever `predicted_label` that state has
  (`FailedRunLabels`).

## Model

| member | source | states |
|---|---|---|
| SheetLink.SheetId | ITN.py:48 | definition; properties in SheetLink.SheetIdIsSegmentAfterMarker |
| SheetLink.ExportUrl | ITN.py:48-49 | definition; properties in SheetLink.SheetIdIsSegmentAfterMarker |
| SheetLink.SheetIdIsSegmentAfterMarker | ITN.py:48-49 | With no "/d/" in the link, both the id and the export link fail. Otherwise the id is the text after the first "/d/" up to the next "/" (it contains no "/"), and the export link is the fixed prefix, the id and "/export?format=csv". |
| SheetLink.SegmentBeforeSlash | ITN.py:48 | The inner `split("/")[0]` of the first "/d/" piece is the text before the first "/", and it holds no "/". |
| SheetLink.FindIsFirst | ITN.py:48 | The first occurrence of a separator is unique: a position with no earlier occurrence that is itself an occurrence is the one `Find` returns. |
| PyStrings.Find | ITN.py:48 | The position of the first occurrence of the separator, or the length when there is none: no earlier position is an occurrence. |
| PyStrings.Split | ITN.py:48 | definition of `str.split`; properties in PyStrings.SplitAtFirst and PyStrings.SplitHead |
| PyStrings.Replace | ITN.py:120 | definition of `str.replace`; properties in PyStrings.ReplaceAtFirst and PyStrings.ReplaceWithoutLead |
| PyStrings.SplitWithout | ITN.py:48 | With no occurrence of the separator, `str.split` gives the string as its one piece. |
| PyStrings.SplitAtOccurrence | ITN.py:48 | `str.split` cuts at the first occurrence of the separator and continues after it. |
| PyStrings.SplitAtFirst | ITN.py:48 | `str.split` cuts at the first occurrence of the separator and continues after it; with no occurrence the string is one piece. |
| PyStrings.SplitHead | ITN.py:48 | The first piece of a split is the text before the first separator. There are at least two pieces exactly when the separator occurs, and the remaining pieces are the split of what follows it. |
| PyStrings.SplitAfterPiece | ITN.py:120 | A piece free of the separator character, then that character, splits into the piece followed by the split of the rest. |
| PyStrings.ReplaceWithout | ITN.py:120 | With no occurrence of the pattern, `replace` gives the string unchanged. |
| PyStrings.ReplaceKeepsPrefix | ITN.py:120 | `replace` copies a leading stretch in which no occurrence of the pattern starts, and continues after it. |
| PyStrings.ReplaceAtOccurrence | ITN.py:120 | `replace` keeps the text before the first occurrence, puts the replacement in its place and continues after it. |
| PyStrings.ReplaceAtFirst | ITN.py:120 | For every string: unchanged when the pattern does not occur, otherwise the text before the first occurrence, the replacement, then the replacement applied to the rest. |
| PyStrings.ReplaceWithoutLead | ITN.py:120 | `replace` leaves a string unchanged when the pattern's first character never occurs in it. |
| Frames.KeepFirst | ITN.py:57 | definition of `df.loc[:, ~df.columns.duplicated()]`; properties in Frames.KeepFirstKeepsFirstInOrder |
| Frames.Lookup | ITN.py:68 | definition of `df[name]`; properties in Frames.KeepFirstLookup, Frames.AssignReadsBack and Frames.DropLookup |
| Frames.Assign | ITN.py:68 | definition of `df[name] = values`; properties in Frames.AssignReadsBack |
| Frames.Drop | ITN.py:80 | definition of `drop(columns=[name])`; properties in Frames.DropRemovesOnlyName |
| Frames.KeepFirstKeepsFirstInOrder | ITN.py:57 | After de-duplication, names are unique and the set of names is unchanged. Each surviving column is the first column of its name, and survivors keep their relative order. |
| Frames.KeepFirstIsSubsequence | ITN.py:57 | Every surviving column is a column of the input, and every input name survives. |
| Frames.KeepFirstUnique | ITN.py:57 | No name appears twice after de-duplication. |
| Frames.KeepFirstOfUnique | ITN.py:76 | A frame whose names are already unique is left unchanged. |
| Frames.KeepFirstIdempotent | ITN.py:76 | De-duplicating twice is the same as de-duplicating once. |
| Frames.KeepFirstLookup | ITN.py:57 | Reading a column by name gives the same values before and after de-duplication. |
| Frames.KeepFirstWellFormed | ITN.py:57 | De-duplication keeps every column at the frame's row count. |
| Frames.AssignReadsBack | ITN.py:68-73 | After `df[name] = values`, reading `name` gives the values and every other name reads as before. The names are the old ones plus `name`, and unique names stay unique. |
| Frames.AssignOverwrites | ITN.py:68-73 | Assigning to a present name keeps the list of names, reads back the values and changes no other name. |
| Frames.AssignAppends | ITN.py:68-73 | Assigning to a new name appends it to the list of names, reads back the values and changes no other name. |
| Frames.AssignWellFormed | ITN.py:68-73 | Assigning a column of the right length keeps the frame rectangular. |
| Frames.DropRemovesOnlyName | ITN.py:79-80 | After `drop(columns=[name])`, `name` is gone. Every other name is present exactly when it was, reads as before, and the kept columns are exactly those of other names. |
| Frames.DropLookup | ITN.py:80 | Dropping a column does not change what any other name reads. |
| Frames.DropKeepsOthers | ITN.py:80 | The columns after a drop are exactly the input columns of other names. |
| Frames.DropUnique | ITN.py:80 | Dropping keeps names unique. |
| Frames.DropWellFormed | ITN.py:80 | Dropping keeps the frame rectangular. |
| Frames.LookupWellFormed | ITN.py:68-71 | In a rectangular frame, every present name reads a column of the frame's length. |
| Frames.Frame.DropDuplicateColumns | ITN.py:57 | Replaces the frame's columns with their de-duplication; the names become unique and the row count is kept. |
| Frames.Frame.SetColumn | ITN.py:68-73 | Replaces the columns with the assignment: the new column reads back and every other name reads as before. |
| Frames.Frame.DropColumn | ITN.py:79-80 | Replaces the columns with the drop: the name is gone and every other name reads as before. |
| LabelEncoding.Classes | ITN.py:68-71 | definition of the fitted `classes_`; properties in LabelEncoding.ClassesAreSortedDistinctValues |
| LabelEncoding.FitTransform | ITN.py:68-71 | definition of `fit_transform`; properties in LabelEncoding.FitTransformEncodes |
| LabelEncoding.MixedMeans | ITN.py:68-71 | A column counts as mixed exactly when some cell is a number and some cell is text. |
| LabelEncoding.CellLessIsStrictTotal | ITN.py:68-71 | The order the encoder sorts classes by (numbers by value, text by code point, NaN last) is a strict total order on any set of cells. |
| LabelEncoding.ClassesAreSortedDistinctValues | ITN.py:68-71 | The classes are exactly the distinct values of the column, sorted and listed once each. |
| LabelEncoding.FitTransformEncodes | ITN.py:68-71 | Encoding succeeds exactly when the column is not mixed. On success there is one code per value, and each code is below the number of classes and names its value's class. Equal values get equal codes, distinct values distinct codes, and codes follow the sorted order of the values. |
| LabelEncoding.CodesFollowValues | ITN.py:68-71 | The same facts about the codes, for a column that is not mixed. |
| LabelEncoding.MissingGetsLastCode | ITN.py:68-71 | A missing value gets the last code, one below the number of classes. |
| Order.SortSet | ITN.py:112 | `sorted` of a finite set lists each element once, in strictly increasing order. |
| Order.LeastExists | ITN.py:112 | A non-empty finite set under a strict total order has a least element. |
| Order.LexLessIsStrictTotal | ITN.py:112 | Python's string order is a strict total order. |
| Order.LexLessConcat | ITN.py:112 | Comparing two concatenations whose first parts have equal length compares the first parts, then the rest. |
| Order.IndexOfAppend | ITN.py:68-71 | The position of a value in a concatenation is its position in the first part if it is there, else the first part's length plus its position in the second. |
| Order.SortedPositions | ITN.py:68-71 | In a strictly sorted list, one entry is below another exactly when its position is. |
| Inference.InverseTransform | ITN.py:82 | Decoding succeeds exactly when every prediction is a known class index; the i-th label is then the class at the i-th prediction. Otherwise the error names an unseen prediction. |
| Inference.Simulate | ITN.py:138-146 | definition of the what-if tab; properties in Inference.SimulateDecodesPrediction and Prediction.SimulationAgreesWithBatch |
| Inference.SimulateDecodesPrediction | ITN.py:138-146 | The simulation shows the class at the classifier's output for the four chosen codes, in `model_features` order, or fails on an unseen class. |
| Prediction.EncodeStep | ITN.py:68 | definition of one encoding line; properties in Prediction.EncodeStepOutcome and Prediction.EncodeStepFrame |
| Prediction.EncodeStepOutcome | ITN.py:68-71 | One encoding line succeeds exactly when its selection is a column that is not mixed. Otherwise it fails with `KeyError` (`Unbound`) when the selection is no column, and with the encoder's `TypeError` on that column when the column is mixed. |
| Prediction.EncodeStepFrame | ITN.py:68-71 | A successful encoding line writes the codes of its selected column into its target and changes no other name. |
| Prediction.EncodeSlots | ITN.py:68-71 | The four encoding lines keep the frame rectangular and its names unique. Every old name stays, and on success every target column is present. |
| Prediction.EncodeSlotsSucceedsIff | ITN.py:68-71 | The encodings succeed exactly when every line finds its column, in the frame the earlier lines left, and that column is not mixed. |
| Prediction.EncodeSlotsFailure | ITN.py:67-71 | A failure is the exception of the first line that does not run: every earlier line succeeded, and the frame is the one they left. |
| Prediction.EncodeSlotsWritesCodes | ITN.py:68-71 | On success, every line ran, and each target column holds the label codes of the column its line read. |
| Prediction.InputUnwritten | ITN.py:68-71 | A line whose selection no earlier line targets reads the column as it was before the encodings. |
| Prediction.EncodeSlotsKeepsOthers | ITN.py:68-71 | A name that no line targets reads as before. |
| Prediction.TargetsDistinct | ITN.py:68-71 | The four encoding lines write four different feature columns. |
| Prediction.WithPredictions | ITN.py:73 | definition of `data['predicted'] = model.predict(...)`; properties in Prediction.WithPredictionsFrame |
| Prediction.WithPredictionsFrame | ITN.py:73 | `predicted` holds the classifier's output for every feature row; no other name changes. |
| Prediction.Cleared | ITN.py:76-80 | definition of the second de-duplication and the drop; properties in Prediction.ClearedFrame |
| Prediction.SecondDedupIsNoOp | ITN.py:76 | With unique names before the predictions, the second de-duplication changes nothing. |
| Prediction.ClearedFrame | ITN.py:76-80 | After the second de-duplication and the drop, `predicted_label` is absent and every other name reads as before. |
| Prediction.Label | ITN.py:73-82 | definition of the labelling lines; properties in Prediction.LabelFrame, Prediction.LabelSucceedsIff and Prediction.LabelLastColumn |
| Prediction.LabelFrame | ITN.py:73-82 | Labelling keeps the frame rectangular with unique names, sets `predicted`, and changes no other column. A failure is a decoding error and leaves no `predicted_label`. |
| Prediction.LabelDecodesPredicted | ITN.py:73-82 | Labelling succeeds exactly when decoding succeeds, and then appends the decoded predictions as `predicted_label` after the cleared frame. |
| Prediction.LabelSucceedsIff | ITN.py:73-82 | Labelling succeeds exactly when the classifier maps every feature row to a known class. |
| Prediction.LabelLastColumn | ITN.py:73-82 | On success there is exactly one `predicted_label`, the last column. Its i-th entry is the decoded prediction for feature row i. |
| Prediction.LabelColumn | ITN.py:82 | On success `predicted_label` reads one text label per row. |
| Prediction.DedupedFrame | ITN.py:57 | The first de-duplication keeps the frame rectangular, makes its names unique and keeps what every name reads. |
| Prediction.Encoded | ITN.py:57-71 | After the first de-duplication and the encodings the frame is rectangular with unique names, and on success it holds all four feature columns. |
| Prediction.PredictionRun | ITN.py:57-82 | definition of the prediction block; properties in Prediction.PredictionRunKeepsOthers, Prediction.PredictionRunSucceedsIff and Prediction.PredictionRunLabels |
| Prediction.LineErrorNamesSelection | ITN.py:67-71 | The exception of an encoding line is a `KeyError` or a `TypeError` on one of the four selections; a `KeyError` names a selection that is no column of the upload. |
| Prediction.EncodedFailure | ITN.py:57-71 | A failed encoding is the exception of one of the four lines. |
| Prediction.EncodedSucceedsIff | ITN.py:57-71 | The encodings succeed exactly when all four lines run. A failure names one of the four selections and is a `KeyError` for a selection that is no column of the upload, or a `TypeError` for a mixed column. |
| Prediction.MissingSelectionFails | ITN.py:62-71 | When the education selection is no column of the upload (in particular the `None` of an upload without columns), the block ends at once with `KeyError` and the de-duplicated frame. |
| Prediction.EncodedFeature | ITN.py:68-71 | On success, the target of one line holds the codes that line wrote. |
| Prediction.EncodedFeatures | ITN.py:68-71 | On success, each of the four feature columns holds the codes of the column its line read. |
| Prediction.EncodedFeatureRows | ITN.py:68-73 | Row i of the feature table is the four codes the lines wrote for row i, in `model_features` order. |
| Prediction.PredictionRunKeepsOthers | ITN.py:57-82 | The prediction lines keep the frame rectangular with unique names, and changes no column other than the features, `predicted` and `predicted_label`. |
| Prediction.PredictionRunSucceedsIff | ITN.py:57-82 | The block succeeds exactly when all four encoding lines run and the classifier maps the codes of every row to a known class. |
| Prediction.PredictionRunLabels | ITN.py:57-82 | On success, `predicted_label` is the one last column and its i-th entry is the class of the classifier's output for the codes of row i. |
| Prediction.RunLabelAt | ITN.py:57-82 | The same fact for a single row i. |
| Prediction.SimulationAgreesWithBatch | ITN.py:138-146 | A batch row whose codes equal the four simulated codes gets the label the simulation shows. |
| Prediction.UploadRead | ITN.py:57-71 | When no selection is a feature column an earlier line writes, each line reads the upload's column of its selection, and runs exactly when that column exists and is not mixed. |
| Prediction.UploadCodes | ITN.py:57-71 | In that case a line that runs writes the codes of the upload's column. |
| Prediction.UploadSelections | ITN.py:57-71 | In that case the encodings run exactly when every selection is a column of the upload and none is mixed, and the model then sees the codes of those uploaded columns. |
| Prediction.RiskCounts | ITN.py:99-100 | definition of the risk tab's counts; properties in Prediction.RiskCountsCoverRows and Prediction.FailedRunLabels |
| Prediction.FailedRunLabels | ITN.py:91-100 | After a failed encoding the risk tab shows what it would have shown for the input. After a failed decoding it shows nothing, because `predicted_label` has been dropped. |
| Prediction.SuccessfulRunLabelColumn | ITN.py:82 | After a successful run, `predicted_label` is present with one text label per row. |
| Prediction.RiskCountsCoverRows | ITN.py:100 | After a successful run, the risk counts exist and add up to the number of rows. |
| Prediction.TextCountsCoverAll | ITN.py:100 | The counts of a column of text labels add up to its length. |
| Prediction.EncodeColumn | ITN.py:68-71 | One encoding line on the frame object: the frame becomes the step's result, or is left unchanged with the error. |
| Prediction.EncodeNext | ITN.py:68-71 | The next encoding line on the frame object: it either ends the lines with their result or leaves a frame on which the remaining lines give the same result. |
| Prediction.EncodeSelections | ITN.py:68-71 | The four encoding lines on the frame object do what `EncodeSlots` describes. |
| Prediction.AttachLabels | ITN.py:73-82 | Prediction, second de-duplication, drop and decoding on the frame object do what `Label` describes. |
| Prediction.PredictUsage | ITN.py:55-92 | The prediction tab on the frame object does what `PredictionRun` describes, for any upload and any selections. On success it saves the final frame under the run's file name. On failure the history is untouched. |
| ValueCounts.Counts | ITN.py:100 | definition of `value_counts()`; properties in ValueCounts.CountsSumToPresent and ValueCounts.CountOfBounds |
| ValueCounts.Shares | ITN.py:119 | definition of `value_counts(normalize=True)`; properties in ValueCounts.SharesInUnitInterval and ValueCounts.SharesSumToOne |
| ValueCounts.CountsSumToPresent | ITN.py:100 | The counts of `value_counts()` add up to the number of non-missing cells. |
| ValueCounts.ObservedMembers | ITN.py:100 | The observed labels are the non-missing values of the column. |
| ValueCounts.CountOfBounds | ITN.py:119 | A value's count is at most the number of non-missing cells, and at least 1 when it occurs. |
| ValueCounts.SharesInUnitInterval | ITN.py:119 | The labels with a share are exactly the observed values, and each share lies in (0, 1]. |
| ValueCounts.ShareOf | ITN.py:119 | A label's share is its count over the number of non-missing cells. |
| ValueCounts.SharesSumToOne | ITN.py:119 | For a column with a value present, the shares add up to 1. |
| ValueCounts.ZeroFilledSharesSumToOne | ITN.py:124 | A zero-filled row over a superset of the labels still adds up to 1. |
| History.Timestamp | ITN.py:88 | definition of `strftime("%Y-%m-%d_%H-%M-%S")`; properties in History.FileNamesSortChronologically and Trends.TrendKeyIsDatePart |
| History.FileName | ITN.py:89 | definition of the history file name; properties in History.FileNameShape and History.FileNamesSortChronologically |
| History.FileNameShape | ITN.py:88-89 | The file name is "predictions", an underscore, the date, an underscore, then the time and ".csv". |
| History.DatePartCharacters | ITN.py:88 | The date part of the timestamp holds no underscore and no dot. |
| History.PadOrder | ITN.py:88 | Zero-padded numbers of one width compare as strings as the numbers do. |
| History.DatePartOrder | ITN.py:88 | Date parts compare as strings as the dates do. |
| History.TimePartOrder | ITN.py:88 | Time parts compare as strings as the times of day do. |
| History.FileNamesSortChronologically | ITN.py:88-89 | One history file name sorts before another exactly when its run is earlier, and two names are equal exactly when the clock readings are. |
| History.Store.Save | ITN.py:86-89 | Saving creates the folder and writes the table under the run's file name. Every other file is kept. |
| Trends.TrendKey | ITN.py:120 | definition of `file.split("_")[1].replace(".csv", "")`; properties in Trends.TrendKeyIsDatePart |
| Trends.RunRow | ITN.py:115-121 | definition of one file's row; properties in Trends.TrendDataStep |
| Trends.TrendData | ITN.py:113-122 | definition of `trend_data` after the loop; properties in Trends.TrendDataFollowsIncluded |
| Trends.FillZero | ITN.py:124 | definition of `fillna(0)`; properties in Trends.FillZeroIsDense |
| Trends.TrendTable | ITN.py:111-125 | definition of the charted table; properties in Trends.TrendTableOutcome and Trends.TrendTableRows |
| Trends.HistoryFiles | ITN.py:112 | The listed files are exactly the stored names ending in ".csv", in strictly sorted order. |
| Trends.Included | ITN.py:115-118 | The charted files are exactly the listed files with a `predicted_label` column. |
| Trends.IncludedSorted | ITN.py:112-118 | Skipping files keeps the sorted order. |
| Trends.TrendDataNext | ITN.py:115-122 | One more file adds its row, adds nothing, or ends the loop with its error. |
| Trends.TrendDataFailureSticks | ITN.py:115-122 | An exception in the loop ends it: the result is that error whatever files follow. |
| Trends.TrendDataStep | ITN.py:115-122 | A file without `predicted_label` adds no row. Any other file adds exactly one row, its key and shares, or fails the loop. |
| Trends.TrendDataFollowsIncluded | ITN.py:115-122 | The loop succeeds exactly when every included file has a key. The rows then correspond, in order, to the included files, each with that file's key and shares. |
| Trends.CollectTrendData | ITN.py:111-122 | The loop over the sorted history files computes `TrendData`. |
| Trends.TrendsOverTime | ITN.py:111-126 | The trends tab computes `TrendTable`. |
| Trends.TrendKeyIsDatePart | ITN.py:120 | The trend key of a file this app wrote is only the date part of its timestamp. |
| Trends.SameDayRunsShareKey | ITN.py:120 | Two runs on one day are two different files with the same trend key. |
| Trends.FillZeroIsDense | ITN.py:124 | After `fillna(0)` every row keeps its key and its shares, and has an entry for each label seen in any row; a label absent from the row is 0. |
| Trends.TrendTableOutcome | ITN.py:111-126 | With no folder the tab fails. The charted files are sorted. When no file has `predicted_label` the index cannot be set. The table exists exactly when the folder exists, a file is charted and every charted file has a key. |
| Trends.TrendTableRows | ITN.py:112-124 | Row k of the table belongs to the k-th charted file: its key, its shares, 0 for labels it lacks, and a total of 1 for a run with any label. |

## Left out

- The Streamlit interface: page layout, tabs, selectors, charts and messages (ITN.py:19-36, 59-65, 83-84, 101-104, 126-129, 135-141, 148). None of it changes data.
- The displayed preview at ITN.py:84 is UI output and not modelled. The model assumes it never raises, so `PredictUsage` saves even when the two previewed selections are the same column, a case in which the display could refuse the duplicate column name and skip the save.
- `pickle.load` of the model and the label decoder (ITN.py:10-11). The model is a parameter `Classifier` (a function from a feature row to an integer class index), and the decoder is its list of classes.
- `model.predict` itself is that parameter, so `Inference.PredictAll` only applies it row by row and has no property of its own.
- File and network input: `read_csv`, `read_excel`, the HTTP fetch of the export link, `os.path.exists`, `os.makedirs`, `os.listdir` and `to_csv` (ITN.py:40-50, 86-89, 111-116). The history folder is the in-memory `History.Store`, a map from file name to table; reading a file back gives the table that was stored.
- Type inference when a CSV is written and read back is not modelled: a stored table reads back with the same cells.
- `datetime.now()` (ITN.py:88): the clock reading is an input of `PredictUsage`. Years are limited to 1000-9999, where `%Y` gives four digits.
- Floating point: number cells are integers and shares are exact `real`s, so "the shares add up to 1" holds exactly and not up to rounding.
- The `except` blocks (ITN.py:52-53, 91-92) are modelled as the error results of the operations that raise: a missing "/d/" in the link, a selection that is no column, a mixed column, an unseen class. Other exceptions pandas or scikit-learn could raise (a failed download, an unreadable file, a model that rejects its input) are not modelled, and neither is the error text.
- The order of the label columns in the dense trend table, and the order of `value_counts()`, are not modelled: shares and counts are maps.
- A label literally named "timestamp" would overwrite the key in `row.update(counts)`; labels are kept apart from the key.
- Two runs within one second write the same file name, and the later run replaces the earlier; the model does exactly that and adds no guard.
- Prediction.UploadRead, Prediction.UploadCodes, Prediction.UploadSelections: stated only when no selection is one of the four feature columns an earlier line writes; the general lemmas (`EncodedSucceedsIff`, `PredictionRunLabels`) describe every other choice through what each line reads.
