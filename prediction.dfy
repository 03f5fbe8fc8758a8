/**
 * The "Predict Usage" tab once a table is loaded (ITN.py:55-92): duplicate
 * columns are removed, the four columns the user selected are label-encoded
 * into the model's feature columns, the classifier predicts a class index per
 * row, any old `predicted_label` column is replaced by the decoded labels,
 * and the table is written to the history folder. The "Risk Segmentation"
 * tab (ITN.py:97-104) then counts the labels.
 */
module Prediction {
  import opened Results
  import opened Frames
  import opened LabelEncoding
  import opened Inference
  import opened ValueCounts
  import History

  // `model_features` (ITN.py:14-17), in the order the model expects them
  const EDUCATION_FEATURE := "educational_level_encoded"
  const AGE_FEATURE := "age_category_encoded"
  const RESIDENCE_FEATURE := "do_you_live_in_an_urban_or_rural_area?_encoded"
  const ATTITUDE_FEATURE := "how_do_you_feel_about_using_an_itn_every_night?_encoded"

  const PREDICTED := "predicted"
  const PREDICTED_LABEL := "predicted_label"

  predicate IsFeature(n: string)
  {
    n == EDUCATION_FEATURE || n == AGE_FEATURE || n == RESIDENCE_FEATURE || n == ATTITUDE_FEATURE
  }

  /** The frame has all four feature columns. */
  predicate HasFeatures(cols: seq<Column>)
  {
    && EDUCATION_FEATURE in Names(cols) && AGE_FEATURE in Names(cols)
    && RESIDENCE_FEATURE in Names(cols) && ATTITUDE_FEATURE in Names(cols)
  }

  /**
   * The four columns chosen in the select boxes (ITN.py:62-65). A select box
   * over a frame without columns gives None; a name that is not a column of
   * the frame stands for it, since `data[None]` fails the same way.
   */
  datatype Binding = Binding(education: string, age: string, residence: string, attitude: string)

  /** Every selection is a column of the frame. */
  predicate Selectable(cols: seq<Column>, b: Binding)
  {
    b.education in Names(cols) && b.age in Names(cols) && b.residence in Names(cols) && b.attitude in Names(cols)
  }

  /** One of the lines 68-71: encode the column `source` into the column `target`. */
  datatype Slot = Slot(source: string, target: string)

  function Slots(b: Binding): seq<Slot>
  {
    [Slot(b.education, EDUCATION_FEATURE), Slot(b.age, AGE_FEATURE),
     Slot(b.residence, RESIDENCE_FEATURE), Slot(b.attitude, ATTITUDE_FEATURE)]
  }

  /** The four lines write four different columns. */
  lemma TargetsDistinct(b: Binding)
    ensures forall i, j :: 0 <= i < j < |Slots(b)| ==> Slots(b)[i].target != Slots(b)[j].target
  {
    assert |EDUCATION_FEATURE| == 25 && |AGE_FEATURE| == 20;
    assert |RESIDENCE_FEATURE| == 46 && |ATTITUDE_FEATURE| == 55;
  }

  /** The exception that ends the `try` block of ITN.py:67-92. */
  datatype PredictError =
    | Unbound(column: string)                  // `data[selection]` raises KeyError
    | Encoding(column: string, cause: EncodeError)
    | Decoding(failure: InferenceError)

  /** The frame held in `data` when the tab finishes, and the exception that
      ended it, if any: an exception leaves the frame as it stood. */
  datatype Run = Run(columns: seq<Column>, error: Option<PredictError>)

  /** Integer codes as numeric cells. */
  function Codes(codes: seq<nat>): (r: seq<Cell>)
    ensures |r| == |codes|
    ensures forall i :: 0 <= i < |codes| ==> r[i] == Num(codes[i])
  {
    seq(|codes|, i requires 0 <= i < |codes| => Num(codes[i]))
  }

  /** A column was found and can be label-encoded. */
  predicate Encodes(read: Option<seq<Cell>>)
  {
    read.Some? && !Mixed(read.value)
  }

  // ---------------------------------------------------------------------
  // Lines 68-71

  /** `data[target] = LabelEncoder().fit_transform(data[source])` */
  function EncodeStep(cols: seq<Column>, slot: Slot): Result<seq<Column>, PredictError>
  {
    match Lookup(cols, slot.source)
    case None => Failure(Unbound(slot.source))
    case Some(values) =>
      match FitTransform(values)
      case Failure(e) => Failure(Encoding(slot.source, e))
      case Success(codes) => Success(Assign(cols, slot.target, Codes(codes)))
  }

  /** A step fails with KeyError on a missing column and with the encoder's
      error on a mixed one, and succeeds on any other column. */
  lemma EncodeStepOutcome(cols: seq<Column>, slot: Slot)
    ensures EncodeStep(cols, slot).Success? <==> Encodes(Lookup(cols, slot.source))
    ensures EncodeStep(cols, slot).Failure? ==>
      EncodeStep(cols, slot).error
        == if slot.source in Names(cols) then Encoding(slot.source, MixedTypes) else Unbound(slot.source)
  {
    if slot.source in Names(cols) {
      FitTransformEncodes(Lookup(cols, slot.source).value);
    }
  }

  /** A successful step keeps the frame well formed, keeps every name, writes
      the codes of the source into the target and leaves every other column
      as it was. */
  lemma EncodeStepFrame(cols: seq<Column>, rows: nat, slot: Slot)
    requires WellFormed(cols, rows)
    ensures EncodeStep(cols, slot).Success? ==>
      var next := EncodeStep(cols, slot).value;
      && WellFormed(next, rows)
      && (UniqueNames(cols) ==> UniqueNames(next))
      && (forall n :: n in Names(next) <==> n == slot.target || n in Names(cols))
      && (forall n :: n != slot.target ==> Lookup(next, n) == Lookup(cols, n))
      && Lookup(cols, slot.source).Some?
      && Lookup(next, slot.target) == Some(Codes(FitTransform(Lookup(cols, slot.source).value).value))
  {
    if slot.source in Names(cols) {
      var values := Lookup(cols, slot.source).value;
      LookupWellFormed(cols, rows);
      FitTransformEncodes(values);
      if FitTransform(values).Success? {
        var codes := Codes(FitTransform(values).value);
        AssignWellFormed(cols, rows, slot.target, codes);
        AssignReadsBack(cols, slot.target, codes);
      }
    }
  }

  /** Lines 68-71 one after another; the first failure ends them. */
  function EncodeSlots(cols: seq<Column>, rows: nat, slots: seq<Slot>): (r: Run)
    requires WellFormed(cols, rows)
    ensures WellFormed(r.columns, rows)
    ensures UniqueNames(cols) ==> UniqueNames(r.columns)
    ensures forall n :: n in Names(cols) ==> n in Names(r.columns)
    ensures r.error.None? ==> forall k :: 0 <= k < |slots| ==> slots[k].target in Names(r.columns)
    decreases |slots|
  {
    if slots == [] then Run(cols, None)
    else
      EncodeStepFrame(cols, rows, slots[0]);
      match EncodeStep(cols, slots[0])
      case Failure(e) => Run(cols, Some(e))
      case Success(next) =>
        assert forall k :: 0 < k < |slots| ==> slots[k] == slots[1..][k - 1];
        EncodeSlots(next, rows, slots[1..])
  }

  // ---------------------------------------------------------------------
  // Lines 73-82

  /** Row `i` of `data[model_features]`: the four feature cells in model order. */
  function FeatureRow(cols: seq<Column>, rows: nat, i: nat): seq<Cell>
    requires WellFormed(cols, rows) && HasFeatures(cols) && i < rows
  {
    LookupWellFormed(cols, rows);
    [Lookup(cols, EDUCATION_FEATURE).value[i], Lookup(cols, AGE_FEATURE).value[i],
     Lookup(cols, RESIDENCE_FEATURE).value[i], Lookup(cols, ATTITUDE_FEATURE).value[i]]
  }

  function FeatureTable(cols: seq<Column>, rows: nat): seq<seq<Cell>>
    requires WellFormed(cols, rows) && HasFeatures(cols)
  {
    seq(rows, i requires 0 <= i < rows => FeatureRow(cols, rows, i))
  }

  /** `data['predicted'] = model.predict(data[model_features])` */
  function WithPredictions(cols: seq<Column>, rows: nat, clf: Classifier): seq<Column>
    requires WellFormed(cols, rows) && HasFeatures(cols)
  {
    Assign(cols, PREDICTED, PredictAll(clf, FeatureTable(cols, rows)))
  }

  /** The prediction is stored under `predicted`, one index per row; nothing
      else changes and the names stay unique. */
  lemma WithPredictionsFrame(cols: seq<Column>, rows: nat, clf: Classifier)
    requires WellFormed(cols, rows) && HasFeatures(cols)
    ensures var w := WithPredictions(cols, rows, clf);
      && WellFormed(w, rows)
      && (UniqueNames(cols) ==> UniqueNames(w))
      && Lookup(w, PREDICTED) == Some(PredictAll(clf, FeatureTable(cols, rows)))
      && (forall n :: n != PREDICTED ==> Lookup(w, n) == Lookup(cols, n))
      && (forall n :: n in Names(w) <==> n == PREDICTED || n in Names(cols))
  {
    var predicted := PredictAll(clf, FeatureTable(cols, rows));
    AssignWellFormed(cols, rows, PREDICTED, predicted);
    AssignReadsBack(cols, PREDICTED, predicted);
  }

  /** Lines 76-80: the second duplicate removal, then the old labels dropped. */
  function Cleared(cols: seq<Column>): seq<Column>
  {
    var deduped := KeepFirst(cols);
    if PREDICTED_LABEL in Names(deduped) then Drop(deduped, PREDICTED_LABEL) else deduped
  }

  /** After lines 76-80 there is no `predicted_label` column and every other
      column reads as before. */
  lemma ClearedFrame(cols: seq<Column>, rows: nat)
    requires WellFormed(cols, rows)
    ensures WellFormed(Cleared(cols), rows) && UniqueNames(Cleared(cols))
    ensures PREDICTED_LABEL !in Names(Cleared(cols))
    ensures forall n :: n != PREDICTED_LABEL ==> Lookup(Cleared(cols), n) == Lookup(cols, n)
  {
    var deduped := KeepFirst(cols);
    KeepFirstIsSubsequence(cols);
    KeepFirstUnique(cols);
    KeepFirstWellFormed(cols, rows);
    forall n ensures Lookup(deduped, n) == Lookup(cols, n) {
      KeepFirstLookup(cols, n);
    }
    if PREDICTED_LABEL in Names(deduped) {
      DropRemovesOnlyName(deduped, PREDICTED_LABEL);
      DropUnique(deduped, PREDICTED_LABEL);
      DropWellFormed(deduped, rows, PREDICTED_LABEL);
    }
  }

  /** Lines 73-82 on the encoded frame. */
  function Label(cols: seq<Column>, rows: nat, clf: Classifier, classes: seq<string>): Run
    requires WellFormed(cols, rows) && HasFeatures(cols)
  {
    var withPredicted := WithPredictions(cols, rows, clf);
    WithPredictionsFrame(cols, rows, clf);
    ClearedFrame(withPredicted, rows);
    var cleared := Cleared(withPredicted);
    match InverseTransform(classes, Lookup(cleared, PREDICTED).value)
    case Failure(e) => Run(cleared, Some(Decoding(e)))
    case Success(labels) => Run(Assign(cleared, PREDICTED_LABEL, labels), None)
  }

  // ---------------------------------------------------------------------
  // The whole tab

  /** The first duplicate removal keeps what every name reads. */
  lemma DedupedFrame(cols: seq<Column>, rows: nat)
    requires WellFormed(cols, rows)
    ensures WellFormed(KeepFirst(cols), rows) && UniqueNames(KeepFirst(cols))
    ensures forall n :: Lookup(KeepFirst(cols), n) == Lookup(cols, n)
  {
    KeepFirstIsSubsequence(cols);
    KeepFirstUnique(cols);
    KeepFirstWellFormed(cols, rows);
    forall n ensures Lookup(KeepFirst(cols), n) == Lookup(cols, n) {
      KeepFirstLookup(cols, n);
    }
  }

  /** Lines 57 and 68-71: the frame after the first removal and the four encodings. */
  function Encoded(cols: seq<Column>, rows: nat, b: Binding): (e: Run)
    requires WellFormed(cols, rows)
    ensures WellFormed(e.columns, rows) && UniqueNames(e.columns)
    ensures e.error.None? ==> HasFeatures(e.columns)
  {
    DedupedFrame(cols, rows);
    var e := EncodeSlots(KeepFirst(cols), rows, Slots(b));
    assert e.error.None? ==>
      && Slots(b)[0].target in Names(e.columns) && Slots(b)[1].target in Names(e.columns)
      && Slots(b)[2].target in Names(e.columns) && Slots(b)[3].target in Names(e.columns);
    e
  }

  /** ITN.py:57-82 for a loaded frame and the user's selections. */
  function PredictionRun(cols: seq<Column>, rows: nat, b: Binding, clf: Classifier, classes: seq<string>): Run
    requires WellFormed(cols, rows)
  {
    var encoded := Encoded(cols, rows, b);
    if encoded.error.Some? then encoded
    else Label(encoded.columns, rows, clf, classes)
  }

  /** `data['predicted_label'].value_counts()` when the column exists (ITN.py:99-100). */
  function RiskCounts(cols: seq<Column>): Option<map<Cell, nat>>
  {
    match Lookup(cols, PREDICTED_LABEL)
    case None => None
    case Some(labels) => Some(Counts(labels))
  }

  // ---------------------------------------------------------------------
  // What each encoding line reads

  /** The frame line `k` reads: the one the lines before it left. */
  function Before(cols: seq<Column>, rows: nat, slots: seq<Slot>, k: nat): seq<Column>
    requires WellFormed(cols, rows) && k <= |slots|
  {
    EncodeSlots(cols, rows, slots[..k]).columns
  }

  /** What `data[source]` gives on line `k`; None where it raises KeyError. */
  function Input(cols: seq<Column>, rows: nat, slots: seq<Slot>, k: nat): Option<seq<Cell>>
    requires WellFormed(cols, rows) && k < |slots|
  {
    Lookup(Before(cols, rows, slots, k), slots[k].source)
  }

  /** Line `k` finds its column and can encode it. */
  predicate LineRuns(cols: seq<Column>, rows: nat, slots: seq<Slot>, k: nat)
    requires WellFormed(cols, rows) && k < |slots|
  {
    Encodes(Input(cols, rows, slots, k))
  }

  /** The exception line `k` raises when it does not run. */
  function LineError(cols: seq<Column>, rows: nat, slots: seq<Slot>, k: nat): PredictError
    requires WellFormed(cols, rows) && k < |slots|
  {
    if Input(cols, rows, slots, k).None? then Unbound(slots[k].source) else Encoding(slots[k].source, MixedTypes)
  }

  lemma BeforeFirst(cols: seq<Column>, rows: nat, slots: seq<Slot>)
    requires WellFormed(cols, rows) && slots != []
    ensures Before(cols, rows, slots, 0) == cols
    ensures Input(cols, rows, slots, 0) == Lookup(cols, slots[0].source)
  {
    assert slots[..0] == [];
  }

  /** After a successful first step, the lines after it run on the rest of the
      slots from the frame that step left. */
  lemma EncodeSlotsAfterStep(cols: seq<Column>, rows: nat, slots: seq<Slot>)
    requires WellFormed(cols, rows) && slots != []
    requires EncodeStep(cols, slots[0]).Success?
    ensures WellFormed(EncodeStep(cols, slots[0]).value, rows)
    ensures EncodeSlots(cols, rows, slots) == EncodeSlots(EncodeStep(cols, slots[0]).value, rows, slots[1..])
  {
    EncodeStepFrame(cols, rows, slots[0]);
  }

  /** Line `k` of the slots is line `k - 1` of the rest, read after the first step. */
  lemma StepShift(cols: seq<Column>, rows: nat, slots: seq<Slot>, k: nat)
    requires WellFormed(cols, rows) && 0 < k <= |slots|
    requires EncodeStep(cols, slots[0]).Success?
    ensures var next := EncodeStep(cols, slots[0]).value;
      && WellFormed(next, rows)
      && EncodeSlots(cols, rows, slots[..k]) == EncodeSlots(next, rows, slots[1..][..k - 1])
      && Before(cols, rows, slots, k) == Before(next, rows, slots[1..], k - 1)
  {
    EncodeStepFrame(cols, rows, slots[0]);
    assert slots[..k][0] == slots[0];
    assert slots[..k][1..] == slots[1..][..k - 1];
  }

  lemma InputShift(cols: seq<Column>, rows: nat, slots: seq<Slot>, k: nat)
    requires WellFormed(cols, rows) && 0 < k < |slots|
    requires EncodeStep(cols, slots[0]).Success?
    ensures var next := EncodeStep(cols, slots[0]).value;
      && WellFormed(next, rows)
      && slots[1..][k - 1] == slots[k]
      && Input(cols, rows, slots, k) == Input(next, rows, slots[1..], k - 1)
  {
    StepShift(cols, rows, slots, k);
  }

  lemma LineShift(cols: seq<Column>, rows: nat, slots: seq<Slot>, k: nat)
    requires WellFormed(cols, rows) && 0 < k < |slots|
    requires EncodeStep(cols, slots[0]).Success?
    ensures var next := EncodeStep(cols, slots[0]).value;
      && WellFormed(next, rows)
      && slots[1..][k - 1] == slots[k]
      && Input(cols, rows, slots, k) == Input(next, rows, slots[1..], k - 1)
      && (LineRuns(cols, rows, slots, k) <==> LineRuns(next, rows, slots[1..], k - 1))
      && LineError(cols, rows, slots, k) == LineError(next, rows, slots[1..], k - 1)
  {
    StepShift(cols, rows, slots, k);
  }

  /** A successful step leaves a column it does not target as it was. */
  lemma StepKeeps(cols: seq<Column>, rows: nat, slot: Slot, n: string)
    requires WellFormed(cols, rows) && EncodeStep(cols, slot).Success? && n != slot.target
    ensures WellFormed(EncodeStep(cols, slot).value, rows)
    ensures Lookup(EncodeStep(cols, slot).value, n) == Lookup(cols, n)
  {
    EncodeStepFrame(cols, rows, slot);
  }

  /** Once the first step fails, no later line runs and the frame stays as it was. */
  lemma FailedStepBefore(cols: seq<Column>, rows: nat, slots: seq<Slot>, k: nat)
    requires WellFormed(cols, rows) && 0 < k <= |slots|
    requires EncodeStep(cols, slots[0]).Failure?
    ensures Before(cols, rows, slots, k) == cols
  {
    assert slots[..k][0] == slots[0];
  }

  /** Encoding writes only the target columns. */
  lemma {:induction false} EncodeSlotsKeepsOthers(cols: seq<Column>, rows: nat, slots: seq<Slot>, n: string)
    requires WellFormed(cols, rows)
    requires forall k :: 0 <= k < |slots| ==> slots[k].target != n
    ensures Lookup(EncodeSlots(cols, rows, slots).columns, n) == Lookup(cols, n)
    decreases |slots|
  {
    if slots != [] {
      EncodeStepFrame(cols, rows, slots[0]);
      if EncodeStep(cols, slots[0]).Success? {
        EncodeSlotsAfterStep(cols, rows, slots);
        var rest := slots[1..];
        assert forall k :: 0 <= k < |rest| ==> rest[k] == slots[k + 1];
        EncodeSlotsKeepsOthers(EncodeStep(cols, slots[0]).value, rows, rest, n);
      }
    }
  }

  /**
   * Lines 68-71 succeed exactly when every line finds its column, in the
   * frame the lines before it left, and that column does not mix numbers and text.
   */
  lemma {:induction false} EncodeSlotsSucceedsIff(cols: seq<Column>, rows: nat, slots: seq<Slot>)
    requires WellFormed(cols, rows)
    ensures EncodeSlots(cols, rows, slots).error.None? <==>
      forall k :: 0 <= k < |slots| ==> LineRuns(cols, rows, slots, k)
    decreases |slots|
  {
    if slots != [] {
      EncodeStepOutcome(cols, slots[0]);
      BeforeFirst(cols, rows, slots);
      if EncodeStep(cols, slots[0]).Success? {
        var next, rest := EncodeStep(cols, slots[0]).value, slots[1..];
        EncodeSlotsAfterStep(cols, rows, slots);
        EncodeSlotsSucceedsIff(next, rows, rest);
        assert LineRuns(cols, rows, slots, 0);
        forall k | 0 < k < |slots|
          ensures LineRuns(cols, rows, slots, k) <==> LineRuns(next, rows, rest, k - 1)
        {
          LineShift(cols, rows, slots, k);
        }
        if forall k :: 0 <= k < |rest| ==> LineRuns(next, rows, rest, k) {
          forall k | 0 <= k < |slots| ensures LineRuns(cols, rows, slots, k) {
            if k > 0 {
              assert LineRuns(next, rows, rest, k - 1);
            }
          }
        } else {
          var j :| 0 <= j < |rest| && !LineRuns(next, rows, rest, j);
          assert !LineRuns(cols, rows, slots, j + 1);
        }
      } else {
        assert !LineRuns(cols, rows, slots, 0);
      }
    }
  }

  /**
   * A failure of lines 68-71 comes from the first line that does not run: all
   * lines before it succeeded, its exception is KeyError when its column is
   * missing and the encoder's error otherwise, and the frame is the one that
   * line read.
   */
  lemma {:induction false} EncodeSlotsFailure(cols: seq<Column>, rows: nat, slots: seq<Slot>)
    requires WellFormed(cols, rows)
    ensures var r := EncodeSlots(cols, rows, slots);
      r.error.Some? ==>
        exists k :: 0 <= k < |slots|
          && EncodeSlots(cols, rows, slots[..k]).error.None?
          && !LineRuns(cols, rows, slots, k)
          && r.error.value == LineError(cols, rows, slots, k)
          && r.columns == Before(cols, rows, slots, k)
    decreases |slots|
  {
    var r := EncodeSlots(cols, rows, slots);
    if slots != [] {
      EncodeStepOutcome(cols, slots[0]);
      BeforeFirst(cols, rows, slots);
      if EncodeStep(cols, slots[0]).Success? {
        var next, rest := EncodeStep(cols, slots[0]).value, slots[1..];
        EncodeSlotsAfterStep(cols, rows, slots);
        EncodeSlotsFailure(next, rows, rest);
        if r.error.Some? {
          var j :| 0 <= j < |rest|
            && EncodeSlots(next, rows, rest[..j]).error.None?
            && !LineRuns(next, rows, rest, j)
            && r.error.value == LineError(next, rows, rest, j)
            && r.columns == Before(next, rows, rest, j);
          StepShift(cols, rows, slots, j + 1);
          LineShift(cols, rows, slots, j + 1);
          assert !LineRuns(cols, rows, slots, j + 1);
        }
      } else {
        assert slots[..0] == [];
        assert !LineRuns(cols, rows, slots, 0);
      }
    }
  }

  /** With distinct targets, each target ends up holding the codes of the
      column its line read. */
  lemma {:induction false} EncodeSlotsWritesCodes(cols: seq<Column>, rows: nat, slots: seq<Slot>, k: nat)
    requires WellFormed(cols, rows) && k < |slots|
    requires forall i, j :: 0 <= i < j < |slots| ==> slots[i].target != slots[j].target
    ensures var r := EncodeSlots(cols, rows, slots);
      r.error.None? ==>
        && LineRuns(cols, rows, slots, k)
        && FitTransform(Input(cols, rows, slots, k).value).Success?
        && Lookup(r.columns, slots[k].target) == Some(Codes(FitTransform(Input(cols, rows, slots, k).value).value))
    decreases k
  {
    var s := slots[0];
    EncodeStepFrame(cols, rows, s);
    EncodeStepOutcome(cols, s);
    if EncodeStep(cols, s).Success? {
      var next, rest := EncodeStep(cols, s).value, slots[1..];
      EncodeSlotsAfterStep(cols, rows, slots);
      assert forall i :: 0 <= i < |rest| ==> rest[i] == slots[i + 1];
      if k == 0 {
        BeforeFirst(cols, rows, slots);
        FitTransformEncodes(Lookup(cols, s.source).value);
        EncodeSlotsKeepsOthers(next, rows, rest, s.target);
      } else {
        LineShift(cols, rows, slots, k);
        EncodeSlotsWritesCodes(next, rows, rest, k - 1);
      }
    }
  }

  /** A line whose column no earlier line writes reads that column of the input. */
  lemma {:induction false} InputUnwritten(cols: seq<Column>, rows: nat, slots: seq<Slot>, k: nat)
    requires WellFormed(cols, rows) && k < |slots|
    requires forall j :: 0 <= j < k ==> slots[j].target != slots[k].source
    ensures Input(cols, rows, slots, k) == Lookup(cols, slots[k].source)
    decreases k
  {
    if k == 0 {
      BeforeFirst(cols, rows, slots);
    } else if EncodeStep(cols, slots[0]).Failure? {
      FailedStepBefore(cols, rows, slots, k);
      assert Input(cols, rows, slots, k) == Lookup(cols, slots[k].source);
    } else {
      var next, rest := EncodeStep(cols, slots[0]).value, slots[1..];
      StepKeeps(cols, rows, slots[0], slots[k].source);
      InputShift(cols, rows, slots, k);
      assert rest[k - 1] == slots[k];
      forall j | 0 <= j < k - 1 ensures rest[j].target != rest[k - 1].source {
        assert rest[j] == slots[j + 1];
        assert slots[j + 1].target != slots[k].source;
      }
      InputUnwritten(next, rows, rest, k - 1);
      assert Input(next, rows, rest, k - 1) == Lookup(next, slots[k].source);
      assert Input(cols, rows, slots, k) == Lookup(cols, slots[k].source);
    }
  }

  // ---------------------------------------------------------------------
  // Prediction and the label column

  /** The names are already unique after the first removal and the
      assignments, so the second removal (ITN.py:76) changes nothing. */
  lemma SecondDedupIsNoOp(cols: seq<Column>, rows: nat, clf: Classifier)
    requires WellFormed(cols, rows) && HasFeatures(cols) && UniqueNames(cols)
    ensures KeepFirst(WithPredictions(cols, rows, clf)) == WithPredictions(cols, rows, clf)
  {
    WithPredictionsFrame(cols, rows, clf);
    KeepFirstOfUnique(WithPredictions(cols, rows, clf));
  }

  /**
   * Lines 73-82 keep the frame well formed with unique names; `predicted`
   * holds the classifier's index on each row of the four feature columns;
   * every other column except `predicted_label` reads as before; and a failed
   * decoding leaves no `predicted_label` column at all.
   */
  lemma LabelFrame(cols: seq<Column>, rows: nat, clf: Classifier, classes: seq<string>)
    requires WellFormed(cols, rows) && HasFeatures(cols) && UniqueNames(cols)
    ensures var r := Label(cols, rows, clf, classes);
      && WellFormed(r.columns, rows) && UniqueNames(r.columns)
      && Lookup(r.columns, PREDICTED) == Some(PredictAll(clf, FeatureTable(cols, rows)))
      && (forall n :: n != PREDICTED_LABEL && n != PREDICTED ==> Lookup(r.columns, n) == Lookup(cols, n))
      && (r.error.Some? ==> r.error.value.Decoding? && PREDICTED_LABEL !in Names(r.columns))
  {
    var withPredicted := WithPredictions(cols, rows, clf);
    WithPredictionsFrame(cols, rows, clf);
    ClearedFrame(withPredicted, rows);
    var cleared := Cleared(withPredicted);
    var r := Label(cols, rows, clf, classes);
    if r.error.None? {
      var labels := InverseTransform(classes, Lookup(cleared, PREDICTED).value).value;
      AssignWellFormed(cleared, rows, PREDICTED_LABEL, labels);
      AssignReadsBack(cleared, PREDICTED_LABEL, labels);
    }
  }

  /** Line 82 decodes exactly the indices line 73 stored. */
  lemma LabelDecodesPredicted(cols: seq<Column>, rows: nat, clf: Classifier, classes: seq<string>)
    requires WellFormed(cols, rows) && HasFeatures(cols)
    ensures var decoded := InverseTransform(classes, PredictAll(clf, FeatureTable(cols, rows)));
      && (Label(cols, rows, clf, classes).error.None? <==> decoded.Success?)
      && (decoded.Success? ==>
            Label(cols, rows, clf, classes).columns
              == Cleared(WithPredictions(cols, rows, clf)) + [Column(PREDICTED_LABEL, decoded.value)])
  {
    WithPredictionsFrame(cols, rows, clf);
    ClearedFrame(WithPredictions(cols, rows, clf), rows);
  }

  /** Decoding succeeds exactly when the classifier gives a known class index on every row. */
  lemma LabelSucceedsIff(cols: seq<Column>, rows: nat, clf: Classifier, classes: seq<string>)
    requires WellFormed(cols, rows) && HasFeatures(cols)
    ensures Label(cols, rows, clf, classes).error.None? <==>
      forall i :: 0 <= i < rows ==> 0 <= clf(FeatureRow(cols, rows, i)) < |classes|
  {
    LabelDecodesPredicted(cols, rows, clf, classes);
    var predicted := PredictAll(clf, FeatureTable(cols, rows));
    forall i | 0 <= i < rows
      ensures KnownClass(classes, predicted[i]) <==> 0 <= clf(FeatureRow(cols, rows, i)) < |classes|
    {
      assert FeatureTable(cols, rows)[i] == FeatureRow(cols, rows, i);
    }
  }

  /**
   * After a successful decoding the last column is `predicted_label`, the
   * only column of that name, and its i-th label is the decoder's entry for
   * the classifier's index on row i of the features.
   */
  lemma LabelLastColumn(cols: seq<Column>, rows: nat, clf: Classifier, classes: seq<string>)
    requires WellFormed(cols, rows) && HasFeatures(cols)
    requires Label(cols, rows, clf, classes).error.None?
    ensures var r := Label(cols, rows, clf, classes).columns;
      && |r| > 0 && r[|r| - 1].name == PREDICTED_LABEL
      && PREDICTED_LABEL !in Names(r[..|r| - 1])
      && |r[|r| - 1].values| == rows
      && forall i :: 0 <= i < rows ==>
           0 <= clf(FeatureRow(cols, rows, i)) < |classes|
           && r[|r| - 1].values[i] == Text(classes[clf(FeatureRow(cols, rows, i))])
  {
    LabelSucceedsIff(cols, rows, clf, classes);
    LabelDecodesPredicted(cols, rows, clf, classes);
    ClearedFrame(WithPredictions(cols, rows, clf), rows);
    var cleared := Cleared(WithPredictions(cols, rows, clf));
    var predicted := PredictAll(clf, FeatureTable(cols, rows));
    var r := Label(cols, rows, clf, classes).columns;
    assert r[..|r| - 1] == cleared;
    forall i | 0 <= i < rows
      ensures r[|r| - 1].values[i] == Text(classes[clf(FeatureRow(cols, rows, i))])
    {
      assert FeatureTable(cols, rows)[i] == FeatureRow(cols, rows, i);
    }
  }

  /** After a successful decoding `predicted_label` looks up one text label per row. */
  lemma LabelColumn(cols: seq<Column>, rows: nat, clf: Classifier, classes: seq<string>)
    requires WellFormed(cols, rows) && HasFeatures(cols) && UniqueNames(cols)
    requires Label(cols, rows, clf, classes).error.None?
    ensures var r := Label(cols, rows, clf, classes).columns;
      && Lookup(r, PREDICTED_LABEL).Some?
      && |Lookup(r, PREDICTED_LABEL).value| == rows
      && forall i :: 0 <= i < rows ==> Lookup(r, PREDICTED_LABEL).value[i].Text?
  {
    var r := Label(cols, rows, clf, classes).columns;
    LabelFrame(cols, rows, clf, classes);
    LabelLastColumn(cols, rows, clf, classes);
    LookupLast(r);
    var last := r[|r| - 1];
    assert last.name == PREDICTED_LABEL && Lookup(r, PREDICTED_LABEL) == Some(last.values);
    forall i | 0 <= i < rows ensures last.values[i].Text? {
      assert last.values[i] == Text(classes[clf(FeatureRow(cols, rows, i))]);
    }
  }

  // ---------------------------------------------------------------------
  // The whole run

  /** Lines 68-71 all run for the selections `b` on the deduplicated upload. */
  predicate Runs(cols: seq<Column>, rows: nat, b: Binding)
    requires WellFormed(cols, rows)
  {
    DedupedFrame(cols, rows);
    forall k :: 0 <= k < 4 ==> LineRuns(KeepFirst(cols), rows, Slots(b), k)
  }

  /** The codes line 68 + `k` writes (education, age, residence, attitude) when all four lines run. */
  function SelectedCodes(cols: seq<Column>, rows: nat, b: Binding, k: nat): (codes: seq<nat>)
    requires WellFormed(cols, rows) && Runs(cols, rows, b) && k < 4
    ensures |codes| == rows
  {
    DedupedFrame(cols, rows);
    var deduped := KeepFirst(cols);
    assert LineRuns(deduped, rows, Slots(b), k);
    var read := Input(deduped, rows, Slots(b), k).value;
    LookupWellFormed(Before(deduped, rows, Slots(b), k), rows);
    FitTransformEncodes(read);
    FitTransform(read).value
  }

  /** The feature row the model sees for row `i`: the codes the four lines wrote. */
  function SelectedRow(cols: seq<Column>, rows: nat, b: Binding, i: nat): seq<Cell>
    requires WellFormed(cols, rows) && Runs(cols, rows, b) && i < rows
  {
    [Num(SelectedCodes(cols, rows, b, 0)[i]), Num(SelectedCodes(cols, rows, b, 1)[i]),
     Num(SelectedCodes(cols, rows, b, 2)[i]), Num(SelectedCodes(cols, rows, b, 3)[i])]
  }

  /** The exception of line 68 + `k` is a KeyError for a selection that is no
      column of the upload, or an encoding error; either names the selection. */
  lemma LineErrorNamesSelection(cols: seq<Column>, rows: nat, b: Binding, k: nat)
    requires WellFormed(cols, rows) && k < 4
    ensures WellFormed(KeepFirst(cols), rows)
    ensures var err := LineError(KeepFirst(cols), rows, Slots(b), k);
      && (err.Unbound? || (err.Encoding? && err.cause == MixedTypes))
      && err.column in [b.education, b.age, b.residence, b.attitude]
      && (err.Unbound? ==> err.column !in Names(cols))
  {
    DedupedFrame(cols, rows);
    var deduped, slots := KeepFirst(cols), Slots(b);
    assert slots[k].source in [b.education, b.age, b.residence, b.attitude];
    if Input(deduped, rows, slots, k).None? {
      // The lines before only add names, so the name was missing from the upload too.
      assert slots[k].source !in Names(Before(deduped, rows, slots, k));
      assert Lookup(deduped, slots[k].source).None?;
    }
  }

  /** A failed encoding is the exception of one of the four lines. */
  lemma EncodedFailure(cols: seq<Column>, rows: nat, b: Binding)
    requires WellFormed(cols, rows) && Encoded(cols, rows, b).error.Some?
    ensures WellFormed(KeepFirst(cols), rows)
    ensures exists k :: 0 <= k < 4 && Encoded(cols, rows, b).error.value == LineError(KeepFirst(cols), rows, Slots(b), k)
  {
    DedupedFrame(cols, rows);
    EncodeSlotsFailure(KeepFirst(cols), rows, Slots(b));
  }

  /**
   * Encoding succeeds exactly when all four lines run. A failure is a KeyError
   * for a selection that is no column of the upload, or an encoding error for
   * a selected column; either way it names one of the four selections.
   */
  lemma EncodedSucceedsIff(cols: seq<Column>, rows: nat, b: Binding)
    requires WellFormed(cols, rows)
    ensures Encoded(cols, rows, b).error.None? <==> Runs(cols, rows, b)
    ensures var err := Encoded(cols, rows, b).error;
      err.Some? ==>
        && (err.value.Unbound? || (err.value.Encoding? && err.value.cause == MixedTypes))
        && err.value.column in [b.education, b.age, b.residence, b.attitude]
        && (err.value.Unbound? ==> err.value.column !in Names(cols))
  {
    DedupedFrame(cols, rows);
    EncodeSlotsSucceedsIff(KeepFirst(cols), rows, Slots(b));
    if Encoded(cols, rows, b).error.Some? {
      EncodedFailure(cols, rows, b);
      var k :| 0 <= k < 4 && Encoded(cols, rows, b).error.value == LineError(KeepFirst(cols), rows, Slots(b), k);
      LineErrorNamesSelection(cols, rows, b, k);
    }
  }

  /** A selection that is no column of the upload fails with KeyError unless
      an earlier line fails first. Nothing runs before the education line, so
      an upload without columns, whose select boxes give None, ends there. */
  lemma MissingSelectionFails(cols: seq<Column>, rows: nat, b: Binding, clf: Classifier, classes: seq<string>)
    requires WellFormed(cols, rows)
    ensures b.education !in Names(cols) ==>
      PredictionRun(cols, rows, b, clf, classes) == Run(KeepFirst(cols), Some(Unbound(b.education)))
  {
    DedupedFrame(cols, rows);
    var deduped, slots := KeepFirst(cols), Slots(b);
    EncodeStepOutcome(deduped, slots[0]);
    assert Lookup(deduped, b.education) == Lookup(cols, b.education);
  }

  /** After a successful encoding, the target of line 68 + `k` holds the codes that line wrote. */
  lemma EncodedFeature(cols: seq<Column>, rows: nat, b: Binding, k: nat)
    requires WellFormed(cols, rows) && k < 4
    requires Encoded(cols, rows, b).error.None?
    ensures Runs(cols, rows, b)
    ensures Lookup(Encoded(cols, rows, b).columns, Slots(b)[k].target) == Some(Codes(SelectedCodes(cols, rows, b, k)))
  {
    DedupedFrame(cols, rows);
    var slots := Slots(b);
    EncodeSlotsSucceedsIff(KeepFirst(cols), rows, slots);
    TargetsDistinct(b);
    EncodeSlotsWritesCodes(KeepFirst(cols), rows, slots, k);
  }

  /** After a successful encoding each feature column holds the codes of the column its line read. */
  lemma EncodedFeatures(cols: seq<Column>, rows: nat, b: Binding)
    requires WellFormed(cols, rows)
    requires Encoded(cols, rows, b).error.None?
    ensures Runs(cols, rows, b)
    ensures var e := Encoded(cols, rows, b).columns;
      && Lookup(e, EDUCATION_FEATURE) == Some(Codes(SelectedCodes(cols, rows, b, 0)))
      && Lookup(e, AGE_FEATURE) == Some(Codes(SelectedCodes(cols, rows, b, 1)))
      && Lookup(e, RESIDENCE_FEATURE) == Some(Codes(SelectedCodes(cols, rows, b, 2)))
      && Lookup(e, ATTITUDE_FEATURE) == Some(Codes(SelectedCodes(cols, rows, b, 3)))
  {
    EncodedFeature(cols, rows, b, 0);
    EncodedFeature(cols, rows, b, 1);
    EncodedFeature(cols, rows, b, 2);
    EncodedFeature(cols, rows, b, 3);
  }

  /** After a successful encoding, row i of the features is made of the codes the four lines wrote. */
  lemma EncodedFeatureRows(cols: seq<Column>, rows: nat, b: Binding, i: nat)
    requires WellFormed(cols, rows)
    requires Encoded(cols, rows, b).error.None? && i < rows
    ensures Runs(cols, rows, b)
    ensures FeatureRow(Encoded(cols, rows, b).columns, rows, i) == SelectedRow(cols, rows, b, i)
  {
    EncodedFeatures(cols, rows, b);
  }

  /**
   * Whatever happens, the frame keeps unique names and one value per row,
   * and every column other than the four features, `predicted` and
   * `predicted_label` is the first column of that name in the upload.
   */
  lemma PredictionRunKeepsOthers(cols: seq<Column>, rows: nat, b: Binding, clf: Classifier, classes: seq<string>)
    requires WellFormed(cols, rows)
    ensures var r := PredictionRun(cols, rows, b, clf, classes);
      && WellFormed(r.columns, rows) && UniqueNames(r.columns)
      && forall n :: n != PREDICTED_LABEL && n != PREDICTED && !IsFeature(n) ==> Lookup(r.columns, n) == Lookup(cols, n)
  {
    DedupedFrame(cols, rows);
    var e := Encoded(cols, rows, b);
    forall n | !IsFeature(n) ensures Lookup(e.columns, n) == Lookup(cols, n) {
      EncodeSlotsKeepsOthers(KeepFirst(cols), rows, Slots(b), n);
    }
    if e.error.None? {
      LabelFrame(e.columns, rows, clf, classes);
    }
  }

  /**
   * A run succeeds exactly when all four encoding lines run and the model
   * gives a known class index on the codes of every row.
   */
  lemma PredictionRunSucceedsIff(cols: seq<Column>, rows: nat, b: Binding, clf: Classifier, classes: seq<string>)
    requires WellFormed(cols, rows)
    ensures PredictionRun(cols, rows, b, clf, classes).error.None? <==>
      Runs(cols, rows, b) && forall i :: 0 <= i < rows ==> 0 <= clf(SelectedRow(cols, rows, b, i)) < |classes|
  {
    EncodedSucceedsIff(cols, rows, b);
    var e := Encoded(cols, rows, b);
    if e.error.None? {
      LabelSucceedsIff(e.columns, rows, clf, classes);
      forall i | 0 <= i < rows ensures FeatureRow(e.columns, rows, i) == SelectedRow(cols, rows, b, i) {
        EncodedFeatureRows(cols, rows, b, i);
      }
    }
  }

  /**
   * After a successful run the frame ends with exactly one `predicted_label`
   * column, and its i-th entry is the decoder's label for the model's index on
   * the codes of row i.
   */
  lemma PredictionRunLabels(cols: seq<Column>, rows: nat, b: Binding, clf: Classifier, classes: seq<string>)
    requires WellFormed(cols, rows)
    requires PredictionRun(cols, rows, b, clf, classes).error.None?
    ensures Runs(cols, rows, b)
    ensures var r := PredictionRun(cols, rows, b, clf, classes).columns;
      && |r| > 0 && r[|r| - 1].name == PREDICTED_LABEL
      && PREDICTED_LABEL !in Names(r[..|r| - 1])
      && |r[|r| - 1].values| == rows
      && forall i :: 0 <= i < rows ==>
           0 <= clf(SelectedRow(cols, rows, b, i)) < |classes|
           && r[|r| - 1].values[i] == Text(classes[clf(SelectedRow(cols, rows, b, i))])
  {
    DedupedFrame(cols, rows);
    EncodeSlotsSucceedsIff(KeepFirst(cols), rows, Slots(b));
    var e := Encoded(cols, rows, b);
    LabelLastColumn(e.columns, rows, clf, classes);
    forall i | 0 <= i < rows ensures FeatureRow(e.columns, rows, i) == SelectedRow(cols, rows, b, i) {
      EncodedFeatureRows(cols, rows, b, i);
    }
  }

  /** A failed encoding leaves whatever `predicted_label` column the upload had,
      so the risk tab still counts those labels; a failed decoding leaves none. */
  lemma FailedRunLabels(cols: seq<Column>, rows: nat, b: Binding, clf: Classifier, classes: seq<string>)
    requires WellFormed(cols, rows)
    ensures var r := PredictionRun(cols, rows, b, clf, classes);
      && (r.error.Some? && !r.error.value.Decoding? ==> RiskCounts(r.columns) == RiskCounts(cols))
      && (r.error.Some? && r.error.value.Decoding? ==> RiskCounts(r.columns) == None)
  {
    DedupedFrame(cols, rows);
    var e := Encoded(cols, rows, b);
    EncodeSlotsKeepsOthers(KeepFirst(cols), rows, Slots(b), PREDICTED_LABEL);
    EncodedSucceedsIff(cols, rows, b);
    if e.error.None? {
      LabelFrame(e.columns, rows, clf, classes);
    }
  }

  lemma {:induction false} PresentWithoutMissing(vals: seq<Cell>)
    requires forall i :: 0 <= i < |vals| ==> vals[i].Text?
    ensures Present(vals) == |vals|
    decreases |vals|
  {
    if vals != [] {
      PresentWithoutMissing(vals[1..]);
    }
  }

  /** With unique names, the last column is what its name looks up. */
  lemma LookupLast(cols: seq<Column>)
    requires |cols| > 0 && UniqueNames(cols)
    ensures Lookup(cols, cols[|cols| - 1].name) == Some(cols[|cols| - 1].values)
  {
    var n := cols[|cols| - 1].name;
    assert Names(cols)[|cols| - 1] == n;
    var k := FirstIndex(cols, n);
    assert cols[k].name == n;
  }

  /** Counts of a column of text labels add up to its length. */
  lemma TextCountsCoverAll(labels: seq<Cell>, keys: seq<Cell>)
    requires forall i :: 0 <= i < |labels| ==> labels[i].Text?
    requires Enumerates(keys, Counts(labels).Keys)
    ensures SumCounts(keys, Counts(labels)) == |labels|
  {
    PresentWithoutMissing(labels);
    CountsSumToPresent(labels, keys);
  }

  /** After a successful run `predicted_label` can be looked up and holds one text label per row. */
  lemma SuccessfulRunLabelColumn(cols: seq<Column>, rows: nat, b: Binding, clf: Classifier, classes: seq<string>)
    requires WellFormed(cols, rows)
    requires PredictionRun(cols, rows, b, clf, classes).error.None?
    ensures var r := PredictionRun(cols, rows, b, clf, classes).columns;
      && Lookup(r, PREDICTED_LABEL).Some?
      && |Lookup(r, PREDICTED_LABEL).value| == rows
      && forall i :: 0 <= i < rows ==> Lookup(r, PREDICTED_LABEL).value[i].Text?
  {
    var e := Encoded(cols, rows, b);
    assert PredictionRun(cols, rows, b, clf, classes) == Label(e.columns, rows, clf, classes);
    LabelColumn(e.columns, rows, clf, classes);
  }

  /**
   * The risk tab after a successful run: every row has a label, and the
   * label counts add up to the number of rows, whatever order they are listed in.
   */
  lemma RiskCountsCoverRows(cols: seq<Column>, rows: nat, b: Binding, clf: Classifier, classes: seq<string>, keys: seq<Cell>)
    requires WellFormed(cols, rows)
    requires PredictionRun(cols, rows, b, clf, classes).error.None?
    ensures RiskCounts(PredictionRun(cols, rows, b, clf, classes).columns).Some?
    ensures var counts := RiskCounts(PredictionRun(cols, rows, b, clf, classes).columns).value;
      Enumerates(keys, counts.Keys) ==> SumCounts(keys, counts) == rows
  {
    SuccessfulRunLabelColumn(cols, rows, b, clf, classes);
    var labels := Lookup(PredictionRun(cols, rows, b, clf, classes).columns, PREDICTED_LABEL).value;
    if Enumerates(keys, Counts(labels).Keys) {
      TextCountsCoverAll(labels, keys);
    }
  }

  /**
   * The what-if tab agrees with the batch run: when the codes of some row are
   * the four select-box values, that row's label is the one the simulation shows.
   */
  lemma SimulationAgreesWithBatch(cols: seq<Column>, rows: nat, b: Binding, clf: Classifier, classes: seq<string>,
                                  i: nat, education: nat, age: nat, residence: nat, attitude: nat)
    requires WellFormed(cols, rows) && i < rows
    requires PredictionRun(cols, rows, b, clf, classes).error.None?
    requires education <= 3 && age <= 2 && residence <= 1 && attitude <= 2
    requires Runs(cols, rows, b) && SelectedRow(cols, rows, b, i) == [Num(education), Num(age), Num(residence), Num(attitude)]
    ensures var r := PredictionRun(cols, rows, b, clf, classes).columns;
      var shown := Simulate(clf, classes, education, age, residence, attitude);
      && shown.Success?
      && |r| > 0 && |r[|r| - 1].values| == rows
      && r[|r| - 1].values[i] == Text(shown.value)
  {
    RunLabelAt(cols, rows, b, clf, classes, i);
    SimulateDecodesPrediction(clf, classes, education, age, residence, attitude);
  }

  lemma RunLabelAt(cols: seq<Column>, rows: nat, b: Binding, clf: Classifier, classes: seq<string>, i: nat)
    requires WellFormed(cols, rows) && i < rows
    requires PredictionRun(cols, rows, b, clf, classes).error.None?
    ensures Runs(cols, rows, b)
    ensures var r := PredictionRun(cols, rows, b, clf, classes).columns;
      var p := clf(SelectedRow(cols, rows, b, i));
      |r| > 0 && |r[|r| - 1].values| == rows && 0 <= p < |classes| && r[|r| - 1].values[i] == Text(classes[p])
  {
    PredictionRunLabels(cols, rows, b, clf, classes);
  }

  // ---------------------------------------------------------------------
  // Selections read as uploaded

  /** No line reads a feature column that an earlier line wrote, so every
      selection is read as the upload has it. */
  predicate ReadsUpload(b: Binding)
  {
    && b.age != EDUCATION_FEATURE
    && b.residence != EDUCATION_FEATURE && b.residence != AGE_FEATURE
    && b.attitude != EDUCATION_FEATURE && b.attitude != AGE_FEATURE && b.attitude != RESIDENCE_FEATURE
  }

  /** None of the four selected columns mixes numbers and text. */
  predicate Encodable(cols: seq<Column>, b: Binding)
    requires Selectable(cols, b)
  {
    && !Mixed(Lookup(cols, b.education).value) && !Mixed(Lookup(cols, b.age).value)
    && !Mixed(Lookup(cols, b.residence).value) && !Mixed(Lookup(cols, b.attitude).value)
  }

  /** The codes of column `name` of `cols`. */
  function CodesOf(cols: seq<Column>, name: string): seq<nat>
    requires name in Names(cols) && !Mixed(Lookup(cols, name).value)
  {
    FitTransformEncodes(Lookup(cols, name).value);
    FitTransform(Lookup(cols, name).value).value
  }

  /** The codes of the four selected columns of the upload at row `i`. */
  function EncodedRow(cols: seq<Column>, rows: nat, b: Binding, i: nat): seq<Cell>
    requires WellFormed(cols, rows) && Selectable(cols, b) && Encodable(cols, b) && i < rows
  {
    LookupWellFormed(cols, rows);
    FitTransformEncodes(Lookup(cols, b.education).value);
    FitTransformEncodes(Lookup(cols, b.age).value);
    FitTransformEncodes(Lookup(cols, b.residence).value);
    FitTransformEncodes(Lookup(cols, b.attitude).value);
    [Num(CodesOf(cols, b.education)[i]), Num(CodesOf(cols, b.age)[i]),
     Num(CodesOf(cols, b.residence)[i]), Num(CodesOf(cols, b.attitude)[i])]
  }

  /** Line 68 + `k` reads the upload's column of its selection, and writes its codes when it runs. */
  lemma UploadRead(cols: seq<Column>, rows: nat, b: Binding, k: nat)
    requires WellFormed(cols, rows) && ReadsUpload(b) && k < 4
    ensures WellFormed(KeepFirst(cols), rows)
    ensures Input(KeepFirst(cols), rows, Slots(b), k) == Lookup(cols, Slots(b)[k].source)
    ensures LineRuns(KeepFirst(cols), rows, Slots(b), k) <==> Encodes(Lookup(cols, Slots(b)[k].source))
  {
    DedupedFrame(cols, rows);
    var slots := Slots(b);
    assert forall j :: 0 <= j < k ==> slots[j].target != slots[k].source by {
      if k == 1 {
        assert slots[0].target != slots[1].source;
      } else if k == 2 {
        assert slots[0].target != slots[2].source && slots[1].target != slots[2].source;
      } else if k == 3 {
        assert slots[0].target != slots[3].source && slots[1].target != slots[3].source;
        assert slots[2].target != slots[3].source;
      }
    }
    InputUnwritten(KeepFirst(cols), rows, slots, k);
    assert Lookup(KeepFirst(cols), slots[k].source) == Lookup(cols, slots[k].source);
  }

  /** When its line reads the upload's column, the codes it writes are that column's codes. */
  lemma UploadCodes(cols: seq<Column>, rows: nat, b: Binding, k: nat)
    requires WellFormed(cols, rows) && ReadsUpload(b) && k < 4 && Runs(cols, rows, b)
    ensures Encodes(Lookup(cols, Slots(b)[k].source))
    ensures SelectedCodes(cols, rows, b, k) == CodesOf(cols, Slots(b)[k].source)
  {
    UploadRead(cols, rows, b, k);
    assert LineRuns(KeepFirst(cols), rows, Slots(b), k);
  }

  /**
   * When every selection is read as uploaded, all four lines run exactly when
   * every selection is a column of the upload that does not mix numbers and
   * text, and the model then sees the codes of those uploaded columns.
   */
  lemma UploadSelections(cols: seq<Column>, rows: nat, b: Binding)
    requires WellFormed(cols, rows) && ReadsUpload(b)
    ensures Runs(cols, rows, b) <==> Selectable(cols, b) && Encodable(cols, b)
    ensures Runs(cols, rows, b) ==>
      && Selectable(cols, b) && Encodable(cols, b)
      && forall i :: 0 <= i < rows ==> SelectedRow(cols, rows, b, i) == EncodedRow(cols, rows, b, i)
  {
    UploadRead(cols, rows, b, 0);
    UploadRead(cols, rows, b, 1);
    UploadRead(cols, rows, b, 2);
    UploadRead(cols, rows, b, 3);
    if Runs(cols, rows, b) {
      UploadCodes(cols, rows, b, 0);
      UploadCodes(cols, rows, b, 1);
      UploadCodes(cols, rows, b, 2);
      UploadCodes(cols, rows, b, 3);
    }
  }

  // ---------------------------------------------------------------------
  // The tab as the script runs it, on the frame held in `data`

  /** `data[slot.target] = LabelEncoder().fit_transform(data[slot.source])` */
  method EncodeColumn(data: Frame, slot: Slot) returns (error: Option<PredictError>)
    requires data.Valid()
    modifies data
    ensures data.Valid() && data.rows == old(data.rows)
    ensures match EncodeStep(old(data.columns), slot)
            case Failure(e) => error == Some(e) && data.columns == old(data.columns)
            case Success(next) => error == None && data.columns == next
  {
    EncodeStepFrame(data.columns, data.rows, slot);
    LookupWellFormed(data.columns, data.rows);
    var read := Lookup(data.columns, slot.source);
    if read.None? {
      return Some(Unbound(slot.source));
    }
    var encoded := FitTransform(read.value);
    if encoded.Failure? {
      return Some(Encoding(slot.source, encoded.error));
    }
    FitTransformEncodes(read.value);
    data.SetColumn(slot.target, Codes(encoded.value));
    error := None;
  }

  /** The line for the first of `slots`: the first step of EncodeSlots. */
  method EncodeNext(data: Frame, slots: seq<Slot>) returns (error: Option<PredictError>)
    requires data.Valid() && slots != []
    modifies data
    ensures data.Valid() && data.rows == old(data.rows)
    ensures error.Some? ==> Run(data.columns, error) == EncodeSlots(old(data.columns), old(data.rows), slots)
    ensures error.None? ==> EncodeSlots(data.columns, data.rows, slots[1..]) == EncodeSlots(old(data.columns), old(data.rows), slots)
  {
    ghost var cols := data.columns;
    error := EncodeColumn(data, slots[0]);
    if error.None? {
      EncodeSlotsAfterStep(cols, data.rows, slots);
    }
  }

  /** Lines 68-71, one statement per selected column. */
  method EncodeSelections(data: Frame, b: Binding) returns (error: Option<PredictError>)
    requires data.Valid()
    modifies data
    ensures data.Valid() && data.rows == old(data.rows)
    ensures Run(data.columns, error) == EncodeSlots(old(data.columns), old(data.rows), Slots(b))
  {
    var slots := Slots(b);
    error := EncodeNext(data, slots);
    if error.Some? { return; }
    error := EncodeNext(data, slots[1..]);
    if error.Some? { return; }
    assert slots[1..][1..] == slots[2..];
    error := EncodeNext(data, slots[2..]);
    if error.Some? { return; }
    assert slots[2..][1..] == slots[3..];
    error := EncodeNext(data, slots[3..]);
    if error.Some? { return; }
    assert slots[3..][1..] == [];
  }

  /** Lines 73-82 on the frame held in `data`. */
  method AttachLabels(data: Frame, clf: Classifier, classes: seq<string>) returns (error: Option<PredictError>)
    requires data.Valid() && HasFeatures(data.columns)
    modifies data
    ensures data.Valid() && data.rows == old(data.rows)
    ensures Run(data.columns, error) == Label(old(data.columns), old(data.rows), clf, classes)
  {
    ghost var cols := data.columns;
    var rows := data.rows;
    WithPredictionsFrame(cols, rows, clf);
    ClearedFrame(WithPredictions(cols, rows, clf), rows);
    var predicted := PredictAll(clf, FeatureTable(data.columns, rows));
    data.SetColumn(PREDICTED, predicted);
    data.DropDuplicateColumns();
    if PREDICTED_LABEL in Names(data.columns) {
      data.DropColumn(PREDICTED_LABEL);
    }
    assert data.columns == Cleared(WithPredictions(cols, rows, clf));
    var labels := InverseTransform(classes, Lookup(data.columns, PREDICTED).value);
    if labels.Failure? {
      return Some(Decoding(labels.error));
    }
    data.SetColumn(PREDICTED_LABEL, labels.value);
    error := None;
  }

  /**
   * ITN.py:55-92: remove duplicate columns, encode the selections, predict,
   * replace the labels and, only when all of that succeeded, save the frame
   * under the current time. An exception leaves `data` as it stood and saves nothing.
   */
  method PredictUsage(data: Frame, b: Binding, clf: Classifier, classes: seq<string>,
                      now: History.DateTime, store: History.Store) returns (error: Option<PredictError>)
    requires data.Valid() && History.ValidDateTime(now)
    modifies data, store
    ensures data.Valid() && data.rows == old(data.rows)
    ensures Run(data.columns, error) == PredictionRun(old(data.columns), old(data.rows), b, clf, classes)
    ensures error.None? ==> store.present && store.files == old(store.files)[History.FileName(now) := data.columns]
    ensures error.Some? ==> store.present == old(store.present) && store.files == old(store.files)
  {
    ghost var cols := data.columns;
    ghost var rows := data.rows;
    DedupedFrame(cols, rows);
    data.DropDuplicateColumns();
    error := EncodeSelections(data, b);
    ghost var encoded := Encoded(cols, rows, b);
    assert Run(data.columns, error) == encoded;
    if error.Some? { return; }
    assert PredictionRun(cols, rows, b, clf, classes) == Label(encoded.columns, rows, clf, classes);
    error := AttachLabels(data, clf, classes);
    if error.Some? { return; }
    store.Save(now, data.columns);
  }
}
