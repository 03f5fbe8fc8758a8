/**
 * The pre-trained classifier and the target label encoder loaded at
 * ITN.py:10-11. The classifier is opaque and is passed in as a function; the
 * label encoder is represented by its `classes_` list, which is all that
 * `inverse_transform` consults.
 */
module Inference {
  import opened Results
  import opened Frames

  /** `model.predict` on one row of the four encoded feature cells, in the
      order of `model_features` (ITN.py:14-17): a class index. */
  type Classifier = seq<Cell> -> int

  /** `inverse_transform` raises ValueError ("y contains previously unseen
      labels") for an index outside `classes_`. */
  datatype InferenceError = UnseenClass(index: Cell)

  /** `model.predict(rows)`: one class index per row, as a numeric cell. */
  function PredictAll(clf: Classifier, rows: seq<seq<Cell>>): (r: seq<Cell>)
    ensures |r| == |rows|
    ensures forall i :: 0 <= i < |rows| ==> r[i] == Num(clf(rows[i]))
  {
    seq(|rows|, i requires 0 <= i < |rows| => Num(clf(rows[i])))
  }

  predicate KnownClass(classes: seq<string>, c: Cell)
  {
    c.Num? && 0 <= c.n < |classes|
  }

  /** `label_encoder.inverse_transform(preds)`: the whole batch is decoded, or
      the call fails on the first index the encoder has never seen. */
  function InverseTransform(classes: seq<string>, preds: seq<Cell>): (r: Result<seq<Cell>, InferenceError>)
    ensures r.Success? <==> forall i :: 0 <= i < |preds| ==> KnownClass(classes, preds[i])
    ensures r.Success? ==>
      && |r.value| == |preds|
      && forall i :: 0 <= i < |preds| ==> r.value[i] == Text(classes[preds[i].n])
    ensures r.Failure? ==> exists i :: 0 <= i < |preds| && r.error == UnseenClass(preds[i]) && !KnownClass(classes, preds[i])
    decreases |preds|
  {
    if preds == [] then Success([])
    else if !KnownClass(classes, preds[0]) then Failure(UnseenClass(preds[0]))
    else
      match InverseTransform(classes, preds[1..])
      case Failure(e) => Failure(e)
      case Success(rest) => Success([Text(classes[preds[0].n])] + rest)
  }

  /**
   * The what-if tab (ITN.py:138-146): the four codes offered by the select
   * boxes form a one-row table in `model_features` order, which is predicted
   * and decoded. Nothing is stored.
   */
  function Simulate(clf: Classifier, classes: seq<string>,
                    education: nat, age: nat, residence: nat, attitude: nat): Result<string, InferenceError>
    requires education <= 3 && age <= 2 && residence <= 1 && attitude <= 2
  {
    var row := [Num(education), Num(age), Num(residence), Num(attitude)];
    match InverseTransform(classes, PredictAll(clf, [row]))
    case Failure(e) => Failure(e)
    case Success(labels) => Success(labels[0].s)
  }

  /** The simulated label is the decoder's entry for the classifier's index on
      the row (education, age, residence, attitude), and an unknown index fails. */
  lemma SimulateDecodesPrediction(clf: Classifier, classes: seq<string>,
                                  education: nat, age: nat, residence: nat, attitude: nat)
    requires education <= 3 && age <= 2 && residence <= 1 && attitude <= 2
    ensures var p := clf([Num(education), Num(age), Num(residence), Num(attitude)]);
      Simulate(clf, classes, education, age, residence, attitude) ==
        if 0 <= p < |classes| then Success(classes[p]) else Failure(UnseenClass(Num(p)))
  {
    var row := [Num(education), Num(age), Num(residence), Num(attitude)];
    assert PredictAll(clf, [row]) == [Num(clf(row))];
  }
}
