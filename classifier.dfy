/**
 * Model of main.js: picking the predicted digit from the network's output,
 * the shape check that tf.tensor4d performs on the extracted canvas data,
 * the analyze and training commands with their error conversion, and the
 * fixed training configuration. The network itself, the data source and
 * the fit loop belong to TensorFlow.js and are parameters here.
 */
module Classifier {
  import opened Wrappers
  import Canvas

  /** A thrown JavaScript Error, reduced to its message. */
  datatype Error = Error(message: string)

  /** The only error analyze lets escape. */
  const AnalyzeError := Error("Error analyzing data")
  /** The only error startTraining lets escape. */
  const TrainError := Error("Error training model")
  /** What tf.tensor4d and reshape throw when the number of values does not
      match the shape (the library's own wording is not modelled). */
  const ShapeError := Error("size does not match shape")

  /** Units of the dense output layer, one per digit. */
  const NumOutputClasses: nat := 10
  /** The shape analyze gives the canvas data: one 28×28 single-channel image. */
  const InputShape: seq<nat> := [1, 28, 28, 1]

  /** A rank-4 tensor: its values in row-major order and its shape. */
  datatype Tensor4 = Tensor4(values: seq<real>, shape: seq<nat>)

  /** The number of values a tensor of the given shape holds. */
  function Size(shape: seq<nat>): nat {
    if shape == [] then 1 else shape[0] * Size(shape[1..])
  }

  /** tf.tensor4d / reshape: succeeds exactly when the value count matches
      the shape, keeping the values in order; otherwise it throws. */
  function Tensor4d(values: seq<real>, shape: seq<nat>): (r: Result<Tensor4, Error>)
    requires |shape| == 4
    ensures r.Success? <==> |values| == Size(shape)
    ensures r.Success? ==> r.value.values == values && r.value.shape == shape
    ensures r.Failure? ==> r.error == ShapeError
  {
    if |values| == Size(shape) then Success(Tensor4(values, shape)) else Failure(ShapeError)
  }

  /** A batch of n images, [n, 28, 28, 1], holds n * 784 values. */
  lemma ImageBatchSize(n: nat)
    ensures Size([n, 28, 28, 1]) == n * 784
  {
    var shape := [n, 28, 28, 1];
    assert shape[1..] == [28, 28, 1];
    assert shape[1..][1..] == [28, 1];
    assert shape[1..][1..][1..] == [1];
    assert shape[1..][1..][1..][1..] == [];
    assert Size(shape[1..][1..][1..]) == 1;
    assert Size(shape[1..][1..]) == 28;
    assert Size(shape[1..]) == 784;
  }

  /** The input shape holds exactly the 784 values the canvas extraction
      produces, so the reshape in analyze never throws. */
  lemma InputShapeFitsCanvas(surface: seq<Canvas.Byte>)
    requires |surface| == Canvas.SurfaceBytes
    ensures Size(InputShape) == Canvas.GridCells
    ensures Tensor4d(Canvas.Extract(surface), InputShape) == Success(Tensor4(Canvas.Extract(surface), InputShape))
  {
    ImageBatchSize(1);
  }

  // ---------------------------------------------------------------------
  // Choosing the digit: predictedValues.indexOf(Math.max(...predictedValues))

  /** Math.max over a non-empty vector: a member that bounds every element. */
  function MaxOf(values: seq<real>): (m: real)
    requires |values| > 0
    ensures m in values
    ensures forall i :: 0 <= i < |values| ==> values[i] <= m
    decreases |values|
  {
    if |values| == 1 then values[0]
    else
      var rest := MaxOf(values[1..]);
      if values[0] >= rest then values[0] else rest
  }

  /** Array.prototype.indexOf: the first position holding `v`, or -1. */
  function IndexOf(values: seq<real>, v: real): (k: int)
    ensures -1 <= k < |values|
    ensures k == -1 <==> v !in values
    ensures k >= 0 ==> values[k] == v && forall j :: 0 <= j < k ==> values[j] != v
    decreases |values|
  {
    if values == [] then -1
    else if values[0] == v then 0
    else
      var k := IndexOf(values[1..], v);
      if k == -1 then -1 else k + 1
  }

  /** `k` is a largest element of `values`, and the first one. */
  predicate IsFirstMax(values: seq<real>, k: int) {
    && 0 <= k < |values|
    && (forall j :: 0 <= j < |values| ==> values[j] <= values[k])
    && (forall j :: 0 <= j < k ==> values[j] < values[k])
  }

  /** The digit analyze reports. On an empty vector Math.max gives -Infinity,
      which indexOf does not find, so the answer is -1. */
  function PredictedIndex(values: seq<real>): (k: int)
    ensures |values| == 0 ==> k == -1
    ensures |values| > 0 ==> IsFirstMax(values, k)
  {
    if |values| == 0 then -1 else IndexOf(values, MaxOf(values))
  }

  /** The first maximum is unique, so PredictedIndex is the only index that
      is both a maximum and precedes every other maximum. */
  lemma FirstMaxIsPredicted(values: seq<real>, k: int)
    requires IsFirstMax(values, k)
    ensures PredictedIndex(values) == k
  {
  }

  /** On the ten-unit output layer the reported digit is one of 0..9. */
  lemma PredictedDigitInRange(values: seq<real>)
    requires |values| == NumOutputClasses
    ensures 0 <= PredictedIndex(values) <= 9
  {
  }

  /** A constant vector (every class equally likely) reports digit 0. */
  lemma ConstantVectorPredictsZero(values: seq<real>)
    requires |values| > 0
    requires forall j :: 0 <= j < |values| ==> values[j] == values[0]
    ensures PredictedIndex(values) == 0
  {
    FirstMaxIsPredicted(values, 0);
  }

  // ---------------------------------------------------------------------
  // analyze

  /** analyze: extract the canvas, shape it as [1, 28, 28, 1], run the model
      and report the first maximum of its output. `predict` stands for
      model.predict followed by dataSync; any error it throws is replaced by
      the generic analysis error. The Success value is the digit analyze
      writes into the page. */
  method Analyze(surface: array<Canvas.Byte>, predict: Tensor4 -> Result<seq<real>, Error>)
    returns (r: Result<int, Error>)
    requires surface.Length == Canvas.SurfaceBytes
    ensures var out := predict(Tensor4(Canvas.Extract(surface[..]), InputShape));
      && (r.Failure? <==> out.Failure?)
      && (r.Failure? ==> r.error == AnalyzeError)
      && (r.Success? ==> r.value == PredictedIndex(out.value))
  {
    var canvasData := Canvas.GetCanvasData(surface);
    InputShapeFitsCanvas(surface[..]);
    // tf.tensor4d runs outside the try block, so an error it threw would
    // escape unconverted; the shape always fits, so it never throws.
    var inputData := Tensor4d(canvasData[..], InputShape);
    assert inputData.Success?;
    var predictions := predict(inputData.value);
    if predictions.Failure? {
      return Failure(AnalyzeError);
    }
    var predictedValues := predictions.value;
    var value := if |predictedValues| == 0 then -1
                 else IndexOf(predictedValues, MaxOf(predictedValues));
    return Success(value);
  }

  // ---------------------------------------------------------------------
  // train and startTraining

  /** The volumes and options train uses. */
  datatype TrainPlan = TrainPlan(batchSize: nat, trainDataSize: nat, testDataSize: nat,
                                 epochs: nat, shuffle: bool)

  /** The constants of train, with the `large ? 5500 : 5500` choices kept. */
  function PlanFor(large: bool): (p: TrainPlan)
    ensures 0 < p.batchSize <= p.trainDataSize
    ensures 0 < p.testDataSize && 0 < p.epochs
  {
    TrainPlan(512, if large then 5500 else 5500, if large then 1000 else 1000, 10, true)
  }

  /** Both regimes train on the same volumes with the same options. */
  lemma RegimesCoincide(large: bool)
    ensures PlanFor(large) == PlanFor(!large)
    ensures PlanFor(large) == TrainPlan(512, 5500, 1000, 10, true)
  {
  }

  /** One batch from the data source: flat images (784 values each) and
      one-hot labels. */
  datatype Batch = Batch(xs: seq<real>, labels: seq<real>)

  /** The options object handed to model.fit. */
  datatype FitOptions = FitOptions(batchSize: nat, epochs: nat, shuffle: bool)

  /** The arguments of one model.fit call. */
  datatype FitCall = FitCall(xs: Tensor4, ys: seq<real>, validationXs: Tensor4,
                             validationYs: seq<real>, options: FitOptions)

  /** What the code outside main.js does when asked: MnistData.load, its two
      batch accessors, and model.fit, each either completing or throwing. */
  datatype TrainingHost = TrainingHost(
    load: Outcome<Error>,
    nextTrainBatch: nat -> Result<Batch, Error>,
    nextTestBatch: nat -> Result<Batch, Error>,
    fit: FitCall -> Outcome<Error>)

  /** The model.fit call train makes for a plan and two batches: the images
      and labels are passed on unchanged, the shapes hold exactly the planned
      numbers of 28×28 images, and the options are the plan's. */
  function FitCallFor(plan: TrainPlan, train: Batch, test: Batch): (c: FitCall)
    ensures c.xs.values == train.xs && c.ys == train.labels
    ensures c.validationXs.values == test.xs && c.validationYs == test.labels
    ensures Size(c.xs.shape) == plan.trainDataSize * 784
    ensures Size(c.validationXs.shape) == plan.testDataSize * 784
    ensures c.xs.shape == [plan.trainDataSize, 28, 28, 1]
    ensures c.validationXs.shape == [plan.testDataSize, 28, 28, 1]
    ensures c.options == FitOptions(plan.batchSize, plan.epochs, plan.shuffle)
  {
    ImageBatchSize(plan.trainDataSize);
    ImageBatchSize(plan.testDataSize);
    FitCall(Tensor4(train.xs, [plan.trainDataSize, 28, 28, 1]), train.labels,
            Tensor4(test.xs, [plan.testDataSize, 28, 28, 1]), test.labels,
            FitOptions(plan.batchSize, plan.epochs, plan.shuffle))
  }

  /** Every step of train completes: both batches arrive, both reshape to
      [n, 28, 28, 1], and the fit resolves. */
  predicate TrainingCompletes(host: TrainingHost, plan: TrainPlan)
    ensures TrainingCompletes(host, plan) ==>
      && host.nextTrainBatch(plan.trainDataSize).Success?
      && host.nextTestBatch(plan.testDataSize).Success?
      && Tensor4d(host.nextTrainBatch(plan.trainDataSize).value.xs, [plan.trainDataSize, 28, 28, 1]).Success?
      && Tensor4d(host.nextTestBatch(plan.testDataSize).value.xs, [plan.testDataSize, 28, 28, 1]).Success?
  {
    ImageBatchSize(plan.trainDataSize);
    ImageBatchSize(plan.testDataSize);
    var train := host.nextTrainBatch(plan.trainDataSize);
    var test := host.nextTestBatch(plan.testDataSize);
    && train.Success? && |train.value.xs| == plan.trainDataSize * 784
    && test.Success? && |test.value.xs| == plan.testDataSize * 784
    && host.fit(FitCallFor(plan, train.value, test.value)).Pass?
  }

  /** train: fetch and reshape the training and test batches, then fit. The
      first step that throws decides the error; on success the result is
      the fit call that was made. */
  method Train(host: TrainingHost, large: bool) returns (r: Result<FitCall, Error>)
    ensures r.Success? <==> TrainingCompletes(host, PlanFor(large))
    ensures r.Success? ==>
      && r.value.xs.shape == [5500, 28, 28, 1]
      && r.value.validationXs.shape == [1000, 28, 28, 1]
      && r.value.options == FitOptions(512, 10, true)
      && |r.value.xs.values| == Size(r.value.xs.shape)
      && |r.value.validationXs.values| == Size(r.value.validationXs.shape)
      && host.fit(r.value) == Pass
    ensures r.Success? ==>
      r.value == FitCallFor(PlanFor(large),
                            host.nextTrainBatch(PlanFor(large).trainDataSize).value,
                            host.nextTestBatch(PlanFor(large).testDataSize).value)
  {
    var plan := PlanFor(large);
    ImageBatchSize(plan.trainDataSize);
    ImageBatchSize(plan.testDataSize);
    var d := host.nextTrainBatch(plan.trainDataSize);
    if d.Failure? {
      return Failure(d.error);
    }
    var trainXs := Tensor4d(d.value.xs, [plan.trainDataSize, 28, 28, 1]);
    if trainXs.Failure? {
      return Failure(trainXs.error);
    }
    var t := host.nextTestBatch(plan.testDataSize);
    if t.Failure? {
      return Failure(t.error);
    }
    var testXs := Tensor4d(t.value.xs, [plan.testDataSize, 28, 28, 1]);
    if testXs.Failure? {
      return Failure(testXs.error);
    }
    var call := FitCall(trainXs.value, d.value.labels, testXs.value, t.value.labels,
                        FitOptions(plan.batchSize, plan.epochs, plan.shuffle));
    assert call == FitCallFor(plan, d.value, t.value);
    var fitted := host.fit(call);
    if fitted.Fail? {
      return Failure(fitted.error);
    }
    return Success(call);
  }

  /** startTraining: load the data, then train; whatever fails along the way
      surfaces as the single training error. */
  method StartTraining(host: TrainingHost, large: bool) returns (r: Outcome<Error>)
    ensures r.Pass? <==> host.load.Pass? && TrainingCompletes(host, PlanFor(large))
    ensures r.Fail? ==> r.error == TrainError
  {
    if host.load.Fail? {
      return Fail(TrainError);
    }
    var trained := Train(host, large);
    if trained.Failure? {
      return Fail(TrainError);
    }
    return Pass;
  }

  /** Whether training succeeds does not depend on the regime chosen. */
  lemma TrainingIgnoresRegime(host: TrainingHost)
    ensures TrainingCompletes(host, PlanFor(true)) == TrainingCompletes(host, PlanFor(false))
  {
    RegimesCoincide(true);
  }
}
