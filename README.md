# Digit canvas and classifier glue, modelled in Dafny

The system lets a user draw a digit on a 200×200 canvas and classifies it
with a small convolutional network trained in the browser. This project
models the parts of `canvas.js` and `main.js` that are plain logic:

- **Tensor extraction** (`getCanvasData`). The 200×200 RGBA surface is a flat
  byte array. Each cell (x, y) of a 28×28 grid copies the four channels of
  surface pixel (x·200/28, y·200/28), rounded down. Each cell's alpha byte is
  then divided by 255, giving 784 intensities. `Canvas.Downscale` and
  `Canvas.Extract` specify this as functions. `Canvas.DownscaleSurface` and
  `Canvas.GetCanvasData` run the source's nested loops over arrays and are
  proved equal to those functions.
- **Stroke recorder** (`onPointerDown`, `onPointerMove`, `onPointerUp`, the
  last one also bound to `pointerout`, and `clearCanvas`).
  `Canvas.DrawingCanvas` is a class holding the canvas pixels and the two
  module variables `drawing` and `points`. Each handler is proved to take one
  step of `Strokes.Step`. `Strokes.Replay` runs a list of events through
  `Step`, and the lemmas in `Strokes` describe what any list of events does.
- **Classifier glue** (`analyze`, `train`, `startTraining`). The digit is
  picked as `indexOf(Math.max(...))`. Before prediction, the 784 canvas values
  are reshaped to `[1, 28, 28, 1]`. Any failure during prediction becomes
  "Error analyzing data". Any failure while loading, reshaping or fitting
  becomes "Error training model". Both training regimes use the same fixed
  volumes.

The code outside `main.js` and `canvas.js` is passed in as parameters:
`model.predict`, the MNIST data source and `model.fit`. Each one either
returns a value or throws.

`onPointerDown` only sets `drawing` and does not clear `points`
(canvas.js:61-63), and the model keeps that. `Strokes.ReplayKeepsConsistent`
(and `Valid()` of `DrawingCanvas`) shows that `points` is empty whenever
`drawing` is false. So a gesture started from idle still begins with an
empty path. Only a second press during a gesture keeps the points already
recorded.

## Model

| member | source | states |
|---|---|---|
| `Canvas.SampleCoord` | canvas.js:22-27 | the sampled coordinate for a grid coordinate below 28 is at most 192, so it stays inside the 200-pixel edge |
| `Canvas.SampleCoordIsFloor` | canvas.js:22-27 | the integer `g * 200 / 28` is the exact floor of g × (200/28), i.e. `Math.floor(x * scale)` in exact arithmetic |
| `Canvas.SourceByte` | canvas.js:29-35 | every surface byte read, `origIndex + c` with c < 4, is below 200·200·4 |
| `Canvas.CellByte` | canvas.js:30-35 | byte `downscaledIndex + c` of cell (x, y), channel c, lies inside the 28·28·4 = 3136-byte image |
| `Canvas.SourceByteChannel` | canvas.js:29-35 | the byte read for channel c is a channel-c byte of the surface, so `origIndex + 3` is an alpha byte |
| `Canvas.CellOfByte` | canvas.js:30-35 | byte `downscaledIndex + c` of the small image belongs to cell (x, y), channel c, so no byte is written twice |
| `Canvas.ByteOfCell` | canvas.js:24-36 | every byte of the 28×28×4 image is `downscaledIndex + c` for the cell and channel it belongs to, so every byte is written |
| `Canvas.DownscaleAt` | canvas.js:24-36 | channel c of cell (x, y) equals channel c of the surface pixel (⌊x·200/28⌋, ⌊y·200/28⌋), unchanged |
| `Canvas.Downscale` | canvas.js:24-37 | the downscaled image has 28·28·4 = 3136 bytes; byte k is channel `Channel(k)` of the surface pixel sampled for cell (`CellX(k)`, `CellY(k)`) |
| `Canvas.DownscaleFromCells` | canvas.js:24-37 | an image whose every cell holds its sampled pixel is the downscaled image |
| `Canvas.DownscaleSurface` | canvas.js:21-37 | the nested loops leave a fresh 28×28 RGBA array equal to the downscaled image |
| `Canvas.Intensity` | canvas.js:42 | an alpha byte divided by 255 lies in [0, 1] |
| `Canvas.IntensityExtremes` | canvas.js:42 | the intensity is 0 exactly for alpha 0 and 1 exactly for alpha 255 |
| `Canvas.AlphaIntensities` | canvas.js:39-43 | the tensor has 28·28 = 784 values, each in [0, 1] |
| `Canvas.Extract` | canvas.js:14-46 | extraction always yields exactly 784 values |
| `Canvas.ExtractAt` | canvas.js:41-42 | value i is the alpha byte of the surface pixel sampled for cell (i % 28, i / 28), over 255 |
| `Canvas.ExtractReadsOnlyAlpha` | canvas.js:41-42 | two surfaces with equal alpha bytes give equal tensors, whatever their colour bytes |
| `Canvas.TransparentGivesZeros` | canvas.js:70-72 | a surface whose alpha bytes are all 0, as after `clearCanvas`, gives an all-zero tensor |
| `Canvas.OpaqueGivesOnes` | canvas.js:42 | a surface whose alpha bytes are all 255 gives an all-one tensor |
| `Canvas.GetCanvasData` | canvas.js:14-46 | the returned array is newly allocated, has 784 entries and equals `Extract` of the surface's bytes; the surface is only read |
| `Canvas.ExtractTwice` | canvas.js:20 | two calls in a row on the same surface return equal tensors, in two distinct arrays |
| `Canvas.DrawingCanvas.constructor` | canvas.js:11-12 | a new canvas is not drawing, has no points, and all its pixels are transparent |
| `Canvas.DrawingCanvas.OnPointerMove` | canvas.js:51-59 | appends exactly the given point when drawing, and changes nothing otherwise |
| `Canvas.DrawingCanvas.OnPointerDown` | canvas.js:61-63 | sets `drawing` and keeps `points`; coming from "not drawing", the points are empty |
| `Canvas.DrawingCanvas.OnPointerUp` | canvas.js:65-68 | clears `drawing` and empties `points`; this is the step for both pointer-up and pointer-out |
| `Canvas.DrawingCanvas.ClearCanvas` | canvas.js:70-72 | every surface byte becomes 0, and the recorder state is unchanged |
| `Canvas.DrawingCanvas.ReadTensor` | canvas.js:14-46 | `getCanvasData` on the canvas's own surface returns a new array equal to `Extract` of its pixels |
| `Canvas.DrawingCanvas.ReadAfterClear` | canvas.js:70-72 | right after `clearCanvas`, the canvas reads as 784 zeros, and the pointer state is unchanged |
| `Strokes.Step` | canvas.js:51-68 | after one event the recorder draws iff the event was a press, or it was drawing and the event was a move; the path grows by at most one point; "not drawing implies no points" is kept |
| `Strokes.Replay` | canvas.js:51-68 | handling a list of events adds at most one point per event, and a list ending in pointer-up or pointer-out leaves the recorder idle |
| `Strokes.ReplayAppend` | canvas.js:51-68 | handling two event lists one after the other is the same as handling their concatenation |
| `Strokes.ReplayKeepsConsistent` | canvas.js:51-68 | no handler can leave points behind while not drawing |
| `Strokes.ReplayWithinGesture` | canvas.js:51-63 | with no release among the events, the recorder draws iff it already drew or a press occurred, and the path grows by exactly the move positions after drawing began |
| `Strokes.GesturePath` | canvas.js:51-63 | after a press from idle and no release, the path is exactly the move positions, in order |
| `Strokes.ReleaseForgets` | canvas.js:65-68 | after a pointer-up or pointer-out, everything before it is forgotten: the recorder behaves as freshly loaded |
| `Classifier.Tensor4d` | main.js:40 | `tf.tensor4d` (and `reshape` at main.js:129, 137) succeeds iff the value count equals the shape's size, keeping the values and shape; otherwise it throws a shape error |
| `Classifier.ImageBatchSize` | main.js:129 | the shape [n, 28, 28, 1] holds n·784 values |
| `Classifier.InputShapeFitsCanvas` | main.js:40 | [1, 28, 28, 1] holds 784 values, the number extraction returns, so `tf.tensor4d` accepts the canvas data |
| `Classifier.MaxOf` | main.js:46 | `Math.max` of a non-empty vector is one of its elements and at least every element |
| `Classifier.IndexOf` | main.js:46 | `indexOf` returns -1 iff the value is absent; otherwise it returns the first position holding the value |
| `Classifier.PredictedIndex` | main.js:46 | for a non-empty vector the chosen index is in range, holds a maximum, and every earlier element is strictly smaller; for an empty vector it is -1 |
| `Classifier.FirstMaxIsPredicted` | main.js:46 | any index that is a maximum and precedes every other maximum is the chosen one, so the choice is exactly the first maximum |
| `Classifier.PredictedDigitInRange` | main.js:99-104 | on the 10-unit output layer the chosen digit is in 0..9 |
| `Classifier.ConstantVectorPredictsZero` | main.js:46 | a constant vector yields index 0 |
| `Classifier.Analyze` | main.js:37-56 | prediction runs on the extracted tensor with shape [1, 28, 28, 1]; analysis fails iff prediction throws, and the error is then "Error analyzing data"; on success the result is the first maximum of the output |
| `Classifier.RegimesCoincide` | main.js:121-124 | the large and small regimes give the same plan: batch 512, 5500 training and 1000 test examples, 10 epochs, shuffling |
| `Classifier.PlanFor` | main.js:121-124 | in either regime the batch size is positive and at most the training volume, and the test volume and epoch count are positive |
| `Classifier.FitCallFor` | main.js:126-147 | the fit call passes the batches' images and labels unchanged, its shapes are exactly [trainDataSize, 28, 28, 1] and [testDataSize, 28, 28, 1], holding n·784 values each, and its options are the plan's batch size, epochs and shuffle |
| `Classifier.TrainingCompletes` | main.js:126-147 | when training completes, both batches arrived and both reshapes to [n, 28, 28, 1] succeed |
| `Classifier.Train` | main.js:121-148 | training succeeds iff both batches arrive, both reshape, and fit resolves; the fit call is made with shapes [5500,28,28,1] and [1000,28,28,1] and options batch 512, 10 epochs, shuffle on, and it is exactly `FitCallFor` of the fetched training and test batches, so their images and labels are passed in their own places |
| `Classifier.StartTraining` | main.js:150-165 | the command succeeds iff loading and training complete; any failure becomes "Error training model" |
| `Classifier.TrainingIgnoresRegime` | main.js:121-124 | whether training completes does not depend on the `large` flag |

## Left out

- The TensorFlow.js network (layers, compile, Adam, softmax, cross-entropy, accuracy; main.js:58-117). This is library code with floating-point numerics. `model.predict` and `model.fit` are parameters that either return a value or throw.
- `MnistData` loading and batch fetching (data.js is not part of this model). They are parameters of `Classifier.TrainingHost`.
- perfect-freehand's `getStroke`, the polygon fill and the `requestAnimationFrame` loop in `draw` (canvas.js:82-101). These are an external library, canvas rendering and host scheduling. The surface changes only through `ClearCanvas` in this model.
- The conversion of pointer coordinates with `getBoundingClientRect` (canvas.js:53-55). Points are stored as opaque pairs of reals.
- DOM and event wiring, button enabling, the spinner, `innerHTML` writes, `console.error` and `displayError` (main.js:6-35, 167-173; canvas.js:5-9, 75-80). An error is modelled as its message only.
- Tensor disposal, `tf.tidy` and async/await (main.js:54-55, 126-140). They manage resources and scheduling and do not affect values. The missed `dispose` on analyze's error path is not modelled.
- Canvas.Intensity: computes alpha/255 in exact reals. The source stores it in a `Float32Array`, and that rounding is not modelled. The values 0 and 1 are exact in both.
- Canvas.SampleCoord: uses integer division. The source computes `Math.floor(x * (200 / 28))` in doubles. The two agree for x in 0..27, but double rounding is not modelled.
- Classifier.MaxOf: defined over reals. The NaN and -Infinity behaviour of `Math.max` and `indexOf` is not modelled, except for the empty vector, which yields -1.
- Classifier.Analyze: the model proves that `tf.tensor4d` cannot fail, instead of modelling its error escaping unconverted. It sits outside analyze's `try` (main.js:40).
- Classifier.Train: does not model partial parameter updates when fit fails part-way. The model parameters are not part of the state here.
