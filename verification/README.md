# Frame sampling and detection normalisation for the Kill Bill clip

This project models, in Dafny, the deterministic pipeline that the two computer-vision
scripts of the repository wrap around an external object detector:

- `scripts/run_cv_kill_bill.py` is the closed-vocabulary pass. It runs YOLOv8n,
  resolves class ids through the result's `names` and keeps only labels in
  `ALLOWED_CLASSES`.
- `scripts/run_cv_kill_bill_open_vocab.py` is the open-vocabulary pass. It runs
  OWL-ViT on text prompts and labels each detection with the prompt it matched.

Both scripts do the same four things:

1. They read the source frame rate. A reported 0 falls back to 30.0.
2. They compute `stride = max(1, int(round(video_fps / sample_fps)))`.
3. They walk every decoded frame with an absolute `frame_idx`. Each frame with
   `frame_idx % stride == 0` gets a record `{time, frame_index, boxes}`, even when it
   has no detections.
4. They normalise each raw box. `x1, y1` are raised to at least 0 and `x2, y2` are
   lowered to at most `w - 1`, `h - 1`. `bbox_px` truncates the clamped coordinates
   toward zero. `bbox_pct` is `round(100 * coord / dim, 2)` of the clamped,
   untruncated coordinates.

Layout, one module per file:

| file | module | what it holds |
|---|---|---|
| `wrappers.dfy` | `Wrappers` | `Option` (Python's `None`) and `Result` (a value or the error raised) |
| `numeric.dfy` | `Numeric` | `round` (half to even), `round(x, n)`, `int()` on a real, `str()` on an integer |
| `detections.dfy` | `Detections` | the clamp, `bbox_px`, `bbox_pct`, confidence rounding, the normalised detection |
| `sampler.dfy` | `Sampler` | fps fallback, stride, the set of sampled frame indices |
| `pipeline.dfy` | `Pipeline` | the decoded video, frame records, the artifact, errors, and the sampling loop as a specification |
| `closed_vocab.dfy` | `ClosedVocab` | `run_cv_kill_bill.py`: class-id labels, allow-list filter, and its two loops as methods |
| `open_vocab.dfy` | `OpenVocab` | `run_cv_kill_bill_open_vocab.py`: prompt labels, the prompt default, and its two loops as methods |

Each script's loops are imperative methods. `SampleFrames` is the `while True` loop
over frames. `NormalizeFrame` is the inner `for` loop over boxes. Each method is
proved equal to a specification function: `Pipeline.SampleFrom`, or the per-frame
`Kept` / `DetectionsUpTo`. The lemmas then state what the scripts promise about those
functions.

The frame source and the detector are inputs. A `Video<F>` is either `Unavailable`
(the capture did not open) or `Opened(reportedFps, frames)`. Each frame carries its
width, its height and what the detector returned for it. A frame dimension is a
`Dim`, an integer of at least 1, because a decoded frame is never empty.

Numbers are exact reals. Python's `round` is modelled as round-half-to-even on the
exact value. `round(x, 2)` and `round(x, 3)` are `RoundDecimals(x, 100)` and
`RoundDecimals(x, 1000)`.

What the code does not do, and the model therefore does not claim:

- Nothing orders the corners. `x1` and `y1` have no upper clamp, so a box past the
  far edge keeps `x1 > x2`, and its `bbox_pct` origin can exceed 100. See
  `Detections.ClampLeavesCornersUnordered`.
- `x2` and `y2` have no lower clamp. They can stay negative, and their percentage is
  then negative too. See `Detections.NegativeCornerTruncatesTowardZero`.
- No malformed or zero-area box is skipped. The only filter is the allow-list of the
  closed-vocabulary pass.
- The artifact is written with a plain `open("w")`, not atomically.
- `bbox_pct` is not derived from `bbox_px`: it comes from the untruncated
  coordinates. So percentages rebuilt from pixels need not match. See
  `Detections.PercentUsesUntruncatedCoordinate`.

## Model

| member | source | states |
|---|---|---|
| `Numeric.RoundHalfEven` | scripts/run_cv_kill_bill.py:28 | Python's `round`: the result is within 1/2 of the input, and on a tie it is the even neighbour |
| `Numeric.RoundHalfEvenUnique` | scripts/run_cv_kill_bill.py:28 | those two properties determine the rounded integer uniquely |
| `Numeric.RoundHalfEvenOfInt` | scripts/run_cv_kill_bill.py:28 | an integral value rounds to itself |
| `Numeric.RoundHalfEvenMonotonic` | scripts/run_cv_kill_bill.py:28 | rounding never reverses the order of two values |
| `Numeric.RoundDecimals` | scripts/run_cv_kill_bill.py:60 | `round(x, n)` lies on the grid of n-th decimals, at the half-to-even rounding of `x * 10^n`, hence within half a unit of the n-th decimal of `x` |
| `Numeric.RoundDecimalsIdempotent` | scripts/run_cv_kill_bill.py:60 | rounding a rounded value to the same place changes nothing |
| `Numeric.RoundDecimalsMonotonic` | scripts/run_cv_kill_bill.py:62-67 | rounding to a decimal place never reverses order |
| `Numeric.RoundDecimalsOfInt` | scripts/run_cv_kill_bill.py:62-67 | whole numbers (such as 0 and 100) are unchanged by rounding |
| `Numeric.Trunc` | scripts/run_cv_kill_bill.py:61 | `int()` on a real truncates toward zero: below the input for non-negative inputs, above it for negative ones, and less than 1 away |
| `Numeric.NatToStringDigits` | scripts/run_cv_kill_bill.py:54 | `str(n)` is a non-empty string of decimal digits |
| `Numeric.NatToStringRoundTrip` | scripts/run_cv_kill_bill.py:54 | reading the digits back gives `n` |
| `Numeric.IntToStringSign` | scripts/run_cv_kill_bill.py:54 | `str(i)` is non-empty and starts with a minus sign exactly when `i` is negative |
| `Numeric.IntToStringInjective` | scripts/run_cv_kill_bill.py:54 | different integers have different renderings |
| `Detections.Clamp` | scripts/run_cv_kill_bill_open_vocab.py:65-66 | `x1, y1 >= 0` and `x2 <= w-1`, `y2 <= h-1`; each coordinate moves only past its one bound, and then onto it |
| `Detections.ClampIdempotent` | scripts/run_cv_kill_bill_open_vocab.py:65-66 | clamping a clamped box changes nothing |
| `Detections.ClampKeepsInBoundsBox` | scripts/run_cv_kill_bill_open_vocab.py:65-66 | a box already within the clamp's bounds is unchanged |
| `Detections.RoundConfidence` | scripts/run_cv_kill_bill.py:60 | a confidence is absent exactly when the raw one is, never 0 in its place; a present one is within 0.0005 of the raw score |
| `Detections.NormalizeBox` | scripts/run_cv_kill_bill_open_vocab.py:64-78 | label kept; confidence absent iff absent; `bbox_px` is the truncation toward zero of the clamped box, with `x1, y1 >= 0`, `x2 <= w-1`, `y2 <= h-1`; `bbox_pct` comes from the clamped box before truncation, with origin `>= 0` and far corner `<= 100` |
| `Detections.PixelOf` | scripts/run_cv_kill_bill_open_vocab.py:71 | no contract; `int()` of each clamped coordinate, characterised by `Detections.NormalizeBox` |
| `Detections.PercentOf` | scripts/run_cv_kill_bill_open_vocab.py:72-77 | no contract; each clamped coordinate over the frame size, times 100, rounded to two decimals, characterised by `Detections.PercentBounds` and `Detections.NormalizeBox` |
| `Detections.PercentBounds` | scripts/run_cv_kill_bill_open_vocab.py:72-77 | the clamps bound each percentage on one side only: origin at least 0 %, far corner at most 100 % |
| `Detections.ClampAndTruncateExample` | scripts/run_cv_kill_bill.py:52-66 | raw `(-5, 2, 650, 400)` on 640x480 gives `bbox_px = [0, 2, 639, 400]` and `bbox_pct = [0, 0.42, 99.84, 83.33]` |
| `Detections.PercentUsesUntruncatedCoordinate` | scripts/run_cv_kill_bill_open_vocab.py:71-77 | `x1 = 319.5` on a 640-wide frame gives 49.92 %, not the 49.84 % of the truncated pixel 319 |
| `Detections.ClampLeavesCornersUnordered` | scripts/run_cv_kill_bill.py:52-53 | a box past the far edge keeps `x1 > x2` and `y1 > y2`, with an origin beyond 100 % |
| `Detections.NegativeCornerTruncatesTowardZero` | scripts/run_cv_kill_bill_open_vocab.py:66-71 | `x2 = -2.5` stays negative after the clamp and truncates to -2, not to the floor -3 |
| `Sampler.SourceFps` | scripts/run_cv_kill_bill_open_vocab.py:37 | the rate is never 0: a reported 0 becomes 30.0, any other report is kept |
| `Sampler.Stride` | scripts/run_cv_kill_bill_open_vocab.py:38 | the stride is at least 1; it is 1 when the rate ratio is at most 1/2 (a negative sample rate included) or the sample rate is positive and at least the source rate; above 1/2 it is the half-to-even rounding of the ratio, hence within 1/2 of it |
| `Sampler.IsSampled` | scripts/run_cv_kill_bill_open_vocab.py:46 | no contract; the stride test `frame_idx % stride == 0`, characterised by `Sampler.SampledIndicesExact` |
| `Sampler.SampledIndices` | scripts/run_cv_kill_bill_open_vocab.py:46 | no contract; the indices passing the stride test, characterised by `Sampler.SampledIndicesExact` and `Sampler.SampledIndicesAscending` |
| `Sampler.StrideExample` | scripts/run_cv_kill_bill.py:27-28 | 30 fps sampled at 3 fps gives stride 10, at 2 fps stride 15, at 60 fps stride 1, at -3 fps stride 1; the ties 25/10 and 30/4 give the even strides 2 and 8 |
| `Sampler.SampledIndicesExact` | scripts/run_cv_kill_bill_open_vocab.py:46-48 | the sampled indices are exactly the multiples of the stride in range |
| `Sampler.SampledIndicesAscending` | scripts/run_cv_kill_bill_open_vocab.py:42-88 | the sampled indices are strictly ascending |
| `Sampler.SkipUnsampled` | scripts/run_cv_kill_bill.py:36-38 | a run of frames failing the stride test contributes no index |
| `Sampler.SampledIndicesExample` | scripts/run_cv_kill_bill.py:32-78 | 100 frames at stride 10 are sampled at 0, 10, ..., 90 |
| `Pipeline.SampleFrom` | scripts/run_cv_kill_bill_open_vocab.py:40-88 | no contract; the frame loop as a value, characterised by `Pipeline.SampleFromRecords` and `Pipeline.SampleFromFailure` |
| `Pipeline.FrameTime` | scripts/run_cv_kill_bill_open_vocab.py:83 | `time` is within 0.0005 s of `frame_index / video_fps` |
| `Pipeline.SampleFromSkip` | scripts/run_cv_kill_bill_open_vocab.py:46-48 | a skipped frame only advances `frame_idx` |
| `Pipeline.SampleFromTake` | scripts/run_cv_kill_bill_open_vocab.py:81-88 | a sampled frame appends exactly its record and advances `frame_idx` |
| `Pipeline.SampleFromRecords` | scripts/run_cv_kill_bill_open_vocab.py:40-88 | a successful loop yields one record per sampled index, in order, at the absolute index; each record holds that frame's detections and its time |
| `Pipeline.SampleFromFailure` | scripts/run_cv_kill_bill_open_vocab.py:42-88 | the loop fails exactly when the detector step fails on some sampled frame, and then with the error of the first such frame |
| `Pipeline.RecordForEverySampledFrame` | scripts/run_cv_kill_bill_open_vocab.py:81-87 | every sampled frame has a record, whatever its detections |
| `ClosedVocab.ClassId` | scripts/run_cv_kill_bill.py:50 | no contract; `int()` of the class, or -1 without one, characterised by `ClosedVocab.MissingClassLabel` |
| `ClosedVocab.LabelName` | scripts/run_cv_kill_bill.py:54 | no contract; characterised by `ClosedVocab.NameMapLabel`, `ClosedVocab.MissingClassLabel` and `ClosedVocab.UnknownClassLabelsDistinct` |
| `ClosedVocab.Passes` | scripts/run_cv_kill_bill.py:55 | no contract; the allow-list test, characterised by `ClosedVocab.KeptRespectsAllowList` and `ClosedVocab.KeptAllWithoutAllowList` |
| `ClosedVocab.Kept` | scripts/run_cv_kill_bill.py:48-69 | no contract; the inner loop's boxes after n raw boxes, characterised by `ClosedVocab.KeptIsFilteredInOrder`, `ClosedVocab.KeptIncludesPassing` and `ClosedVocab.KeptOnlyPassing` |
| `ClosedVocab.FrameDetections` | scripts/run_cv_kill_bill.py:43-69 | no contract; `Kept` of the first result's boxes, or nothing, characterised by `ClosedVocab.NormalizeFrame` and `ClosedVocab.EmptyFrameStillRecorded` |
| `ClosedVocab.Run` | scripts/run_cv_kill_bill.py:20-92 | no contract; the run as a value, characterised by `ClosedVocab.RunFailure` and `ClosedVocab.RunFrames` |
| `ClosedVocab.NameMapLabel` | scripts/run_cv_kill_bill.py:54 | with a name map, a known id is labelled with its name and an unknown one with `class-` followed by `str(id)` |
| `ClosedVocab.NormalizeFrame` | scripts/run_cv_kill_bill.py:43-69 | the inner loop yields `Kept` of the first result's boxes, and nothing without a result or without boxes |
| `ClosedVocab.SampleFrames` | scripts/run_cv_kill_bill.py:30-78 | the frame loop yields exactly the records of `Pipeline.SampleFrom` |
| `ClosedVocab.RunDetection` | scripts/run_cv_kill_bill.py:20-92 | the run yields the artifact, or the error, of `ClosedVocab.Run` |
| `ClosedVocab.KeptRespectsAllowList` | scripts/run_cv_kill_bill.py:55-56 | with a non-empty allow-list, every kept box has an allowed label |
| `ClosedVocab.KeptAllWithoutAllowList` | scripts/run_cv_kill_bill.py:55-56 | with an empty allow-list, every box is kept, in order, unaltered |
| `ClosedVocab.KeptIncludesPassing` | scripts/run_cv_kill_bill.py:48-69 | every box whose label passes is kept, normalised exactly as without a filter |
| `ClosedVocab.KeptOnlyPassing` | scripts/run_cv_kill_bill.py:48-69 | every kept box is the normalisation of a raw box whose label passes |
| `ClosedVocab.PassingBoxesWithoutAllowList` | scripts/run_cv_kill_bill.py:55-56 | an empty allow-list filters nothing out |
| `ClosedVocab.KeptIsFilteredInOrder` | scripts/run_cv_kill_bill.py:48-69 | the kept boxes are the passing raw boxes in their original order, each normalised |
| `ClosedVocab.MissingClassLabel` | scripts/run_cv_kill_bill.py:50-54 | a box without a class gets id -1, hence label `class--1`, or `-1` without a name map |
| `ClosedVocab.UnknownClassLabelsDistinct` | scripts/run_cv_kill_bill.py:54 | different unknown ids give different labels |
| `ClosedVocab.RunFailure` | scripts/run_cv_kill_bill.py:23-28 | the run fails only when the video does not open or the sample rate is 0 |
| `ClosedVocab.RunFrames` | scripts/run_cv_kill_bill.py:30-92 | the artifact has the metadata, the sampled absolute indices in strictly ascending order, and each frame's filtered detections and time |
| `ClosedVocab.RunRespectsAllowList` | scripts/run_cv_kill_bill.py:17 | with a non-empty allow-list such as `{"person"}`, no recorded box has another label |
| `ClosedVocab.EmptyFrameStillRecorded` | scripts/run_cv_kill_bill.py:43-77 | a sampled frame without results, or with `boxes` of `None`, still has a record with empty `boxes` |
| `ClosedVocab.DefaultRunOnHundredFrames` | scripts/run_cv_kill_bill.py:20-78 | the default 3 fps run over 100 frames at 30 fps records frames 0, 10, ..., 90 |
| `OpenVocab.EffectivePrompts` | scripts/run_cv_kill_bill_open_vocab.py:27 | `None` or `[]` becomes the six default prompts; any other list is kept; the result is never empty |
| `OpenVocab.PromptLabel` | scripts/run_cv_kill_bill_open_vocab.py:63 | Python indexing: in range gives that prompt, a negative index counts from the end, anything else raises; a label is always one of the prompts |
| `OpenVocab.ZipLength` | scripts/run_cv_kill_bill_open_vocab.py:61 | `zip` stops at the shortest of boxes, scores and labels |
| `OpenVocab.DetectionsUpTo` | scripts/run_cv_kill_bill_open_vocab.py:60-79 | no contract; the zip loop's boxes after n detections, characterised by `OpenVocab.OneBoxPerDetection` and `OpenVocab.DetectionsFailure` |
| `OpenVocab.FrameDetections` | scripts/run_cv_kill_bill_open_vocab.py:60-79 | no contract; the zip loop over the whole frame, characterised by `OpenVocab.NormalizeFrame` and `OpenVocab.OneBoxPerDetection` |
| `OpenVocab.Run` | scripts/run_cv_kill_bill_open_vocab.py:21-102 | no contract; the run as a value, characterised by `OpenVocab.RunFailure` and `OpenVocab.RunFrames` |
| `OpenVocab.NormalizeFrame` | scripts/run_cv_kill_bill_open_vocab.py:60-79 | the inner loop yields `DetectionsUpTo` over the zipped results, or the first labelling error |
| `OpenVocab.SampleFrames` | scripts/run_cv_kill_bill_open_vocab.py:40-88 | the frame loop yields exactly `Pipeline.SampleFrom`, including its first error |
| `OpenVocab.RunDetection` | scripts/run_cv_kill_bill_open_vocab.py:21-102 | the run yields the artifact, or the error, of `OpenVocab.Run` |
| `OpenVocab.OneBoxPerDetection` | scripts/run_cv_kill_bill_open_vocab.py:61-79 | no filtering: each zipped detection gives one box, in order, labelled with its prompt and carrying its score |
| `OpenVocab.DetectionsFailure` | scripts/run_cv_kill_bill_open_vocab.py:63 | labelling a frame fails exactly when some label index lies outside the prompt list |
| `OpenVocab.RunFailure` | scripts/run_cv_kill_bill_open_vocab.py:33-63 | the run fails exactly when the video does not open, the sample rate is 0, or a sampled frame has an out-of-range label index |
| `OpenVocab.RunFrames` | scripts/run_cv_kill_bill_open_vocab.py:40-103 | the artifact has the metadata and the prompts used, the sampled absolute indices in strictly ascending order, and each record's boxes are exactly that frame's `FrameDetections` under those prompts: one box per zipped detection, each labelled with a prompt and with a confidence |
| `OpenVocab.EmptyFrameStillRecorded` | scripts/run_cv_kill_bill_open_vocab.py:60-87 | a sampled frame with no detections still has a record with empty `boxes` |

## Left out

- Video decoding (`cv2.VideoCapture`, `cap.read`, `cvtColor`, `cap.release`) is left out. It is I/O. The decoded stream is the input `Video<F>`.
- Model loading, device selection and the YOLO/OWL-ViT inference and post-processing calls are left out. They are foreign libraries. Their output is part of each input frame. `conf`, `imgsz`, `score_threshold` and `model_id` therefore reach the model only as artifact metadata.
- A detector that raises during inference is not modelled, for the same reason. The only per-frame error modelled is the `IndexError` of `prompts[label_idx]`.
- `mkdir`, the JSON serialisation and the file write are left out. They are I/O. The artifact is the value `Pipeline.Artifact`. The `__main__` block's `print` is left out too.
- Binary floating point is left out. Values are exact reals, and Python's rounding is modelled on the exact value. The conversion of results back to the nearest double is not captured. Neither are NaN and infinite values: a NaN frame rate is truthy and kept, and `int()` of NaN raises.
- Tensor-to-number conversions (`.item()`, `.tolist()`, `float()`) are taken as exact.
- `Detections.NormalizeBox`: a frame of width or height 0 is excluded by the type `Dim`. Such a frame would raise `ZeroDivisionError` in the percentage; a decoded frame always has a positive size.
