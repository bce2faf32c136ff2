# Lip-articulation scoring engine — a Dafny model

This project models the scoring engine of a speech-therapy tool. The engine compares a patient's practice
video with a reference face-reenactment video. It has four parts, all in `EvaluationPipeline`:

- **Frame collection.** For each decoded frame, the face cropper either finds no face, and the frame is
  skipped, or the keypoint network yields 21×3 expression coefficients. The lip keypoints 6, 12, 14, 17,
  19 and 20 are kept as one 18-value row. The identity (appearance) vector is taken from the first frame
  with a detection only.
- **Motion normalisation.** Each column is centred on its mean over all frames. The whole matrix is then
  divided by its peak absolute value, but only when that peak exceeds 1e-5. An empty sequence is returned
  empty, with no identity.
- **Scoring.** Either video with fewer than 5 rows gives only the error "Video too short or face not
  detected.". Otherwise:
  - the DTW alignment cost per path step gives `articulation = max(0, 100 - avg * 100 / 0.5)`;
  - the identity vectors give `(1 - cosine distance) * 100`, or 0 when one is missing;
  - both scores are returned truncated toward zero, like Python's `int()`.
- **Feedback.** A pace warning ("Too Slow" when the patient has more than 1.3 times the reference's rows,
  "Too Fast" when fewer than 0.8 times) is appended if one applies. A quality message is then inserted at
  the front; it is chosen by the untruncated score with strict thresholds 85 and 60.

Files and modules:

- `matrix.dfy` (`Matrices`): sums, columns and the global peak absolute value over rows of reals.
- `normalization.dfy` (`Normalization`): centring, scaling and their properties.
- `extraction.dfy` (`Extraction`): the frame oracle and the collection loop as a method.
  `ExtractFeatures` is proved against the specification functions `Detected`, `RawMotion` and
  `FirstIdentity`.
- `scoring.dfy` (`Scoring`): the score formulas, the feedback method `BuildFeedback` (append, then insert
  at the front) and the `Evaluate` method.

All numbers are Dafny `real`s, so centring and scaling are exact. The fastdtw aligner and scipy's cosine
distance are function-typed parameters of `Evaluate`. The aligner's result type only admits a nonnegative
cost and a nonempty path.

Points about the code that a reader might not expect:

- The 1e-5 test at line 74 is made on the peak of the centred matrix (line 73), not of the raw sequence.
- The identity score at line 103 is not clamped to [0, 100]. `Scoring.IdentityMatch` and
  `Scoring.IdentityScoreRange` show it is negative for a cosine distance above 1.
- The branch at lines 100-103 where an identity is missing cannot be reached from `evaluate`. Any video with
  5 detected frames captured an identity at line 47; `Scoring.Evaluate` proves that both identities are
  present whenever scores are returned.
- A video with no detections is not a separate error. Lines 59-60 return an empty sequence, which then fails
  the 5-frame guard at line 83.

## Model

| member | source | states |
|---|---|---|
| `Matrices.RowPeak` | src/evaluation_pipeline.py:73 | the peak of one row is nonnegative, bounds every entry's absolute value and is attained by one (or is 0) |
| `Matrices.Peak` | src/evaluation_pipeline.py:73 | `max(abs(m))` over the whole matrix: nonnegative, bounds every entry's absolute value, attained by some entry (or 0) |
| `Normalization.ColumnMean` | src/evaluation_pipeline.py:67 | the mean of column j over all rows lies between the column's smallest and largest entries |
| `Normalization.Centre` | src/evaluation_pipeline.py:65-67 | centring keeps the shape, gives every column mean exactly zero, and keeps the difference between any two frames in a column, which together determine it |
| `Normalization.Scale` | src/evaluation_pipeline.py:73-75 | dividing by p > 0 keeps the shape and divides both the peak absolute value and every column sum by p |
| `Normalization.Normalize` | src/evaluation_pipeline.py:59-77 | normalisation keeps the row count, the rectangular shape and the row width; an empty sequence stays empty |
| `Normalization.NormalizeColumnMeanIsZero` | src/evaluation_pipeline.py:63-75 | every column of the normalised output has mean exactly zero, with or without scaling |
| `Normalization.NormalizePeak` | src/evaluation_pipeline.py:73-75 | if the centred peak exceeds 1e-5, the output's peak is exactly 1 and every entry is in [-1, 1]; otherwise the output is the centred matrix unscaled, with peak at most 1e-5 |
| `Normalization.NormalizeIdempotent` | src/evaluation_pipeline.py:62-75 | normalising an already normalised sequence returns it unchanged |
| `Normalization.NormalizeIsUniformScaling` | src/evaluation_pipeline.py:69-75 | the output is the centred matrix divided by one positive scalar (the centred peak, or 1 when unscaled), so the relative size of quiet and loud frames is kept |
| `Extraction.LipMotion` | src/evaluation_pipeline.py:50-55 | the row has 18 values, and value 3k+c is coefficient c of lip keypoint `LIP_INDICES[k]` |
| `Extraction.Detected` | src/evaluation_pipeline.py:28-37 | the frames kept are exactly those with a detection, each once, in increasing frame order, never more than the frame count |
| `Extraction.RawMotion` | src/evaluation_pipeline.py:53-55 | one 18-wide row per detected frame: rectangular, with as many rows as there are detections |
| `Extraction.FirstIdentity` | src/evaluation_pipeline.py:44-47 | the identity is absent exactly when no frame is detected; otherwise it is the identity of a detected frame with no detection before it |
| `Extraction.NoMotionWithoutDetection` | src/evaluation_pipeline.py:36-60 | the collected motion sequence is empty exactly when no frame has a detection, which is when the early return at lines 59-60 applies |
| `Extraction.FirstIdentityStable` | src/evaluation_pipeline.py:44-47 | once captured, later frames never change the identity vector |
| `Extraction.AllDetected` | src/evaluation_pipeline.py:36-55 | when every frame has a detection, no frame is dropped |
| `Extraction.DetectedStep` | src/evaluation_pipeline.py:36-37 | consuming frame i adds index i to the kept frames exactly when it has a detection |
| `Extraction.ExtractStep` | src/evaluation_pipeline.py:37-55 | one loop iteration: a detected frame appends its lip row and sets the identity only if none was set; an undetected frame changes nothing |
| `Extraction.ExtractFeatures` | src/evaluation_pipeline.py:20-77 | the loop returns the normalised raw motion of the detected frames and the first detection's identity; no detection gives an empty sequence and no identity |
| `Scoring.AverageDistance` | src/evaluation_pipeline.py:92 | the cost per path step is nonnegative, and zero exactly for a zero-cost alignment |
| `Scoring.Articulation` | src/evaluation_pipeline.py:97 | the untruncated score is in [0, 100] for a nonnegative distance; it is 100 exactly at distance 0 and 0 exactly at distance 0.5 or more |
| `Scoring.ArticulationNonIncreasing` | src/evaluation_pipeline.py:94-97 | a larger average distance never gives a higher score |
| `Scoring.Truncate` | src/evaluation_pipeline.py:122-123 | `int()` truncates toward zero: the result is within 1 of the value, on the side of zero |
| `Scoring.TruncateMonotone` | src/evaluation_pipeline.py:122-123 | truncation preserves order |
| `Scoring.ArticulationScoreProperties` | src/evaluation_pipeline.py:97-122 | the returned articulation score is in [0, 100]; it is 100 exactly at distance 0 and 0 exactly above 0.495; it is non-increasing in the distance |
| `Scoring.IdentityMatch` | src/evaluation_pipeline.py:100-103 | 0 when either identity is missing; otherwise, unclamped, the score is 100 exactly at cosine distance 0, in [0, 100] exactly for a distance in [0, 1], and negative exactly for a distance above 1 |
| `Scoring.IdentityScoreRange` | src/evaluation_pipeline.py:100-123 | the returned identity score is 100 exactly when the cosine distance is in (-0.01, 0], and negative exactly when it is at least 1.01 |
| `Scoring.TooSlow` | src/evaluation_pipeline.py:109 | the patient has more than 1.3 times the reference's rows, i.e. more than 13 for every 10, and so strictly more rows |
| `Scoring.TooFast` | src/evaluation_pipeline.py:111 | the patient has fewer than 0.8 times the reference's rows, i.e. fewer than 4 for every 5, and so strictly fewer rows |
| `Scoring.PaceExclusive` | src/evaluation_pipeline.py:109-112 | "too slow" and "too fast" never both apply |
| `Scoring.FeedbackDetermined` | src/evaluation_pipeline.py:106-119 | the feedback rules determine the list uniquely, and it never holds both pace warnings |
| `Scoring.BuildFeedback` | src/evaluation_pipeline.py:106-119 | 1 or 2 entries; the quality message is at index 0, chosen by the score with strict > 85 and > 60 thresholds; a pace message follows exactly when a pace condition holds; each pace warning is present exactly when its own condition holds |
| `Scoring.Evaluate` | src/evaluation_pipeline.py:79-125 | an error, and only the error, exactly when either video has fewer than 5 detected frames. Otherwise: an articulation score in [0, 100], the truncation of the formula over the aligner's result, 100 exactly for a zero-cost alignment; both identities present and the identity score the truncated cosine similarity percentage; feedback as `BuildFeedback` states |

## Left out

- Video decoding (`cv2.VideoCapture`, `cap.read`, `cap.release`), colour conversion, resizing, face cropping and the neural keypoint and appearance networks. Each is replaced by a per-frame oracle: `None` when no face is detected, otherwise the 21×3 expression coefficients and the identity vector the networks would yield. The batch dimension is taken as 1.
- The internals of fastdtw: it is third-party code. The model relies only on a nonnegative cost and a nonempty path. It claims nothing about the path's validity or the alignment's optimality.
- The internals of scipy's cosine distance: it is third-party code. Its result is used as given, including values that make the identity score negative.
- IEEE floating-point behaviour: rounding in the mean, the division, the products with 1.3 and 0.8 and the 1e-5 comparison, and NaN from a zero identity vector. All arithmetic is over exact reals. With a NaN cosine distance, `int()` at line 123 raises `ValueError`, so `evaluate` raises instead of returning; the model always returns.
- `Matrices.Peak`: on a matrix with no entries it returns 0, where numpy raises. Every row here has 18 values, so a nonempty sequence always has entries.
- The `EvaluationPipeline` constructor: it only loads the networks and the cropper (I/O) and fixes the lip keypoint list, which is the constant `Extraction.LipIndices`.
- `gui.py`: the Streamlit interface, ffmpeg trimming and cropping, file saving and webcam capture are user interface and I/O.
