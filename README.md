# Face detection post-processing and label estimation

This project models the core of `FaceRecognition/FaceRecognition.cs`. That
is the code between the neural networks and the user interface:

- `FaceRecognition.Predict` turns the face detector's two flat output
  vectors (two scores and four normalised corners per candidate) into
  pixel rectangles. It drops implausible candidates, runs greedy
  non-maximum suppression (NMS) at IoU threshold 0.4, and wraps every
  survivor, with a crop of the image, in a `PredictionResult`.
- `NonMaximumSuppression` and `IntersectionOverUnion` implement the
  suppression. IoU (intersection over union) counts an extra pixel on each
  axis of the intersection.
- `EmotionEstimator` and `AgeGenderEstimator` run a classifier on each
  crop. They take the first index of the largest output value and write
  the label at that index of a fixed table into the result.

The modules follow that structure:

- `Geometry`: rectangles, scored candidates and the IoU. The IoU is a
  `Ratio` because a zero union gives an IEEE infinity or NaN.
- `Decoding`: decoding of the detector output and the plausibility filter.
- `Suppression`: the suppression.
  - `Suppress` is the specification function.
  - `ResultList` is the mutable `List<FaceRecognitionResult>`.
  - `NonMaximumSuppression` is the imperative method, with its two loops.
  - It is proved equal to `Suppress`, and the properties of the
    suppression are proved about `Suppress`.
- `Prediction`: `PredictionResult` (a class, since the estimators update
  its fields in place) and the `Predict` pipeline.
- `Estimators`: arg-max, the label tables and both estimator classes.
- `Subsequences`: an order-preserving-selection predicate used to state
  that filtering and suppression only delete.

The networks are parameters. The detector's output is an argument of
`Predict`. Each classifier is a function from a bitmap to its output
vector, held by its estimator object.

### Where the code does not do what it appears to intend

The model follows the code.

- Both `OrderByDescending` calls in `NonMaximumSuppression`
  (`FaceRecognition.cs:90`, `:108`) build a sorted view and discard it.
  - Candidates are processed in decoding order, not by descending score.
    The survivors come out in that order, not sorted by x.
  - `Suppression.InputOrderDecidesSurvivor` shows a 0.85 box suppressing
    an overlapping 0.95 box that is listed after it.
- The "+1" in the intersection is not matched in the areas, so the IoU of a
  rectangle with itself is never 1 (`Geometry.SelfIntersectionOverUnionIsNotOne`).
  - Two identical 1x1 rectangles have IoU -2, so both survive
    (`Suppression.IdenticalUnitSquaresBothSurvive`).
  - A zero union gives +infinity, which always suppresses, or NaN, which
    never does.
- The plausibility filter checks positive size and the bottom and right
  edges. It does not check x >= 0 or y >= 0. A surviving face that reaches
  past the left or top edge makes `Bitmap.Clone` throw, so the whole call
  fails (`Prediction.CropFailsOnlyAtLeftOrTop`, `Prediction.Predict`).

## Model

| member | source | states |
|---|---|---|
| Geometry.AxisOverlap | FaceRecognition/FaceRecognition.cs:114-115 | the pixel-inclusive overlap of two spans is non-negative; it is positive exactly when the spans are well formed and meet; it is then at most each span's length plus one |
| Geometry.IntersectionOverUnionSymmetric | FaceRecognition/FaceRecognition.cs:112-120 | IoU and intersection area do not depend on the order of the two candidates |
| Geometry.IntersectionEmptyIffSeparated | FaceRecognition/FaceRecognition.cs:114-116 | for rectangles of non-negative size, the intersection area is zero exactly when they are separated on some axis, counting edges as pixels |
| Geometry.SeparatedNotOverlapping | FaceRecognition/FaceRecognition.cs:112-120 | separated rectangles of positive size have IoU 0, and neither suppresses the other at any positive threshold |
| Geometry.SelfIntersectionOverUnionIsNotOne | FaceRecognition/FaceRecognition.cs:114-118 | a rectangle of positive size compared with itself never has IoU exactly 1 |
| Geometry.UnitSquareSelfIntersectionOverUnion | FaceRecognition/FaceRecognition.cs:114-118 | two identical 1x1 rectangles have IoU -2, below every threshold above -2 |
| Decoding.TruncateToInt | FaceRecognition/FaceRecognition.cs:70 | the `(int)` cast truncates toward zero: the result is within one of the value, on the side of zero |
| Decoding.Decode | FaceRecognition/FaceRecognition.cs:66-72 | there are \|boxes\|/4 candidates. Decoding fails exactly when some candidate's score index 2i+1 is past the end of the scores. Otherwise candidate i has score scores[2i+1] and the scaled, truncated rectangle of boxes[4i..4i+3] |
| Decoding.KeepPlausible | FaceRecognition/FaceRecognition.cs:73 | a candidate is kept exactly when it is in the input and has positive size, bottom and right edges strictly inside the image and score above 0.8. Every occurrence of a passing candidate is kept, and no occurrence of a failing one. The result is never longer than the input |
| Decoding.KeepPlausibleIsSubsequence | FaceRecognition/FaceRecognition.cs:73-74 | the filter keeps survivors in their original order |
| Decoding.DetectSound | FaceRecognition/FaceRecognition.cs:67-74 | every detected candidate is plausible and is the decoding of some candidate index; the detected list is an order-preserving selection of the decoded list |
| Decoding.BoundaryCandidatesRejected | FaceRecognition/FaceRecognition.cs:73 | a score of exactly 0.8, or a bottom or right edge on the image border, is rejected |
| Decoding.SingleFaceScenario | FaceRecognition/FaceRecognition.cs:67-74 | box (0.1, 0.1, 0.5, 0.6) scored 0.95 in a 400x300 image is detected as rectangle (40, 30, 160, 150) |
| Suppression.Remaining | FaceRecognition/FaceRecognition.cs:98-105 | the candidates left after one survivor's pass are exactly those of the working list that it does not overlap; the list never grows |
| Suppression.RemainingKeepsEveryOccurrence | FaceRecognition/FaceRecognition.cs:98-105 | every occurrence of a candidate the survivor does not overlap stays in the working list, duplicates included, and every occurrence of one it overlaps is removed |
| Suppression.Suppress | FaceRecognition/FaceRecognition.cs:92-106 | survivors are drawn from the input and are never more numerous than it |
| Suppression.SuppressIsSubsequence | FaceRecognition/FaceRecognition.cs:92-109 | suppression only deletes and keeps input order; the output is empty exactly when the input is; the first candidate always survives |
| Suppression.SuppressSeparates | FaceRecognition/FaceRecognition.cs:92-106 | no survivor overlaps a later survivor at the threshold |
| Suppression.SuppressCovers | FaceRecognition/FaceRecognition.cs:92-106 | every input candidate survives, or is overlapped by a survivor that precedes it in the input |
| Suppression.FirstOverlapsAllSurvivesAlone | FaceRecognition/FaceRecognition.cs:92-106 | when the first candidate overlaps all others, it is the only survivor |
| Suppression.SuppressKeepsSeparated | FaceRecognition/FaceRecognition.cs:92-106 | a list with no overlapping pair passes through suppression unchanged |
| Suppression.SuppressIdempotent | FaceRecognition/FaceRecognition.cs:87-110 | suppressing the survivors again changes nothing |
| Suppression.IdenticalUnitSquaresBothSurvive | FaceRecognition/FaceRecognition.cs:100-103 | two identical 1x1 candidates both survive at every non-negative threshold |
| Suppression.OffsetBoxesOverlap | FaceRecognition/FaceRecognition.cs:100-103 | 100x100 boxes offset by one pixel have IoU 1, and the first listed suppresses the second at 0.4 |
| Suppression.InputOrderDecidesSurvivor | FaceRecognition/FaceRecognition.cs:90-97 | the score plays no part: whichever of two overlapping boxes is listed first survives, whatever their scores |
| Suppression.ResultList.Add | FaceRecognition/FaceRecognition.cs:95 | `List.Add` appends one candidate |
| Suppression.ResultList.RemoveAt | FaceRecognition/FaceRecognition.cs:97 | `List.RemoveAt` deletes the candidate at a valid index and shifts the rest down |
| Suppression.RemoveOverlapped | FaceRecognition/FaceRecognition.cs:98-105 | the backward loop leaves the working list equal to `Remaining` of its old contents |
| Suppression.NonMaximumSuppression | FaceRecognition/FaceRecognition.cs:87-110 | returns a fresh list equal to `Suppress` of the argument's old contents at the given threshold, and leaves the argument empty |
| Prediction.Clone | FaceRecognition/FaceRecognition.cs:80 | cropping succeeds exactly when the rectangle has positive size and lies inside the bitmap; the crop then has the rectangle's size, and otherwise the error is `RectangleOutsideBitmap` |
| Prediction.PredictionResult.constructor | FaceRecognition/FaceRecognition.cs:32-39 | a result holds the given bitmap and rectangle and empty labels |
| Prediction.DetectFacesSound | FaceRecognition/FaceRecognition.cs:67-75 | the reported faces are plausible and in decoding order, and no face overlaps a later one at 0.4 |
| Prediction.DetectFacesComplete | FaceRecognition/FaceRecognition.cs:67-75 | every plausible decoded candidate is reported, or is overlapped at 0.4 by a reported face that precedes it among the plausible candidates |
| Prediction.CropFailsOnlyAtLeftOrTop | FaceRecognition/FaceRecognition.cs:73-80 | a reported face can be cropped exactly when its x and y are non-negative, because the filter already bounds its size and its right and bottom edges |
| Prediction.CreateResults | FaceRecognition/FaceRecognition.cs:76-82 | fails with `RectangleOutsideBitmap` exactly when some face's rectangle cannot be cropped. Otherwise it returns a fresh array with one fresh, distinct result per face, in order, each holding the face's rectangle, the crop of the bitmap at that rectangle and empty labels |
| Prediction.Predict | FaceRecognition/FaceRecognition.cs:64-84 | fails exactly when decoding fails (`ScoreIndexOutOfRange`) or some reported face has negative x or y (`RectangleOutsideBitmap`). Otherwise it returns a fresh array with one fresh, distinct result per reported face, in order, each holding the face's rectangle, the crop of the bitmap at that rectangle and empty labels |
| Estimators.MaxOf | FaceRecognition/FaceRecognition.cs:173 | `Max` of a non-empty vector is one of its values and no value exceeds it |
| Estimators.IndexOf | FaceRecognition/FaceRecognition.cs:174 | `IndexOf` is -1 exactly when the value is absent, and otherwise the first position holding it |
| Estimators.ArgMax | FaceRecognition/FaceRecognition.cs:173-174 | `IndexOf(Max())` is a position holding a largest value, and every earlier value is strictly smaller |
| Estimators.LabelIsFirstMaximum | FaceRecognition/FaceRecognition.cs:173-175 | the label is the table entry at the first position of a largest value, whichever way that position is found |
| Estimators.HappinessScenario | FaceRecognition/FaceRecognition.cs:148 | the emotion output [0.1, 0.9, 0, ...] is labelled Happiness |
| Estimators.EmotionEstimator.Predict | FaceRecognition/FaceRecognition.cs:170-176 | writes the emotion label of the classifier output for the result's bitmap and changes nothing else |
| Estimators.EmotionEstimator.PredictAll | FaceRecognition/FaceRecognition.cs:178-187 | every result of the array gets the emotion label of its own bitmap; the frame allows only the emotion fields to change |
| Estimators.AgeGenderEstimator.Predict | FaceRecognition/FaceRecognition.cs:230-240 | writes the age and the gender labels of the two classifier outputs and changes nothing else |
| Estimators.AgeGenderEstimator.PredictAll | FaceRecognition/FaceRecognition.cs:242-255 | every result of the array gets the age and gender labels of its own bitmap; the frame allows only the age and gender fields to change |

## Left out

- Loading the ONNX models, resizing and pixel extraction, `Dispose`, and
  `BitmapUtility`'s bitmap conversion are left out. The networks are
  modelled as parameters: the detector output is an argument of `Predict`,
  and each classifier is a deterministic function from a bitmap to a
  vector.
- Pixel content is not modelled. A bitmap is a size, or the crop it was
  cut from.
- `Bitmap.Clone`'s two exceptions, for an empty rectangle and for one
  reaching outside the bitmap, are modelled as one error,
  `RectangleOutsideBitmap`. Its pixel-format argument is not modelled.
- Single-precision arithmetic is modelled as exact reals. Rounding in the
  decoder's products and in the IoU is not modelled.
- 32-bit overflow of the rectangle sums and products is not modelled;
  integers are unbounded.
- The exception for a short scores vector becomes `Failure(ScoreIndexOutOfRange)`.
  No partial result is modelled, because the source builds none.
- Estimators.EmotionEstimator.Predict: requires a non-empty classifier
  vector whose arg-max indexes the table. The source throws for an empty
  vector or a too-large index, and that is not modelled.
- Estimators.EmotionEstimator.PredictAll: same requirement, for every
  element. Elements labelled before an exception would stay labelled;
  that partial update is not modelled.
- Estimators.AgeGenderEstimator.Predict: same requirement, for both
  vectors.
- Estimators.AgeGenderEstimator.PredictAll: same requirement, for both
  vectors of every element.
- Prediction.CreateResults: builds the result objects in a sequence and then
  the array from it, instead of storing each object into the array inside
  the loop. The returned array and its contents are the same.
- The parameterless `PredictionResult` constructor
  (`FaceRecognition.cs:23-30`) is not modelled. It creates `new Bitmap(0, 0)`,
  which throws for a zero width or height, so it never returns a result,
  and nothing calls it.
- `MainWindow` is not part of this model: a file dialog, one call to each
  `Predict`, drawing the rectangles and labels, and resizing the image for
  display.
