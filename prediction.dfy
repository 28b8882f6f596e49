/** FaceRecognition.Predict: decode and filter the detector output, suppress
    overlapping candidates, and build one PredictionResult per survivor,
    holding a crop of the source bitmap and empty labels. */
module Prediction {
  import opened Geometry
  import opened Subsequences
  import opened Decoding
  import opened Suppression

  /** A bitmap as far as this model needs it: its size, and for a crop the
      bitmap and rectangle it was copied from. Pixels are not modelled. */
  datatype Bitmap = Image(width: int, height: int) | Crop(source: Bitmap, area: Rectangle) {
    function Width(): int
    {
      match this
      case Image(w, _) => w
      case Crop(_, area) => area.width
    }

    function Height(): int
    {
      match this
      case Image(_, h) => h
      case Crop(_, area) => area.height
    }
  }

  /** The rectangle has positive size and lies inside the bitmap. */
  predicate Inside(area: Rectangle, bitmap: Bitmap)
  {
    && area.x >= 0 && area.y >= 0 && area.width > 0 && area.height > 0
    && area.Right() <= bitmap.Width() && area.Bottom() <= bitmap.Height()
  }

  /** Bitmap.Clone(rectangle, format): a copy of the pixels inside the
      rectangle, of the rectangle's size; it throws for a rectangle that
      is empty or reaches outside the bitmap. */
  function Clone(bitmap: Bitmap, area: Rectangle): (crop: Result<Bitmap>)
    ensures crop.Success? <==> Inside(area, bitmap)
    ensures crop.Success? ==> crop.value.Width() == area.width && crop.value.Height() == area.height
    ensures crop.Failure? ==> crop.error == RectangleOutsideBitmap
  {
    if Inside(area, bitmap) then Success(Crop(bitmap, area)) else Failure(RectangleOutsideBitmap)
  }

  /** The IoU threshold that Predict passes to NonMaximumSuppression. */
  const OverlapThreshold: real := 0.4

  /** One detected face: its crop, its rectangle and the three labels that
      the estimators fill in later. */
  class PredictionResult {
    var bitmap: Bitmap
    var rectangle: Rectangle
    var emotion: string
    var age: string
    var gender: string

    constructor (givenBitmap: Bitmap, givenRectangle: Rectangle)
      ensures bitmap == givenBitmap && rectangle == givenRectangle
      ensures emotion == "" && age == "" && gender == ""
    {
      bitmap := givenBitmap;
      rectangle := givenRectangle;
      emotion := "";
      age := "";
      gender := "";
    }
  }

  /** The faces Predict reports for a bitmap, given the detector's output
      for it: decoded, filtered and suppressed at threshold 0.4. */
  function DetectFaces(bitmap: Bitmap, output: DetectorOutput): Result<seq<Candidate>>
  {
    match Detect(output, bitmap.Width(), bitmap.Height())
    case Failure(e) => Failure(e)
    case Success(kept) => Success(Suppress(kept, OverlapTest(OverlapThreshold)))
  }

  /** Every reported face passes the filter, comes from the decoded list in
      the same relative order, and overlaps no later face. */
  lemma DetectFacesSound(bitmap: Bitmap, output: DetectorOutput)
    requires DetectFaces(bitmap, output).Success?
    ensures var faces := DetectFaces(bitmap, output).value;
      var decoded := Decode(output, bitmap.Width(), bitmap.Height()).value;
      && IsSubsequence(faces, decoded)
      && (forall c :: c in faces ==> Plausible(c, bitmap.Width(), bitmap.Height()))
      && PairwiseSeparated(faces, OverlapTest(OverlapThreshold))
  {
    var w, h := bitmap.Width(), bitmap.Height();
    var kept := Detect(output, w, h).value;
    var faces := DetectFaces(bitmap, output).value;
    DetectSound(output, w, h);
    SuppressIsSubsequence(kept, OverlapTest(OverlapThreshold));
    SubsequenceTransitive(faces, kept, Decode(output, w, h).value);
    SubsequenceMembers(faces, kept);
    SuppressSeparates(kept, OverlapTest(OverlapThreshold));
  }

  /** Every plausible decoded candidate is reported, or is overlapped at
      0.4 by a reported face that comes before it among the plausible ones. */
  lemma DetectFacesComplete(bitmap: Bitmap, output: DetectorOutput, k: nat)
    requires Detect(output, bitmap.Width(), bitmap.Height()).Success?
    requires k < |Detect(output, bitmap.Width(), bitmap.Height()).value|
    ensures var kept := Detect(output, bitmap.Width(), bitmap.Height()).value;
      var faces := DetectFaces(bitmap, output).value;
      && kept[k] in Decode(output, bitmap.Width(), bitmap.Height()).value
      && Plausible(kept[k], bitmap.Width(), bitmap.Height())
      && (kept[k] in faces
          || exists j :: 0 <= j < |faces| && faces[j] in kept[..k]
                         && Overlapping(faces[j], kept[k], OverlapThreshold))
  {
    var kept := Detect(output, bitmap.Width(), bitmap.Height()).value;
    assert kept[k] in kept;
    SuppressCovers(kept, OverlapTest(OverlapThreshold), k);
  }

  /** A reported face can be cropped exactly when its left and top edges
      are inside the image: the filter already bounds the rest. */
  lemma CropFailsOnlyAtLeftOrTop(bitmap: Bitmap, output: DetectorOutput, c: Candidate)
    requires DetectFaces(bitmap, output).Success?
    requires c in DetectFaces(bitmap, output).value
    ensures Inside(c.rectangle, bitmap) <==> c.rectangle.x >= 0 && c.rectangle.y >= 0
  {
    DetectFacesSound(bitmap, output);
  }

  /** The loop of Predict: crops the bitmap at each face's rectangle and
      wraps each crop in a fresh PredictionResult with empty labels, in
      face order. The first crop that fails aborts the whole call. */
  method CreateResults(bitmap: Bitmap, faces: seq<Candidate>) returns (r: Result<array<PredictionResult>>)
    ensures r.Failure? <==> exists i :: 0 <= i < |faces| && !Inside(faces[i].rectangle, bitmap)
    ensures r.Failure? ==> r.error == RectangleOutsideBitmap
    ensures r.Success? ==>
      && fresh(r.value) && r.value.Length == |faces|
      && (forall i :: 0 <= i < |faces| ==>
            && fresh(r.value[i])
            && r.value[i].rectangle == faces[i].rectangle
            && r.value[i].bitmap == Crop(bitmap, faces[i].rectangle)
            && r.value[i].emotion == "" && r.value[i].age == "" && r.value[i].gender == "")
      && (forall i, j :: 0 <= i < j < r.value.Length ==> r.value[i] != r.value[j])
  {
    var bitmaps := new Bitmap[|faces|];
    var created: seq<PredictionResult> := [];
    for i := 0 to |faces|
      invariant |created| == i
      invariant forall k :: 0 <= k < i ==> Inside(faces[k].rectangle, bitmap)
      invariant forall k :: 0 <= k < i ==>
        && fresh(created[k])
        && bitmaps[k] == Crop(bitmap, faces[k].rectangle)
        && created[k].bitmap == bitmaps[k]
        && created[k].rectangle == faces[k].rectangle
        && created[k].emotion == "" && created[k].age == "" && created[k].gender == ""
      invariant forall k, l :: 0 <= k < l < i ==> created[k] != created[l]
    {
      var crop := Clone(bitmap, faces[i].rectangle);
      if crop.Failure? {
        return Failure(crop.error);
      }
      bitmaps[i] := crop.value;
      var predictionResult := new PredictionResult(bitmaps[i], faces[i].rectangle);
      created := created + [predictionResult];
    }
    var predictionResults := new PredictionResult[|faces|](i requires 0 <= i < |faces| => created[i]);
    return Success(predictionResults);
  }

  /** Decodes, filters and suppresses, then crops each survivor and wraps
      it in a fresh PredictionResult with empty labels. Fails, with no
      results, when the detector output is malformed or a reported face
      reaches past the left or top edge of the image. */
  method Predict(bitmap: Bitmap, output: DetectorOutput) returns (r: Result<array<PredictionResult>>)
    ensures var detected := DetectFaces(bitmap, output);
      r.Failure? <==>
        || detected.Failure?
        || exists i :: 0 <= i < |detected.value|
             && (detected.value[i].rectangle.x < 0 || detected.value[i].rectangle.y < 0)
    ensures r.Failure? ==>
      r.error == if DetectFaces(bitmap, output).Failure? then ScoreIndexOutOfRange else RectangleOutsideBitmap
    ensures r.Success? ==>
      var faces := DetectFaces(bitmap, output).value;
      && fresh(r.value)
      && r.value.Length == |faces|
      && (forall i :: 0 <= i < |faces| ==>
            && fresh(r.value[i])
            && r.value[i].rectangle == faces[i].rectangle
            && r.value[i].bitmap == Crop(bitmap, faces[i].rectangle)
            && r.value[i].emotion == "" && r.value[i].age == "" && r.value[i].gender == "")
      && (forall i, j :: 0 <= i < j < r.value.Length ==> r.value[i] != r.value[j])
  {
    var detected := Detect(output, bitmap.Width(), bitmap.Height());
    if detected.Failure? {
      return Failure(detected.error);
    }
    var list := new ResultList(detected.value);
    var faceList := NonMaximumSuppression(list, OverlapThreshold);
    var faces := faceList.items;
    forall c | c in faces
      ensures Inside(c.rectangle, bitmap) <==> c.rectangle.x >= 0 && c.rectangle.y >= 0
    {
      CropFailsOnlyAtLeftOrTop(bitmap, output, c);
    }
    r := CreateResults(bitmap, faces);
  }
}
