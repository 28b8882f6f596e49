/** Turning the face detector's raw output into scored pixel rectangles and
    keeping only the plausible ones (the first half of FaceRecognition.Predict). */
module Decoding {
  import opened Geometry
  import opened Subsequences

  /** The two output tensors of the detector, flattened: two scores
      (background, face) and four normalised corners (x1, y1, x2, y2)
      per candidate. */
  datatype DetectorOutput = DetectorOutput(scores: seq<real>, boxes: seq<real>)

  /** The exceptions of FaceRecognition.Predict: reading a score past the
      end of the scores vector, and cropping the bitmap with a rectangle
      that does not lie inside it. */
  datatype PredictionError = ScoreIndexOutOfRange | RectangleOutsideBitmap

  datatype Result<T> = Success(value: T) | Failure(error: PredictionError)

  /** A candidate is kept only when its score is strictly above this. */
  const ScoreThreshold: real := 0.8

  /** The conversion `(int)x` from floating point: truncation toward zero. */
  function TruncateToInt(x: real): (n: int)
    ensures x >= 0.0 ==> n as real <= x < n as real + 1.0
    ensures x < 0.0 ==> n as real - 1.0 < x <= n as real
  {
    if x >= 0.0 then x.Floor else -((-x).Floor)
  }

  /** Number of candidates: whole groups of four box values. */
  function CandidateCount(output: DetectorOutput): nat
  {
    |output.boxes| / 4
  }

  /** Candidate i: corners boxes[4i .. 4i+3] scaled to the image, and the
      face score scores[2i+1]. */
  function DecodeCandidate(output: DetectorOutput, i: nat, imageWidth: int, imageHeight: int): Candidate
    requires 4 * i + 3 < |output.boxes| && 2 * i + 1 < |output.scores|
  {
    var b := output.boxes;
    var w, h := imageWidth as real, imageHeight as real;
    Candidate(
      output.scores[2 * i + 1],
      Rectangle(
        TruncateToInt(b[4 * i] * w),
        TruncateToInt(b[4 * i + 1] * h),
        TruncateToInt((b[4 * i + 2] - b[4 * i]) * w),
        TruncateToInt((b[4 * i + 3] - b[4 * i + 1]) * h)))
  }

  /** Decodes every candidate, in index order. Decoding fails when some
      candidate's face score would be read past the end of the scores. */
  function Decode(output: DetectorOutput, imageWidth: int, imageHeight: int): (r: Result<seq<Candidate>>)
    ensures r.Failure? <==>
      exists i :: 0 <= i < CandidateCount(output) && 2 * i + 1 >= |output.scores|
    ensures r.Success? ==>
      |r.value| == CandidateCount(output) &&
      forall i :: 0 <= i < |r.value| ==>
        r.value[i].score == output.scores[2 * i + 1] &&
        r.value[i] == DecodeCandidate(output, i, imageWidth, imageHeight)
  {
    var n := CandidateCount(output);
    if |output.scores| < 2 * n then
      assert 2 * (n - 1) + 1 >= |output.scores|;
      Failure(ScoreIndexOutOfRange)
    else
      Success(seq(n, i requires 0 <= i < n => DecodeCandidate(output, i, imageWidth, imageHeight)))
  }

  /** The filter of FaceRecognition.Predict: positive extent, bottom and
      right edges strictly inside the image, score strictly above 0.8. */
  predicate Plausible(c: Candidate, imageWidth: int, imageHeight: int)
  {
    && c.rectangle.height > 0
    && c.rectangle.Bottom() < imageHeight
    && c.rectangle.width > 0
    && c.rectangle.Right() < imageWidth
    && c.score > ScoreThreshold
  }

  /** The plausible candidates, in their original order; every occurrence
      of a plausible candidate is kept. */
  function KeepPlausible(cs: seq<Candidate>, imageWidth: int, imageHeight: int): (r: seq<Candidate>)
    ensures |r| <= |cs|
    ensures forall c :: c in r <==> c in cs && Plausible(c, imageWidth, imageHeight)
    ensures forall c :: multiset(r)[c] == if Plausible(c, imageWidth, imageHeight) then multiset(cs)[c] else 0
  {
    if cs == [] then []
    else
      var rest := KeepPlausible(cs[1..], imageWidth, imageHeight);
      assert cs == [cs[0]] + cs[1..];
      if Plausible(cs[0], imageWidth, imageHeight) then [cs[0]] + rest else rest
  }

  /** The filter only deletes: survivors keep their relative order. */
  lemma {:induction false} KeepPlausibleIsSubsequence(cs: seq<Candidate>, imageWidth: int, imageHeight: int)
    ensures IsSubsequence(KeepPlausible(cs, imageWidth, imageHeight), cs)
    decreases |cs|
  {
    if cs != [] {
      var rest := KeepPlausible(cs[1..], imageWidth, imageHeight);
      KeepPlausibleIsSubsequence(cs[1..], imageWidth, imageHeight);
      if Plausible(cs[0], imageWidth, imageHeight) {
        SubsequenceCons(cs[0], rest, cs[1..]);
        assert [cs[0]] + cs[1..] == cs;
      }
    }
  }

  /** The candidates considered by Predict after decoding and filtering. */
  function Detect(output: DetectorOutput, imageWidth: int, imageHeight: int): Result<seq<Candidate>>
  {
    match Decode(output, imageWidth, imageHeight)
    case Failure(e) => Failure(e)
    case Success(cs) => Success(KeepPlausible(cs, imageWidth, imageHeight))
  }

  /** Every detected candidate passes the filter and is the decoding of a
      candidate index; the detected list is an order-preserving selection
      of the decoded one. */
  lemma DetectSound(output: DetectorOutput, imageWidth: int, imageHeight: int)
    requires Detect(output, imageWidth, imageHeight).Success?
    ensures var decoded := Decode(output, imageWidth, imageHeight).value;
      var kept := Detect(output, imageWidth, imageHeight).value;
      && IsSubsequence(kept, decoded)
      && forall c :: c in kept ==>
           && Plausible(c, imageWidth, imageHeight)
           && exists i :: 0 <= i < CandidateCount(output) && c == DecodeCandidate(output, i, imageWidth, imageHeight)
  {
    var decoded := Decode(output, imageWidth, imageHeight).value;
    KeepPlausibleIsSubsequence(decoded, imageWidth, imageHeight);
    forall c | c in Detect(output, imageWidth, imageHeight).value
      ensures exists i :: 0 <= i < CandidateCount(output) && c == DecodeCandidate(output, i, imageWidth, imageHeight)
    {
      var i :| 0 <= i < |decoded| && decoded[i] == c;
    }
  }

  /** The bounds are exclusive and the score threshold strict: a score of
      exactly 0.8, or a bottom or right edge on the image border, rejects.
      A single-precision score is never exactly 0.8: the nearest one,
      0.800000011920929, lies above the threshold and is kept. */
  lemma BoundaryCandidatesRejected(c: Candidate, imageWidth: int, imageHeight: int)
    requires c.score == 0.8 || c.rectangle.Bottom() == imageHeight || c.rectangle.Right() == imageWidth
    ensures KeepPlausible([c], imageWidth, imageHeight) == []
  {
  }

  /** A 400x300 image with one box (0.1, 0.1, 0.5, 0.6) scored 0.95 decodes
      to the rectangle (40, 30, 160, 150), which passes the filter. */
  lemma SingleFaceScenario()
    ensures Detect(DetectorOutput([0.05, 0.95], [0.1, 0.1, 0.5, 0.6]), 400, 300)
            == Success([Candidate(0.95, Rectangle(40, 30, 160, 150))])
  {
    var output := DetectorOutput([0.05, 0.95], [0.1, 0.1, 0.5, 0.6]);
    assert TruncateToInt(40.0) == 40;
    assert TruncateToInt(30.0) == 30;
    assert TruncateToInt(160.0) == 160;
    assert TruncateToInt(150.0) == 150;
    var c := DecodeCandidate(output, 0, 400, 300);
    assert c == Candidate(0.95, Rectangle(40, 30, 160, 150));
    assert CandidateCount(output) == 1;
    var d := Decode(output, 400, 300);
    assert d.Success? && |d.value| == 1 && d.value[0] == c;
    assert d.value == [c];
    assert Plausible(c, 400, 300);
    assert KeepPlausible([c], 400, 300) == [c];
  }
}
