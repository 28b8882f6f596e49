/** EmotionEstimator and AgeGenderEstimator: each runs a classifier on a
    face crop, takes the first index of the largest output value and writes
    the label at that index of a fixed table into the PredictionResult. */
module Estimators {
  import opened Prediction

  const Emotions: seq<string> :=
    ["Neutral", "Happiness", "Surprise", "Sadness", "Anger", "Disgust", "Fear", "Contempt"]

  const AgeBrackets: seq<string> :=
    ["0-2", "4-6", "8-12", "15-20", "25-32", "38-43", "48-53", "60-100"]

  const Genders: seq<string> := ["Male", "Female"]

  /** Enumerable.Max: the largest value of a non-empty vector. */
  function MaxOf(v: seq<real>): (m: real)
    requires |v| > 0
    ensures m in v
    ensures forall j :: 0 <= j < |v| ==> v[j] <= m
  {
    if |v| == 1 then v[0]
    else
      var rest := MaxOf(v[1..]);
      if v[0] >= rest then v[0] else rest
  }

  /** List.IndexOf: the first position holding x, or -1 when there is none. */
  function IndexOf(v: seq<real>, x: real): (k: int)
    ensures -1 <= k < |v|
    ensures k == -1 <==> x !in v
    ensures k >= 0 ==> v[k] == x && x !in v[..k]
  {
    if v == [] then -1
    else if v[0] == x then 0
    else
      var k := IndexOf(v[1..], x);
      assert v[1..][..if k < 0 then 0 else k] == v[1..if k < 0 then 1 else k + 1];
      if k < 0 then -1 else k + 1
  }

  /** IndexOf(Max()): the first position of the largest value, so ties go
      to the lowest index. */
  function ArgMax(v: seq<real>): (k: nat)
    requires |v| > 0
    ensures k < |v|
    ensures forall j :: 0 <= j < |v| ==> v[j] <= v[k]
    ensures forall j :: 0 <= j < k ==> v[j] < v[k]
  {
    var k := IndexOf(v, MaxOf(v));
    assert forall j :: 0 <= j < k ==> v[j] != v[k] by {
      forall j | 0 <= j < k ensures v[j] != v[k] {
        assert v[..k][j] == v[j];
      }
    }
    k
  }

  /** The output vector names an entry of the table: it is non-empty and
      its arg-max is a valid index. */
  predicate HasLabel(v: seq<real>, table: seq<string>)
  {
    |v| > 0 && ArgMax(v) < |table|
  }

  function Label(v: seq<real>, table: seq<string>): string
    requires HasLabel(v, table)
  {
    table[ArgMax(v)]
  }

  /** The label of a classifier output: the table entry at the first
      position of its largest value. */
  lemma LabelIsFirstMaximum(v: seq<real>, table: seq<string>, k: nat)
    requires HasLabel(v, table)
    requires k < |v| && k < |table|
    requires forall j :: 0 <= j < |v| ==> v[j] <= v[k]
    requires forall j :: 0 <= j < k ==> v[j] < v[k]
    ensures Label(v, table) == table[k]
  {
    var m := ArgMax(v);
    assert !(m < k) && !(k < m);
  }

  /** The emotion output [0.1, 0.9, 0, 0, 0, 0, 0, 0] is labelled Happiness. */
  lemma HappinessScenario(v: seq<real>)
    requires v == [0.1, 0.9, 0.0, 0.0, 0.0, 0.0, 0.0, 0.0]
    ensures HasLabel(v, Emotions)
    ensures Label(v, Emotions) == "Happiness"
  {
    assert forall j :: 0 <= j < |v| ==> v[j] <= v[1];
    LabelIsFirstMaximum(v, Emotions, 1);
  }

  /** Runs the emotion classifier (a deterministic function of the crop)
      and writes the emotion label. */
  class EmotionEstimator {
    const engine: Bitmap -> seq<real>

    constructor (engine: Bitmap -> seq<real>)
      ensures this.engine == engine
    {
      this.engine := engine;
    }

    method Predict(predictionResult: PredictionResult)
      requires HasLabel(engine(predictionResult.bitmap), Emotions)
      modifies predictionResult`emotion
      ensures predictionResult.emotion == Label(engine(predictionResult.bitmap), Emotions)
    {
      var result := engine(predictionResult.bitmap);
      var max := MaxOf(result);
      var index := IndexOf(result, max);
      predictionResult.emotion := Emotions[index];
    }

    /** Labels every result of the array; the frame lets only the emotion
        fields change. */
    method PredictAll(predictionResults: array<PredictionResult>)
      requires forall i :: 0 <= i < predictionResults.Length ==>
        HasLabel(engine(predictionResults[i].bitmap), Emotions)
      modifies (set i | 0 <= i < predictionResults.Length :: predictionResults[i])`emotion
      ensures forall i :: 0 <= i < predictionResults.Length ==>
        predictionResults[i].emotion == Label(engine(predictionResults[i].bitmap), Emotions)
    {
      for n := 0 to predictionResults.Length
        invariant forall i :: 0 <= i < n ==>
          predictionResults[i].emotion == Label(engine(predictionResults[i].bitmap), Emotions)
      {
        var predictionResult := predictionResults[n];
        var result := engine(predictionResult.bitmap);
        var max := MaxOf(result);
        var index := IndexOf(result, max);
        predictionResult.emotion := Emotions[index];
      }
    }
  }

  /** Runs the age and the gender classifiers and writes both labels. */
  class AgeGenderEstimator {
    const ageEngine: Bitmap -> seq<real>
    const genderEngine: Bitmap -> seq<real>

    constructor (ageEngine: Bitmap -> seq<real>, genderEngine: Bitmap -> seq<real>)
      ensures this.ageEngine == ageEngine && this.genderEngine == genderEngine
    {
      this.ageEngine := ageEngine;
      this.genderEngine := genderEngine;
    }

    method Predict(predictionResult: PredictionResult)
      requires HasLabel(ageEngine(predictionResult.bitmap), AgeBrackets)
      requires HasLabel(genderEngine(predictionResult.bitmap), Genders)
      modifies predictionResult`age, predictionResult`gender
      ensures predictionResult.age == Label(ageEngine(predictionResult.bitmap), AgeBrackets)
      ensures predictionResult.gender == Label(genderEngine(predictionResult.bitmap), Genders)
    {
      var ageResult := ageEngine(predictionResult.bitmap);
      var ageMax := MaxOf(ageResult);
      var ageIndex := IndexOf(ageResult, ageMax);
      predictionResult.age := AgeBrackets[ageIndex];
      var genderResult := genderEngine(predictionResult.bitmap);
      var genderMax := MaxOf(genderResult);
      var genderIndex := IndexOf(genderResult, genderMax);
      predictionResult.gender := Genders[genderIndex];
    }

    /** Labels every result of the array; the frame lets only the age and
        gender fields change. */
    method PredictAll(predictionResults: array<PredictionResult>)
      requires forall i :: 0 <= i < predictionResults.Length ==>
        && HasLabel(ageEngine(predictionResults[i].bitmap), AgeBrackets)
        && HasLabel(genderEngine(predictionResults[i].bitmap), Genders)
      modifies (set i | 0 <= i < predictionResults.Length :: predictionResults[i])`age
      modifies (set i | 0 <= i < predictionResults.Length :: predictionResults[i])`gender
      ensures forall i :: 0 <= i < predictionResults.Length ==>
        && predictionResults[i].age == Label(ageEngine(predictionResults[i].bitmap), AgeBrackets)
        && predictionResults[i].gender == Label(genderEngine(predictionResults[i].bitmap), Genders)
    {
      for n := 0 to predictionResults.Length
        invariant forall i :: 0 <= i < n ==>
          && predictionResults[i].age == Label(ageEngine(predictionResults[i].bitmap), AgeBrackets)
          && predictionResults[i].gender == Label(genderEngine(predictionResults[i].bitmap), Genders)
      {
        var predictionResult := predictionResults[n];
        var ageResult := ageEngine(predictionResult.bitmap);
        var ageMax := MaxOf(ageResult);
        var ageIndex := IndexOf(ageResult, ageMax);
        predictionResult.age := AgeBrackets[ageIndex];
        var genderResult := genderEngine(predictionResult.bitmap);
        var genderMax := MaxOf(genderResult);
        var genderIndex := IndexOf(genderResult, genderMax);
        predictionResult.gender := Genders[genderIndex];
      }
    }
  }
}
