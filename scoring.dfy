/**
 * The evaluator: minimum-length guard, articulation score from the DTW
 * alignment cost, identity score from the cosine distance of the identity
 * vectors, and the ordered feedback list. The DTW aligner (fastdtw) and the
 * cosine distance are library calls whose internals are not modelled; they
 * are passed in as functions.
 */
module Scoring {
  import opened Matrices
  import opened Normalization
  import opened Extraction

  /** Fewer detected frames than this in either video is an error. */
  const MinFrames: nat := 5

  /** Average per-step DTW distance that maps to an articulation score of 0. */
  const ErrorThreshold: real := 0.5

  /** Pace ratios of patient length to reference length. */
  const SlowRatio: real := 1.3
  const FastRatio: real := 0.8

  /** Quality thresholds on the untruncated articulation score. */
  const ExcellentThreshold: real := 85.0
  const GoodThreshold: real := 60.0

  const TooShortMessage: string := "Video too short or face not detected."
  const TooSlowMessage: string := "⚠️ Too Slow: Speak more naturally."
  const TooFastMessage: string := "⚠️ Too Fast: Slow down to articulate clearly."
  const ExcellentMessage: string := "✅ Excellent Articulation!"
  const GoodEffortMessage: string := "ℹ️ Good effort. Watch the lip shape."
  const MismatchMessage: string := "❌ Lip shape mismatch. Try again."

  /** fastdtw's result: the accumulated cost and the warping path as index pairs. */
  datatype DtwResult = DtwResult(distance: real, path: seq<(nat, nat)>)

  /** What the aligner is relied on to return: a nonnegative cost and a nonempty path. */
  type Alignment = a: DtwResult | a.distance >= 0.0 && |a.path| > 0
    witness DtwResult(0.0, [(0, 0)])

  /** The evaluator's dictionary: either only an error, or the two scores and the feedback. */
  datatype Evaluation =
    | Failure(error: string)
    | Scores(articulationScore: int, identityScore: int, feedback: seq<string>)

  /** Alignment cost per path step. */
  function AverageDistance(a: Alignment): (avg: real)
    ensures avg >= 0.0
    ensures avg == 0.0 <==> a.distance == 0.0
  {
    a.distance / |a.path| as real
  }

  /**
   * max(0, 100 - avg * 100 / 0.5): a perfect alignment scores 100, an
   * average distance of 0.5 or more scores 0.
   */
  function Articulation(avg: real): (score: real)
    ensures score >= 0.0
    ensures avg >= 0.0 ==> score <= 100.0
    ensures score == 100.0 <==> avg == 0.0
    ensures score == 0.0 <==> avg >= ErrorThreshold
  {
    Max(0.0, 100.0 - avg * 100.0 / ErrorThreshold)
  }

  /** A larger average distance never gives a higher articulation score. */
  lemma ArticulationNonIncreasing(a: real, b: real)
    requires a <= b
    ensures Articulation(b) <= Articulation(a)
  {
  }

  /** Python's int() on a float: truncation toward zero. */
  function Truncate(x: real): (n: int)
    ensures x >= 0.0 ==> n as real <= x < n as real + 1.0
    ensures x < 0.0 ==> n as real - 1.0 < x <= n as real
  {
    if x >= 0.0 then x.Floor else -((-x).Floor)
  }

  lemma TruncateMonotone(x: real, y: real)
    requires x <= y
    ensures Truncate(x) <= Truncate(y)
  {
  }

  /**
   * The returned articulation score lies in [0, 100]; it is 100 exactly for
   * a zero-cost alignment and 0 exactly once the average distance exceeds
   * 0.495 (truncation, not rounding), and it never increases with distance.
   */
  lemma ArticulationScoreProperties(avg: real, worse: real)
    requires 0.0 <= avg <= worse
    ensures 0 <= Truncate(Articulation(avg)) <= 100
    ensures Truncate(Articulation(avg)) == 100 <==> avg == 0.0
    ensures Truncate(Articulation(avg)) == 0 <==> avg > 0.495
    ensures Truncate(Articulation(worse)) <= Truncate(Articulation(avg))
  {
  }

  /**
   * (1 - cosine distance) * 100 when both identity vectors exist, else 0.
   * Nothing clamps it: it is 100 exactly for distance 0, in [0, 100] exactly
   * for a distance in [0, 1], and negative exactly for a distance above 1.
   */
  function IdentityMatch(refId: Option<Vector>, patId: Option<Vector>,
                         cosine: (Vector, Vector) -> real): (score: real)
    ensures refId.None? || patId.None? ==> score == 0.0
    ensures refId.Some? && patId.Some? ==>
      var distance := cosine(refId.value, patId.value);
      && (score == 100.0 <==> distance == 0.0)
      && (0.0 <= score <= 100.0 <==> 0.0 <= distance <= 1.0)
      && (score < 0.0 <==> distance > 1.0)
  {
    if refId.Some? && patId.Some? then (1.0 - cosine(refId.value, patId.value)) * 100.0
    else 0.0
  }

  /**
   * The returned identity score is 100 exactly when the cosine distance is
   * in (-0.01, 0], and negative exactly when it is at least 1.01: nothing
   * clamps it to [0, 100].
   */
  lemma IdentityScoreRange(a: Vector, b: Vector, cosine: (Vector, Vector) -> real)
    ensures Truncate(IdentityMatch(Some(a), Some(b), cosine)) == 100 <==>
      -0.01 < cosine(a, b) <= 0.0
    ensures Truncate(IdentityMatch(Some(a), Some(b), cosine)) < 0 <==> cosine(a, b) >= 1.01
  {
  }

  /**
   * The patient video is more than 1.3 times the reference length, that is
   * more than 13 patient frames for every 10 reference frames; it is then
   * strictly longer than the reference.
   */
  predicate TooSlow(refLength: nat, patLength: nat)
    ensures TooSlow(refLength, patLength) <==> 10 * patLength > 13 * refLength
    ensures TooSlow(refLength, patLength) ==> patLength > refLength
  {
    patLength as real > refLength as real * SlowRatio
  }

  /**
   * The patient video is less than 0.8 times the reference length, that is
   * fewer than 4 patient frames for every 5 reference frames; it is then
   * strictly shorter than the reference.
   */
  predicate TooFast(refLength: nat, patLength: nat)
    ensures TooFast(refLength, patLength) <==> 5 * patLength < 4 * refLength
    ensures TooFast(refLength, patLength) ==> patLength < refLength
  {
    patLength as real < refLength as real * FastRatio
  }

  /** The two pace warnings cannot both apply. */
  lemma PaceExclusive(refLength: nat, patLength: nat)
    ensures !(TooSlow(refLength, patLength) && TooFast(refLength, patLength))
  {
  }

  /**
   * What the feedback list says: the quality message first, chosen by the
   * untruncated score with strict thresholds 85 and 60, followed by at most
   * one pace message, present exactly when the pace condition holds.
   */
  ghost predicate FeedbackFor(feedback: seq<string>, articulation: real, refLength: nat, patLength: nat)
  {
    && 1 <= |feedback| <= 2
    && (feedback[0] == ExcellentMessage <==> articulation > ExcellentThreshold)
    && (feedback[0] == GoodEffortMessage <==> GoodThreshold < articulation <= ExcellentThreshold)
    && (feedback[0] == MismatchMessage <==> articulation <= GoodThreshold)
    && (|feedback| == 2 <==> TooSlow(refLength, patLength) || TooFast(refLength, patLength))
    && (|feedback| == 2 ==> feedback[1] == (if TooSlow(refLength, patLength) then TooSlowMessage else TooFastMessage))
  }

  /** FeedbackFor pins the list down completely, and never holds both pace warnings. */
  lemma FeedbackDetermined(f: seq<string>, g: seq<string>, articulation: real, refLength: nat, patLength: nat)
    requires FeedbackFor(f, articulation, refLength, patLength)
    requires FeedbackFor(g, articulation, refLength, patLength)
    ensures f == g
    ensures !(TooSlowMessage in f && TooFastMessage in f)
  {
  }

  /**
   * The feedback list as the evaluator builds it: append the pace warning,
   * if any, then insert the quality message at the front.
   */
  method BuildFeedback(articulation: real, refLength: nat, patLength: nat) returns (feedback: seq<string>)
    ensures FeedbackFor(feedback, articulation, refLength, patLength)
    ensures TooSlowMessage in feedback <==> TooSlow(refLength, patLength)
    ensures TooFastMessage in feedback <==> TooFast(refLength, patLength)
  {
    feedback := [];
    if TooSlow(refLength, patLength) {
      feedback := feedback + [TooSlowMessage];
    } else if TooFast(refLength, patLength) {
      feedback := feedback + [TooFastMessage];
    }
    var quality;
    if articulation > ExcellentThreshold {
      quality := ExcellentMessage;
    } else if articulation > GoodThreshold {
      quality := GoodEffortMessage;
    } else {
      quality := MismatchMessage;
    }
    feedback := [quality] + feedback;
  }

  /**
   * evaluate: extract both videos, reject either one with fewer than 5
   * detected frames, align the normalised sequences, and score.
   */
  method Evaluate(reference: seq<Frame>, patient: seq<Frame>,
                  fastdtw: (Matrix, Matrix) -> Alignment,
                  cosine: (Vector, Vector) -> real) returns (result: Evaluation)
    requires WellShapedVideo(reference) && WellShapedVideo(patient)
    ensures result.Failure? <==>
      |Detected(reference)| < MinFrames || |Detected(patient)| < MinFrames
    ensures result.Failure? ==> result.error == TooShortMessage
    ensures result.Scores? ==>
      var alignment := fastdtw(Normalize(RawMotion(reference)), Normalize(RawMotion(patient)));
      var articulation := Articulation(AverageDistance(alignment));
      && 0 <= result.articulationScore <= 100
      && result.articulationScore == Truncate(articulation)
      && (result.articulationScore == 100 <==> alignment.distance == 0.0)
      && FirstIdentity(reference).Some? && FirstIdentity(patient).Some?
      && result.identityScore == Truncate(100.0 * (1.0 - cosine(FirstIdentity(reference).value, FirstIdentity(patient).value)))
      && FeedbackFor(result.feedback, articulation, |Detected(reference)|, |Detected(patient)|)
  {
    var refMotion, refId := ExtractFeatures(reference);
    var patMotion, patId := ExtractFeatures(patient);
    if |refMotion| < MinFrames || |patMotion| < MinFrames {
      return Failure(TooShortMessage);
    }
    var alignment := fastdtw(refMotion, patMotion);
    var avg := AverageDistance(alignment);
    var articulation := Articulation(avg);
    ArticulationScoreProperties(avg, avg);
    var identity := IdentityMatch(refId, patId, cosine);
    var feedback := BuildFeedback(articulation, |refMotion|, |patMotion|);
    result := Scores(Truncate(articulation), Truncate(identity), feedback);
  }
}
