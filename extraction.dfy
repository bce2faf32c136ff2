/**
 * The feature extractor's frame-collection loop. Video decoding, face
 * cropping and the neural keypoint network are replaced by a per-frame
 * oracle: one entry per decoded frame, None where no face was detected,
 * otherwise the 21x3 expression coefficients and the identity (appearance)
 * vector the network would produce for that frame.
 */
module Extraction {
  import opened Matrices
  import opened Normalization

  datatype Option<+T> = None | Some(value: T)

  /** The extractor's output for one frame in which a face was detected. */
  datatype Detection = Detection(expression: seq<Vector>, identity: Vector)

  /** One decoded frame: None when the cropper found no face. */
  type Frame = Option<Detection>

  /** The keypoint network yields 21 keypoints with 3 expression coefficients each. */
  const KeypointCount: nat := 21
  const Coefficients: nat := 3

  /** The keypoints that control lip and mouth shape. */
  const LipIndices: seq<nat> := [6, 12, 14, 17, 19, 20]

  /** Length of one lip-motion row: 6 keypoints times 3 coefficients. */
  const LipWidth: nat := 18

  predicate WellShaped(d: Detection)
  {
    |d.expression| == KeypointCount &&
    forall k | 0 <= k < KeypointCount :: |d.expression[k]| == Coefficients
  }

  /** Every detection of the video has the network's output shape. */
  predicate WellShapedVideo(frames: seq<Frame>)
  {
    forall i | 0 <= i < |frames| :: frames[i].Some? ==> WellShaped(frames[i].value)
  }

  /** The lip keypoints' coefficients, flattened keypoint by keypoint. */
  function LipMotion(expression: seq<Vector>): (v: Vector)
    requires |expression| == KeypointCount
    requires forall k | 0 <= k < KeypointCount :: |expression[k]| == Coefficients
    ensures |v| == LipWidth == |LipIndices| * Coefficients
    ensures forall k, c | 0 <= k < |LipIndices| && 0 <= c < Coefficients ::
      v[Coefficients * k + c] == expression[LipIndices[k]][c]
  {
    seq(LipWidth, n requires 0 <= n < LipWidth => expression[LipIndices[n / 3]][n % 3])
  }

  /**
   * Indices of the frames in which a face was detected: exactly those, each
   * once, in increasing frame order.
   */
  function Detected(frames: seq<Frame>): (d: seq<nat>)
    ensures |d| <= |frames|
    ensures forall k | 0 <= k < |d| :: d[k] < |frames| && frames[d[k]].Some?
    ensures forall k, l | 0 <= k < l < |d| :: d[k] < d[l]
    ensures forall i | 0 <= i < |frames| && frames[i].Some? :: i in d
  {
    if frames == [] then []
    else
      var last := |frames| - 1;
      Detected(frames[..last]) + (if frames[last].Some? then [last] else [])
  }

  /** The raw motion sequence: one lip-motion row per detected frame, in frame order. */
  function RawMotion(frames: seq<Frame>): (m: Matrix)
    requires WellShapedVideo(frames)
    ensures |m| == |Detected(frames)| && IsMatrix(m)
    ensures m != [] ==> Width(m) == LipWidth
  {
    var d := Detected(frames);
    seq(|d|, k requires 0 <= k < |d| => LipMotion(frames[d[k]].value.expression))
  }

  /**
   * The identity vector of the first frame with a detection: absent exactly
   * when no frame has a detection, and otherwise the identity of a detected
   * frame with no detection before it.
   */
  function FirstIdentity(frames: seq<Frame>): (id: Option<Vector>)
    ensures id.None? <==> forall i | 0 <= i < |frames| :: frames[i].None?
    ensures id.Some? ==>
      exists i | 0 <= i < |frames| ::
        frames[i].Some? && id.value == frames[i].value.identity &&
        forall j | 0 <= j < i :: frames[j].None?
  {
    var d := Detected(frames);
    if d == [] then None else Some(frames[d[0]].value.identity)
  }

  /** The raw motion sequence is empty exactly when no frame has a detection. */
  lemma NoMotionWithoutDetection(frames: seq<Frame>)
    requires WellShapedVideo(frames)
    ensures RawMotion(frames) == [] <==> forall i | 0 <= i < |frames| :: frames[i].None?
  {
    if exists i | 0 <= i < |frames| :: frames[i].Some? {
      var i :| 0 <= i < |frames| && frames[i].Some?;
      assert i in Detected(frames);
    }
  }

  /** If i is the first detected frame, the detected indices start at i. */
  lemma DetectedStartsAt(frames: seq<Frame>, i: nat)
    requires i < |frames| && frames[i].Some?
    requires forall j | 0 <= j < i :: frames[j].None?
    ensures Detected(frames) != [] && Detected(frames)[0] == i
  {
  }

  /** Once captured, the identity vector is never overwritten by later frames. */
  lemma FirstIdentityStable(prefix: seq<Frame>, rest: seq<Frame>)
    requires FirstIdentity(prefix).Some?
    ensures FirstIdentity(prefix + rest) == FirstIdentity(prefix)
  {
    var i :| 0 <= i < |prefix| && prefix[i].Some? &&
      FirstIdentity(prefix).value == prefix[i].value.identity &&
      forall j | 0 <= j < i :: prefix[j].None?;
    var all := prefix + rest;
    assert forall j | 0 <= j < i :: all[j] == prefix[j];
    DetectedStartsAt(all, i);
    DetectedStartsAt(prefix, i);
  }

  /** When every frame has a detection, nothing is dropped: one row per frame. */
  lemma {:induction false} AllDetected(frames: seq<Frame>)
    requires forall i | 0 <= i < |frames| :: frames[i].Some?
    ensures Detected(frames) == seq(|frames|, i requires 0 <= i < |frames| => i)
  {
    if frames != [] {
      AllDetected(frames[..|frames| - 1]);
    }
  }

  /** Consuming frame i extends the detected indices by i when frame i has a detection. */
  lemma DetectedStep(frames: seq<Frame>, i: nat)
    requires i < |frames|
    ensures Detected(frames[..i + 1]) == Detected(frames[..i]) + (if frames[i].Some? then [i] else [])
  {
    assert frames[..i + 1][..i] == frames[..i];
  }

  /** Consuming frame i: the loop body's effect on the raw rows and the identity. */
  lemma ExtractStep(frames: seq<Frame>, i: nat)
    requires WellShapedVideo(frames) && i < |frames|
    ensures WellShapedVideo(frames[..i]) && WellShapedVideo(frames[..i + 1])
    ensures RawMotion(frames[..i + 1]) == RawMotion(frames[..i]) +
      (if frames[i].Some? then [LipMotion(frames[i].value.expression)] else [])
    ensures FirstIdentity(frames[..i + 1]) ==
      if FirstIdentity(frames[..i]).Some? then FirstIdentity(frames[..i])
      else if frames[i].Some? then Some(frames[i].value.identity)
      else None
  {
    var before, after := frames[..i], frames[..i + 1];
    DetectedStep(frames, i);
    var d, e := Detected(before), Detected(after);
    var extra := if frames[i].Some? then [LipMotion(frames[i].value.expression)] else [];
    var lhs, rhs := RawMotion(after), RawMotion(before) + extra;
    assert |lhs| == |rhs|;
    forall k | 0 <= k < |lhs| ensures lhs[k] == rhs[k] {
      if k < |d| {
        assert e[k] == d[k];
        assert after[e[k]] == before[d[k]];
      }
    }
  }

  /**
   * extract_features: walk the frames, skip those without a detection,
   * capture the identity vector at the first detection only, append one
   * lip-motion row per detection, then normalise (an empty sequence is
   * returned as is, with no identity).
   */
  method ExtractFeatures(frames: seq<Frame>) returns (motion: Matrix, identity: Option<Vector>)
    requires WellShapedVideo(frames)
    ensures motion == Normalize(RawMotion(frames))
    ensures identity == FirstIdentity(frames)
    ensures |motion| == |Detected(frames)| <= |frames|
    ensures (forall i | 0 <= i < |frames| :: frames[i].None?) ==> motion == [] && identity == None
  {
    var raw: Matrix := [];
    identity := None;
    var i := 0;
    while i < |frames|
      invariant 0 <= i <= |frames|
      invariant WellShapedVideo(frames[..i])
      invariant raw == RawMotion(frames[..i])
      invariant identity == FirstIdentity(frames[..i])
    {
      ExtractStep(frames, i);
      var frame := frames[i];
      if frame.Some? {
        var detection := frame.value;
        if identity.None? {
          identity := Some(detection.identity);
        }
        raw := raw + [LipMotion(detection.expression)];
      }
      i := i + 1;
    }
    assert frames[..i] == frames;
    NoMotionWithoutDetection(frames);
    if |raw| == 0 {
      return [], None;
    }
    motion := Normalize(raw);
  }
}
