/**
 * Post-processing around the face detector: the brightening pass over an RGBA
 * pixel buffer, the choice of the best of several detection attempts, and the
 * assignment of `face-<index>` ids. The detector itself is foreign code; each
 * attempt is represented by its outcome.
 */
module FaceDetection {

  datatype Option<T> = None | Some(value: T)

  /** An axis-aligned bounding box in natural image coordinates. */
  datatype Box = Box(x: real, y: real, width: real, height: real)

  /** What the detector reports for one face (a box and a confidence score). */
  datatype Detection = Detection(box: Box, score: real)

  /**
   * A face the application works with. `detection` is `None` for a face added
   * by hand, which carries an empty placeholder instead of a detector result.
   */
  datatype DetectedFace = DetectedFace(id: string, box: Box, detection: Option<Detection>)

  // ---------------------------------------------------------------------------
  // Brightening pass

  /** One element of a `Uint8ClampedArray`. */
  newtype byte = x: int | 0 <= x < 256

  /**
   * The channel value written back for `v`: `v * 1.2 + 20` clamped to [0, 255]
   * and stored into a `Uint8ClampedArray`, which rounds to the nearest integer.
   * The exact value is (6v + 100) / 5, whose fractional part is a multiple of
   * 0.2, so rounding never meets a tie.
   */
  function Enhance(v: byte): (r: byte)
    ensures v <= r
    ensures v >= 196 ==> r == 255
    ensures v < 196 ==> -5 < 10 * (r as int) - (12 * (v as int) + 200) < 5
  {
    var rounded := (12 * (v as int) + 205) / 10;
    if rounded > 255 then 255 else rounded as byte
  }

  /** The value the pass leaves at offset `k` of the buffer: alpha (offset 3 of a
      pixel) is kept, red, green and blue are enhanced. */
  function ChannelAfter(v: byte, k: nat): byte {
    if k % 4 == 3 then v else Enhance(v)
  }

  /** The buffer after the brightening pass. */
  function Brightened(data: seq<byte>): (r: seq<byte>)
    ensures |r| == |data|
    ensures forall k :: 0 <= k < |data| && k % 4 == 3 ==> r[k] == data[k]
    ensures forall k :: 0 <= k < |data| ==> data[k] <= r[k]
  {
    seq(|data|, k requires 0 <= k < |data| => ChannelAfter(data[k], k))
  }

  /** Brightening preserves the order of channel values. */
  lemma EnhanceMonotone(v: byte, w: byte)
    requires v <= w
    ensures Enhance(v) <= Enhance(w)
  {
    assert (12 * (v as int) + 205) / 10 <= (12 * (w as int) + 205) / 10;
  }

  /**
   * The pixel loop of `preprocessImage`: stride 4 over an RGBA buffer whose
   * length is a multiple of 4 (as every `ImageData` buffer is), rewriting
   * offsets i, i+1 and i+2 in place.
   */
  method PreprocessImage(data: array<byte>)
    requires data.Length % 4 == 0
    modifies data
    ensures data[..] == Brightened(old(data[..]))
  {
    var i := 0;
    while i < data.Length
      invariant 0 <= i <= data.Length && i % 4 == 0
      invariant forall k :: 0 <= k < i ==> data[k] == ChannelAfter(old(data[k]), k)
      invariant forall k :: i <= k < data.Length ==> data[k] == old(data[k])
    {
      data[i] := Enhance(data[i]);
      data[i + 1] := Enhance(data[i + 1]);
      data[i + 2] := Enhance(data[i + 2]);
      i := i + 4;
    }
  }

  // ---------------------------------------------------------------------------
  // Best of several detection attempts

  /** What one detection attempt produced: it threw, or it returned detections. */
  datatype Outcome = Failed | Found(detections: seq<Detection>)

  /** Number of faces after which no further attempt is made. */
  const EarlyStopCount: nat := 5

  function FoundCount(o: Outcome): nat {
    if o.Found? then |o.detections| else 0
  }

  /**
   * The attempt loop of `detectFaces`. A later attempt replaces the best result
   * only when it found strictly more faces; a failed attempt is skipped; the
   * loop stops right after the first attempt that found at least 5 faces.
   * `tried` is the number of attempts that were run.
   */
  method SelectBestDetections(outcomes: seq<Outcome>) returns (best: seq<Detection>, tried: nat)
    ensures tried <= |outcomes| && (|outcomes| > 0 ==> tried > 0)
    ensures forall k :: 0 <= k < tried - 1 ==> FoundCount(outcomes[k]) < EarlyStopCount
    ensures tried < |outcomes| ==> FoundCount(outcomes[tried - 1]) >= EarlyStopCount
    ensures forall k :: 0 <= k < tried ==> FoundCount(outcomes[k]) <= |best|
    ensures |best| > 0 ==>
              exists w :: 0 <= w < tried && outcomes[w] == Found(best)
                          && forall k :: 0 <= k < w ==> FoundCount(outcomes[k]) < |best|
    ensures (forall k :: 0 <= k < |outcomes| ==> FoundCount(outcomes[k]) == 0) ==> best == []
  {
    best := [];
    var i := 0;
    while i < |outcomes|
      invariant 0 <= i <= |outcomes|
      invariant forall k :: 0 <= k < i ==> FoundCount(outcomes[k]) < EarlyStopCount
      invariant forall k :: 0 <= k < i ==> FoundCount(outcomes[k]) <= |best|
      invariant |best| > 0 ==>
                  exists w :: 0 <= w < i && outcomes[w] == Found(best)
                              && forall k :: 0 <= k < w ==> FoundCount(outcomes[k]) < |best|
    {
      if outcomes[i].Failed? {
        i := i + 1;
        continue;
      }
      var detections := outcomes[i].detections;
      if |detections| > |best| {
        best := detections;
      }
      if |detections| >= EarlyStopCount {
        i := i + 1;
        break;
      }
      i := i + 1;
    }
    tried := i;
  }

  // ---------------------------------------------------------------------------
  // Ids

  function DigitChar(d: nat): char
    requires d < 10
  {
    (48 + d) as char
  }

  /** The decimal text of `n`, as a template literal renders a number. */
  function NatToString(n: nat): (s: string)
    ensures |s| >= 1
    ensures n >= 10 <==> |s| >= 2
    ensures forall k :: 0 <= k < |s| ==> '0' <= s[k] <= '9'
  {
    if n < 10 then [DigitChar(n)] else NatToString(n / 10) + [DigitChar(n % 10)]
  }

  /** Different numbers have different decimal texts. */
  lemma {:induction false} NatToStringInjective(a: nat, b: nat)
    requires NatToString(a) == NatToString(b)
    ensures a == b
  {
    var s := NatToString(a);
    if a >= 10 && b >= 10 {
      assert s[..|s| - 1] == NatToString(a / 10) == NatToString(b / 10);
      NatToStringInjective(a / 10, b / 10);
      assert DigitChar(a % 10) == s[|s| - 1] == DigitChar(b % 10);
    } else if a < 10 && b < 10 {
      assert DigitChar(a) == s[0] == DigitChar(b);
    }
  }

  /** The id `face-<index>` given to the detection at `index`. */
  function FaceId(index: nat): (id: string)
    ensures |id| > 5 && id[..5] == "face-"
    ensures forall k :: 5 <= k < |id| ==> '0' <= id[k] <= '9'
  {
    "face-" + NatToString(index)
  }

  lemma FaceIdInjective(i: nat, j: nat)
    requires i != j
    ensures FaceId(i) != FaceId(j)
  {
    if FaceId(i) == FaceId(j) {
      assert NatToString(i) == FaceId(i)[5..] == FaceId(j)[5..] == NatToString(j);
      NatToStringInjective(i, j);
    }
  }

  /**
   * The final `map` of `detectFaces`: one face per detection, in order, with id
   * `face-<index>` and the detection's box copied.
   */
  function ToDetectedFaces(best: seq<Detection>): (faces: seq<DetectedFace>)
    ensures |faces| == |best|
    ensures forall i :: 0 <= i < |best| ==>
              faces[i].id == FaceId(i) && faces[i].box == best[i].box && faces[i].detection == Some(best[i])
  {
    seq(|best|, i requires 0 <= i < |best| => DetectedFace(FaceId(i), best[i].box, Some(best[i])))
  }

  /** The ids handed out by `detectFaces` are pairwise distinct. */
  lemma DetectedFaceIdsDistinct(best: seq<Detection>)
    ensures forall i, j :: 0 <= i < j < |best| ==> ToDetectedFaces(best)[i].id != ToDetectedFaces(best)[j].id
  {
    var faces := ToDetectedFaces(best);
    forall i, j | 0 <= i < j < |best|
      ensures faces[i].id != faces[j].id
    {
      FaceIdInjective(i, j);
    }
  }

  /**
   * `detectFaces` after the detector calls: the best attempt's detections as
   * faces with distinct ids. The chosen attempt was run (no earlier attempt
   * stopped the loop) and is the earliest one with that many faces. No faces
   * at all when every attempt failed or found nothing.
   */
  method DetectFaces(outcomes: seq<Outcome>) returns (faces: seq<DetectedFace>)
    ensures (forall k :: 0 <= k < |outcomes| ==> FoundCount(outcomes[k]) == 0) ==> faces == []
    ensures forall i, j :: 0 <= i < j < |faces| ==> faces[i].id != faces[j].id
    ensures |faces| > 0 ==>
              exists w :: && 0 <= w < |outcomes| && outcomes[w].Found?
                          && faces == ToDetectedFaces(outcomes[w].detections)
                          && (forall m :: 0 <= m < w ==> FoundCount(outcomes[m]) < EarlyStopCount)
                          && (forall m :: 0 <= m < w ==> FoundCount(outcomes[m]) < |faces|)
    ensures forall k :: 0 <= k < |outcomes| && (forall m :: 0 <= m < k ==> FoundCount(outcomes[m]) < EarlyStopCount)
              ==> FoundCount(outcomes[k]) <= |faces|
  {
    var best, tried := SelectBestDetections(outcomes);
    faces := ToDetectedFaces(best);
    DetectedFaceIdsDistinct(best);
    if |best| > 0 {
      var w :| 0 <= w < tried && outcomes[w] == Found(best)
               && forall k :: 0 <= k < w ==> FoundCount(outcomes[k]) < |best|;
      assert forall m :: 0 <= m < w ==> FoundCount(outcomes[m]) < EarlyStopCount;
    }
  }
}
