/**
 * The acquisition hand-off buffer (`publishImage` and the locked section of
 * `run`, src/camera_driver.cpp:445-480), the pixel format lookup
 * (`flir_to_ros_encoding`, 482-499) and the drop ratio of the status report
 * (161-165), as values. The buffer holds at most two frames; a frame offered to
 * a full buffer is dropped and counted, and the consumer takes the NEWEST
 * frame (`back()` then `pop_back()`), so the buffer behaves as a stack.
 */
module Acquisition {
  import opened Wrappers

  /** The pixel formats the driver reports; formats this code does not name are `OtherFormat`. */
  datatype PixelFormat = BayerRG8 | RGB8 | Mono8 | InvalidFormat | OtherFormat(code: nat)

  /** A captured image with its per-capture metadata (the pixel data itself is not modelled). */
  datatype Frame = Frame(
    pixelFormat: PixelFormat, imageTime: int, width: nat, height: nat, stride: nat,
    brightness: int, exposureTime: int, maxExposureTime: int, gain: real)

  const QueueCapacity: nat := 2

  /** `imageQueue_` and `droppedCount_`. */
  datatype QueueState = QueueState(frames: seq<Frame>, dropped: nat)

  const EmptyQueue := QueueState([], 0)

  /** `publishImage`: append when fewer than two frames wait, otherwise count a drop. */
  function Offer(s: QueueState, im: Frame): (r: QueueState)
    ensures |s.frames| <= QueueCapacity ==> |r.frames| <= QueueCapacity
    ensures |r.frames| + r.dropped == |s.frames| + s.dropped + 1
    ensures |s.frames| <= |r.frames| && r.frames[..|s.frames|] == s.frames
    ensures r.dropped == s.dropped || r.frames == s.frames
  {
    if |s.frames| < QueueCapacity then QueueState(s.frames + [im], s.dropped)
    else QueueState(s.frames, s.dropped + 1)
  }

  /** The locked section of `run`: take the most recently inserted frame, if there is one. */
  function Take(s: QueueState): (r: (Option<Frame>, QueueState))
    ensures r.0.None? <==> s.frames == []
    ensures r.0.None? ==> r.1 == s
    ensures r.0.Some? ==> r.1.frames + [r.0.value] == s.frames
    ensures r.1.dropped == s.dropped
  {
    if s.frames == [] then (None, s)
    else (Some(s.frames[|s.frames| - 1]), QueueState(s.frames[..|s.frames| - 1], s.dropped))
  }

  /**
   * One offer: below capacity the frame is appended after the waiting ones;
   * at capacity the frames stay as they are and one more drop is counted.
   */
  lemma OfferEffect(s: QueueState, im: Frame)
    ensures |s.frames| < QueueCapacity ==> Offer(s, im) == QueueState(s.frames + [im], s.dropped)
    ensures |s.frames| >= QueueCapacity ==> Offer(s, im) == QueueState(s.frames, s.dropped + 1)
  {
  }

  /** Taking right after an accepted offer gives back the offered frame and the state before it. */
  lemma TakeUndoesOffer(s: QueueState, im: Frame)
    requires |s.frames| < QueueCapacity
    ensures Take(Offer(s, im)) == (Some(im), s)
  {
    assert (s.frames + [im])[..|s.frames|] == s.frames;
  }

  /** Offering frames one after another, as the capture callback does. */
  function OfferAll(s: QueueState, ims: seq<Frame>): QueueState
    decreases |ims|
  {
    if ims == [] then s else OfferAll(Offer(s, ims[0]), ims[1..])
  }

  /**
   * After a run of offers the buffer holds the old frames and then the first
   * offered ones that fit; every other offered frame is counted as dropped.
   */
  lemma {:induction false} OfferAllEffect(s: QueueState, ims: seq<Frame>)
    requires |s.frames| <= QueueCapacity
    ensures var k := if |ims| < QueueCapacity - |s.frames| then |ims| else QueueCapacity - |s.frames|;
      && OfferAll(s, ims).frames == s.frames + ims[..k]
      && OfferAll(s, ims).dropped == s.dropped + |ims| - k
    decreases |ims|
  {
    if ims != [] {
      var s' := Offer(s, ims[0]);
      OfferAllEffect(s', ims[1..]);
      if |s.frames| < QueueCapacity {
        assert s.frames + ims[..1] == s'.frames;
        var k' := if |ims| - 1 < QueueCapacity - |s'.frames| then |ims| - 1 else QueueCapacity - |s'.frames|;
        assert ims[..1] + ims[1..][..k'] == ims[..k' + 1];
      } else {
        assert ims[..0] == [] && ims[1..][..0] == [];
      }
    }
  }

  /** Once the buffer is full, further offers only raise the drop count. */
  lemma FullQueueDrops(s: QueueState, ims: seq<Frame>)
    requires |s.frames| == QueueCapacity
    ensures OfferAll(s, ims) == QueueState(s.frames, s.dropped + |ims|)
  {
    OfferAllEffect(s, ims);
    assert ims[..0] == [];
  }

  /** Frames A then B, taken twice: B comes out first, then A, then nothing. */
  lemma StackOrder(a: Frame, b: Frame)
    ensures var s := OfferAll(EmptyQueue, [a, b]);
      && Take(s).0 == Some(b)
      && Take(Take(s).1).0 == Some(a)
      && Take(Take(Take(s).1).1).0 == None
  {
    OfferAllEffect(EmptyQueue, [a, b]);
    var s := OfferAll(EmptyQueue, [a, b]);
    assert s.frames == [a, b];
  }

  /**
   * Three frames arriving before the consumer wakes: the third is dropped, and
   * the consumer then receives the second before the first.
   */
  lemma OverloadScenario(f1: Frame, f2: Frame, f3: Frame)
    ensures var s := OfferAll(EmptyQueue, [f1, f2, f3]);
      && s == QueueState([f1, f2], 1)
      && Take(s).0 == Some(f2)
      && Take(Take(s).1).0 == Some(f1)
  {
    OfferAllEffect(EmptyQueue, [f1, f2, f3]);
    assert [f1, f2, f3][..2] == [f1, f2];
  }

  // ----- Pixel format lookup -----

  const BayerRggb8Encoding := "bayer_rggb8"
  const Rgb8Encoding := "rgb8"
  const Mono8Encoding := "mono8"
  const InvalidEncoding := "INVALID"

  /** `flir_to_ros_encoding`: three formats have an encoding, every other format is "INVALID". */
  function RosEncoding(pf: PixelFormat): (e: string)
    ensures e == InvalidEncoding <==> !(pf.BayerRG8? || pf.RGB8? || pf.Mono8?)
  {
    match pf
    case BayerRG8 => BayerRggb8Encoding
    case RGB8 => Rgb8Encoding
    case Mono8 => Mono8Encoding
    case _ => InvalidEncoding
  }

  /** The format an encoding string names, if any. */
  function PixelFormatOf(e: string): Option<PixelFormat> {
    if e == BayerRggb8Encoding then Some(BayerRG8)
    else if e == Rgb8Encoding then Some(RGB8)
    else if e == Mono8Encoding then Some(Mono8)
    else None
  }

  /** The lookup is one-to-one on the formats it knows, and nothing else gets a real encoding. */
  lemma EncodingRoundTrip(pf: PixelFormat)
    ensures RosEncoding(pf) != InvalidEncoding ==> PixelFormatOf(RosEncoding(pf)) == Some(pf)
    ensures RosEncoding(pf) == InvalidEncoding ==> PixelFormatOf(RosEncoding(pf)) == None
  {
  }

  // ----- Status counters -----

  /** The drop ratio of a report: dropped per published frame, 0 when nothing was published. */
  function DropRate(dropped: nat, published: nat): (r: real)
    ensures r >= 0.0
    ensures published > 0 ==> r * (published as real) == dropped as real
    ensures published == 0 ==> r == 0.0
  {
    if published > 0 then (dropped as real) / (published as real) else 0.0
  }

  /** One frame dropped against two published is a drop ratio of one half. */
  lemma DropRateExample()
    ensures DropRate(1, 2) == 0.5
  {
  }
}
