/**
 * Block sizing and the linear-interpolation resampler of the playback backend
 * (src/spc_player.js, `initialize` and `getSample`).
 *
 * The decoder produces interleaved stereo 16-bit frames at 32000 Hz; the output
 * device wants BlockLength frames per channel at its own rate. Output index `i`
 * sits at source offset `ratio * i`, and its value interpolates the two frames
 * around that offset. Numbers are exact reals here, not IEEE doubles.
 */
module Resampler {

  /** The decoder's native rate, in frames per second. */
  const SourceRate: real := 32000.0

  /** Frames per channel in one output block (the script processor's buffer size). */
  const BlockLength: nat := 16384

  /** Divisor that maps a decoded sample into the output graph's floating range. */
  const FullScale: real := 32000.0

  /** Number of interleaved channels in a decoded frame. */
  const Channels: nat := 2

  predicate IsShort(x: int) {
    -32768 <= x <= 32767
  }

  /** Every value of `s` fits a signed 16-bit sample, as `Module.HEAP16` holds them. */
  predicate IsPcm(s: seq<int>) {
    forall k :: 0 <= k < |s| ==> IsShort(s[k])
  }

  /** `x` lies between `a` and `b`, whichever of the two is smaller. */
  predicate Between(x: real, a: real, b: real) {
    (a <= x <= b) || (b <= x <= a)
  }

  /** Source frames consumed per output frame: `rateRatio` of the backend. */
  function RateRatio(sampleRate: real): (ratio: real)
    requires sampleRate > 0.0
    ensures ratio > 0.0
  {
    SourceRate / sampleRate
  }

  /** The source position of output index `index`. */
  function Offset(ratio: real, index: nat): real {
    ratio * index as real
  }

  /** The frame just at or before the source position (`bufferOffset`). */
  function Frame(ratio: real, index: nat): int {
    Offset(ratio, index).Floor
  }

  /** Weight of the following frame (`high`); the frame itself gets `1 - high`. */
  function Frac(ratio: real, index: nat): (t: real)
    ensures 0.0 <= t < 1.0
  {
    Offset(ratio, index) - Frame(ratio, index) as real
  }

  function Lerp(low: real, high: real, t: real): real {
    low * (1.0 - t) + high * t
  }

  lemma LerpBetween(low: real, high: real, t: real)
    requires 0.0 <= t < 1.0
    ensures Between(Lerp(low, high, t), low, high)
    ensures t == 0.0 ==> Lerp(low, high, t) == low
  {
    var d := high - low;
    assert Lerp(low, high, t) == low + d * t;
    var u := 1.0 - t;
    assert d * t + d * u == d;
    if d >= 0.0 {
      ProductNonNegative(d, t);
      ProductNonNegative(d, u);
    } else {
      ProductNonNegative(-d, t);
      ProductNonNegative(-d, u);
    }
  }

  lemma ProductNonNegative(a: real, b: real)
    requires a >= 0.0 && b >= 0.0
    ensures a * b >= 0.0
  {
  }

  lemma FloorMonotone(x: real, y: real)
    requires x <= y
    ensures x.Floor <= y.Floor
  {
  }

  lemma FrameNonNegative(ratio: real, index: nat)
    requires ratio > 0.0
    ensures Frame(ratio, index) >= 0
  {
    assert Offset(ratio, index) >= 0.0;
  }

  /** Bounds the frame of any index inside the block by the frame at index BlockLength - 1. */
  lemma FrameInBlock(ratio: real, index: nat)
    requires ratio > 0.0 && index < BlockLength
    ensures 0 <= Frame(ratio, index) <= Frame(ratio, BlockLength - 1)
    ensures Frame(ratio, BlockLength - 1) <= (BlockLength as real * ratio).Floor
  {
    FrameNonNegative(ratio, index);
    assert Offset(ratio, index) <= Offset(ratio, BlockLength - 1) by {
      assert ratio * index as real <= ratio * (BlockLength - 1) as real;
    }
    FloorMonotone(Offset(ratio, index), Offset(ratio, BlockLength - 1));
    FloorMonotone(Offset(ratio, BlockLength - 1), BlockLength as real * ratio);
  }

  datatype SampleResult = Ok(value: real) | RangeError(channel: nat, index: nat)

  // ---------------------------------------------------------------------------
  // The code as written: sizing at lines 62-63, guard at line 161, frames read
  // from the native heap at lines 169-170.
  // ---------------------------------------------------------------------------

  /** Frames per channel decoded per block, as `initialize` sizes it. */
  function LastSampleAsWritten(ratio: real): (n: int)
    requires ratio > 0.0
    ensures n >= 1
  {
    1 + (BlockLength as real * ratio).Floor
  }

  /**
   * `getSample` as written: reads the native heap `heap` whose block begins at
   * short index `base` (`bufferPointer / 2`). The heap is required to extend one
   * frame beyond the block, so that every read the guard lets through exists.
   */
  function GetSampleAsWritten(heap: seq<int>, base: nat, ratio: real, lastSample: nat, channel: nat, index: nat): (r: SampleResult)
    requires ratio > 0.0 && channel < Channels
    requires base + 2 * lastSample + 2 <= |heap|
    ensures r.RangeError? <==> Frame(ratio, index) + 1 > lastSample
    ensures r.RangeError? ==> r == RangeError(channel, index)
    ensures r.Ok? ==> Between(r.value, heap[base + 2 * Frame(ratio, index) + channel] as real,
                                        heap[base + 2 * (Frame(ratio, index) + 1) + channel] as real)
  {
    var b := Frame(ratio, index);
    FrameNonNegative(ratio, index);
    if b + 1 > lastSample then
      RangeError(channel, index)
    else
      LerpBetween(heap[base + 2 * b + channel] as real, heap[base + 2 * (b + 1) + channel] as real, Frac(ratio, index));
      Ok(Lerp(heap[base + 2 * b + channel] as real, heap[base + 2 * (b + 1) + channel] as real, Frac(ratio, index)))
  }

  /** The guard at line 161 never fires during a block fill, with the block sized as written. */
  lemma AsWrittenGuardNeverFires(ratio: real, index: nat)
    requires ratio > 0.0 && index < BlockLength
    ensures 0 <= Frame(ratio, index) && Frame(ratio, index) + 1 <= LastSampleAsWritten(ratio)
  {
    FrameInBlock(ratio, index);
  }

  /** When the device rate is at most 32000 Hz the frames read by a block fill are all written ones. */
  lemma AsWrittenInBlockForSlowDevices(ratio: real, index: nat)
    requires ratio >= 1.0 && index < BlockLength
    ensures Frame(ratio, index) + 1 < LastSampleAsWritten(ratio)
  {
    FrameInBlock(ratio, index);
    var last := (BlockLength - 1) as real * ratio;
    assert BlockLength as real * ratio == last + ratio;
    FloorMonotone(last + 1.0, last + ratio);
    assert (last + 1.0).Floor == last.Floor + 1;
  }

  /**
   * At 192000 Hz (ratio 1/6) the last output index reads frame `lastSample`,
   * which is past the `lastSample` frames the decoder writes, and weighs it by 1/2:
   * two heaps that agree on the whole written block give different samples.
   */
  lemma UnwrittenFrameRead()
    ensures var ratio := RateRatio(192000.0);
            var last := LastSampleAsWritten(ratio);
            && last == 2731
            && Frame(ratio, BlockLength - 1) + 1 == last
            && Frac(ratio, BlockLength - 1) == 0.5
            && var quiet := seq(2 * last + 2, k => 0);
               var noisy := quiet[2 * last := 2];
               && quiet[..2 * last] == noisy[..2 * last]
               && GetSampleAsWritten(quiet, 0, ratio, last, 0, BlockLength - 1) == Ok(0.0)
               && GetSampleAsWritten(noisy, 0, ratio, last, 0, BlockLength - 1) == Ok(1.0)
  {
    var ratio := RateRatio(192000.0);
    assert ratio == 1.0 / 6.0;
    assert (BlockLength as real * ratio).Floor == 2730 by {
      assert BlockLength as real * ratio == 2730.0 + 4.0 / 6.0;
    }
    assert Offset(ratio, BlockLength - 1) == 2730.5;
    assert Frame(ratio, BlockLength - 1) == 2730;
    var last := LastSampleAsWritten(ratio);
    var quiet := seq(2 * last + 2, k => 0);
    var noisy := quiet[2 * last := 2];
    assert quiet[..2 * last] == noisy[..2 * last];
    assert noisy[2 * 2730] == 0 && noisy[2 * 2731] == 2;
  }

  // ---------------------------------------------------------------------------
  // The corrected resampler: one more frame decoded, and a guard that fires
  // exactly when the following frame was not written.
  // ---------------------------------------------------------------------------

  /** Frames per channel to decode so that every block fill reads only written frames. */
  function LastSample(ratio: real): (n: int)
    requires ratio > 0.0
    ensures n >= 2 && n == LastSampleAsWritten(ratio) + 1
  {
    2 + (BlockLength as real * ratio).Floor
  }

  /**
   * `getSample` over the decoded block `raw` (interleaved, `lastSample` frames):
   * fails exactly when frame `b + 1` is not in the block; otherwise the value
   * lies between frames `b` and `b + 1` and equals frame `b` at a whole offset.
   */
  function GetSample(raw: seq<int>, ratio: real, lastSample: nat, channel: nat, index: nat): (r: SampleResult)
    requires ratio > 0.0 && channel < Channels
    requires |raw| == 2 * lastSample
    ensures r.RangeError? <==> Frame(ratio, index) + 1 >= lastSample
    ensures r.RangeError? ==> r == RangeError(channel, index)
    ensures r.Ok? ==> 0 <= Frame(ratio, index) && Frame(ratio, index) + 1 < lastSample
    ensures r.Ok? ==> Between(r.value, raw[2 * Frame(ratio, index) + channel] as real,
                                        raw[2 * (Frame(ratio, index) + 1) + channel] as real)
    ensures r.Ok? && Frac(ratio, index) == 0.0 ==> r.value == raw[2 * Frame(ratio, index) + channel] as real
  {
    var b := Frame(ratio, index);
    FrameNonNegative(ratio, index);
    if b + 1 >= lastSample then
      RangeError(channel, index)
    else
      LerpBetween(raw[2 * b + channel] as real, raw[2 * (b + 1) + channel] as real, Frac(ratio, index));
      Ok(Lerp(raw[2 * b + channel] as real, raw[2 * (b + 1) + channel] as real, Frac(ratio, index)))
  }

  /** With the corrected sizing no index of a block fill makes GetSample fail. */
  lemma BlockFillInRange(raw: seq<int>, ratio: real, channel: nat, index: nat)
    requires ratio > 0.0 && channel < Channels && index < BlockLength
    requires |raw| == 2 * LastSample(ratio)
    ensures GetSample(raw, ratio, LastSample(ratio), channel, index).Ok?
  {
    FrameInBlock(ratio, index);
  }

  /** Where both read written frames, the corrected resampler agrees with the code as written. */
  lemma AgreesWithAsWritten(heap: seq<int>, base: nat, ratio: real, lastSample: nat, channel: nat, index: nat)
    requires ratio > 0.0 && channel < Channels
    requires base + 2 * lastSample + 2 <= |heap|
    requires Frame(ratio, index) + 1 < lastSample
    ensures GetSampleAsWritten(heap, base, ratio, lastSample, channel, index)
            == GetSample(heap[base .. base + 2 * lastSample], ratio, lastSample, channel, index)
  {
    FrameNonNegative(ratio, index);
    var raw := heap[base .. base + 2 * lastSample];
    var b := Frame(ratio, index);
    assert raw[2 * b + channel] == heap[base + 2 * b + channel];
    assert raw[2 * (b + 1) + channel] == heap[base + 2 * (b + 1) + channel];
  }

  /**
   * The value `playSPC` stores at `channelBuffers[channel][index]` for the block `raw`:
   * the resampled sample divided by 32000.
   */
  function BlockSample(raw: seq<int>, ratio: real, channel: nat, index: nat): (v: real)
    requires ratio > 0.0 && channel < Channels && index < BlockLength
    requires |raw| == 2 * LastSample(ratio) && IsPcm(raw)
    ensures -32768.0 / FullScale <= v <= 32767.0 / FullScale
  {
    BlockFillInRange(raw, ratio, channel, index);
    var s := GetSample(raw, ratio, LastSample(ratio), channel, index);
    var b := Frame(ratio, index);
    assert IsShort(raw[2 * b + channel]) && IsShort(raw[2 * (b + 1) + channel]);
    s.value / FullScale
  }

  /** A channel holding one value `c` in every frame resamples to `c / 32000` everywhere. */
  lemma ConstantChannel(raw: seq<int>, ratio: real, channel: nat, c: int, index: nat)
    requires ratio > 0.0 && channel < Channels && index < BlockLength
    requires |raw| == 2 * LastSample(ratio) && IsPcm(raw)
    requires forall f :: 0 <= f < LastSample(ratio) ==> raw[2 * f + channel] == c
    ensures BlockSample(raw, ratio, channel, index) == c as real / FullScale
  {
    BlockFillInRange(raw, ratio, channel, index);
    var b := Frame(ratio, index);
    assert raw[2 * b + channel] == c && raw[2 * (b + 1) + channel] == c;
  }
}
