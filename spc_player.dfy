/**
 * The playback backend `SMWCentral.SPCPlayer.Backend` (src/spc_player.js).
 *
 * One object owns the decoder's track copy, the decoded block, the two
 * resampled channel buffers and the double-buffering flag. The Web Audio
 * objects are reduced to what the backend reads and writes (see Context). The
 * native decoder is opaque: each call that makes it decode receives the
 * interleaved samples it produced as a parameter, and every request made of it
 * is recorded in the ghost `decoderLog`.
 */
module SpcPlayer {

  import opened Basics
  import opened Resampler

  /** Loudest gain the player allows. */
  const MaxGain: real := 1.5

  /** Exponential ramps cannot reach 0; ramp targets are floored here. */
  const RampFloor: real := 0.01

  /** Durations up to this many seconds are applied as an immediate step. */
  const StepThreshold: real := 0.02

  /** `Math.min(Math.max(x, lo), hi)`. */
  function Clamp(x: real, lo: real, hi: real): (r: real)
    requires lo <= hi
    ensures lo <= r <= hi
    ensures lo <= x <= hi ==> r == x
    ensures x < lo ==> r == lo
    ensures x > hi ==> r == hi
  {
    if x < lo then lo else if x > hi then hi else x
  }

  function Max(x: real, y: real): real {
    if x >= y then x else y
  }

  /** An `exponentialRampToValueAtTime` scheduled on the gain and not yet reached. */
  datatype Ramp = Ramp(target: real, endTime: real)

  /**
   * What the backend sees of its `AudioContext` and gain node: whether the
   * context is running (`state === "running"`), its `currentTime`, the gain's
   * current value, and the ramp in flight.
   */
  datatype Context = Context(running: bool, currentTime: real, gain: real, ramp: Option<Ramp>)

  /** The gain and any ramp target lie in the range the backend clamps to. */
  predicate GainInRange(c: Context) {
    && 0.0 <= c.gain <= MaxGain
    && (c.ramp.Some? ==> RampFloor <= c.ramp.value.target <= MaxGain)
  }

  /** What the backend asked of the opaque decoder, in order. */
  datatype DecoderCall = LoadTrack(handle: nat, size: nat) | Skip(seconds: real) | Play(shorts: nat)

  /**
   * What `setVolume(volume, duration)` does to the gain: a step to `volume`
   * clamped to [0, 1.5] when `duration` is at most 0.02 s, otherwise a ramp to
   * `volume` clamped to [0.01, 1.5] that ends `duration` seconds from now.
   */
  function VolumeSet(c: Context, volume: real, duration: real): (r: Context)
    ensures r.running == c.running && r.currentTime == c.currentTime
    ensures GainInRange(c) ==> GainInRange(r)
    ensures r.ramp.None? <==> duration <= StepThreshold
    ensures r.ramp.None? ==> r.gain == Clamp(volume, 0.0, MaxGain)
    ensures r.ramp.Some? ==> r.gain == c.gain && r.ramp.value == Ramp(Clamp(volume, RampFloor, MaxGain), c.currentTime + duration)
    ensures r.ramp.Some? ==> r.ramp.value.endTime > c.currentTime
  {
    if duration <= StepThreshold then c.(gain := Clamp(volume, 0.0, MaxGain), ramp := None)
    else c.(ramp := Some(Ramp(Clamp(volume, RampFloor, MaxGain), c.currentTime + duration)))
  }

  /**
   * A volume already in range is reached exactly, by the step or at the ramp's
   * end, except that a ramp towards silence stops at 0.01.
   */
  lemma VolumeSetReaches(c: Context, volume: real, duration: real)
    ensures duration <= StepThreshold && 0.0 <= volume <= MaxGain ==> VolumeSet(c, volume, duration).gain == volume
    ensures duration > StepThreshold && RampFloor <= volume <= MaxGain ==>
      VolumeSet(c, volume, duration).ramp == Some(Ramp(volume, c.currentTime + duration))
    ensures duration > StepThreshold && volume < RampFloor ==>
      VolumeSet(c, volume, duration).ramp == Some(Ramp(RampFloor, c.currentTime + duration))
  {
  }

  /**
   * Track copies are numbered 0, 1, ... in allocation order, `next` being the
   * next number: every one of them is either `live` or in `released`, and none
   * is released twice.
   */
  ghost predicate Accounted(released: seq<nat>, live: Option<nat>, next: nat) {
    && (forall k :: 0 <= k < |released| ==> released[k] < next)
    && (forall k, l :: 0 <= k < l < |released| ==> released[k] != released[l])
    && (live.Some? ==> live.value < next && live.value !in released)
    && |released| + (if live.Some? then 1 else 0) == next
  }

  /** Freeing the live copy keeps the account. */
  lemma AccountedAfterFree(released: seq<nat>, live: nat, next: nat)
    requires Accounted(released, Some(live), next)
    ensures Accounted(released + [live], None, next)
  {
  }

  /** Allocating the next copy when none is live keeps the account. */
  lemma AccountedAfterAllocate(released: seq<nat>, next: nat)
    requires Accounted(released, None, next)
    ensures Accounted(released, Some(next), next + 1)
  {
  }

  /** `buffers` holds the resampled block of `raw`, channel by channel. */
  ghost predicate Holds(buffers: array2<real>, raw: seq<int>, ratio: real)
    reads buffers
    requires buffers.Length0 == Channels && buffers.Length1 == BlockLength
    requires ratio > 0.0 && |raw| == 2 * LastSample(ratio) && IsPcm(raw)
  {
    forall c, i :: 0 <= c < Channels && 0 <= i < BlockLength ==>
      buffers[c, i] == BlockSample(raw, ratio, c, i)
  }

  class Backend {
    /**
     * The backend's readiness: 1 once the context exists, 0 before that, -2 when
     * the browser lacks Web Audio or WebAssembly, -1 once the native side has failed.
     */
    var status: int
    /** The context has not yet been resumed by a user gesture. */
    var locked: bool
    /** `context` (with `gainNode`), `null` until `initialize`. */
    var context: Option<Context>
    var rateRatio: real
    var lastSample: nat
    /** The block of `Module.HEAP16` at `bufferPointer`: `2 * lastSample` interleaved shorts. */
    var raw: seq<int>
    /** The native copy of the loaded track, named by its allocation number. */
    var spcPointer: Option<nat>
    /** Allocation number the next track copy gets. */
    var nextHandle: nat
    /** Two channels of BlockLength resampled values. */
    const channelBuffers: array2<real>
    /** A `setTimeout(playSPC, 0)` is armed (its id is `timeoutID`). */
    var pendingRefill: bool
    var hasNewChannelData: bool
    var startedAt: real
    /** The track copies freed so far, in order. */
    ghost var released: seq<nat>
    ghost var decoderLog: seq<DecoderCall>

    ghost predicate Valid()
      reads this, channelBuffers
    {
      && channelBuffers.Length0 == Channels && channelBuffers.Length1 == BlockLength
      && -2 <= status <= 1
      && context.Some? == (status == 1)
      && (context.Some? ==> rateRatio > 0.0 && lastSample == LastSample(rateRatio) && GainInRange(context.value))
      && |raw| == 2 * lastSample && IsPcm(raw)
      && (spcPointer.Some? ==> status == 1)
      && (pendingRefill ==> status == 1)
      && (hasNewChannelData ==> status == 1 && Holds(channelBuffers, raw, rateRatio))
      && Accounted(released, spcPointer, nextHandle)
    }

    constructor (supported: bool)
      ensures Valid() && fresh(channelBuffers)
      ensures status == (if supported then 0 else -2) && locked && context.None?
      ensures spcPointer.None? && !hasNewChannelData && !pendingRefill
      ensures nextHandle == 0 && released == [] && decoderLog == []
    {
      status := if supported then 0 else -2;
      locked := true;
      context := None;
      rateRatio := 0.0;
      lastSample := 0;
      raw := [];
      spcPointer := None;
      nextHandle := 0;
      channelBuffers := new real[Channels, BlockLength];
      pendingRefill := false;
      hasNewChannelData := false;
      startedAt := 0.0;
      released := [];
      decoderLog := [];
    }

    /**
     * Creates the context at the device's `sampleRate` and sizes the block; does
     * nothing unless the status is 0. Whether a new context starts out running
     * is the browser's choice.
     */
    method Initialize(sampleRate: real, startsRunning: bool)
      requires Valid() && sampleRate > 0.0
      modifies this
      ensures Valid()
      ensures old(status) != 0 ==> unchanged(this)
      ensures old(status) == 0 ==>
        && status == 1 && context == Some(Context(startsRunning, 0.0, 1.0, None))
        && rateRatio == RateRatio(sampleRate) && lastSample == LastSample(rateRatio)
      ensures locked == old(locked) && startedAt == old(startedAt)
      ensures spcPointer == old(spcPointer) && nextHandle == old(nextHandle) && released == old(released)
      ensures hasNewChannelData == old(hasNewChannelData) && pendingRefill == old(pendingRefill)
      ensures decoderLog == old(decoderLog)
    {
      if status != 0 {
        return;
      }
      var ratio := RateRatio(sampleRate);
      var frames := LastSample(ratio);
      context, rateRatio, lastSample, raw, status :=
        Some(Context(startsRunning, 0.0, 1.0, None)), ratio, frames, seq(2 * frames, k => 0), 1;
    }

    /** The playback clock: context time since the (seek-adjusted) start; 0 without a context. */
    function GetTime(): (t: real)
      reads this
      ensures context.None? ==> t == 0.0
      ensures context.Some? ==> startedAt + t == context.value.currentTime
    {
      if context.Some? then context.value.currentTime - startedAt else 0.0
    }

    /** Every field but the context keeps its value. */
    twostate predicate OnlyContextChanged()
      reads this
    {
      && status == old(status) && locked == old(locked) && startedAt == old(startedAt)
      && rateRatio == old(rateRatio) && lastSample == old(lastSample) && raw == old(raw)
      && spcPointer == old(spcPointer) && nextHandle == old(nextHandle) && released == old(released)
      && hasNewChannelData == old(hasNewChannelData) && pendingRefill == old(pendingRefill)
      && decoderLog == old(decoderLog)
    }

    /** The current gain clamped to [0, 1.5]; 1 while there is no gain node. */
    function GetVolume(): (v: real)
      reads this
      ensures 0.0 <= v <= MaxGain
      ensures context.None? ==> v == 1.0
      ensures context.Some? && GainInRange(context.value) ==> v == context.value.gain
    {
      if context.None? then 1.0 else Clamp(context.value.gain, 0.0, MaxGain)
    }

    /** `setVolume`: see VolumeSet. Does nothing without a gain node. */
    method SetVolume(volume: real, duration: real)
      requires Valid()
      modifies this
      ensures Valid()
      ensures old(context).None? ==> unchanged(this)
      ensures context == if old(context).Some? then Some(VolumeSet(old(context).value, volume, duration)) else None
      ensures OnlyContextChanged()
    {
      if context.None? {
        return;
      }
      context := Some(VolumeSet(context.value, volume, duration));
    }

    /** `context.suspend()`: the clock stops. */
    method Pause()
      requires Valid()
      modifies this
      ensures Valid()
      ensures context == (if old(context).Some? then Some(old(context).value.(running := false)) else None)
      ensures GetTime() == old(GetTime())
      ensures OnlyContextChanged()
    {
      if context.Some? {
        context := Some(context.value.(running := false));
      }
    }

    /** `context.resume()`: the clock goes on from where it stopped. */
    method Resume()
      requires Valid()
      modifies this
      ensures Valid()
      ensures context == (if old(context).Some? then Some(old(context).value.(running := true)) else None)
      ensures GetTime() == old(GetTime())
      ensures OnlyContextChanged()
    {
      if context.Some? {
        context := Some(context.value.(running := true));
      }
    }

    /** The first user gesture resumes the context, once. */
    method Unlock()
      requires Valid()
      modifies this
      ensures Valid()
      ensures old(locked) && old(context).Some? ==>
        !locked && context == Some(old(context).value.(running := true))
      ensures !(old(locked) && old(context).Some?) ==> unchanged(this)
      ensures status == old(status) && startedAt == old(startedAt)
      ensures rateRatio == old(rateRatio) && lastSample == old(lastSample) && raw == old(raw)
      ensures spcPointer == old(spcPointer) && nextHandle == old(nextHandle) && released == old(released)
      ensures hasNewChannelData == old(hasNewChannelData) && pendingRefill == old(pendingRefill)
      ensures decoderLog == old(decoderLog)
    {
      if locked && context.Some? {
        Resume();
        locked := false;
      }
    }

    /**
     * Frees the native track copy if there is one and forgets it, pausing first
     * when `pause`. A second call frees nothing.
     */
    method StopSPC(pause: bool)
      requires Valid()
      modifies this
      ensures Valid()
      ensures spcPointer.None?
      ensures released == old(released) + (if old(spcPointer).Some? then [old(spcPointer).value] else [])
      ensures context == (if pause && old(context).Some? then Some(old(context).value.(running := false))
                          else old(context))
      ensures GetTime() == old(GetTime())
      ensures status == old(status) && locked == old(locked) && startedAt == old(startedAt)
      ensures rateRatio == old(rateRatio) && lastSample == old(lastSample) && raw == old(raw)
      ensures nextHandle == old(nextHandle)
      ensures hasNewChannelData == old(hasNewChannelData) && pendingRefill == old(pendingRefill)
      ensures decoderLog == old(decoderLog)
    {
      if pause {
        Pause();
      }
      if spcPointer.Some? {
        AccountedAfterFree(released, spcPointer.value, nextHandle);
        released := released + [spcPointer.value];
        spcPointer := None;
      }
    }

    /**
     * Decodes one block and resamples it into both channel buffers.
     * `decoded` is what the decoder wrote for `_playSPC(bufferPointer, 2 * lastSample)`.
     */
    method PlaySPC(decoded: seq<int>)
      requires Valid() && status == 1
      requires |decoded| == 2 * lastSample && IsPcm(decoded)
      modifies this, channelBuffers
      ensures Valid()
      ensures raw == decoded && hasNewChannelData && Holds(channelBuffers, raw, rateRatio)
      ensures decoderLog == old(decoderLog) + [Play(2 * lastSample)]
      ensures status == old(status) && locked == old(locked) && context == old(context)
      ensures startedAt == old(startedAt) && rateRatio == old(rateRatio) && lastSample == old(lastSample)
      ensures spcPointer == old(spcPointer) && nextHandle == old(nextHandle) && released == old(released)
      ensures pendingRefill == old(pendingRefill)
    {
      raw := decoded;
      decoderLog := decoderLog + [Play(2 * lastSample)];
      var channel := 0;
      while channel < channelBuffers.Length0
        modifies channelBuffers
        invariant 0 <= channel <= Channels
        invariant forall c, i :: 0 <= c < channel && 0 <= i < BlockLength ==>
          channelBuffers[c, i] == BlockSample(raw, rateRatio, c, i)
      {
        var index := 0;
        while index < channelBuffers.Length1
          invariant 0 <= index <= BlockLength
          invariant forall c, i :: 0 <= c < channel && 0 <= i < BlockLength ==>
            channelBuffers[c, i] == BlockSample(raw, rateRatio, c, i)
          invariant forall i :: 0 <= i < index ==>
            channelBuffers[channel, i] == BlockSample(raw, rateRatio, channel, i)
        {
          var s := GetSample(raw, rateRatio, lastSample, channel, index);
          BlockFillInRange(raw, rateRatio, channel, index);
          channelBuffers[channel, index] := s.value / FullScale;
          index := index + 1;
        }
        channel := channel + 1;
      }
      hasNewChannelData := true;
    }

    /**
     * The output device's callback (`onaudioprocess`). Does nothing while no track
     * is loaded or the context is not running. Otherwise it decodes at once if the
     * lookahead block is not ready, hands the block to `output`, clears the flag
     * and arms the precompute of the next block. `decoded` is the decoder's output
     * for that emergency decode, unused when the block was ready.
     */
    method CopyBuffers(output: array2<real>, decoded: seq<int>)
      requires Valid()
      requires output != channelBuffers
      requires output.Length0 == Channels && output.Length1 == BlockLength
      requires |decoded| == 2 * lastSample && IsPcm(decoded)
      modifies this, channelBuffers, output
      ensures Valid()
      ensures status == old(status) && locked == old(locked) && context == old(context)
      ensures startedAt == old(startedAt) && rateRatio == old(rateRatio) && lastSample == old(lastSample)
      ensures spcPointer == old(spcPointer) && nextHandle == old(nextHandle) && released == old(released)
      ensures old(spcPointer).None? || !old(context).value.running ==>
        unchanged(this) && unchanged(channelBuffers) && unchanged(output)
      ensures old(spcPointer).Some? && old(context).value.running ==>
        && raw == (if old(hasNewChannelData) then old(raw) else decoded)
        && decoderLog == old(decoderLog) + (if old(hasNewChannelData) then [] else [Play(2 * lastSample)])
        && Holds(output, raw, rateRatio)
        && !hasNewChannelData && pendingRefill
    {
      if spcPointer.None? || !context.value.running {
        return;
      }
      if !hasNewChannelData {
        pendingRefill := false;
        PlaySPC(decoded);
      }
      var channel := 0;
      while channel < output.Length0
        modifies output
        invariant 0 <= channel <= Channels
        invariant forall c, i :: 0 <= c < channel && 0 <= i < BlockLength ==>
          output[c, i] == BlockSample(raw, rateRatio, c, i)
      {
        forall i | 0 <= i < BlockLength {
          output[channel, i] := channelBuffers[channel, i];
        }
        channel := channel + 1;
      }
      hasNewChannelData := false;
      pendingRefill := true;
    }

    /** The armed `setTimeout(playSPC, 0)` fires: the next block is precomputed. */
    method RunPendingRefill(decoded: seq<int>)
      requires Valid()
      requires |decoded| == 2 * lastSample && IsPcm(decoded)
      modifies this, channelBuffers
      ensures Valid()
      ensures !old(pendingRefill) ==> unchanged(this) && unchanged(channelBuffers)
      ensures old(pendingRefill) ==>
        && !pendingRefill && raw == decoded && hasNewChannelData && Holds(channelBuffers, raw, rateRatio)
        && decoderLog == old(decoderLog) + [Play(2 * lastSample)]
      ensures status == old(status) && locked == old(locked) && context == old(context)
      ensures startedAt == old(startedAt) && rateRatio == old(rateRatio) && lastSample == old(lastSample)
      ensures spcPointer == old(spcPointer) && nextHandle == old(nextHandle) && released == old(released)
    {
      if pendingRefill {
        pendingRefill := false;
        PlaySPC(decoded);
      }
    }

    /**
     * Allocates the next native track copy and has the decoder load it
     * (`_malloc`, `HEAPU8.set` and `_loadSPC`); no copy may be live.
     */
    method OpenTrack(size: nat)
      requires Valid() && status == 1 && spcPointer.None?
      modifies this
      ensures Valid()
      ensures spcPointer == Some(old(nextHandle)) && nextHandle == old(nextHandle) + 1
      ensures decoderLog == old(decoderLog) + [LoadTrack(old(nextHandle), size)]
      ensures status == old(status) && locked == old(locked) && context == old(context)
      ensures startedAt == old(startedAt) && rateRatio == old(rateRatio) && lastSample == old(lastSample)
      ensures raw == old(raw) && released == old(released)
      ensures hasNewChannelData == old(hasNewChannelData) && pendingRefill == old(pendingRefill)
    {
      AccountedAfterAllocate(released, nextHandle);
      spcPointer, nextHandle := Some(nextHandle), nextHandle + 1;
      decoderLog := decoderLog + [LoadTrack(spcPointer.value, size)];
    }

    /**
     * Loads the track image `spc` and starts it `time` seconds in. Fails, changing
     * nothing, unless the status is 1. Otherwise the previous track copy is freed,
     * a new one allocated and loaded, the decoder told to skip `time` seconds when
     * `time > 0`, the first block decoded (`decoded`), and the context resumed with
     * the clock reading `max(0, time)`.
     */
    method LoadSPC(spc: seq<byte>, time: real, decoded: seq<int>) returns (ok: bool)
      requires Valid()
      requires |decoded| == 2 * lastSample && IsPcm(decoded)
      modifies this, channelBuffers
      ensures Valid()
      ensures ok == (old(status) == 1)
      ensures !ok ==> unchanged(this) && unchanged(channelBuffers)
      ensures status == old(status) && locked == old(locked)
      ensures rateRatio == old(rateRatio) && lastSample == old(lastSample)
      ensures ok ==>
        && spcPointer == Some(old(nextHandle)) && nextHandle == old(nextHandle) + 1
        && released == old(released) + (if old(spcPointer).Some? then [old(spcPointer).value] else [])
        && decoderLog == old(decoderLog) + [LoadTrack(old(nextHandle), |spc|)]
                         + (if time > 0.0 then [Skip(time)] else []) + [Play(2 * lastSample)]
        && raw == decoded && hasNewChannelData && !pendingRefill
        && context == Some(old(context).value.(running := true))
        && GetTime() == Max(0.0, time)
    {
      if status != 1 {
        return false;
      }
      Restart(spc, time, decoded);
      ok := true;
    }

    /** The part of `loadSPC` past its status check. */
    method Restart(spc: seq<byte>, time: real, decoded: seq<int>)
      requires Valid() && status == 1
      requires |decoded| == 2 * lastSample && IsPcm(decoded)
      modifies this, channelBuffers
      ensures Valid()
      ensures status == old(status) && locked == old(locked)
      ensures rateRatio == old(rateRatio) && lastSample == old(lastSample)
      ensures spcPointer == Some(old(nextHandle)) && nextHandle == old(nextHandle) + 1
      ensures released == old(released) + (if old(spcPointer).Some? then [old(spcPointer).value] else [])
      ensures decoderLog == old(decoderLog) + [LoadTrack(old(nextHandle), |spc|)]
                            + (if time > 0.0 then [Skip(time)] else []) + [Play(2 * lastSample)]
      ensures raw == decoded && hasNewChannelData && !pendingRefill
      ensures context == Some(old(context).value.(running := true))
      ensures GetTime() == Max(0.0, time)
    {
      StopSPC(false);
      pendingRefill := false;
      OpenTrack(|spc|);
      if time > 0.0 {
        decoderLog := decoderLog + [Skip(time)];
      }
      startedAt := context.value.currentTime - Max(0.0, time);
      PlaySPC(decoded);
      Resume();
    }

    /**
     * Not part of the backend: the audio hardware moving the running context's
     * clock on by `dt` seconds, completing a ramp that ends by then.
     */
    method AdvanceClock(dt: real)
      requires Valid() && dt >= 0.0
      modifies this
      ensures Valid()
      ensures context.Some? == old(context).Some?
      ensures context.Some? ==> context.value.running == old(context).value.running
      ensures GetTime() == old(GetTime()) + (if context.Some? && context.value.running then dt else 0.0)
      ensures !(old(context).Some? && old(context).value.running) ==> unchanged(this)
      ensures OnlyContextChanged()
    {
      if context.Some? && context.value.running {
        var c := context.value.(currentTime := context.value.currentTime + dt);
        if c.ramp.Some? && c.currentTime >= c.ramp.value.endTime {
          c := c.(gain := c.ramp.value.target, ramp := None);
        }
        context := Some(c);
      }
    }
  }
}
