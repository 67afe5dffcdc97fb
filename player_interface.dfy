/**
 * The state logic of the player window (`createSPCPlayerUI` in
 * src/interface.js): loading a song, the end-of-track timer, the volume
 * controls and the transport buttons. Markup, styles and text are not part of
 * this model; the browser's callbacks become one method call each.
 */
module PlayerInterface {

  import opened Basics
  import opened Resampler
  import opened SpcPlayer
  import opened SpcHeader
  import opened Controls

  /** `timer.fade` starts at 0 and nothing assigns it, so the fade at the loop point takes no time. */
  const TimerFade: real := 0.0

  /**
   * A song as `loadSong` receives it, with its track image in `spc`; a `None`
   * number stands for `NaN`.
   */
  datatype Song = Song(index: nat, files: seq<string>, filename: string,
                       title: string, game: string, comment: string, date: string,
                       duration: Option<real>, fade: Option<real>, author: string,
                       spc: seq<byte>)

  /** The song `loadSPC` builds from a parsed image: one file, named by its title. */
  function SongOf(tags: Tags, spc: seq<byte>): (song: Song)
    ensures song.files == [song.filename] && song.filename == tags.title && song.title == tags.title
    ensures song.index == 0 && song.spc == spc && song.duration == tags.duration
  {
    Song(0, [tags.title], tags.title, tags.title, tags.game, tags.comment, tags.date,
         tags.duration, tags.fade, tags.author, spc)
  }

  /** `timer.target`: the song's length when it is a positive number, else 0 (no timer). */
  function TimerTarget(duration: Option<real>): (target: real)
    ensures target >= 0.0
    ensures target > 0.0 <==> duration.Some? && duration.value > 0.0
  {
    if duration.Some? && duration.value > 0.0 then duration.value else 0.0
  }

  /**
   * The loop-point test of the timer: past the first second, and within 1 s
   * after a multiple of `target`. The first time through the track it never fires.
   */
  function NearLoopPoint(time: real, target: real): (near: bool)
    requires target > 0.0
    ensures near ==> time > 1.0 && 0.0 <= JsRem(time, target) <= 1.0
    ensures time < target ==> !near
  {
    if time > 1.0 then
      JsRemBounds(time, target);
      JsRem(time, target) <= 1.0
    else false
  }

  /** The loop-point test gives the same answer one track length, or several, later. */
  lemma NearLoopPointPeriodic(time: real, target: real, k: nat)
    requires target > 0.0 && time > 1.0
    ensures NearLoopPoint(time + k as real * target, target) == NearLoopPoint(time, target)
  {
    JsRemPeriodic(time, target, k);
    assert k as real * target >= 0.0;
  }

  /**
   * The volume read back from session storage: `Number(stored || 1)`, with `NaN`
   * replaced by 1. It is not clamped.
   */
  function StoredVolume(stored: Option<string>): (v: real)
    ensures stored.None? || stored == Some([]) ==> v == 1.0
    ensures v != 1.0 ==> stored.Some? && JsNumber(stored.value) == Some(v)
  {
    if stored.None? || stored.value == [] then 1.0
    else match JsNumber(stored.value)
      case Some(v) => v
      case None => 1.0
  }

  /** A volume written to storage as its decimal text (`volume.toString()`) is read back unchanged. */
  lemma StoredVolumeRoundTrip(w: string, f: string)
    requires w != [] && AllDigitsIn(w, 10) && AllDigitsIn(f, 10)
    ensures StoredVolume(Some(DecimalText(w, f))) == PointedValue(w, f)
  {
    NumberOfDecimalText(w, f);
  }

  /** The directory part the playlist strips: after the last `/` of the longest common prefix. */
  ghost predicate IsSharedDirectory(files: seq<string>, prefix: nat)
    requires 0 < |files|
  {
    exists common: nat :: IsLongestCommonPrefix(files, common) && common <= |files[0]|
      && prefix == LastIndexOf(files[0][..common], '/') + 1
  }

  /** Why `loadSong` did not start the song, or that it did. */
  datatype LoadOutcome =
    | Unavailable   // status < 0: "Couldn't load SPC player."
    | Retry         // status 0: another attempt in 15 ms
    | NoSong        // no song: "Couldn't read SPC file."
    | Started

  /** The outcome of `loadSong` for a backend in `status`: only a ready backend and a song start playback. */
  function OutcomeOf(status: int, song: Option<Song>): (outcome: LoadOutcome)
    ensures outcome == Started <==> status == 1 && song.Some?
    ensures outcome == Unavailable <==> status < 0
    ensures outcome == NoSong <==> status == 1 && song.None?
  {
    if status < 0 then Unavailable
    else if status != 1 then Retry
    else if song.None? then NoSong
    else Started
  }

  class Player {
    const backend: Backend
    var currentSong: Option<Song>
    var finished: bool
    /** `timer.target` and `timer.finish`, in seconds. */
    var target: real
    var finish: real
    var volume: real
    var loopChecked: bool
    /** The page carries the "fetching-song" class. */
    var fetching: bool
    /** The names the playlist shows; empty while it is hidden. */
    var trackList: seq<string>
    /** How many times `onEnd` has fired since the last song started. */
    ghost var ends: nat

    ghost predicate Valid()
      reads this, backend, backend.channelBuffers
    {
      && backend.Valid()
      && target >= 0.0
      && ends == (if finished then 1 else 0)
      && (finished ==> backend.spcPointer.None?)
    }

    /**
     * The window's initial state: the volume and loop setting come from session
     * storage (`stored` and `loop` are the stored strings, if any).
     */
    constructor (b: Backend, stored: Option<string>, loop: Option<string>)
      requires b.Valid()
      ensures Valid() && backend == b
      ensures volume == StoredVolume(stored) && loopChecked == (loop != Some("false"))
      ensures currentSong.None? && !finished && target == 0.0 && finish == 0.0 && !fetching && trackList == []
    {
      backend := b;
      currentSong := None;
      finished := false;
      target := 0.0;
      finish := 0.0;
      volume := StoredVolume(stored);
      loopChecked := loop != Some("false");
      fetching := false;
      trackList := [];
      ends := 0;
    }

    /**
     * What `updateVolumeSlider` does to the backend: once the slider is laid out
     * (`rendered`, its thumb has a width) the gain glides to `volume` over half
     * the distance in seconds; nothing else of the backend changes.
     */
    twostate predicate GlidesToVolume(rendered: bool)
      reads this, backend
    {
      && backend.context == (if rendered && old(backend.context).Some?
           then Some(VolumeSet(old(backend.context).value, volume, Abs(old(backend.GetVolume()) - volume) * 0.5))
           else old(backend.context))
      && backend.OnlyContextChanged()
    }

    /**
     * The playlist `fillTrackList` leaves for `files`: hidden for one file or
     * none, otherwise every name with the shared directory cut off.
     */
    ghost predicate ListsTracks(files: seq<string>)
      reads this
    {
      if |files| <= 1 then trackList == []
      else exists prefix: nat ::
        && IsSharedDirectory(files, prefix)
        && SharedUpTo(files, |files|, prefix)
        && trackList == DisplayNames(files, prefix)
    }

    /** `song` plays from `time` seconds in, as a successful `loadSong(song, time)` leaves it. */
    ghost predicate PlayingFrom(song: Song, time: real, decoded: seq<int>)
      reads this, backend
    {
      && !finished && finish == 0.0 && ends == 0 && !fetching
      && currentSong == Some(song) && target == TimerTarget(song.duration)
      && ListsTracks(song.files)
      && backend.spcPointer.Some? && backend.raw == decoded && backend.hasNewChannelData
      && backend.context.Some? && backend.context.value.running
      && backend.GetTime() == Max(0.0, time)
    }

    /** `updateVolumeSlider`; see GlidesToVolume. */
    method SyncVolume(rendered: bool)
      requires Valid()
      modifies backend
      ensures Valid()
      ensures GlidesToVolume(rendered)
      ensures backend.context.Some? == old(backend.context).Some?
      ensures backend.context.Some? ==>
        backend.context.value.running == old(backend.context).value.running && backend.GetTime() == old(backend.GetTime())
    {
      if rendered {
        backend.SetVolume(volume, Abs(backend.GetVolume() - volume) * 0.5);
      }
    }

    /** `updateVolume` for slider input: snap and clamp the reading, then sync. */
    method OnSliderInput(reading: real, rendered: bool)
      requires Valid()
      modifies this`volume, backend
      ensures Valid()
      ensures volume == SliderVolume(reading) && 0.0 <= volume <= MaxVolume
      ensures GlidesToVolume(rendered)
      ensures finished == old(finished) && target == old(target) && finish == old(finish)
      ensures currentSong == old(currentSong) && fetching == old(fetching) && trackList == old(trackList)
    {
      volume := SliderVolume(reading);
      SyncVolume(rendered);
    }

    /** The wheel handler: one notch up or down, then sync. */
    method OnWheel(deltaY: real, rendered: bool)
      requires Valid()
      modifies this`volume, backend
      ensures Valid()
      ensures volume == WheelVolume(old(volume), deltaY)
      ensures 0.0 <= old(volume) <= MaxVolume ==> 0.0 <= volume <= MaxVolume
      ensures GlidesToVolume(rendered)
      ensures finished == old(finished) && target == old(target) && finish == old(finish)
      ensures currentSong == old(currentSong) && fetching == old(fetching) && trackList == old(trackList)
    {
      volume := WheelVolume(volume, deltaY);
      SyncVolume(rendered);
    }

    /** The playlist for `files`: shown with the shared directory cut off when there are several. */
    method FillTrackList(files: seq<string>)
      modifies this`trackList
      ensures ListsTracks(files)
    {
      if |files| > 1 {
        var common, prefix := CommonPrefix(files);
        trackList := DisplayNames(files, prefix);
      } else {
        trackList := [];
      }
    }

    /**
     * The part of `loadSong` past its checks: reset the end-of-track state, load
     * the image into the ready backend and show the song.
     */
    method StartSong(song: Song, time: real, decoded: seq<int>, rendered: bool)
      requires Valid() && backend.status == 1
      requires |decoded| == 2 * backend.lastSample && IsPcm(decoded)
      modifies this, backend, backend.channelBuffers
      ensures Valid()
      ensures PlayingFrom(song, time, decoded)
      ensures volume == old(volume) && loopChecked == old(loopChecked)
    {
      Begin(song, time, decoded, rendered);
      ShowSong(song);
    }

    /** Reset the end-of-track state, load the image into the ready backend and sync the volume. */
    method Begin(song: Song, time: real, decoded: seq<int>, rendered: bool)
      requires Valid() && backend.status == 1
      requires |decoded| == 2 * backend.lastSample && IsPcm(decoded)
      modifies this, backend, backend.channelBuffers
      ensures Valid()
      ensures !finished && finish == 0.0 && ends == 0
      ensures backend.spcPointer.Some? && backend.raw == decoded && backend.hasNewChannelData
      ensures backend.context.Some? && backend.context.value.running
      ensures backend.GetTime() == Max(0.0, time)
      ensures volume == old(volume) && loopChecked == old(loopChecked) && fetching == old(fetching)
      ensures target == old(target) && currentSong == old(currentSong) && trackList == old(trackList)
    {
      finished, finish, ends := false, 0.0, 0;
      var _ := backend.LoadSPC(song.spc, time, decoded);
      SyncVolume(rendered);
    }

    /** Show `song`: its timer target, its playlist, and the page no longer fetching. */
    method ShowSong(song: Song)
      requires Valid()
      modifies this
      ensures Valid()
      ensures currentSong == Some(song) && target == TimerTarget(song.duration) && !fetching
      ensures ListsTracks(song.files)
      ensures finished == old(finished) && finish == old(finish) && ends == old(ends)
      ensures volume == old(volume) && loopChecked == old(loopChecked)
    {
      target := TimerTarget(song.duration);
      FillTrackList(song.files);
      currentSong := Some(song);
      fetching := false;
    }

    /**
     * `loadSong(song, time)`, with `decoded` the decoder's first block. Only a
     * ready backend and a song start playback.
     */
    method LoadSong(song: Option<Song>, time: real, decoded: seq<int>, rendered: bool) returns (outcome: LoadOutcome)
      requires Valid()
      requires |decoded| == 2 * backend.lastSample && IsPcm(decoded)
      modifies this, backend, backend.channelBuffers
      ensures Valid()
      ensures outcome == OutcomeOf(old(backend.status), song)
      ensures outcome != Started ==>
        && unchanged(backend) && unchanged(backend.channelBuffers)
        && finished == old(finished) && finish == old(finish) && target == old(target)
        && currentSong == old(currentSong) && trackList == old(trackList)
      ensures outcome == Unavailable || outcome == Retry ==> fetching == old(fetching)
      ensures outcome == NoSong ==> !fetching
      ensures outcome == Started ==> PlayingFrom(song.value, time, decoded)
      ensures volume == old(volume) && loopChecked == old(loopChecked)
    {
      if backend.status < 0 {
        return Unavailable;
      }
      if backend.status != 1 {
        return Retry;
      }
      if song.None? {
        fetching := false;
        return NoSong;
      }
      StartSong(song.value, time, decoded, rendered);
      outcome := Started;
    }

    /** `loadSPC` of the interface: parse the image's tags and load it as a one-file song, with no playlist. */
    method LoadSpcFile(spc: seq<byte>, decoded: seq<int>, rendered: bool) returns (outcome: LoadOutcome)
      requires Valid()
      requires |decoded| == 2 * backend.lastSample && IsPcm(decoded)
      modifies this, backend, backend.channelBuffers
      ensures Valid()
      ensures outcome == if old(backend.status) < 0 then Unavailable else if old(backend.status) != 1 then Retry else Started
      ensures outcome == Started ==> PlayingFrom(SongOf(TagsOf(spc), spc), 0.0, decoded) && trackList == []
    {
      var tags := ParseSPC(spc);
      outcome := LoadTagged(tags, spc, decoded, rendered);
    }

    /** Load the image `spc` as the one-file song its `tags` describe. */
    method LoadTagged(tags: Tags, spc: seq<byte>, decoded: seq<int>, rendered: bool) returns (outcome: LoadOutcome)
      requires Valid()
      requires |decoded| == 2 * backend.lastSample && IsPcm(decoded)
      modifies this, backend, backend.channelBuffers
      ensures Valid()
      ensures outcome == if old(backend.status) < 0 then Unavailable else if old(backend.status) != 1 then Retry else Started
      ensures outcome == Started ==> PlayingFrom(SongOf(tags, spc), 0.0, decoded) && trackList == []
    {
      var song := SongOf(tags, spc);
      assert |song.files| == 1;
      outcome := LoadSong(Some(song), 0.0, decoded, rendered);
    }

    /**
     * `updateTimer`, run every 500 ms. With a timed track loaded it first ends
     * the track once its finish time has passed (`ended`: `onEnd` fires), and
     * otherwise, near each loop point while looping is off, schedules the finish
     * and takes the gain down to 0.
     */
    method UpdateTimer() returns (ended: bool)
      requires Valid()
      modifies this, backend
      ensures Valid()
      ensures ended <==>
        && old(target) > 0.0 && old(backend.status) == 1 && old(backend.spcPointer).Some?
        && !old(finished) && old(finish) > 0.0 && old(backend.GetTime()) >= old(finish)
      ensures old(finished) ==> !ended
      ensures ended ==>
        && finished && ends == 1 && finish == old(finish)
        && backend.spcPointer.None? && backend.released == old(backend.released) + [old(backend.spcPointer).value]
        && backend.context == Some(old(backend.context).value.(running := false))
        && backend.GetTime() == old(backend.GetTime()) && backend.raw == old(backend.raw)
      ensures !ended ==> finished == old(finished) && ends == old(ends)
      ensures old(target) <= 0.0 || old(backend.status) != 1 || old(backend.spcPointer).None? ==>
        !ended && unchanged(this) && unchanged(backend)
      ensures !ended && old(target) > 0.0 && old(backend.status) == 1 && old(backend.spcPointer).Some? ==>
        if NearLoopPoint(old(backend.GetTime()), old(target)) && !loopChecked then
          && finish == old(backend.GetTime()) + TimerFade / 1000.0
          && backend.context == Some(old(backend.context).value.(gain := 0.0, ramp := None))
          && backend.OnlyContextChanged()
        else
          finish == old(finish) && unchanged(backend)
      ensures target == old(target) && volume == old(volume) && currentSong == old(currentSong)
      ensures fetching == old(fetching) && loopChecked == old(loopChecked) && trackList == old(trackList)
    {
      if target <= 0.0 || backend.status != 1 || backend.spcPointer.None? {
        return false;
      }
      var time := backend.GetTime();
      if !finished && finish > 0.0 && time >= finish {
        finished, ends := true, ends + 1;
        backend.StopSPC(true);
        return true;
      }
      if NearLoopPoint(time, target) && !loopChecked {
        finish := time + TimerFade / 1000.0;
        backend.SetVolume(backend.GetVolume(), 0.0);
        backend.SetVolume(0.0, TimerFade / 1000.0);
      }
      ended := false;
    }

    /** The pause button: the context is suspended and nothing else changes. */
    method OnPause()
      requires Valid()
      modifies backend
      ensures Valid()
      ensures backend.context == (if old(backend.context).Some? then Some(old(backend.context).value.(running := false)) else None)
      ensures backend.OnlyContextChanged() && backend.GetTime() == old(backend.GetTime())
    {
      backend.Pause();
    }

    /**
     * The play button: reloads a finished song from the start unless a load is
     * in flight, and otherwise resumes. `reloaded` is the reload's outcome.
     */
    method OnPlay(decoded: seq<int>, rendered: bool) returns (reloaded: Option<LoadOutcome>)
      requires Valid()
      requires |decoded| == 2 * backend.lastSample && IsPcm(decoded)
      modifies this, backend, backend.channelBuffers
      ensures Valid()
      ensures reloaded.Some? <==> old(finished) && !old(fetching)
      ensures reloaded.Some? ==> reloaded.value == OutcomeOf(old(backend.status), old(currentSong))
      ensures reloaded == Some(Started) ==> PlayingFrom(old(currentSong).value, 0.0, decoded)
      ensures old(finished) && old(fetching) ==> unchanged(this) && unchanged(backend)
      ensures !old(finished) ==>
        && unchanged(this)
        && backend.context == (if old(backend.context).Some? then Some(old(backend.context).value.(running := true)) else None)
        && backend.OnlyContextChanged() && backend.GetTime() == old(backend.GetTime())
    {
      if finished {
        if !fetching {
          fetching := true;
          var outcome := LoadSong(currentSong, 0.0, decoded, rendered);
          return Some(outcome);
        }
        return None;
      }
      backend.Resume();
      return None;
    }

    /** The restart button: reload the current song from the start, unless a load is in flight. */
    method OnRestart(decoded: seq<int>, rendered: bool) returns (reloaded: Option<LoadOutcome>)
      requires Valid()
      requires |decoded| == 2 * backend.lastSample && IsPcm(decoded)
      modifies this, backend, backend.channelBuffers
      ensures Valid()
      ensures reloaded.Some? <==> !old(fetching)
      ensures reloaded.Some? ==> reloaded.value == OutcomeOf(old(backend.status), old(currentSong))
      ensures reloaded == Some(Started) ==> PlayingFrom(old(currentSong).value, 0.0, decoded)
      ensures old(fetching) ==> unchanged(this) && unchanged(backend)
    {
      if fetching {
        return None;
      }
      fetching := true;
      var outcome := LoadSong(currentSong, 0.0, decoded, rendered);
      return Some(outcome);
    }

    /** The stop button: pause and free the track, unless a load is in flight. */
    method OnStop()
      requires Valid()
      modifies backend
      ensures Valid()
      ensures old(fetching) ==> unchanged(backend)
      ensures !old(fetching) ==>
        && backend.spcPointer.None?
        && backend.released == old(backend.released) + (if old(backend.spcPointer).Some? then [old(backend.spcPointer).value] else [])
        && backend.context == (if old(backend.context).Some? then Some(old(backend.context).value.(running := false)) else None)
        && backend.GetTime() == old(backend.GetTime()) && backend.raw == old(backend.raw)
    {
      if fetching {
        return;
      }
      backend.StopSPC(true);
    }

    /**
     * A mouse-up on the seek bar, `range` pixels wide, at `offsetX`: reload the
     * song at the chosen second, unless a load is in flight or the track has no
     * timer. `reloaded` is the reload's outcome.
     */
    method OnSeek(offsetX: real, range: nat, decoded: seq<int>, rendered: bool) returns (reloaded: Option<LoadOutcome>)
      requires Valid()
      requires |decoded| == 2 * backend.lastSample && IsPcm(decoded)
      modifies this, backend, backend.channelBuffers
      ensures Valid()
      ensures reloaded.Some? <==> !old(fetching) && old(target) > 0.0 && range > 0
      ensures reloaded.Some? ==> reloaded.value == OutcomeOf(old(backend.status), old(currentSong))
      ensures reloaded == Some(Started) ==>
        PlayingFrom(old(currentSong).value, SeekSeconds(old(target), offsetX, range).value as real, decoded)
      ensures reloaded.None? ==> unchanged(this) && unchanged(backend)
    {
      if fetching || target <= 0.0 {
        return None;
      }
      var seconds := SeekSeconds(target, offsetX, range);
      if seconds.None? {
        return None;
      }
      fetching := true;
      var outcome := LoadSong(currentSong, seconds.value as real, decoded, rendered);
      return Some(outcome);
    }

    /** Any click on the page unlocks the audio context: the first one with a context makes it run. */
    method OnPageClick()
      requires Valid()
      modifies backend
      ensures Valid()
      ensures old(backend.locked) && old(backend.context).Some? ==>
        !backend.locked && backend.context == Some(old(backend.context).value.(running := true))
      ensures !(old(backend.locked) && old(backend.context).Some?) ==> unchanged(backend)
      ensures backend.spcPointer == old(backend.spcPointer) && backend.released == old(backend.released)
      ensures backend.raw == old(backend.raw) && backend.GetTime() == old(backend.GetTime())
    {
      backend.Unlock();
    }

    /** The loop checkbox: the stored loop setting, and nothing else, changes. */
    method SetLoop(checked: bool)
      requires Valid()
      modifies this`loopChecked
      ensures Valid() && loopChecked == checked
      ensures finished == old(finished) && finish == old(finish) && target == old(target)
      ensures volume == old(volume) && currentSong == old(currentSong) && trackList == old(trackList)
      ensures fetching == old(fetching)
    {
      loopChecked := checked;
    }
  }
}
