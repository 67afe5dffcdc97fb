# SMW Central SPC player: a verified model of its playback and transport logic

The SMW Central SPC player plays SNES music files (SPC images) in the browser.
An opaque native decoder turns the image into interleaved 16-bit stereo frames
at 32000 Hz. The JavaScript backend (`SMWCentral.SPCPlayer.Backend`) resamples
each decoded block to the output device's rate by linear interpolation. It
double-buffers the result into two 16384-frame channel buffers, owns the
decoder's copy of the track, and drives the gain and the clock of the Web Audio
context. The player window (`createSPCPlayerUI`) works on top of it:
- it reads the ID666 tags of an image;
- it loads songs;
- it ends or fades them at their length;
- it turns slider, wheel and seek-bar input into volumes and positions;
- it shortens playlist entries by their shared directory.

The model has six modules:

- `Basics`: `Option` (for `null`, absent values and `NaN`) and `byte`.
- `Resampler`, pure:
  - the block sizing and `getSample`, both as written and corrected;
  - the value `playSPC` stores in each slot.
- `SpcPlayer`: the backend as a class `Backend`, whose methods update its fields.
  - What the backend sees of the audio context and gain node is a `Context`
    value, that is, its running state, `currentTime`, gain and pending ramp.
  - The native heap block is the field `raw`.
  - The channel buffers are a 2 x 16384 `array2<real>` filled in place.
  - Every request made of the decoder is recorded in the ghost `decoderLog`.
  - Every freed track copy is recorded in the ghost `released`.
  - The class invariant `Valid()` ties them together:
    - the block is sized for the rate;
    - the gain stays in range;
    - a ready block holds the resampled samples;
    - every track copy is either live or freed exactly once.
- `SpcHeader`: the tag reader. It covers:
  - `extractString`, as a specification function and as the counting loop;
  - `TextDecoder("latin1")`, which is windows-1252;
  - JavaScript's `Number()` on strings;
  - `parseSPC`.
- `Controls`: the pure arithmetic of the controls:
  - slider snapping and wheel steps;
  - `Math.round`, and JavaScript's truncating `%`;
  - the seek position;
  - the playlist's longest-common-prefix loop and its stripped prefix.
- `PlayerInterface`: the window's state as a class `Player`. It holds
  `finished`, `timer.target`, `timer.finish`, the volume, the loop checkbox,
  the "fetching-song" flag and the playlist, with `loadSong`, `updateTimer` and
  the button handlers as methods. A ghost counter `ends` counts the `onEnd`
  notifications since the last load.

The decoder's output, the device's sample rate and whether a new context starts
running are method parameters. The audio hardware advancing the clock is
`Backend.AdvanceClock`, which models the environment, not the player.

Numbers are exact reals, not IEEE doubles. `Math.floor` is `.Floor`,
`Math.round` is `floor(x + 0.5)`, and `%` is the remainder of truncating
division (`Controls.JsRem`).

### Where the code and the player's stated behaviour differ

The player is described as fading a track out over its fade length (the ID666
fade tag) when looping is off. In the code, `timer.fade` is initialised to 0
(src/interface.js:79) and never assigned. So `updateTimer` sets the finish time
to the current time and steps the gain to 0 at once. The model follows the code:
`PlayerInterface.TimerFade` is 0, and `Player.UpdateTimer` states the immediate
cut.

## Model

| member | source | states |
|---|---|---|
| Resampler.RateRatio | src/spc_player.js:62 | the ratio 32000 / sampleRate is positive for every positive device rate |
| Resampler.Frac | src/spc_player.js:158-167 | the weight `high` of the following frame is in [0, 1), so `low = 1 - high` is in (0, 1] |
| Resampler.LerpBetween | src/spc_player.js:166-172 | the interpolated value lies between the two neighbouring frames, and equals the lower frame at a whole offset |
| Resampler.FrameInBlock | src/spc_player.js:158-159 | for every index of a block, `bufferOffset` is at least 0 and at most the offset of index 16383, which is at most floor(16384 * ratio) |
| Resampler.LastSampleAsWritten | src/spc_player.js:62-63 | the block, sized as written, holds at least one frame |
| Resampler.GetSampleAsWritten | src/spc_player.js:156-173 | `getSample` as written throws `RangeError(channel, index)` exactly when floor(ratio * index) + 1 > lastSample; otherwise its value lies between the two heap frames it reads |
| Resampler.AsWrittenGuardNeverFires | src/spc_player.js:62-63 | with lastSample = 1 + floor(16384 * ratio), every index in [0, 16384) passes the guard, so a block fill never throws |
| Resampler.AsWrittenInBlockForSlowDevices | src/spc_player.js:62-63 | at device rates up to 32000 Hz (ratio >= 1), every frame a block fill reads is one of the lastSample frames decoded |
| Resampler.UnwrittenFrameRead | src/spc_player.js:161-170 | at 192000 Hz the last index reads frame lastSample = 2731, one past the decoded block, with weight 1/2: two heaps equal on the whole block give 0 and 1 |
| Resampler.LastSample | src/spc_player.js:63 | the corrected block holds one frame more than as written, at least 2 |
| Resampler.GetSample | src/spc_player.js:156-173 | `RangeError(channel, index)` exactly when frame b + 1 is not in the block; otherwise b and b + 1 are in the block, the value lies between those two frames, and it equals frame b at a whole offset |
| Resampler.BlockFillInRange | src/spc_player.js:180-187 | with the corrected sizing, no index of a block fill, on either channel, makes `getSample` fail |
| Resampler.AgreesWithAsWritten | src/spc_player.js:156-173 | wherever both read only decoded frames, the corrected `getSample` gives the same result as the code as written |
| Resampler.BlockSample | src/spc_player.js:186 | a stored slot, the resampled 16-bit sample divided by 32000, lies in [-32768/32000, 32767/32000] |
| Resampler.ConstantChannel | src/spc_player.js:166-186 | a channel that holds one value c in every frame resamples to c / 32000 at every index |
| SpcPlayer.Clamp | src/spc_player.js:138 | `Math.min(Math.max(x, lo), hi)` lies in [lo, hi], is x inside the range, and is the nearer bound outside it |
| SpcPlayer.VolumeSet | src/spc_player.js:147-154 | running state and clock are kept, and the gain range is preserved. The change is a step exactly when duration <= 0.02: a step sets clamp(volume, 0, 1.5) and drops any ramp, while a longer duration keeps the present gain and schedules a ramp to clamp(volume, 0.01, 1.5) ending `duration` seconds after the current time |
| SpcPlayer.VolumeSetReaches | src/spc_player.js:147-154 | for every volume and duration: a step of a volume in [0, 1.5] lands exactly on it, a ramp to a volume in [0.01, 1.5] ends exactly at it, and a ramp towards anything below 0.01 (silence) ends at 0.01 |
| SpcPlayer.AccountedAfterFree | src/spc_player.js:112-116 | freeing the live track copy keeps every copy live or freed exactly once |
| SpcPlayer.AccountedAfterAllocate | src/spc_player.js:86 | allocating the next copy when none is live keeps the account |
| SpcPlayer.Backend.constructor | src/spc_player.js:33-51 | status is -2 when the browser lacks support and 0 otherwise; the backend starts locked, with no context, no track, no ready block and no freed copies |
| SpcPlayer.Backend.Initialize | src/spc_player.js:52-74 | only at status 0: the context exists, status becomes 1, the rate ratio is 32000 / rate and the block is sized for it, with the corrected sizing of `Resampler.LastSample`, one frame more than line 63; at any other status nothing changes |
| SpcPlayer.Backend.GetTime | src/spc_player.js:132-135 | the clock is 0 without a context, and otherwise the context time minus `startedAt`; Pause, Resume and StopSPC keep it, AdvanceClock moves it by dt while running, and LoadSPC sets it to max(0, time) |
| SpcPlayer.Backend.GetVolume | src/spc_player.js:136-139 | the result is in [0, 1.5]; it is 1 without a gain node and the gain itself while the gain is in range |
| SpcPlayer.Backend.SetVolume | src/spc_player.js:140-155 | without a gain node nothing changes; otherwise the context becomes VolumeSet of the old one, and no other field changes |
| SpcPlayer.Backend.Pause | src/spc_player.js:118-124 | the context, if any, stops running, the playback clock reading is kept, and no other field changes |
| SpcPlayer.Backend.Resume | src/spc_player.js:125-131 | the context, if any, runs at once, the clock reading is kept, and no other field changes |
| SpcPlayer.Backend.Unlock | src/spc_player.js:215-222 | the first call with a context resumes it and clears `locked`; every other call changes nothing |
| SpcPlayer.Backend.StopSPC | src/spc_player.js:105-117 | afterwards no track copy is live; the live copy, if any, is appended to the freed ones, and nothing else is freed, so a second call frees nothing; it pauses only when asked |
| SpcPlayer.Backend.PlaySPC | src/spc_player.js:174-191 | records one decode of 2 * lastSample shorts (with the corrected sizing, 2 more than line 178 asks for), stores the decoded block, and makes every slot of both channel buffers equal BlockSample (getSample / 32000); hasNewChannelData is true |
| SpcPlayer.Backend.CopyBuffers | src/spc_player.js:192-214 | with no track or a context not running, nothing changes. Otherwise it decodes only if no block was ready, the output holds the resampled block on both channels, hasNewChannelData is false and a refill is armed |
| SpcPlayer.Backend.RunPendingRefill | src/spc_player.js:213 | the armed `setTimeout(playSPC, 0)` firing decodes and resamples the next block; with none armed nothing changes |
| SpcPlayer.Backend.OpenTrack | src/spc_player.js:86-88 | the next track copy becomes live and the decoder is asked to load it with the image's size |
| SpcPlayer.Backend.LoadSPC | src/spc_player.js:75-104 | fails, changing nothing, unless status is 1. Otherwise the old copy is freed once and a new one loaded; the decoder is asked to load, skip `time` (only if time > 0) and decode; the first block is ready, the context runs, and the clock reads max(0, time) |
| SpcPlayer.Backend.Restart | src/spc_player.js:82-103 | the same state change as a successful LoadSPC, stated for a ready backend |
| SpcHeader.FieldLength | src/interface.js:340 | the loop's count is at most `length` and covers only non-zero bytes; stopping short means the next byte exists and is 0 |
| SpcHeader.Slice | src/interface.js:342 | `slice(from, to)` clamps both bounds to the array and returns the bytes from `from` on |
| SpcHeader.HighChar | src/interface.js:342 | the windows-1252 characters of bytes 0x80 to 0x9F are all above U+0080 |
| SpcHeader.DecodeByte | src/interface.js:342 | outside 0x80-0x9F a byte decodes to the code point of the same number, and only byte 0 decodes to U+0000 |
| SpcHeader.Decode | src/interface.js:342 | one character per byte, each the byte decoded |
| SpcHeader.Field | src/interface.js:337-343 | `extractString` gives at most `length` characters, none of them NUL. A start past the end gives the empty string. Otherwise the result is the decoding of bytes start.. onwards, ended by the length, the array's end or a zero byte |
| SpcHeader.ExtractString | src/interface.js:337-343 | the counting loop returns exactly Field |
| SpcHeader.FieldLengthLocal | src/interface.js:340 | the count depends only on the bytes of the field |
| SpcHeader.FieldLocal | src/interface.js:337-343 | the field depends only on its own bytes |
| SpcHeader.TrimStart | src/interface.js:353-354 | `Number()` drops only leading white space and line terminators, and stops at the first other character |
| SpcHeader.TrimEnd | src/interface.js:353-354 | `Number()` drops only trailing white space and line terminators |
| SpcHeader.JsNumber | src/interface.js:353-354 | `Number()` of blank text is 0, and of text that starts with anything but a digit, a point or a sign is NaN |
| SpcHeader.NotALiteral | src/interface.js:353-354 | no literal starts with a letter or another mark that is not a digit, a point or a sign |
| SpcHeader.DecimalOfDigits | src/interface.js:353-354 | a non-empty run of decimal digits is an unsigned decimal literal of its value |
| SpcHeader.LiteralOfDigits | src/interface.js:353-354 | without surrounding space, decimal digits read as their value, and the empty string as 0 |
| SpcHeader.NumberOfDigits | src/interface.js:353-354 | `Number(s)` of digits inside white space is their value |
| SpcHeader.DecimalString | src/interface.js:107 | `String(n)` of a natural number is a non-empty string of decimal digits |
| SpcHeader.DecimalStringValue | src/interface.js:107 | those digits write n |
| SpcHeader.NumberOfDecimal | src/interface.js:353-354 | `Number(String(n)) == n` for every natural number n |
| SpcHeader.NumberOfBlank | src/interface.js:353-354 | a field of white space alone is 0, not NaN |
| SpcHeader.DecimalText | src/interface.js:107 | `volume.toString()` of a non-negative number writes a point exactly when there are fraction digits |
| SpcHeader.PointedDecimal | src/interface.js:353-354 | the unsigned literal `w.f` has the value w + f / 10^\|f\| |
| SpcHeader.NumberOfDecimalText | src/interface.js:107 | `Number(volume.toString())` gives back the value the digits write, with or without a fraction |
| SpcHeader.TagsOf | src/interface.js:345-357 | the title is never empty; title, game, comment and author have at most 32 characters and the date at most 10 |
| SpcHeader.ParseSPC | src/interface.js:345-357 | the seven `extractString` calls give the tags field by field at offsets 0x2E, 0x4E, 0x7E, 0x9E, 0xA9, 0xAC and 0xB1 |
| SpcHeader.FieldLocalIn | src/interface.js:337-343 | two arrays that agree on a range agree on every field inside it |
| SpcHeader.TagsReadOnlyHeader | src/interface.js:348-356 | the tags depend on the header bytes 0x2E to 0xD0 and on nothing else |
| SpcHeader.TitleFallback | src/interface.js:349 | the title is "SPC File" exactly when its first byte is zero or missing, and otherwise the field itself |
| SpcHeader.WholeField | src/interface.js:340-342 | a field of non-zero bytes inside the array is all of them, decoded |
| SpcHeader.DecodedDigits | src/interface.js:342 | ASCII digit bytes decode to decimal digits writing the same number |
| SpcHeader.DigitField | src/interface.js:353-354 | a field of ASCII digits converts to the number they write |
| SpcHeader.DurationOfDigits | src/interface.js:353 | a three-digit ASCII duration field is that many seconds |
| SpcHeader.FadeOfDigits | src/interface.js:354 | a four-digit ASCII fade field is that many milliseconds |
| Controls.SliderVolume | src/interface.js:113-127 | for every reading the result is in [0, 1.5]. It is 1.5, 1 or 0.5 within 0.05, 0.05 or 0.025 of them, and otherwise the reading clamped to [0, 1.5] |
| Controls.SliderIdempotent | src/interface.js:113-127 | reading the slider back at the volume it gave changes nothing |
| Controls.SliderMonotone | src/interface.js:113-127 | moving the slider right never lowers the volume |
| Controls.WheelVolume | src/interface.js:390-395 | one notch moves the volume by at most 0.05, exactly 0.05 away from the bounds, up for deltaY < 0 and down otherwise; from inside [0, 1.5] it stays inside |
| Controls.WheelUpThenDown | src/interface.js:390-395 | a notch up and then down restores a volume not pinned at 1.5 |
| Controls.WheelDownThenUp | src/interface.js:390-395 | a notch down and then up restores a volume not pinned at 0 |
| Controls.WheelKeepsOutOfRange | src/interface.js:390-395 | a stored volume of 2 is only lowered to 1.95 by a notch down: the wheel does not pull the volume into range |
| Controls.Round | src/interface.js:478 | `Math.round(x)` is within 1/2 of x, halves rounding up |
| Controls.RoundWhole | src/interface.js:478 | a whole number rounds to itself |
| Controls.RoundMonotone | src/interface.js:478 | rounding keeps the order |
| Controls.JsRem | src/interface.js:300 | for a positive divisor `%` lies within the divisor of 0 and takes the dividend's sign: in [0, b) for a >= 0 and in (-b, 0] for a < 0 |
| Controls.TruncRemainder | src/interface.js:300 | the truncating remainder bounds above, stated on the quotient `Math.trunc(a / b)` |
| Controls.JsRemBounds | src/interface.js:300 | `time % target` for time >= 0 lies in [0, target), and is time itself before the first loop point |
| Controls.JsRemPeriodic | src/interface.js:300 | `time % target` repeats every `target` seconds |
| Controls.SeekSeconds | src/interface.js:476-478 | a zero-width bar gives no position (NaN). Otherwise the second is between 0 and Math.round(target); a click at or left of the bar's start gives 0, and one at or past its end gives Math.round(target) |
| Controls.SeekWithinTrack | src/interface.js:476-478 | for a whole-second track the second sought is in [0, target] |
| Controls.SeekPastFractionalEnd | src/interface.js:478 | a click at the end of a 2.5-second track seeks to second 3, past its end |
| Controls.SeekFraction | src/interface.js:478 | the clamped share of the track is in [0, target] |
| Controls.SeekFractionMonotone | src/interface.js:477-478 | the share grows with the position on the bar |
| Controls.SeekMonotone | src/interface.js:476-478 | clicking further right never seeks to an earlier second |
| Controls.LastIndexOf | src/interface.js:256 | `lastIndexOf` gives -1 or a position holding the character, with none after it |
| Controls.SharedShorter | src/interface.js:246-254 | a prefix shared by the first names stays shared when shortened |
| Controls.LongestCommonPrefixUnique | src/interface.js:246-254 | the longest common prefix length is unique |
| Controls.SharedOneMore | src/interface.js:249-253 | one inner loop keeps the shared prefix for one more name |
| Controls.PartsAt | src/interface.js:251 | an inner loop stopped short means that name parts from the first one there |
| Controls.StripsShared | src/interface.js:256-259 | cutting `prefix <= common` characters off every name removes the same text from each |
| Controls.LongestCommonPrefixLength | src/interface.js:246-254 | the loops leave `common` as the length of the longest prefix shared by all names, at most the first name's length |
| Controls.CommonPrefix | src/interface.js:246-256 | `prefix` is one past the last `/` of the common prefix (0 when it has none), is at most `common`, is shared by every name, and cuts the same text off every name |
| Controls.DisplayNames | src/interface.js:258-259 | given a prefix every name shares, one shown name per file, each the file name with the first name's first `prefix` characters cut off |
| PlayerInterface.TimerTarget | src/interface.js:212-222 | `timer.target` is non-negative, and positive exactly when the duration is a positive number |
| PlayerInterface.StoredVolume | src/interface.js:81-86 | no stored value, or an empty one, gives 1; any other volume is what `Number()` reads from the stored text |
| PlayerInterface.NearLoopPoint | src/interface.js:300 | the loop-point test fires only past the first second and within 1 s after a multiple of the track length, and never during the first play-through |
| PlayerInterface.StoredVolumeRoundTrip | src/interface.js:81-86 | a volume stored as its decimal text, whole or with a fraction, is read back as the value that text writes |
| PlayerInterface.NearLoopPointPeriodic | src/interface.js:300 | the loop-point test gives the same answer one or more track lengths later |
| PlayerInterface.OutcomeOf | src/interface.js:142-160 | playback starts exactly for a ready backend and a song; a negative status is Unavailable, a missing song at status 1 is NoSong, and any other status is Retry |
| PlayerInterface.Player.constructor | src/interface.js:76-86 | the window starts with no song, not finished, no timer and an empty playlist; the volume is the stored one |
| PlayerInterface.Player.SyncVolume | src/interface.js:93-108 | once the slider is laid out, the gain glides to `volume` over half the distance in seconds (VolumeSet of the old context); otherwise the backend is unchanged; no backend field but the context changes |
| PlayerInterface.Player.OnSliderInput | src/interface.js:110-130 | the volume becomes SliderVolume of the reading, in [0, 1.5]; the backend gain glides to it as in SyncVolume; the track, the timer, the song and the playlist are kept |
| PlayerInterface.Player.OnWheel | src/interface.js:388-398 | the volume becomes WheelVolume of the old one and stays in [0, 1.5] from inside it; the backend gain glides to it as in SyncVolume; the track, the timer, the song and the playlist are kept |
| PlayerInterface.Player.FillTrackList | src/interface.js:238-266 | one file or none hides the list; several show every name without the shared directory (IsSharedDirectory), as DisplayNames gives them |
| PlayerInterface.Player.StartSong | src/interface.js:162-271 | finished and timer.finish are reset, the image plays from max(0, time) with a fresh block, and the song, timer target and playlist (as FillTrackList gives it, for any number of files) are shown |
| PlayerInterface.Player.Begin | src/interface.js:162-180 | the reset and load part of StartSong, leaving the shown song untouched |
| PlayerInterface.Player.ShowSong | src/interface.js:212-271 | the display part of StartSong: song, timer target and the playlist of all its files; the end-of-track state and the backend are untouched |
| PlayerInterface.Player.LoadSong | src/interface.js:142-272 | the outcome is OutcomeOf the status and the song. Unavailable and Retry change nothing. A missing song clears fetching and changes nothing else. Otherwise the song plays from max(0, time) as StartSong leaves it, playlist included |
| PlayerInterface.Player.LoadSpcFile | src/interface.js:359-369 | the image is never NoSong: status < 0 is Unavailable, status 0 Retry, and at status 1 it plays from 0 as the one-file song built from its parsed tags (SongOf: named and titled by its title, at index 0, with its duration), with the playlist hidden |
| PlayerInterface.Player.UpdateTimer | src/interface.js:274-307 | nothing changes without a timer, a ready backend and a track. `onEnd` fires exactly when the finish time has passed and the track has not ended, and never again until a load; ending pauses the context, frees the live copy, and keeps finish and the clock. Near a loop point with looping off, finish is set to the time plus TimerFade/1000 and the gain steps to 0 with no ramp, no other backend field changing; otherwise nothing changes |
| PlayerInterface.Player.OnPause | src/interface.js:401-408 | the context stops running, and no other backend field changes: clock, gain, ramp, track, block, flags and freed copies are kept |
| PlayerInterface.Player.OnPlay | src/interface.js:410-428 | a finished song is reloaded exactly when no load is in flight, with the outcome OutcomeOf; a started reload plays from 0 as LoadSong leaves it. An unfinished one resumes with its clock kept and nothing else changed |
| PlayerInterface.Player.OnRestart | src/interface.js:430-440 | the song is reloaded exactly when no load is in flight, with the outcome OutcomeOf; a started reload plays from 0 as LoadSong leaves it; otherwise nothing changes |
| PlayerInterface.Player.OnStop | src/interface.js:442-452 | unless a load is in flight, the context is paused with its clock kept, the live copy is appended to the freed ones and none is live; the window state is kept |
| PlayerInterface.Player.OnSeek | src/interface.js:470-482 | a reload happens exactly when no load is in flight, the track has a timer and the bar has width, with the outcome OutcomeOf; a started reload plays from SeekSeconds as LoadSong leaves it; otherwise nothing changes |
| PlayerInterface.Player.OnPageClick | src/interface.js:484-486 | the first click with a context clears `locked` and makes the context run; any other click changes nothing; the track, block and clock are kept |
| PlayerInterface.Player.SetLoop | src/interface.js:380-383 | the loop setting becomes the checkbox's; the volume, song, playlist, fetching flag, timer state and backend are kept |

## Left out

- Markup and styling are left out, because they are DOM output:
  - the title, subtitle, details, duration and elapsed-time texts, including the title and subtitle join;
  - the seek preview on mouse move and `updateUI`'s progress bar;
  - the slider layout in `updateVolumeSlider`;
  - `createPlaylistItem`'s `playing` class, `dragSPCPlayer` and `trackListOverflow`.
- Host callbacks are not modelled: `onPlay`, `onPause`, `onRestart`, `onStop` and `onError`. They are hooks of the embedding page. `onEnd` is counted by the ghost `ends`.
- `sessionStorage` writes (volume, loop and collapsed state) are left out, because they are browser storage. Only the two reads at start-up are modelled.
- `fetch` and `loadFromLink` are left out, because they are network I/O. The model starts from the image bytes.
- The base64 `atob` decoding of `song.data` in `loadSong` is left out, because it is a browser primitive. A `Song` carries its image as bytes.
- The native decoder (src/spc_player.c and `snes_spc`) is not part of this model. Its output is a parameter of the methods that decode, constrained to 16-bit values. Its requests are recorded in `decoderLog`. The skip of `time` seconds is recorded as requested, without the C side's conversion to `int`.
- Setting `status` to -1 is left out, because only the native side does it. `error()` in src/spc_player.c:19-27 sets it (line 24) when the decoder cannot be created (line 36), when `spc_load_spc` fails (line 60) and when `spc_play` fails (line 74). `main` sets it when `initialize` throws (src/spc_player.c:40-47). The model's status admits -1, but no method sets it.
- SpcPlayer.Backend.LoadSPC: a failed decode is not modelled. At status 1 `LoadSPC` always succeeds and the status stays 1, while the native `error()` would set -1 and stop the decoder. `PlaySPC`, `CopyBuffers` and `RunPendingRefill` likewise always decode.
- SpcPlayer.Backend.Initialize: the block is sized with the corrected `Resampler.LastSample`, 2 + floor(16384 * ratio) frames, one frame more than src/spc_player.js:63. So each `PlaySPC` asks the decoder for 2 more shorts than line 178 does, and `decoderLog` records the corrected count. The code as written is `Resampler.LastSampleAsWritten` (see Findings).
- SpcPlayer.Backend.Resume: `context.resume()` returns a promise, and the browser's autoplay policy may keep the context suspended. The model treats the resume as immediate and as always succeeding. The same holds for `Unlock` and `LoadSPC`, which resume through it.
- Only part of the Web Audio objects is modelled, because they are foreign code. The model keeps the state, `currentTime`, the gain and the one pending ramp:
  - `scriptProcessorNode` creation, connection and disconnection are left out;
  - the values an exponential ramp passes through are left out;
  - `AdvanceClock` completes a ramp when its end time is passed.
  - In the model a step clears a pending ramp.
  - A new ramp replaces a pending one.
  - The browser keeps both as scheduled events instead.
- IEEE floating point is left out: exact reals stand for doubles and for the `Float32Array` values of the channel buffers, and `-0` is not modelled. The offsets in the Findings row (2730.5 and 2730.67) are far from whole numbers, so rounding does not move them across a frame.
- `bufferPointer`, `bufferSize` and `_malloc` of the decode buffer are left out, because they are native memory management. `raw` is the block itself, and `GetSampleAsWritten` reads it from a heap at an offset.
- Timers and concurrency are left out:
  - the 15 ms retry of `loadSong` is the `Retry` outcome;
  - the `setTimeout(playSPC, 0)` is `pendingRefill`, and its firing is `RunPendingRefill`;
  - `setInterval(updateTimer, 500)`, `requestAnimationFrame(initVolumeSlider)` and `onaudioprocess` are left to the caller, as one method call each.
- The initial `updateVolume()` of the window is left to the caller, because it depends on whether the slider has been laid out. The caller invokes it as `Player.SyncVolume`.
- SpcPlayer.Backend.LoadSPC: throws a `TypeError` when status is not 1. The model returns `false` with no state change instead, because Dafny has no exceptions.
- SpcHeader.JsNumber: "Infinity", "+Infinity" and "-Infinity" give `None` (NaN) rather than infinities. Decimal literals are exact rather than rounded to doubles.
- Controls.SeekSeconds: the second sought lies within [0, target] only for a whole-second target. In general the bound is `Math.round(target)`, since the code rounds after clamping (`SeekPastFractionalEnd`).
- Controls.WheelVolume: keeps the volume in [0, 1.5] only from an in-range start. A stored volume is not clamped when read back, and the code clamps only the side it moves towards (`WheelKeepsOutOfRange`).
- PlayerInterface.Player.OnSeek: on a seek bar of no width the code computes `NaN` seconds, marks the page as fetching and calls `loadSong` with it. The model does nothing there, since a `NaN` clock has no real counterpart.
- Text encoding: only the windows-1252 byte table is modelled. Strings are sequences of code points, so the UTF-16 code units of the browser's strings are left out.

## Findings

| source | as written | input that shows it | evidently intended | confidence | as-written member | corrected member |
|---|---|---|---|---|---|---|
| src/spc_player.js:63 and src/spc_player.js:161 | The block holds lastSample = 1 + floor(16384 * ratio) decoded frames, and the guard throws only when floor(ratio * index) + 1 > lastSample. So the guard lets through a read of frame lastSample (line 170), one past the last frame decoded at line 178. | a device at 192000 Hz (ratio 1/6), output index 16383: offset 2730.5, lastSample 2731, frame 2731 read with weight 1/2 | every frame the interpolation reads lies in the decoded block, and the guard fires before any read outside it | not executed | Resampler.UnwrittenFrameRead | Resampler.BlockFillInRange |

The corrected pair decodes one more frame, `Resampler.LastSample`, and throws when the following frame is missing, `Resampler.GetSample`. With it every read lies in the block, and `BlockFillInRange` shows that no index of a fill fails. `Resampler.AgreesWithAsWritten` shows that the correction changes no value the code reads from decoded frames. The backend's invariant uses the corrected sizing.
