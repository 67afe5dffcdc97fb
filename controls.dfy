/**
 * The arithmetic behind the player's controls (src/interface.js): the volume
 * that slider and wheel input give, the second a click on the seek bar seeks
 * to, JavaScript's `%` and `Math.round` as the interface uses them, and the
 * directory part shared by every playlist entry, which the playlist does not
 * show.
 */
module Controls {

  import opened Basics
  import SpcPlayer

  const MaxVolume: real := SpcPlayer.MaxGain

  /** One notch of the mouse wheel over the volume slider. */
  const WheelStep: real := 0.05

  function Abs(x: real): real {
    if x < 0.0 then -x else x
  }

  // ---------------------------------------------------------------- volume

  /**
   * The volume a slider reading `x` gives: 1.5, 1 and 0.5 capture readings
   * closer to them than 0.05, 0.05 and 0.025; the result is clamped to [0, 1.5].
   */
  function SliderVolume(x: real): (v: real)
    ensures 0.0 <= v <= MaxVolume
    ensures Abs(x - 1.5) < 0.05 ==> v == 1.5
    ensures Abs(x - 1.0) < 0.05 ==> v == 1.0
    ensures Abs(x - 0.5) < 0.025 ==> v == 0.5
    ensures Abs(x - 1.5) >= 0.05 && Abs(x - 1.0) >= 0.05 && Abs(x - 0.5) >= 0.025 ==>
      v == SpcPlayer.Clamp(x, 0.0, MaxVolume)
  {
    var snapped :=
      if Abs(x - 1.5) < 0.05 then 1.5
      else if Abs(x - 1.0) < 0.05 then 1.0
      else if Abs(x - 0.5) < 0.025 then 0.5
      else x;
    SpcPlayer.Clamp(snapped, 0.0, MaxVolume)
  }

  /** Reading the slider back at the volume it gave changes nothing. */
  lemma SliderIdempotent(x: real)
    ensures SliderVolume(SliderVolume(x)) == SliderVolume(x)
  {
  }

  /** Moving the slider further right never lowers the volume. */
  lemma SliderMonotone(x: real, y: real)
    requires x <= y
    ensures SliderVolume(x) <= SliderVolume(y)
  {
  }

  /** The volume after one wheel notch: up for a negative `deltaY`, down otherwise. */
  function WheelVolume(volume: real, deltaY: real): (v: real)
    ensures 0.0 <= volume <= MaxVolume ==> 0.0 <= v <= MaxVolume
    ensures deltaY < 0.0 ==> v <= volume + WheelStep && (volume <= MaxVolume - WheelStep ==> v == volume + WheelStep)
    ensures deltaY >= 0.0 ==> v >= volume - WheelStep && (volume >= WheelStep ==> v == volume - WheelStep)
  {
    if deltaY < 0.0 then
      (if MaxVolume <= volume + WheelStep then MaxVolume else volume + WheelStep)
    else
      (if 0.0 >= volume - WheelStep then 0.0 else volume - WheelStep)
  }

  /** A notch up and a notch down cancel while the volume is not pinned at either end. */
  lemma WheelUpThenDown(volume: real, up: real, down: real)
    requires 0.0 <= volume <= MaxVolume - WheelStep && up < 0.0 && down >= 0.0
    ensures WheelVolume(WheelVolume(volume, up), down) == volume
  {
  }

  lemma WheelDownThenUp(volume: real, up: real, down: real)
    requires WheelStep <= volume <= MaxVolume && up < 0.0 && down >= 0.0
    ensures WheelVolume(WheelVolume(volume, down), up) == volume
  {
  }

  /**
   * A stored volume above 1.5 is not pulled into range by notches down: the
   * wheel keeps the volume in [0, 1.5] only when it starts there.
   */
  lemma WheelKeepsOutOfRange()
    ensures WheelVolume(2.0, 1.0) == 1.95
  {
  }

  // ---------------------------------------------------------------- numbers

  /** `Math.round`: the nearest integer, halves rounding up. */
  function Round(x: real): (n: int)
    ensures x - 0.5 < n as real <= x + 0.5
  {
    (x + 0.5).Floor
  }

  /** A whole number rounds to itself. */
  lemma RoundWhole(n: int)
    ensures Round(n as real) == n
  {
  }

  lemma RoundMonotone(x: real, y: real)
    requires x <= y
    ensures Round(x) <= Round(y)
  {
  }

  /** `Math.trunc`. */
  function Trunc(q: real): int {
    if q >= 0.0 then q.Floor else -((-q).Floor)
  }

  /**
   * JavaScript's `%` on numbers: the dividend minus the divisor times the
   * truncated quotient. Unlike Dafny's `%` the result takes the dividend's sign.
   */
  function JsRem(a: real, b: real): (r: real)
    requires b != 0.0
    ensures b > 0.0 && a >= 0.0 ==> 0.0 <= r < b
    ensures b > 0.0 && a < 0.0 ==> -b < r <= 0.0
  {
    TruncRemainder(a, b);
    a - b * Trunc(a / b) as real
  }

  lemma ScaleBelow(b: real, x: real, y: real)
    requires b > 0.0 && x <= y
    ensures b * x <= b * y
  {
  }

  lemma ScaleStrictlyBelow(b: real, x: real, y: real)
    requires b > 0.0 && x < y
    ensures b * x < b * y
  {
  }

  /** Dividing by a positive number keeps the order. */
  lemma DivideBelow(x: real, y: real, w: real)
    requires w > 0.0 && x <= y
    ensures x / w <= y / w
  {
  }

  /** Scaling by a positive number and dividing by it again gives the number back. */
  lemma CancelScale(x: real, w: real)
    requires w > 0.0
    ensures (x * w) / w == x
  {
  }

  /** `a - b t` lies in `[0, b)` when `t` is within 1 below `a / b`. */
  lemma RemainderRange(a: real, b: real, q: real, t: real)
    requires b > 0.0 && b * q == a && t <= q < t + 1.0
    ensures 0.0 <= a - b * t
    ensures a - b * t < b
  {
    var d := q - t;
    ScaleBelow(b, 0.0, d);
    assert 0.0 <= b * d;
    ScaleStrictlyBelow(b, d, 1.0);
    assert b * d < b;
    assert b * d == b * q - b * t;
    assert a - b * t == b * d;
  }

  /** The truncating remainder by a positive divisor lies within `b` of 0, on the dividend's side. */
  lemma TruncRemainder(a: real, b: real)
    requires b != 0.0
    ensures b > 0.0 && a >= 0.0 ==> 0.0 <= a - b * Trunc(a / b) as real < b
    ensures b > 0.0 && a < 0.0 ==> -b < a - b * Trunc(a / b) as real <= 0.0
  {
    if b > 0.0 {
      var q := a / b;
      assert b * q == a;
      if a >= 0.0 {
        assert q >= 0.0 by {
          if q < 0.0 { ScaleStrictlyBelow(b, q, 0.0); }
        }
        RemainderRange(a, b, q, q.Floor as real);
      } else {
        assert q < 0.0 by {
          if q >= 0.0 { ScaleBelow(b, 0.0, q); }
        }
        var t := Trunc(q) as real;
        assert t == -((-q).Floor as real);
        RemainderRange(-a, b, -q, -t);
        assert b * -t == -(b * t);
      }
    }
  }

  /** For a non-negative dividend below the divisor the remainder is the dividend itself. */
  lemma JsRemBounds(a: real, b: real)
    requires a >= 0.0 && b > 0.0
    ensures 0.0 <= JsRem(a, b) < b
    ensures a < b ==> JsRem(a, b) == a
  {
    if a < b {
      var q := a / b;
      assert b * q == a;
      assert 0.0 <= q < 1.0 by {
        if q < 0.0 { ScaleStrictlyBelow(b, q, 0.0); }
        if q >= 1.0 { ScaleBelow(b, 1.0, q); }
      }
    }
  }

  /** The remainder repeats every `b`: the loop-point test fires once per track length. */
  lemma JsRemPeriodic(a: real, b: real, k: nat)
    requires a >= 0.0 && b > 0.0
    ensures JsRem(a + k as real * b, b) == JsRem(a, b)
  {
    var q := a / b;
    assert (a + k as real * b) / b == q + k as real;
    assert (q + k as real).Floor == q.Floor + k;
  }

  // ---------------------------------------------------------------- seeking

  /**
   * The second a click `offsetX` pixels into a seek bar `range` pixels wide
   * seeks to, in a track of `target` seconds. A bar of no width stands for the
   * `NaN` the division by zero gives.
   */
  function SeekSeconds(target: real, offsetX: real, range: nat): (s: Option<int>)
    requires target > 0.0
    ensures s.None? <==> range == 0
    ensures s.Some? ==> 0 <= s.value <= Round(target)
    ensures s.Some? && offsetX <= 0.0 ==> s.value == 0
    ensures s.Some? && offsetX >= range as real ==> s.value == Round(target)
  {
    if range == 0 then None
    else
      var position := SpcPlayer.Clamp(offsetX, 0.0, range as real);
      var fraction := SeekFraction(target, position, range as real);
      CancelScale(target, range as real);
      assert offsetX >= range as real ==> fraction == target;
      assert offsetX <= 0.0 ==> fraction == 0.0;
      RoundMonotone(0.0, fraction);
      RoundMonotone(fraction, target);
      Some(Round(fraction))
  }

  /** A whole-second track is never sought past its end. */
  lemma SeekWithinTrack(target: nat, offsetX: real, range: nat)
    requires target > 0 && range > 0
    ensures 0 <= SeekSeconds(target as real, offsetX, range).value <= target
  {
    RoundWhole(target);
  }

  /** Rounding can carry a click at the end of a fractional-length track past its end. */
  lemma SeekPastFractionalEnd()
    ensures SeekSeconds(2.5, 100.0, 100) == Some(3)
  {
    assert SpcPlayer.Clamp((2.5 * 100.0) / 100.0, 0.0, 2.5) == 2.5;
  }

  /** The share of the track up to a position on the bar, clamped to the track. */
  function SeekFraction(target: real, position: real, w: real): (f: real)
    requires target > 0.0 && w > 0.0
    ensures 0.0 <= f <= target
  {
    SpcPlayer.Clamp((target * position) / w, 0.0, target)
  }

  lemma SeekFractionMonotone(target: real, p: real, q: real, w: real)
    requires target > 0.0 && w > 0.0 && p <= q
    ensures SeekFraction(target, p, w) <= SeekFraction(target, q, w)
  {
    ScaleBelow(target, p, q);
    DivideBelow(target * p, target * q, w);
  }

  /** Clicking further right never seeks to an earlier second. */
  lemma SeekMonotone(target: real, x: real, y: real, range: nat)
    requires target > 0.0 && range > 0 && x <= y
    ensures SeekSeconds(target, x, range).value <= SeekSeconds(target, y, range).value
  {
    var w := range as real;
    var px, py := SpcPlayer.Clamp(x, 0.0, w), SpcPlayer.Clamp(y, 0.0, w);
    SeekFractionMonotone(target, px, py, w);
    RoundMonotone(SeekFraction(target, px, w), SeekFraction(target, py, w));
  }

  // ---------------------------------------------------------------- playlist names

  /** `s.lastIndexOf(c)`: the last position of `c`, or -1. */
  function LastIndexOf(s: string, c: char): (i: int)
    ensures -1 <= i < |s|
    ensures i >= 0 ==> s[i] == c
    ensures forall k :: i < k < |s| ==> s[k] != c
  {
    if s == [] then -1 else if s[|s| - 1] == c then |s| - 1 else LastIndexOf(s[..|s| - 1], c)
  }

  /** The first `count` names all begin with the first `n` characters of `files[0]`. */
  ghost predicate SharedUpTo(files: seq<string>, count: nat, n: nat)
    requires 0 < |files| && count <= |files|
  {
    forall k :: 0 <= k < count ==> n <= |files[k]| && n <= |files[0]| && files[k][..n] == files[0][..n]
  }

  /** `files[k]` does not begin with the first `n` characters of `files[0]`. */
  ghost predicate Breaks(files: seq<string>, k: nat, n: nat)
    requires k < |files|
  {
    !(n <= |files[k]| && n <= |files[0]| && files[k][..n] == files[0][..n])
  }

  /** `n` is the length of the longest prefix common to all of `files`. */
  ghost predicate IsLongestCommonPrefix(files: seq<string>, n: nat)
    requires 0 < |files|
  {
    SharedUpTo(files, |files|, n) && !SharedUpTo(files, |files|, n + 1)
  }

  lemma {:induction false} SharedShorter(files: seq<string>, count: nat, m: nat, n: nat)
    requires 0 < |files| && count <= |files| && m <= n
    requires SharedUpTo(files, count, n)
    ensures SharedUpTo(files, count, m)
  {
    forall k | 0 <= k < count
      ensures m <= |files[k]| && m <= |files[0]| && files[k][..m] == files[0][..m]
    {
      assert files[k][..m] == files[k][..n][..m];
      assert files[0][..m] == files[0][..n][..m];
    }
  }

  /** There is one longest common prefix. */
  lemma LongestCommonPrefixUnique(files: seq<string>, m: nat, n: nat)
    requires 0 < |files|
    requires IsLongestCommonPrefix(files, m) && IsLongestCommonPrefix(files, n)
    ensures m == n
  {
    if m < n {
      SharedShorter(files, |files|, m + 1, n);
    } else if n < m {
      SharedShorter(files, |files|, n + 1, m);
    }
  }

  /** One pass of the inner loop: the prefix shared so far, cut to where `files[i]` parts. */
  lemma SharedOneMore(files: seq<string>, i: nat, common: nat, position: nat)
    requires 0 < i < |files| && SharedUpTo(files, i, common)
    requires position <= common && position <= |files[i]|
    requires files[i][..position] == files[0][..position]
    ensures SharedUpTo(files, i + 1, position)
  {
    SharedShorter(files, i, position, common);
  }

  /** The inner loop stopping short of `common` means `files[i]` parts there. */
  lemma PartsAt(files: seq<string>, i: nat, position: nat)
    requires i < |files| && position < |files[0]| && position <= |files[i]|
    requires position == |files[i]| || files[0][position] != files[i][position]
    ensures Breaks(files, i, position + 1)
  {
  }

  /** Cutting `prefix` characters off every name removes the same text from each. */
  lemma StripsShared(files: seq<string>, common: nat, prefix: nat)
    requires 0 < |files| && SharedUpTo(files, |files|, common) && prefix <= common
    ensures forall k :: 0 <= k < |files| ==> prefix <= |files[k]| && files[k] == files[0][..prefix] + files[k][prefix..]
  {
    forall k | 0 <= k < |files|
      ensures prefix <= |files[k]| && files[k] == files[0][..prefix] + files[k][prefix..]
    {
      assert files[k][..prefix] == files[k][..common][..prefix];
      assert files[0][..prefix] == files[0][..common][..prefix];
      assert files[k] == files[k][..prefix] + files[k][prefix..];
    }
  }

  /** The playlist's loop: `common` shrinks to the length of the longest prefix shared by all names. */
  method LongestCommonPrefixLength(files: seq<string>) returns (common: nat)
    requires 0 < |files|
    ensures IsLongestCommonPrefix(files, common)
    ensures common <= |files[0]|
  {
    common := |files[0]|;
    ghost var breaker := 0;
    var i := 1;
    while i < |files|
      invariant 1 <= i <= |files|
      invariant common <= |files[0]|
      invariant SharedUpTo(files, i, common)
      invariant breaker < i && Breaks(files, breaker, common + 1)
    {
      var position := 0;
      while position < common && position < |files[i]| && files[0][position] == files[i][position]
        invariant position <= common && position <= |files[i]|
        invariant files[i][..position] == files[0][..position]
      {
        position := position + 1;
      }
      SharedOneMore(files, i, common, position);
      if position < common {
        PartsAt(files, i, position);
        breaker := i;
      }
      common := position;
      i := i + 1;
    }
  }

  /**
   * The playlist's prefix computation: the longest common prefix, then the
   * position after its last `/` (0 when it has none), which is cut off every name.
   */
  method CommonPrefix(files: seq<string>) returns (common: nat, prefix: nat)
    requires 0 < |files|
    ensures IsLongestCommonPrefix(files, common)
    ensures prefix == LastIndexOf(files[0][..common], '/') + 1
    ensures prefix <= common
    ensures prefix > 0 ==> files[0][prefix - 1] == '/'
    ensures forall k :: prefix <= k < common ==> files[0][k] != '/'
    ensures forall k :: 0 <= k < |files| ==> prefix <= |files[k]| && files[k] == files[0][..prefix] + files[k][prefix..]
    ensures SharedUpTo(files, |files|, prefix)
  {
    common := LongestCommonPrefixLength(files);
    var head := files[0][..common];
    prefix := LastIndexOf(head, '/') + 1;
    assert forall k :: 0 <= k < common ==> head[k] == files[0][k];
    StripsShared(files, common, prefix);
    SharedShorter(files, |files|, prefix, common);
  }

  /** The names the playlist shows: every entry with the shared directory cut off. */
  function DisplayNames(files: seq<string>, prefix: nat): (names: seq<string>)
    requires 0 < |files| && SharedUpTo(files, |files|, prefix)
    ensures |names| == |files|
    ensures forall k :: 0 <= k < |files| ==> files[k] == files[0][..prefix] + names[k]
  {
    seq(|files|, k requires 0 <= k < |files| => files[k][prefix..])
  }
}
