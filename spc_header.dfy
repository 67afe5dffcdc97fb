/**
 * The ID666 text tags at the head of an SPC file, as `extractString` and
 * `parseSPC` read them (src/interface.js), together with the `Number()`
 * conversion applied to the two numeric tags and the `TextDecoder("latin1")`
 * decoding applied to every tag.
 */
module SpcHeader {

  import opened Basics

  // ---------------------------------------------------------------- fields

  /**
   * How many bytes `extractString(bytes, start, length)` keeps: it stops after
   * `length` bytes or before the first zero byte. A position past the end of
   * the array reads as `undefined`, which is not `0`, so it does not stop the
   * count.
   */
  function FieldLength(bytes: seq<byte>, start: nat, length: nat): (n: nat)
    ensures n <= length
    ensures forall k :: start <= k < start + n && k < |bytes| ==> bytes[k] != 0
    ensures n < length ==> start + n < |bytes| && bytes[start + n] == 0
    decreases length
  {
    if length == 0 || (start < |bytes| && bytes[start] == 0) then 0
    else 1 + FieldLength(bytes, start + 1, length - 1)
  }

  /** `TypedArray.prototype.slice(from, to)` for non-negative bounds: both are clamped to the length. */
  function Slice(s: seq<byte>, from: nat, to: nat): (r: seq<byte>)
    ensures |r| == if from < to && from < |s| then (if to < |s| then to else |s|) - from else 0
    ensures forall k :: 0 <= k < |r| ==> r[k] == s[from + k]
  {
    if from >= |s| || from >= to then [] else s[from .. if to < |s| then to else |s|]
  }

  /**
   * The characters of bytes 0x80 to 0x9F: the Encoding Standard makes the label
   * "latin1" an alias of windows-1252, whose bytes 0x81, 0x8D, 0x8F, 0x90 and
   * 0x9D decode to the code point of the same number.
   */
  function HighChar(b: byte): (c: char)
    requires 0x80 <= b < 0xA0
    ensures c as int >= 0x81
  {
    match b
    case 0x80 => '\U{20AC}' case 0x81 => '\U{0081}' case 0x82 => '\U{201A}' case 0x83 => '\U{0192}'
    case 0x84 => '\U{201E}' case 0x85 => '\U{2026}' case 0x86 => '\U{2020}' case 0x87 => '\U{2021}'
    case 0x88 => '\U{02C6}' case 0x89 => '\U{2030}' case 0x8A => '\U{0160}' case 0x8B => '\U{2039}'
    case 0x8C => '\U{0152}' case 0x8D => '\U{008D}' case 0x8E => '\U{017D}' case 0x8F => '\U{008F}'
    case 0x90 => '\U{0090}' case 0x91 => '\U{2018}' case 0x92 => '\U{2019}' case 0x93 => '\U{201C}'
    case 0x94 => '\U{201D}' case 0x95 => '\U{2022}' case 0x96 => '\U{2013}' case 0x97 => '\U{2014}'
    case 0x98 => '\U{02DC}' case 0x99 => '\U{2122}' case 0x9A => '\U{0161}' case 0x9B => '\U{203A}'
    case 0x9C => '\U{0153}' case 0x9D => '\U{009D}' case 0x9E => '\U{017E}' case _ => '\U{0178}'
  }

  /** One byte as `TextDecoder("latin1")` decodes it. */
  function DecodeByte(b: byte): (c: char)
    ensures b < 0x80 || b >= 0xA0 ==> c as int == b as int
    ensures c as int == 0 <==> b == 0
  {
    if 0x80 <= b < 0xA0 then HighChar(b) else b as int as char
  }

  /** `TextDecoder("latin1").decode(bytes)`: one character per byte. */
  function Decode(bytes: seq<byte>): (s: string)
    ensures |s| == |bytes|
    ensures forall k :: 0 <= k < |s| ==> s[k] == DecodeByte(bytes[k])
  {
    seq(|bytes|, k requires 0 <= k < |bytes| => DecodeByte(bytes[k]))
  }

  /** The string `extractString(bytes, start, length)` returns. */
  function Field(bytes: seq<byte>, start: nat, length: nat): (s: string)
    ensures |s| <= length
    ensures forall k :: 0 <= k < |s| ==> s[k] as int != 0
    ensures start >= |bytes| ==> s == []
    ensures start < |bytes| ==> start + |s| <= |bytes| && s == Decode(bytes[start .. start + |s|])
    ensures |s| < length && start < |bytes| ==> start + |s| == |bytes| || bytes[start + |s|] == 0
  {
    var n := FieldLength(bytes, start, length);
    var r := Slice(bytes, start, start + n);
    assert start < |bytes| ==> r == bytes[start .. start + |r|];
    Decode(r)
  }

  /** `extractString`: counts the kept bytes in a loop, then decodes them. */
  method ExtractString(bytes: seq<byte>, start: nat, length: nat) returns (s: string)
    ensures s == Field(bytes, start, length)
  {
    var realLength := 0;
    while realLength < length && (start + realLength >= |bytes| || bytes[start + realLength] != 0)
      invariant realLength <= length
      invariant FieldLength(bytes, start, length)
                == realLength + FieldLength(bytes, start + realLength, length - realLength)
    {
      realLength := realLength + 1;
    }
    s := Decode(Slice(bytes, start, start + realLength));
  }

  /** Changing bytes outside `[start, start + length)` does not change the field. */
  lemma {:induction false} FieldLengthLocal(a: seq<byte>, b: seq<byte>, start: nat, length: nat)
    requires start + length <= |a| && start + length <= |b|
    requires a[start .. start + length] == b[start .. start + length]
    ensures FieldLength(a, start, length) == FieldLength(b, start, length)
    decreases length
  {
    if length > 0 {
      assert a[start] == a[start .. start + length][0];
      assert b[start] == b[start .. start + length][0];
      assert a[start + 1 .. start + length] == a[start .. start + length][1..];
      assert b[start + 1 .. start + length] == b[start .. start + length][1..];
      FieldLengthLocal(a, b, start + 1, length - 1);
    }
  }

  /** A slice inside the array is the subsequence. */
  lemma SliceInside(s: seq<byte>, from: nat, n: nat)
    requires from + n <= |s|
    ensures Slice(s, from, from + n) == s[from .. from + n]
  {
  }

  /** The first `m` bytes of `s[i .. i + n]` are `s[i .. i + m]`. */
  lemma SubOfSub(s: seq<byte>, i: nat, m: nat, n: nat)
    requires m <= n && i + n <= |s|
    ensures s[i .. i + n][..m] == s[i .. i + m]
  {
    var t, u := s[i .. i + n][..m], s[i .. i + m];
    assert forall k :: 0 <= k < m ==> t[k] == u[k];
  }

  lemma FieldLocal(a: seq<byte>, b: seq<byte>, start: nat, length: nat)
    requires start + length <= |a| && start + length <= |b|
    requires a[start .. start + length] == b[start .. start + length]
    ensures Field(a, start, length) == Field(b, start, length)
  {
    if length > 0 {
      FieldLengthLocal(a, b, start, length);
      var n := FieldLength(a, start, length);
      SliceInside(a, start, n);
      SliceInside(b, start, n);
      SubOfSub(a, start, n, length);
      SubOfSub(b, start, n, length);
      assert Slice(a, start, start + n) == Slice(b, start, start + n);
      assert Field(a, start, length) == Decode(Slice(a, start, start + n));
      assert Field(b, start, length) == Decode(Slice(b, start, start + n));
    } else {
      assert Field(a, start, length) == [] && Field(b, start, length) == [];
    }
  }

  // ---------------------------------------------------------------- Number()

  /** The white space and line terminators around a numeric string that `Number()` ignores. */
  predicate IsJsSpace(c: char) {
    || c in {'\t', '\n', '\U{000B}', '\U{000C}', '\r', ' ', '\U{00A0}', '\U{1680}',
             '\U{2028}', '\U{2029}', '\U{202F}', '\U{205F}', '\U{3000}', '\U{FEFF}'}
    || '\U{2000}' <= c <= '\U{200A}'
  }

  function TrimStart(s: string): (r: string)
    ensures |r| <= |s| && r == s[|s| - |r|..]
    ensures r != [] ==> !IsJsSpace(r[0])
    ensures forall k :: 0 <= k < |s| - |r| ==> IsJsSpace(s[k])
  {
    if s != [] && IsJsSpace(s[0]) then TrimStart(s[1..]) else s
  }

  function TrimEnd(s: string): (r: string)
    ensures |r| <= |s| && r == s[..|r|]
    ensures r != [] ==> !IsJsSpace(r[|r| - 1])
    ensures forall k :: |r| <= k < |s| ==> IsJsSpace(s[k])
  {
    if s != [] && IsJsSpace(s[|s| - 1]) then TrimEnd(s[..|s| - 1]) else s
  }

  /** `String.prototype.trim`, as `Number()` applies it. */
  function Trim(s: string): string {
    TrimEnd(TrimStart(s))
  }

  /** The value of `c` as a digit of a base up to 16. */
  function DigitOf(c: char): (d: Option<nat>)
    ensures d.Some? ==> d.value < 16
    ensures d.Some? && d.value < 10 <==> '0' <= c <= '9'
  {
    if '0' <= c <= '9' then Some(c as int - '0' as int)
    else if 'a' <= c <= 'f' then Some(c as int - 'a' as int + 10)
    else if 'A' <= c <= 'F' then Some(c as int - 'A' as int + 10)
    else None
  }

  predicate AllDigitsIn(s: string, radix: nat) {
    forall k :: 0 <= k < |s| ==> DigitOf(s[k]).Some? && DigitOf(s[k]).value < radix
  }

  /** The number the digits `s` write in base `radix`, most significant first. */
  function ValueIn(s: string, radix: nat): nat
    requires AllDigitsIn(s, radix)
  {
    if s == [] then 0 else ValueIn(s[..|s| - 1], radix) * radix + DigitOf(s[|s| - 1]).value
  }

  /** `10` raised to `e`. */
  function Pow10(e: int): (r: real)
    ensures r > 0.0
    decreases if e < 0 then -e else e
  {
    if e == 0 then 1.0 else if e > 0 then 10.0 * Pow10(e - 1) else Pow10(e + 1) / 10.0
  }

  /** The first index of `s` holding one of `cs`, or `|s|` when there is none. */
  function FindAny(s: string, cs: set<char>): (i: nat)
    ensures i <= |s|
    ensures i < |s| ==> s[i] in cs
    ensures forall k :: 0 <= k < i ==> s[k] !in cs
  {
    if s == [] || s[0] in cs then 0 else 1 + FindAny(s[1..], cs)
  }

  /** An exponent: decimal digits after an optional sign. */
  function SignedInteger(s: string): Option<int> {
    var digits := if s != [] && (s[0] == '-' || s[0] == '+') then s[1..] else s;
    if digits != [] && AllDigitsIn(digits, 10) then
      var v: int := ValueIn(digits, 10);
      Some(if s[0] == '-' then -v else v)
    else None
  }

  /**
   * An unsigned decimal literal: digits with an optional `.` and fraction (one
   * side of the point may be empty, not both), then an optional exponent.
   */
  function UnsignedDecimal(s: string): Option<real> {
    var e := FindAny(s, {'e', 'E'});
    var exponent := if e == |s| then Some(0) else SignedInteger(s[e + 1..]);
    var mantissa := s[..e];
    var dot := FindAny(mantissa, {'.'});
    var whole := mantissa[..dot];
    var fraction := if dot < |mantissa| then mantissa[dot + 1..] else [];
    if exponent.Some? && |whole| + |fraction| > 0 && AllDigitsIn(whole, 10) && AllDigitsIn(fraction, 10) then
      Some((ValueIn(whole, 10) as real + ValueIn(fraction, 10) as real / Pow10(|fraction|)) * Pow10(exponent.value))
    else None
  }

  /** `0x`, `0o` or `0b` and unsigned digits of base 16, 8 or 2. */
  function PrefixedInteger(t: string): Option<real>
    requires |t| >= 2
  {
    var radix := if t[1] in {'x', 'X'} then 16 else if t[1] in {'o', 'O'} then 8 else 2;
    var digits := t[2..];
    if digits != [] && AllDigitsIn(digits, radix) then Some(ValueIn(digits, radix) as real) else None
  }

  /** A decimal literal with an optional sign. */
  function SignedDecimal(t: string): Option<real>
    requires t != []
  {
    if t[0] == '-' then
      match UnsignedDecimal(t[1..])
      case Some(v) => Some(-v)
      case None => None
    else if t[0] == '+' then UnsignedDecimal(t[1..])
    else UnsignedDecimal(t)
  }

  /**
   * What `Number()` makes of a string already stripped of surrounding white
   * space; `None` stands for `NaN`. A blank string is 0, `0x`, `0o` and `0b`
   * introduce unsigned integers in bases 16, 8 and 2, and anything else must be
   * a signed decimal literal.
   */
  function NumericLiteral(t: string): Option<real> {
    if t == [] then Some(0.0)
    else if |t| >= 2 && t[0] == '0' && t[1] in {'x', 'X', 'o', 'O', 'b', 'B'} then PrefixedInteger(t)
    else SignedDecimal(t)
  }

  /**
   * `Number(s)` for a string: the literal between the surrounding white space.
   * Blank text is 0, and text that starts with anything but a digit, a point or
   * a sign is `NaN`.
   */
  function JsNumber(s: string): (n: Option<real>)
    ensures Trim(s) == [] ==> n == Some(0.0)
    ensures Trim(s) != [] && !('0' <= Trim(s)[0] <= '9') && Trim(s)[0] !in {'.', '+', '-'} ==> n.None?
  {
    var t := Trim(s);
    if t != [] && !('0' <= t[0] <= '9') && t[0] !in {'.', '+', '-'} then
      NotALiteral(t);
      NumericLiteral(t)
    else NumericLiteral(t)
  }

  /** A literal cannot start with a letter or any other mark. */
  lemma NotALiteral(t: string)
    requires t != [] && !('0' <= t[0] <= '9') && t[0] !in {'.', '+', '-'}
    ensures NumericLiteral(t).None?
  {
    var e := FindAny(t, {'e', 'E'});
    if e > 0 {
      var mantissa := t[..e];
      var dot := FindAny(mantissa, {'.'});
      assert dot > 0 && mantissa[..dot][0] == t[0];
      assert DigitOf(t[0]).None? || DigitOf(t[0]).value >= 10;
    }
  }

  /** A run of decimal digits contains neither an exponent mark nor a point. */
  lemma DigitsAvoid(s: string, cs: set<char>)
    requires AllDigitsIn(s, 10)
    requires forall c :: c in cs ==> !('0' <= c <= '9')
    ensures FindAny(s, cs) == |s|
  {
  }

  /** Plain decimal digits are an unsigned decimal literal of their own value. */
  lemma DecimalOfDigits(s: string)
    requires s != [] && AllDigitsIn(s, 10)
    ensures UnsignedDecimal(s) == Some(ValueIn(s, 10) as real)
  {
    DigitsAvoid(s, {'e', 'E'});
    assert s[..|s|] == s;
    DigitsAvoid(s, {'.'});
  }

  /** A string of decimal digits is read as its value. */
  lemma LiteralOfDigits(t: string)
    requires AllDigitsIn(t, 10)
    ensures NumericLiteral(t) == Some(ValueIn(t, 10) as real)
  {
    if t != [] {
      assert '0' <= t[0] <= '9' by { assert DigitOf(t[0]).value < 10; }
      assert |t| >= 2 ==> '0' <= t[1] <= '9' by {
        if |t| >= 2 { assert DigitOf(t[1]).value < 10; }
      }
      assert NumericLiteral(t) == SignedDecimal(t);
      DecimalOfDigits(t);
    }
  }

  /** Decimal digits, with or without white space around them, are read as their value. */
  lemma NumberOfDigits(s: string)
    requires AllDigitsIn(Trim(s), 10)
    ensures JsNumber(s) == Some(ValueIn(Trim(s), 10) as real)
  {
    LiteralOfDigits(Trim(s));
  }

  /** The decimal digits of `n`, as `String(n)` writes a natural number. */
  function DecimalString(n: nat): (s: string)
    ensures s != [] && AllDigitsIn(s, 10)
  {
    var d := ['0' + (n % 10) as char];
    if n < 10 then d else DecimalString(n / 10) + d
  }

  lemma {:induction false} DecimalStringValue(n: nat)
    ensures ValueIn(DecimalString(n), 10) == n
  {
    var s := DecimalString(n);
    if n >= 10 {
      DecimalStringValue(n / 10);
      assert s[..|s| - 1] == DecimalString(n / 10);
    }
  }

  /**
   * The text `Number.prototype.toString` gives a non-negative number with the
   * whole digits `w` and the fraction digits `f`: the point only when `f` is not empty.
   */
  function DecimalText(w: string, f: string): (s: string)
    ensures |s| > |w| <==> f != []
  {
    if f == [] then w else w + "." + f
  }

  /** The value the digits `w` and `f` stand for, point between. */
  function PointedValue(w: string, f: string): (v: real)
    requires AllDigitsIn(w, 10) && AllDigitsIn(f, 10)
    ensures v >= 0.0
  {
    ValueIn(w, 10) as real + ValueIn(f, 10) as real / Pow10(|f|)
  }

  /** Digits, a point, digits: every character but the point at `|w|` is a decimal digit. */
  lemma PointedChars(w: string, f: string)
    requires AllDigitsIn(w, 10) && AllDigitsIn(f, 10)
    ensures forall k :: 0 <= k < |w + "." + f| && k != |w| ==> '0' <= (w + "." + f)[k] <= '9'
    ensures (w + "." + f)[|w|] == '.'
  {
    var s := w + "." + f;
    forall k | 0 <= k < |s| && k != |w|
      ensures '0' <= s[k] <= '9'
    {
      if k < |w| {
        assert s[k] == w[k] && DigitOf(w[k]).value < 10;
      } else {
        assert s[k] == f[k - |w| - 1] && DigitOf(f[k - |w| - 1]).value < 10;
      }
    }
  }

  /** Where the searches of `UnsignedDecimal` stop in `w.f`: at the end, and at the point. */
  lemma PointedSearches(w: string, f: string)
    requires AllDigitsIn(w, 10) && AllDigitsIn(f, 10)
    ensures FindAny(w + "." + f, {'e', 'E'}) == |w + "." + f|
    ensures FindAny(w + "." + f, {'.'}) == |w|
  {
    PointedChars(w, f);
  }

  /** The unsigned decimal literal `w.f` has the value its digits write. */
  lemma PointedDecimal(w: string, f: string)
    requires AllDigitsIn(w, 10) && AllDigitsIn(f, 10) && f != []
    ensures UnsignedDecimal(w + "." + f) == Some(PointedValue(w, f))
  {
    var s := w + "." + f;
    PointedSearches(w, f);
    assert s[..|s|] == s;
    assert s[..|w|] == w && s[|w| + 1..] == f;
  }

  /** Decimal text has no white space to trim. */
  lemma PointedUntrimmed(w: string, f: string)
    requires AllDigitsIn(w, 10) && AllDigitsIn(f, 10)
    ensures Trim(w + "." + f) == w + "." + f
  {
    PointedChars(w, f);
    NoSpaceTrim(w + "." + f);
  }

  /** `Number` reads `w.f` as its value. */
  lemma NumberOfPointed(w: string, f: string)
    requires w != [] && AllDigitsIn(w, 10) && AllDigitsIn(f, 10) && f != []
    ensures JsNumber(w + "." + f) == Some(PointedValue(w, f))
  {
    var s := w + "." + f;
    PointedUntrimmed(w, f);
    assert '0' <= s[0] <= '9' by { assert s[0] == w[0] && DigitOf(w[0]).value < 10; }
    assert s[1] !in {'x', 'X', 'o', 'O', 'b', 'B'} by {
      if |w| > 1 { assert s[1] == w[1] && DigitOf(w[1]).value < 10; } else { assert s[1] == '.'; }
    }
    assert JsNumber(s) == NumericLiteral(s);
    assert NumericLiteral(s) == SignedDecimal(s);
    PointedDecimal(w, f);
  }

  /** `Number` reads decimal text back as the value it writes. */
  lemma NumberOfDecimalText(w: string, f: string)
    requires w != [] && AllDigitsIn(w, 10) && AllDigitsIn(f, 10)
    ensures JsNumber(DecimalText(w, f)) == Some(PointedValue(w, f))
  {
    if f == [] {
      assert forall k :: 0 <= k < |w| ==> '0' <= w[k] <= '9' by {
        forall k | 0 <= k < |w| ensures '0' <= w[k] <= '9' { assert DigitOf(w[k]).value < 10; }
      }
      NoSpaceTrim(w);
      assert JsNumber(w) == NumericLiteral(w);
      LiteralOfDigits(w);
      assert PointedValue(w, f) == ValueIn(w, 10) as real;
    } else {
      NumberOfPointed(w, f);
    }
  }

  lemma NoSpaceTrim(s: string)
    requires forall k :: 0 <= k < |s| ==> !IsJsSpace(s[k])
    ensures Trim(s) == s
  {
  }

  /** `Number` reads back every natural number written in decimal. */
  lemma NumberOfDecimal(n: nat)
    ensures JsNumber(DecimalString(n)) == Some(n as real)
  {
    var s := DecimalString(n);
    assert forall k :: 0 <= k < |s| ==> '0' <= s[k] <= '9';
    NoSpaceTrim(s);
    DecimalStringValue(n);
    NumberOfDigits(s);
  }

  /** A field made of white space alone is 0, not `NaN`. */
  lemma NumberOfBlank(s: string)
    requires forall k :: 0 <= k < |s| ==> IsJsSpace(s[k])
    ensures JsNumber(s) == Some(0.0)
  {
  }

  // ---------------------------------------------------------------- tags

  /** The object `parseSPC` returns; `None` stands for a `NaN` number. */
  datatype Tags = Tags(title: string, game: string, comment: string, date: string,
                       duration: Option<real>, fade: Option<real>, author: string)

  /** The tags of an SPC image, field by field at the ID666 offsets. */
  function TagsOf(bytes: seq<byte>): (t: Tags)
    ensures t.title != []
    ensures |t.title| <= 32 && |t.game| <= 32 && |t.comment| <= 32 && |t.date| <= 10 && |t.author| <= 32
  {
    var title := Field(bytes, 0x2E, 32);
    Tags(if title == [] then "SPC File" else title,
         Field(bytes, 0x4E, 32),
         Field(bytes, 0x7E, 32),
         Field(bytes, 0x9E, 10),
         JsNumber(Field(bytes, 0xA9, 3)),
         JsNumber(Field(bytes, 0xAC, 4)),
         Field(bytes, 0xB1, 32))
  }

  /** `parseSPC`: seven calls of `extractString`. */
  method ParseSPC(bytes: seq<byte>) returns (t: Tags)
    ensures t == TagsOf(bytes)
  {
    var title := ExtractString(bytes, 0x2E, 32);
    if title == [] {
      title := "SPC File";
    }
    var game := ExtractString(bytes, 0x4E, 32);
    var comment := ExtractString(bytes, 0x7E, 32);
    var date := ExtractString(bytes, 0x9E, 10);
    var duration := ExtractString(bytes, 0xA9, 3);
    var fade := ExtractString(bytes, 0xAC, 4);
    var author := ExtractString(bytes, 0xB1, 32);
    t := Tags(title, game, comment, date, JsNumber(duration), JsNumber(fade), author);
  }

  /** Two arrays that agree on `[lo, hi)` agree on every field inside it. */
  lemma FieldLocalIn(a: seq<byte>, b: seq<byte>, lo: nat, hi: nat, start: nat, length: nat)
    requires lo <= start && start + length <= hi
    requires hi <= |a| && hi <= |b| && a[lo .. hi] == b[lo .. hi]
    ensures Field(a, start, length) == Field(b, start, length)
  {
    forall k | start <= k < start + length
      ensures a[k] == b[k]
    {
      assert a[k] == a[lo .. hi][k - lo] && b[k] == b[lo .. hi][k - lo];
    }
    assert a[start .. start + length] == b[start .. start + length];
    FieldLocal(a, b, start, length);
  }

  /** The tags depend on the header bytes 0x2E to 0xD0 and on nothing else. */
  lemma TagsReadOnlyHeader(a: seq<byte>, b: seq<byte>)
    requires |a| >= 0xD1 && |b| >= 0xD1
    requires a[0x2E .. 0xD1] == b[0x2E .. 0xD1]
    ensures TagsOf(a) == TagsOf(b)
  {
    FieldLocalIn(a, b, 0x2E, 0xD1, 0x2E, 32);
    FieldLocalIn(a, b, 0x2E, 0xD1, 0x4E, 32);
    FieldLocalIn(a, b, 0x2E, 0xD1, 0x7E, 32);
    FieldLocalIn(a, b, 0x2E, 0xD1, 0x9E, 10);
    FieldLocalIn(a, b, 0x2E, 0xD1, 0xA9, 3);
    FieldLocalIn(a, b, 0x2E, 0xD1, 0xAC, 4);
    FieldLocalIn(a, b, 0x2E, 0xD1, 0xB1, 32);
  }

  /** The title falls back to "SPC File" exactly when its first byte is zero or missing. */
  lemma TitleFallback(bytes: seq<byte>)
    ensures |bytes| <= 0x2E || bytes[0x2E] == 0 ==> TagsOf(bytes).title == "SPC File"
    ensures 0x2E < |bytes| && bytes[0x2E] != 0 ==>
      TagsOf(bytes).title == Field(bytes, 0x2E, 32) && |TagsOf(bytes).title| >= 1
  {
    if 0x2E < |bytes| && bytes[0x2E] != 0 {
      assert FieldLength(bytes, 0x2E, 32) >= 1;
    }
  }

  /** A field of non-zero bytes that lies inside the array is all of it, decoded. */
  lemma WholeField(bytes: seq<byte>, start: nat, length: nat)
    requires start + length <= |bytes|
    requires forall k :: start <= k < start + length ==> bytes[k] != 0
    ensures Field(bytes, start, length) == Decode(bytes[start .. start + length])
  {
    assert FieldLength(bytes, start, length) == length;
  }

  predicate IsAsciiDigits(bs: seq<byte>) {
    forall k :: 0 <= k < |bs| ==> 0x30 <= bs[k] <= 0x39
  }

  /** The number ASCII decimal digits write, most significant first. */
  function AsciiDecimal(bs: seq<byte>): nat
    requires IsAsciiDigits(bs)
  {
    if bs == [] then 0 else AsciiDecimal(bs[..|bs| - 1]) * 10 + (bs[|bs| - 1] as int - 0x30)
  }

  lemma {:induction false} DecodedDigits(bs: seq<byte>)
    requires IsAsciiDigits(bs)
    ensures AllDigitsIn(Decode(bs), 10) && ValueIn(Decode(bs), 10) == AsciiDecimal(bs)
  {
    if bs != [] {
      DecodedDigits(bs[..|bs| - 1]);
      assert Decode(bs)[..|bs| - 1] == Decode(bs[..|bs| - 1]);
    }
  }

  /** A numeric field holding ASCII digits only is read as the number they write. */
  lemma DigitField(bytes: seq<byte>, start: nat, length: nat)
    requires start + length <= |bytes|
    requires IsAsciiDigits(bytes[start .. start + length])
    ensures JsNumber(Field(bytes, start, length)) == Some(AsciiDecimal(bytes[start .. start + length]) as real)
  {
    var bs := bytes[start .. start + length];
    assert forall k :: start <= k < start + length ==> bytes[k] == bs[k - start];
    WholeField(bytes, start, length);
    DecodedDigits(bs);
    NoSpaceTrim(Decode(bs));
    NumberOfDigits(Decode(bs));
  }

  /** A duration field of ASCII digits is that many seconds. */
  lemma DurationOfDigits(bytes: seq<byte>)
    requires |bytes| >= 0xAC && IsAsciiDigits(bytes[0xA9 .. 0xAC])
    ensures TagsOf(bytes).duration == Some(AsciiDecimal(bytes[0xA9 .. 0xAC]) as real)
  {
    DigitField(bytes, 0xA9, 3);
  }

  /** A fade field of ASCII digits is that many milliseconds. */
  lemma FadeOfDigits(bytes: seq<byte>)
    requires |bytes| >= 0xB0 && IsAsciiDigits(bytes[0xAC .. 0xB0])
    ensures TagsOf(bytes).fade == Some(AsciiDecimal(bytes[0xAC .. 0xB0]) as real)
  {
    DigitField(bytes, 0xAC, 4);
  }
}
