/**
 * The temperature colour ramp of the dashboard: five colour stops in
 * ascending temperature, clamping at both ends and linear interpolation of
 * each RGB channel in between, with the `#RRGGBB` hex notation of section 5.2
 * of CSS Color Module Level 4 as the exchange format.
 *
 * JavaScript numbers that can become `NaN` on malformed input (the result of
 * `parseInt` and everything computed from it) are `Option<int>`, with `None`
 * standing for `NaN`.
 */
module TemperatureColors {
  import opened Wrappers
  import opened TextOps

  // ---------------------------------------------------------------------------
  // Hex digits.

  predicate IsHexDigit(c: char) {
    ('0' <= c <= '9') || ('a' <= c <= 'f') || ('A' <= c <= 'F')
  }

  function HexDigitValue(c: char): (v: nat)
    requires IsHexDigit(c)
    ensures v < 16
  {
    if '0' <= c <= '9' then c as int - '0' as int
    else if 'a' <= c <= 'f' then c as int - 'a' as int + 10
    else c as int - 'A' as int + 10
  }

  /** The lower-case digit that `Number.prototype.toString(16)` writes for `v`. */
  function HexDigitChar(v: nat): (c: char)
    requires v < 16
    ensures IsHexDigit(c) && !IsUpper(c) && HexDigitValue(c) == v
  {
    if v < 10 then ('0' as int + v) as char else ('a' as int + v - 10) as char
  }

  /** Writing back the value of a digit gives the digit in lower case. */
  lemma HexDigitCharOfValue(c: char)
    requires IsHexDigit(c)
    ensures HexDigitChar(HexDigitValue(c)) == LowerChar(c)
  {
  }

  // ---------------------------------------------------------------------------
  // `parseInt(s, 16)`.

  /** `StrWhiteSpaceChar` of ECMAScript: white space and line terminators. */
  predicate IsJsSpace(c: char) {
    || ('\t' <= c <= '\r')
    || c == ' ' || c == '\U{A0}' || c == '\U{1680}'
    || ('\U{2000}' <= c <= '\U{200A}')
    || c == '\U{2028}' || c == '\U{2029}' || c == '\U{202F}' || c == '\U{205F}' || c == '\U{3000}'
    || c == '\U{FEFF}'
  }

  /** `String.prototype.trimStart` as `parseInt` applies it. */
  function TrimStartJs(s: string): string
  {
    if s != [] && IsJsSpace(s[0]) then TrimStartJs(s[1..]) else s
  }

  /** The length of the longest prefix of `s` made of hex digits. */
  function HexPrefixLength(s: string): nat {
    if s != [] && IsHexDigit(s[0]) then 1 + HexPrefixLength(s[1..]) else 0
  }

  /** The run is a prefix of `s`, made of hex digits, and cannot be extended. */
  lemma {:induction false} HexPrefixRun(s: string)
    ensures var n := HexPrefixLength(s);
      && n <= |s|
      && (forall i :: 0 <= i < n ==> IsHexDigit(s[i]))
      && (n == |s| || !IsHexDigit(s[n]))
  {
    if s != [] && IsHexDigit(s[0]) {
      HexPrefixRun(s[1..]);
    }
  }

  /** The value of a string of hex digits, most significant first. */
  function HexValue(ds: string): (v: nat)
    requires forall i :: 0 <= i < |ds| ==> IsHexDigit(ds[i])
  {
    if ds == [] then 0 else 16 * HexValue(ds[..|ds| - 1]) + HexDigitValue(ds[|ds| - 1])
  }

  /**
   * `parseInt(s, 16)`: skip leading white space, take an optional sign and an
   * optional `0x`/`0X` prefix, then read the longest run of hex digits; `None`
   * (`NaN`) when that run is empty.
   */
  function ParseIntHex(s: string): Option<int> {
    ParseSignedHex(TrimStartJs(s))
  }

  /** A leading `-` negates, a leading `+` is skipped. */
  function ParseSignedHex(t: string): Option<int> {
    if t != [] && t[0] == '-' then
      match ParseUnsignedHex(t[1..])
      case None => None
      case Some(v) => Some(-v)
    else if t != [] && t[0] == '+' then ParseUnsignedHex(t[1..])
    else ParseUnsignedHex(t)
  }

  /** An optional `0x` or `0X`, then the longest run of hex digits, which must not be empty. */
  function ParseUnsignedHex(u: string): Option<int> {
    var w := if |u| >= 2 && u[0] == '0' && (u[1] == 'x' || u[1] == 'X') then u[2..] else u;
    var n := HexPrefixLength(w);
    HexPrefixRun(w);
    if n == 0 then None else Some(HexValue(w[..n]))
  }

  /** Two hex digits parse to their value. */
  lemma ParseTwoHexDigits(d1: char, d0: char)
    requires IsHexDigit(d1) && IsHexDigit(d0)
    ensures ParseIntHex([d1, d0]) == Some(16 * HexDigitValue(d1) + HexDigitValue(d0))
  {
    var s := [d1, d0];
    NoSpaceBeforeDigits(d1, d0);
    TwoDigitRun(d1, d0);
    TwoDigitValue(d1, d0);
    assert s[..2] == s;
    assert ParseUnsignedHex(s) == Some(HexValue(s));
  }

  lemma NoSpaceBeforeDigits(d1: char, d0: char)
    requires IsHexDigit(d1)
    ensures TrimStartJs([d1, d0]) == [d1, d0]
    ensures ParseSignedHex([d1, d0]) == ParseUnsignedHex([d1, d0])
  {
    assert !IsJsSpace(d1);
  }

  lemma TwoDigitRun(d1: char, d0: char)
    requires IsHexDigit(d1) && IsHexDigit(d0)
    ensures HexPrefixLength([d1, d0]) == 2
  {
    assert [d1, d0][1..] == [d0];
    assert [d0][1..] == [];
    assert HexPrefixLength([]) == 0;
  }

  lemma TwoDigitValue(d1: char, d0: char)
    requires IsHexDigit(d1) && IsHexDigit(d0)
    ensures HexValue([d1, d0]) == 16 * HexDigitValue(d1) + HexDigitValue(d0)
  {
    assert [d1, d0][..1] == [d1];
    assert [d1][..0] == [];
    assert HexValue([]) == 0;
  }

  // ---------------------------------------------------------------------------
  // `hexToRgb` and `rgbToHex`.

  /** A colour as three JavaScript numbers; `None` is `NaN`. */
  datatype Rgb = Rgb(r: Option<int>, g: Option<int>, b: Option<int>)

  /** The position of the first occurrence of `c` in `s`. */
  function FirstIndex(s: string, c: char): (i: nat)
    requires c in s
    ensures i < |s| && s[i] == c
    ensures forall j :: 0 <= j < i ==> s[j] != c
  {
    if s[0] == c then 0 else FirstIndex(s[1..], c) + 1
  }

  /** `String.prototype.replace` with a one-character pattern: drops the first occurrence of `c`. */
  function ReplaceFirst(s: string, c: char): (r: string)
    ensures c in s ==> r == s[..FirstIndex(s, c)] + s[FirstIndex(s, c) + 1..]
    ensures c !in s ==> r == s
  {
    if s == [] then []
    else if s[0] == c then s[1..]
    else
      var rest := ReplaceFirst(s[1..], c);
      if c in s[1..] then
        var i := FirstIndex(s[1..], c);
        assert s[..i + 1] == [s[0]] + s[1..][..i];
        assert s[i + 2..] == s[1..][i + 1..];
        [s[0]] + rest
      else
        [s[0]] + rest
  }

  /** `String.prototype.slice(start, end)` for `0 <= start <= end`. */
  function Slice(s: string, start: nat, end: nat): (r: string)
    requires start <= end
    ensures |r| <= end - start
    ensures end <= |s| ==> r == s[start..end]
    ensures end > |s| ==> r == (if start <= |s| then s[start..] else [])
  {
    if end <= |s| then s[start..end] else if start <= |s| then s[start..] else []
  }

  /** `hexToRgb`: drop the first `#`, then parse characters 0-1, 2-3 and 4-5 in base 16. */
  function HexToRgb(hex: string): (c: Rgb)
  {
    var h := ReplaceFirst(hex, '#');
    Rgb(ParseIntHex(Slice(h, 0, 2)), ParseIntHex(Slice(h, 2, 4)), ParseIntHex(Slice(h, 4, 6)))
  }

  /** The digits of `n` in base 16 as `toString(16)` writes them: lower case, no leading zero. */
  function HexDigitsOf(n: nat): string {
    if n < 16 then [HexDigitChar(n)] else HexDigitsOf(n / 16) + [HexDigitChar(n % 16)]
  }

  /** `padStart(2, "0")`. */
  function PadStart2(s: string): (r: string)
    ensures |r| == if |s| >= 2 then |s| else 2
    ensures r[|r| - |s|..] == s
    ensures forall i :: 0 <= i < |r| - |s| ==> r[i] == '0'
  {
    if |s| >= 2 then s else seq(2 - |s|, _ => '0') + s
  }

  /** `toHex`: `v.toString(16).padStart(2, "0")` for an integer or `NaN`. */
  function ToHex(v: Option<int>): string {
    match v
    case None => "NaN"
    case Some(n) => PadStart2(if n < 0 then "-" + HexDigitsOf(-n) else HexDigitsOf(n))
  }

  /** `rgbToHex`. */
  function RgbToHex(c: Rgb): string {
    "#" + ToHex(c.r) + ToHex(c.g) + ToHex(c.b)
  }

  /** A byte is written as exactly two lower-case hex digits, high digit first. */
  lemma ToHexByte(v: int)
    requires 0 <= v < 256
    ensures ToHex(Some(v)) == [HexDigitChar(v / 16), HexDigitChar(v % 16)]
  {
    if v < 16 {
      ToHexSmall(v);
      assert HexDigitChar(0) == '0';
    } else {
      ToHexLarge(v, v / 16, v % 16);
    }
  }

  /** A value below 16 gets a leading zero. */
  lemma ToHexSmall(v: nat)
    requires v < 16
    ensures ToHex(Some(v)) == ['0', HexDigitChar(v)]
  {
    assert HexDigitsOf(v) == [HexDigitChar(v)];
    assert seq(1, _ => '0') == ['0'];
  }

  /** A value from 16 to 255 has two digits of its own. */
  lemma ToHexLarge(v: nat, hi: nat, lo: nat)
    requires 16 <= v < 256 && hi == v / 16 && lo == v % 16
    ensures ToHex(Some(v)) == [HexDigitChar(hi), HexDigitChar(lo)]
  {
    assert 0 < hi < 16;
    assert HexDigitsOf(hi) == [HexDigitChar(hi)];
    assert HexDigitsOf(v) == [HexDigitChar(hi), HexDigitChar(lo)];
  }

  /** The `#RRGGBB` notation: a `#` and six hex digits of either case. */
  predicate IsHexColor(s: string) {
    |s| == 7 && s[0] == '#' && forall i :: 1 <= i < 7 ==> IsHexDigit(s[i])
  }

  /** An 8-bit channel value. */
  predicate IsByte(v: Option<int>) {
    v.Some? && 0 <= v.value < 256
  }

  /** Two hex digits at offset `k` of the `#`-less string parse to the byte they spell. */
  lemma ChannelAt(h: string, k: nat)
    requires k + 2 <= |h| && IsHexDigit(h[k]) && IsHexDigit(h[k + 1])
    ensures ParseIntHex(Slice(h, k, k + 2)) == Some(16 * HexDigitValue(h[k]) + HexDigitValue(h[k + 1]))
  {
    assert Slice(h, k, k + 2) == [h[k], h[k + 1]];
    ParseTwoHexDigits(h[k], h[k + 1]);
  }

  /** Each channel of a well-formed colour parses to the byte its two digits spell. */
  lemma HexColorChannels(s: string)
    requires IsHexColor(s)
    ensures var c := HexToRgb(s);
      && c.r == Some(16 * HexDigitValue(s[1]) + HexDigitValue(s[2]))
      && c.g == Some(16 * HexDigitValue(s[3]) + HexDigitValue(s[4]))
      && c.b == Some(16 * HexDigitValue(s[5]) + HexDigitValue(s[6]))
  {
    HexColorChannel(s, 0, 1, 2);
    HexColorChannel(s, 2, 3, 4);
    HexColorChannel(s, 4, 5, 6);
  }

  /** The channel held by digits `s[hi - 1]` and `s[hi]`, read from `lo` to `hi` once `#` is dropped. */
  lemma HexColorChannel(s: string, lo: nat, mid: nat, hi: nat)
    requires IsHexColor(s) && mid == lo + 1 && hi == lo + 2 && hi < 7
    ensures ParseIntHex(Slice(ReplaceFirst(s, '#'), lo, hi))
         == Some(16 * HexDigitValue(s[mid]) + HexDigitValue(s[hi]))
  {
    var h := ReplaceFirst(s, '#');
    assert h == s[1..];
    ChannelAt(h, lo);
  }

  /** The seven characters `rgbToHex` writes for three bytes, high digit of each channel first. */
  lemma RgbToHexDigits(c: Rgb)
    requires IsByte(c.r) && IsByte(c.g) && IsByte(c.b)
    ensures var s := RgbToHex(c);
      && |s| == 7 && s[0] == '#'
      && s[1] == HexDigitChar(c.r.value / 16) && s[2] == HexDigitChar(c.r.value % 16)
      && s[3] == HexDigitChar(c.g.value / 16) && s[4] == HexDigitChar(c.g.value % 16)
      && s[5] == HexDigitChar(c.b.value / 16) && s[6] == HexDigitChar(c.b.value % 16)
  {
    ToHexByte(c.r.value);
    ToHexByte(c.g.value);
    ToHexByte(c.b.value);
    HashAndPairs(ToHex(c.r), ToHex(c.g), ToHex(c.b));
  }

  /** The characters of `"#" + x + y + z` for three two-character strings. */
  lemma HashAndPairs(x: string, y: string, z: string)
    requires |x| == 2 && |y| == 2 && |z| == 2
    ensures var s := "#" + x + y + z;
      && |s| == 7 && s[0] == '#'
      && s[1] == x[0] && s[2] == x[1] && s[3] == y[0] && s[4] == y[1] && s[5] == z[0] && s[6] == z[1]
  {
  }

  /** `rgbToHex` of three bytes is `#` followed by six lower-case hex digits. */
  lemma RgbToHexFormat(c: Rgb)
    requires IsByte(c.r) && IsByte(c.g) && IsByte(c.b)
    ensures var s := RgbToHex(c); IsHexColor(s) && forall i :: 0 <= i < 7 ==> !IsUpper(s[i])
  {
    RgbToHexDigits(c);
    DigitsFormat(RgbToHex(c), c);
  }

  lemma DigitsFormat(s: string, c: Rgb)
    requires |s| == 7 && s[0] == '#' && IsByte(c.r) && IsByte(c.g) && IsByte(c.b)
    requires s[1] == HexDigitChar(c.r.value / 16) && s[2] == HexDigitChar(c.r.value % 16)
    requires s[3] == HexDigitChar(c.g.value / 16) && s[4] == HexDigitChar(c.g.value % 16)
    requires s[5] == HexDigitChar(c.b.value / 16) && s[6] == HexDigitChar(c.b.value % 16)
    ensures IsHexColor(s) && forall i :: 0 <= i < 7 ==> !IsUpper(s[i])
  {
  }

  /** Parsing what `rgbToHex` wrote gives back the three bytes. */
  lemma HexRoundTrip(c: Rgb)
    requires IsByte(c.r) && IsByte(c.g) && IsByte(c.b)
    ensures HexToRgb(RgbToHex(c)) == c
  {
    RgbToHexDigits(c);
    RgbToHexFormat(c);
    ParseDigitsBack(RgbToHex(c), c);
  }

  /** A colour whose digits spell the three bytes of `c` parses to `c`. */
  lemma ParseDigitsBack(s: string, c: Rgb)
    requires IsHexColor(s) && IsByte(c.r) && IsByte(c.g) && IsByte(c.b)
    requires s[1] == HexDigitChar(c.r.value / 16) && s[2] == HexDigitChar(c.r.value % 16)
    requires s[3] == HexDigitChar(c.g.value / 16) && s[4] == HexDigitChar(c.g.value % 16)
    requires s[5] == HexDigitChar(c.b.value / 16) && s[6] == HexDigitChar(c.b.value % 16)
    ensures HexToRgb(s) == c
  {
    HexColorChannels(s);
    var d := HexToRgb(s);
    assert d.r == c.r by {
      ByteSplit(c.r.value, c.r.value / 16, c.r.value % 16);
    }
    assert d.g == c.g by {
      ByteSplit(c.g.value, c.g.value / 16, c.g.value % 16);
    }
    assert d.b == c.b by {
      ByteSplit(c.b.value, c.b.value / 16, c.b.value % 16);
    }
  }

  /** The two digits written for a byte read back as that byte. */
  lemma ByteSplit(v: int, hi: int, lo: int)
    requires 0 <= v < 256 && hi == v / 16 && lo == v % 16
    ensures 0 <= hi < 16 && 0 <= lo < 16
    ensures 16 * HexDigitValue(HexDigitChar(hi)) + HexDigitValue(HexDigitChar(lo)) == v
  {
  }

  /** Writing back what `hexToRgb` read from a well-formed colour gives that colour in lower case. */
  lemma HexNormalises(s: string)
    requires IsHexColor(s)
    ensures RgbToHex(HexToRgb(s)) == Lower(s)
  {
    HexColorChannels(s);
    ByteDigits(s[1], s[2]);
    ByteDigits(s[3], s[4]);
    ByteDigits(s[5], s[6]);
    var c := HexToRgb(s);
    RgbToHexDigits(c);
    SameCharacters(RgbToHex(c), Lower(s));
  }

  lemma SameCharacters(a: string, b: string)
    requires |a| == 7 && |b| == 7
    requires a[0] == b[0] && a[1] == b[1] && a[2] == b[2] && a[3] == b[3]
    requires a[4] == b[4] && a[5] == b[5] && a[6] == b[6]
    ensures a == b
  {
  }

  /** The byte made of two digits splits back into those digits, written in lower case. */
  lemma ByteDigits(d1: char, d0: char)
    requires IsHexDigit(d1) && IsHexDigit(d0)
    ensures var v := 16 * HexDigitValue(d1) + HexDigitValue(d0);
      0 <= v < 256 && HexDigitChar(v / 16) == LowerChar(d1) && HexDigitChar(v % 16) == LowerChar(d0)
  {
    HexDigitCharOfValue(d1);
    HexDigitCharOfValue(d0);
  }

  // ---------------------------------------------------------------------------
  // `interpolateColor`.

  /** `Math.round`: the nearest integer, halves rounded up. */
  function Round(x: real): (n: int)
    ensures x - 0.5 < n as real <= x + 0.5
  {
    (x + 0.5).Floor
  }

  /** `mix`: `Math.round(a + (b - a) * t)`, `NaN` when either end is `NaN`. */
  function Mix(a: Option<int>, b: Option<int>, t: real): Option<int> {
    if a.None? || b.None? then None
    else Some(Round(a.value as real + (b.value - a.value) as real * t))
  }

  /** For `t` in [0, 1] the mixed channel lies between the two ends; `t = 0` gives the first end and `t = 1` the second. */
  lemma MixBetween(a: int, b: int, t: real)
    requires 0.0 <= t <= 1.0
    ensures var m := Mix(Some(a), Some(b), t).value;
      && (a <= b ==> a <= m <= b)
      && (b <= a ==> b <= m <= a)
      && (t == 0.0 ==> m == a)
      && (t == 1.0 ==> m == b)
  {
    var x := a as real + (b - a) as real * t;
    if a <= b {
      assert 0.0 <= (b - a) as real * t <= (b - a) as real by {
        assert (b - a) as real * t <= (b - a) as real * 1.0;
      }
    } else {
      assert (a - b) as real * t <= (a - b) as real * 1.0;
      assert (b - a) as real * t == -((a - b) as real * t);
    }
  }

  /** `interpolateColor`: parse both colours, mix each channel, write the result. */
  function InterpolateColor(color1: string, color2: string, t: real): string {
    var c1 := HexToRgb(color1);
    var c2 := HexToRgb(color2);
    RgbToHex(Rgb(Mix(c1.r, c2.r, t), Mix(c1.g, c2.g, t), Mix(c1.b, c2.b, t)))
  }

  /** Between two well-formed colours and for `t` in [0, 1] the result is well-formed and in lower case. */
  lemma InterpolateWellFormed(color1: string, color2: string, t: real)
    requires IsHexColor(color1) && IsHexColor(color2) && 0.0 <= t <= 1.0
    ensures var s := InterpolateColor(color1, color2, t); IsHexColor(s) && forall i :: 0 <= i < 7 ==> !IsUpper(s[i])
  {
    HexColorChannels(color1);
    HexColorChannels(color2);
    var c1 := HexToRgb(color1);
    var c2 := HexToRgb(color2);
    MixBetween(c1.r.value, c2.r.value, t);
    MixBetween(c1.g.value, c2.g.value, t);
    MixBetween(c1.b.value, c2.b.value, t);
    RgbToHexFormat(Rgb(Mix(c1.r, c2.r, t), Mix(c1.g, c2.g, t), Mix(c1.b, c2.b, t)));
  }

  /** At `t = 1` the result is the second colour, in lower case. */
  lemma InterpolateAtOne(color1: string, color2: string)
    requires IsHexColor(color1) && IsHexColor(color2)
    ensures InterpolateColor(color1, color2, 1.0) == Lower(color2)
  {
    HexColorChannels(color1);
    HexColorChannels(color2);
    var c1 := HexToRgb(color1);
    var c2 := HexToRgb(color2);
    MixBetween(c1.r.value, c2.r.value, 1.0);
    MixBetween(c1.g.value, c2.g.value, 1.0);
    MixBetween(c1.b.value, c2.b.value, 1.0);
    assert Rgb(Mix(c1.r, c2.r, 1.0), Mix(c1.g, c2.g, 1.0), Mix(c1.b, c2.b, 1.0)) == c2;
    HexNormalises(color2);
  }

  /** At `t = 0` the result is the first colour, in lower case. */
  lemma InterpolateAtZero(color1: string, color2: string)
    requires IsHexColor(color1) && IsHexColor(color2)
    ensures InterpolateColor(color1, color2, 0.0) == Lower(color1)
  {
    HexColorChannels(color1);
    HexColorChannels(color2);
    var c1 := HexToRgb(color1);
    var c2 := HexToRgb(color2);
    MixBetween(c1.r.value, c2.r.value, 0.0);
    MixBetween(c1.g.value, c2.g.value, 0.0);
    MixBetween(c1.b.value, c2.b.value, 0.0);
    assert Rgb(Mix(c1.r, c2.r, 0.0), Mix(c1.g, c2.g, 0.0), Mix(c1.b, c2.b, 0.0)) == c1;
    HexNormalises(color1);
  }

  // ---------------------------------------------------------------------------
  // `getTemperatureColor`.

  /** A temperature in degrees Celsius and the colour that marks it. */
  datatype ColorStop = ColorStop(temp: real, color: string)

  /** `TEMP_COLOR_STOPS`: the ramp from deep blue at -5 to red at 40. */
  const TempColorStops: seq<ColorStop> := [
    ColorStop(-5.0, "#0C6192"),
    ColorStop(0.0, "#73B8DF"),
    ColorStop(15.0, "#1A8D42"),
    ColorStop(30.0, "#CF8B3D"),
    ColorStop(40.0, "#BB4040")
  ]

  /** Temperatures strictly increase from one stop to the next. */
  predicate StrictlyAscending(stops: seq<ColorStop>) {
    forall i :: 0 <= i < |stops| - 1 ==> stops[i].temp < stops[i + 1].temp
  }

  /** Every stop's colour is in `#RRGGBB` notation. */
  predicate HexColorStops(stops: seq<ColorStop>) {
    forall i :: 0 <= i < |stops| ==> IsHexColor(stops[i].color)
  }

  /** `tempC` lies in the closed segment from stop `i` to stop `i + 1`. */
  predicate InSegment(stops: seq<ColorStop>, i: nat, tempC: real)
    requires i + 1 < |stops|
  {
    stops[i].temp <= tempC <= stops[i + 1].temp
  }

  /** The first segment at or after `i` that holds `tempC`, as the loop of `getTemperatureColor` finds it. */
  function FirstSegment(stops: seq<ColorStop>, tempC: real, i: nat): (r: Option<nat>)
    decreases |stops| - i
    ensures r.Some? ==> i <= r.value && r.value + 1 < |stops| && InSegment(stops, r.value, tempC)
    ensures r.Some? ==> forall k :: i <= k < r.value ==> !InSegment(stops, k, tempC)
    ensures r.None? ==> forall k :: i <= k && k + 1 < |stops| ==> !InSegment(stops, k, tempC)
  {
    if i + 1 >= |stops| then None
    else if InSegment(stops, i, tempC) then Some(i)
    else FirstSegment(stops, tempC, i + 1)
  }

  /** The colour inside a segment: `t` is the position of `tempC` from `lo` to `hi`, 0 when they coincide. */
  function SegmentColor(lo: ColorStop, hi: ColorStop, tempC: real): string {
    InterpolateColor(lo.color, hi.color, SegmentPosition(lo, hi, tempC))
  }

  /** Where `tempC` sits from `lo` to `hi`: 0 at `lo`, 1 at `hi`, and 0 when the two stops share a temperature. */
  function SegmentPosition(lo: ColorStop, hi: ColorStop, tempC: real): (t: real)
    ensures lo.temp < hi.temp && lo.temp <= tempC <= hi.temp ==> 0.0 <= t <= 1.0
    ensures lo.temp < hi.temp && tempC == hi.temp ==> t == 1.0
    ensures tempC == lo.temp ==> t == 0.0
  {
    var range := hi.temp - lo.temp;
    if range == 0.0 then 0.0
    else
      assert lo.temp < hi.temp && lo.temp <= tempC <= hi.temp ==> (tempC - lo.temp) / range <= range / range;
      (tempC - lo.temp) / range
  }

  /**
   * What `getTemperatureColor` returns: the first stop's colour at or below
   * it, the last stop's colour at or above it, the interpolation in the
   * first segment that holds `tempC`, and the second stop's colour when no
   * segment does.
   */
  function TemperatureColor(stops: seq<ColorStop>, tempC: real): string
    requires |stops| >= 2
  {
    if tempC <= stops[0].temp then stops[0].color
    else if tempC >= stops[|stops| - 1].temp then stops[|stops| - 1].color
    else match FirstSegment(stops, tempC, 0)
      case Some(i) => SegmentColor(stops[i], stops[i + 1], tempC)
      case None => stops[1].color
  }

  /** `getTemperatureColor`: clamp at both ends, then scan the segments in order. */
  method GetTemperatureColor(stops: seq<ColorStop>, tempC: real) returns (color: string)
    requires |stops| >= 2
    ensures color == TemperatureColor(stops, tempC)
  {
    if tempC <= stops[0].temp {
      return stops[0].color;
    }
    if tempC >= stops[|stops| - 1].temp {
      return stops[|stops| - 1].color;
    }
    var i := 0;
    while i < |stops| - 1
      invariant 0 <= i <= |stops| - 1
      invariant FirstSegment(stops, tempC, i) == FirstSegment(stops, tempC, 0)
    {
      var current := stops[i];
      var next := stops[i + 1];
      if tempC >= current.temp && tempC <= next.temp {
        color := InterpolateColor(current.color, next.color, SegmentPosition(current, next, tempC));
        FirstSegmentColor(stops, tempC, i);
        return;
      }
      i := i + 1;
    }
    return stops[1].color;
  }

  /** When the scan from the first segment stops at segment `i`, the colour is the one inside that segment. */
  lemma FirstSegmentColor(stops: seq<ColorStop>, tempC: real, i: nat)
    requires i + 1 < |stops| && stops[0].temp < tempC < stops[|stops| - 1].temp
    requires InSegment(stops, i, tempC) && FirstSegment(stops, tempC, i) == FirstSegment(stops, tempC, 0)
    ensures TemperatureColor(stops, tempC) == SegmentColor(stops[i], stops[i + 1], tempC)
  {
    assert FirstSegment(stops, tempC, 0) == Some(i);
  }

  /** On an ascending ramp some segment from `i` on holds any temperature strictly inside the ramp. */
  lemma {:induction false} SegmentFound(stops: seq<ColorStop>, tempC: real, i: nat)
    requires StrictlyAscending(stops) && i + 1 < |stops|
    requires stops[i].temp <= tempC < stops[|stops| - 1].temp
    ensures FirstSegment(stops, tempC, i).Some?
    decreases |stops| - i
  {
    if !InSegment(stops, i, tempC) {
      assert stops[i + 1].temp < tempC;
      SegmentFound(stops, tempC, i + 1);
    }
  }

  /** On an ascending ramp the fallback to the second stop is never taken. */
  lemma FallbackUnreachable(stops: seq<ColorStop>, tempC: real)
    requires |stops| >= 2 && StrictlyAscending(stops)
    requires stops[0].temp < tempC < stops[|stops| - 1].temp
    ensures FirstSegment(stops, tempC, 0).Some?
    ensures exists i :: 0 <= i < |stops| - 1 && TemperatureColor(stops, tempC) == SegmentColor(stops[i], stops[i + 1], tempC)
  {
    SegmentFound(stops, tempC, 0);
    var i := FirstSegment(stops, tempC, 0).value;
    assert TemperatureColor(stops, tempC) == SegmentColor(stops[i], stops[i + 1], tempC);
  }

  /** Inside a segment between well-formed colours the colour is well-formed. */
  lemma SegmentColorWellFormed(lo: ColorStop, hi: ColorStop, tempC: real)
    requires IsHexColor(lo.color) && IsHexColor(hi.color)
    requires lo.temp < hi.temp && lo.temp <= tempC <= hi.temp
    ensures IsHexColor(SegmentColor(lo, hi, tempC))
  {
    InterpolateWellFormed(lo.color, hi.color, SegmentPosition(lo, hi, tempC));
  }

  /** At the upper end of a segment the colour is the upper stop's, in lower case. */
  lemma SegmentColorAtTop(lo: ColorStop, hi: ColorStop)
    requires IsHexColor(lo.color) && IsHexColor(hi.color) && lo.temp < hi.temp
    ensures SegmentColor(lo, hi, hi.temp) == Lower(hi.color)
  {
    InterpolateAtOne(lo.color, hi.color);
  }

  /** On an ascending ramp of well-formed colours every temperature gets a well-formed colour. */
  lemma TemperatureColorWellFormed(stops: seq<ColorStop>, tempC: real)
    requires |stops| >= 2 && StrictlyAscending(stops) && HexColorStops(stops)
    ensures IsHexColor(TemperatureColor(stops, tempC))
  {
    if stops[0].temp < tempC < stops[|stops| - 1].temp {
      SegmentFound(stops, tempC, 0);
      var i := FirstSegment(stops, tempC, 0).value;
      SegmentColorWellFormed(stops[i], stops[i + 1], tempC);
    }
  }

  /** At the temperature of an inner stop of an ascending ramp the colour is that stop's colour, in lower case. */
  lemma InnerStopColor(stops: seq<ColorStop>, k: nat)
    requires StrictlyAscending(stops) && HexColorStops(stops) && 0 < k < |stops| - 1
    ensures TemperatureColor(stops, stops[k].temp) == Lower(stops[k].color)
  {
    InnerStopSegment(stops, k);
    SegmentColorAtTop(stops[k - 1], stops[k]);
  }

  /** The temperature of an inner stop `k` is first found in the segment ending at `k`. */
  lemma InnerStopSegment(stops: seq<ColorStop>, k: nat)
    requires StrictlyAscending(stops) && 0 < k < |stops| - 1
    ensures stops[0].temp < stops[k].temp < stops[|stops| - 1].temp
    ensures FirstSegment(stops, stops[k].temp, 0) == Some(k - 1)
  {
    var tempC := stops[k].temp;
    AscendingBetween(stops, 0, k);
    AscendingBetween(stops, k, |stops| - 1);
    assert InSegment(stops, k - 1, tempC);
    forall j | 0 <= j < k - 1 ensures !InSegment(stops, j, tempC) {
      AscendingBetween(stops, j + 1, k);
    }
  }

  /** Strict ascent between neighbours carries over to any two stops. */
  lemma {:induction false} AscendingBetween(stops: seq<ColorStop>, i: nat, j: nat)
    requires StrictlyAscending(stops) && i < j < |stops|
    ensures stops[i].temp < stops[j].temp
    decreases j - i
  {
    if i + 1 < j {
      AscendingBetween(stops, i + 1, j);
    }
  }

  /** The ramp of the dashboard is ascending and every colour on it is well-formed. */
  lemma TempColorStopsWellFormed()
    ensures |TempColorStops| == 5
    ensures StrictlyAscending(TempColorStops) && HexColorStops(TempColorStops)
  {
    forall i | 0 <= i < 5 ensures IsHexColor(TempColorStops[i].color) {
      StopColorWellFormed(TempColorStops[i].color);
    }
  }

  lemma StopColorWellFormed(s: string)
    requires s in {"#0C6192", "#73B8DF", "#1A8D42", "#CF8B3D", "#BB4040"}
    ensures IsHexColor(s)
  {
  }

  /** Below the ramp the colour is the deep blue of -5, above it the red of 40, both exactly as written. */
  lemma TempColorStopsClamp(tempC: real)
    ensures tempC <= -5.0 ==> TemperatureColor(TempColorStops, tempC) == TempColorStops[0].color
    ensures tempC >= 40.0 ==> TemperatureColor(TempColorStops, tempC) == TempColorStops[4].color
  {
  }

  /**
   * At 0, 15 and 30 degrees the dashboard shows the stop's colour in lower
   * case, while the clamped ends keep the upper-case spelling of the table.
   */
  lemma TempColorStopsInnerStops(k: nat)
    requires 0 < k < 4
    ensures TemperatureColor(TempColorStops, TempColorStops[k].temp) == Lower(TempColorStops[k].color)
  {
    TempColorStopsWellFormed();
    InnerStopColor(TempColorStops, k);
  }
}
