/**
 * Colour schemes: a cyclic list of colour stops, sampled on the CPU by
 * `get` and on the GPU by the GLSL `colorScheme` function from a table of
 * at most 18 colours that `uniforms` computes once and caches.
 *
 * Numbers are exact reals: the model has no floating-point rounding, NaN
 * or infinity (a JavaScript `NaN` index is modelled as a failed lookup).
 */
module ColorScheme {
  import opened Wrappers

  /** Number of interpolation intervals the shader table supports at most. */
  const MaxInterpolationSteps: nat := 17

  datatype Color = Color(r: real, g: real, b: real)

  /** A colour as the palette definitions give it: hex text or three channels. */
  datatype ColorArg = Hex(text: string) | Given(color: Color)

  const Black := Color(0.0, 0.0, 0.0)
  const White := Color(1.0, 1.0, 1.0)

  predicate InUnit(x: real) {
    0.0 <= x <= 1.0
  }

  predicate InUnitCube(c: Color) {
    InUnit(c.r) && InUnit(c.g) && InUnit(c.b)
  }

  // ---------------------------------------------------------------------------
  // Linear interpolation

  /** `lerp(a, b, v)`: `a` at `v = 0`, `b` at `v = 1`, linear in between. */
  function Lerp(a: real, b: real, v: real): (r: real)
    ensures v == 0.0 ==> r == a
    ensures v == 1.0 ==> r == b
  {
    b * v + a * (1.0 - v)
  }

  /** For `v` in `[0, 1]` the interpolated value lies between the two ends. */
  lemma LerpBetween(a: real, b: real, v: real)
    requires 0.0 <= v <= 1.0
    ensures a <= b ==> a <= Lerp(a, b, v) <= b
    ensures b <= a ==> b <= Lerp(a, b, v) <= a
  {
    if a <= b {
      LerpRising(a, b, v);
    }
    if b <= a {
      LerpFalling(a, b, v);
    }
  }

  lemma LerpRising(a: real, b: real, v: real)
    requires 0.0 <= v <= 1.0 && a <= b
    ensures a <= Lerp(a, b, v) <= b
  {
    var d := b - a;
    ProductBetween(d, v, d * v);
    assert Lerp(a, b, v) == a + d * v;
  }

  lemma LerpFalling(a: real, b: real, v: real)
    requires 0.0 <= v <= 1.0 && b <= a
    ensures b <= Lerp(a, b, v) <= a
  {
    var d := a - b;
    var w := 1.0 - v;
    ProductBetween(d, w, d * w);
    assert Lerp(a, b, v) == b + d * w;
  }

  lemma ProductBetween(x: real, y: real, p: real)
    requires 0.0 <= x && 0.0 <= y <= 1.0 && p == x * y
    ensures 0.0 <= p <= x
  {
  }

  /** Scaling a fraction in `[0, 1)` by a positive `l` stays in `[0, l)`. */
  lemma ScaledFraction(x: real, l: real)
    requires 0.0 <= x < 1.0 && l > 0.0
    ensures 0.0 <= x * l < l
  {
  }

  lemma FloorBelow(w: real, n: int)
    requires 0.0 <= w < n as real
    ensures 0 <= w.Floor < n
  {
  }

  /** The whole part of a fraction scaled by `n > 0` is a slot in `[0, n)`. */
  lemma ScaledFloor(f: real, n: nat)
    requires 0.0 <= f < 1.0 && n > 0
    ensures 0 <= (f * n as real).Floor < n
  {
    var l := n as real;
    ScaledFraction(f, l);
    FloorBelow(f * l, n);
  }

  /** Channel-wise interpolation, as `get` does it and as GLSL `mix` does it. */
  function Lerp3(a: Color, b: Color, v: real): (r: Color)
    ensures v == 0.0 ==> r == a
    ensures v == 1.0 ==> r == b
  {
    Color(Lerp(a.r, b.r, v), Lerp(a.g, b.g, v), Lerp(a.b, b.b, v))
  }

  /** Blending two colours of the unit cube stays in the unit cube. */
  lemma Lerp3InUnitCube(a: Color, b: Color, v: real)
    requires 0.0 <= v <= 1.0 && InUnitCube(a) && InUnitCube(b)
    ensures InUnitCube(Lerp3(a, b, v))
  {
    LerpBetween(a.r, b.r, v);
    LerpBetween(a.g, b.g, v);
    LerpBetween(a.b, b.b, v);
  }

  // ---------------------------------------------------------------------------
  // Parsing colours

  predicate IsHexDigit(ch: char) {
    ('0' <= ch <= '9') || ('a' <= ch <= 'f') || ('A' <= ch <= 'F')
  }

  function DigitValue(ch: char): (r: nat)
    requires IsHexDigit(ch)
    ensures r < 16
  {
    if '0' <= ch <= '9' then ch as int - '0' as int
    else if 'a' <= ch <= 'f' then ch as int - 'a' as int + 10
    else ch as int - 'A' as int + 10
  }

  /** Text that `+("0x" + d)` reads as a number: one or more hex digits. */
  predicate IsHexText(d: string) {
    |d| > 0 && forall i :: 0 <= i < |d| ==> IsHexDigit(d[i])
  }

  function Pow16(k: nat): (r: nat)
    ensures r > 0
  {
    if k == 0 then 1 else 16 * Pow16(k - 1)
  }

  /** The value of a string of hex digits, most significant digit first. */
  function HexValue(d: string): (r: nat)
    requires forall i :: 0 <= i < |d| ==> IsHexDigit(d[i])
    ensures r < Pow16(|d|)
    decreases |d|
  {
    if d == [] then 0 else HexValue(d[..|d| - 1]) * 16 + DigitValue(d[|d| - 1])
  }

  /** Bits `8k .. 8k+7` of `n`, as `(n >> 8k) & 0xff` extracts them, scaled into [0, 1]. */
  function Channel(n: nat, divisor: nat): (r: real)
    requires divisor > 0
    ensures InUnit(r)
  {
    ((n / divisor) % 256) as real / 255.0
  }

  /** The characters `Number` skips at either end of a string: white space and line terminators. */
  predicate IsJsWhitespace(ch: char) {
    ch in {'\t', '\n', '\U{B}', '\U{C}', '\r', ' ', '\U{A0}', '\U{1680}', '\U{2028}', '\U{2029}',
           '\U{202F}', '\U{205F}', '\U{3000}', '\U{FEFF}'}
    || ('\U{2000}' <= ch <= '\U{200A}')
  }

  /** `s` without its trailing white space. */
  function TrimEnd(s: string): (r: string)
    ensures r <= s
    ensures forall i :: |r| <= i < |s| ==> IsJsWhitespace(s[i])
    ensures r == [] || !IsJsWhitespace(r[|r| - 1])
    decreases |s|
  {
    if |s| > 0 && IsJsWhitespace(s[|s| - 1]) then TrimEnd(s[..|s| - 1]) else s
  }

  /** Trailing white space makes no difference to the trimmed text. */
  lemma {:induction false} TrimEndAppend(s: string, w: string)
    requires forall i :: 0 <= i < |w| ==> IsJsWhitespace(w[i])
    ensures TrimEnd(s + w) == TrimEnd(s)
    decreases |w|
  {
    if w != [] {
      var w' := w[..|w| - 1];
      assert (s + w)[..|s + w| - 1] == s + w';
      TrimEndAppend(s, w');
    } else {
      assert s + w == s;
    }
  }

  /** Hex text has nothing to trim. */
  lemma TrimHexText(d: string)
    requires IsHexText(d)
    ensures TrimEnd(d) == d
  {
    assert IsHexDigit(d[|d| - 1]);
  }

  /** The text after a leading `#`, if there is one. */
  function HexDigits(s: string): string {
    if |s| > 0 && s[0] == '#' then s[1..] else s
  }

  /**
   * `parseColor`: channels are taken as given; hex text, with or without a
   * leading `#` and followed by any white space, is read as a number whose
   * three low bytes are red, green and blue over 255. Text that is not a
   * hex number reads as `NaN`, whose bits are all 0, so it gives black.
   */
  function ParseColor(arg: ColorArg): (r: Color)
    ensures arg.Given? ==> r == arg.color
    ensures arg.Hex? ==> InUnitCube(r)
  {
    match arg
    case Given(c) => c
    case Hex(s) =>
      var d := TrimEnd(HexDigits(s));
      if IsHexText(d) then
        var n := HexValue(d);
        Color(Channel(n, 65536), Channel(n, 256), Channel(n, 1))
      else Black
  }

  lemma {:induction false} HexValueAppend(a: string, b: string)
    requires IsHexText(a) && IsHexText(b)
    ensures HexValue(a + b) == HexValue(a) * Pow16(|b|) + HexValue(b)
    decreases |b|
  {
    var ab := a + b;
    var b', last := b[..|b| - 1], b[|b| - 1];
    assert ab[..|ab| - 1] == a + b';
    assert ab[|ab| - 1] == last;
    if |b| == 1 {
      assert a + b' == a;
      assert HexValue(b) == DigitValue(last) by { assert b[..0] == []; }
    } else {
      HexValueAppend(a, b');
      var x, p, h, d := HexValue(a), Pow16(|b'|), HexValue(b'), DigitValue(last);
      assert HexValue(ab) == HexValue(a + b') * 16 + d;
      assert HexValue(b) == h * 16 + d;
      assert Pow16(|b|) == p * 16;
      ShiftDigit(x, p, h, d);
    }
  }

  lemma ShiftDigit(x: int, p: int, h: int, d: int)
    ensures (x * p + h) * 16 + d == x * (p * 16) + (h * 16 + d)
  {
  }

  lemma ByteOf(q: int, r: int)
    requires 0 <= r < 256
    ensures (q * 256 + r) / 256 == q && (q * 256 + r) % 256 == r
  {
  }

  lemma HighByteOf(q: int, r: int)
    requires 0 <= r < 65536
    ensures (q * 65536 + r) / 65536 == q
  {
  }

  lemma SixDigitsSplit(d: string)
    requires IsHexText(d) && |d| == 6
    ensures HexValue(d) == HexValue(d[..2]) * 65536 + HexValue(d[2..4]) * 256 + HexValue(d[4..])
  {
    var a, b, c := d[..2], d[2..4], d[4..];
    assert d == a + b + c;
    ThreePairs(a, b, c);
  }

  /** Three two-digit groups read as one six-digit number. */
  lemma ThreePairs(a: string, b: string, c: string)
    requires IsHexText(a) && IsHexText(b) && IsHexText(c)
    requires |a| == 2 && |b| == 2 && |c| == 2
    ensures HexValue(a + b + c) == HexValue(a) * 65536 + HexValue(b) * 256 + HexValue(c)
  {
    HexTextAppend(a, b);
    HexAppendPair(a, b);
    HexAppendPair(a + b, c);
  }

  lemma HexTextAppend(a: string, b: string)
    requires IsHexText(a) && IsHexText(b)
    ensures IsHexText(a + b)
  {
    forall i | 0 <= i < |a + b| ensures IsHexDigit((a + b)[i]) {
      if i < |a| { assert (a + b)[i] == a[i]; } else { assert (a + b)[i] == b[i - |a|]; }
    }
  }

  /** Appending two digits shifts the value by a byte. */
  lemma HexAppendPair(a: string, b: string)
    requires IsHexText(a) && IsHexText(b) && |b| == 2
    ensures HexValue(a + b) == HexValue(a) * 256 + HexValue(b)
  {
    HexValueAppend(a, b);
    assert Pow16(2) == 256;
  }

  /** The three bytes of `n = r·65536 + g·256 + b`, each over 255. */
  lemma ChannelsOf(n: nat, r: nat, g: nat, b: nat)
    requires r < 256 && g < 256 && b < 256 && n == r * 65536 + g * 256 + b
    ensures Channel(n, 65536) == r as real / 255.0
    ensures Channel(n, 256) == g as real / 255.0
    ensures Channel(n, 1) == b as real / 255.0
  {
    HighByteOf(r, g * 256 + b);
    assert n / 65536 % 256 == r;
    assert n == (r * 256 + g) * 256 + b;
    ByteOf(r * 256 + g, b);
    ByteOf(r, g);
    assert n / 256 % 256 == g;
    assert n / 1 % 256 == b;
  }

  /** `parseColor("#RRGGBB")` and `parseColor("RRGGBB")` give `[RR/255, GG/255, BB/255]`. */
  lemma ParseSixDigits(s: string, d: string)
    requires IsHexText(d) && |d| == 6
    requires s == d || s == "#" + d
    ensures ParseColor(Hex(s)) == Color(HexValue(d[..2]) as real / 255.0, HexValue(d[2..4]) as real / 255.0, HexValue(d[4..]) as real / 255.0)
  {
    assert HexDigits(s) == d by {
      if s != d { assert s[1..] == d; }
    }
    TrimHexText(d);
    SixDigitsSplit(d);
    PairBelow(d[..2]);
    PairBelow(d[2..4]);
    PairBelow(d[4..]);
    ChannelsOf(HexValue(d), HexValue(d[..2]), HexValue(d[2..4]), HexValue(d[4..]));
  }

  lemma PairBelow(d: string)
    requires IsHexText(d) && |d| == 2
    ensures HexValue(d) < 256
  {
    assert Pow16(2) == 256;
  }

  /** Text that is not a hex number, even after trailing white space is dropped, reads as `NaN` and gives black. */
  lemma ParseNotHex(s: string)
    requires !IsHexText(TrimEnd(HexDigits(s)))
    ensures ParseColor(Hex(s)) == Black
  {
  }

  /** `Number` ignores trailing white space, so `"ff0000 "` is the same colour as `"ff0000"`. */
  lemma ParseTrailingWhitespace(s: string, w: string)
    requires forall i :: 0 <= i < |w| ==> IsJsWhitespace(w[i])
    ensures ParseColor(Hex(s + w)) == ParseColor(Hex(s))
  {
    TrimmedDigitsAppend(s, w);
  }

  lemma TrimmedDigitsAppend(s: string, w: string)
    requires forall i :: 0 <= i < |w| ==> IsJsWhitespace(w[i])
    ensures TrimEnd(HexDigits(s + w)) == TrimEnd(HexDigits(s))
  {
    if |s| > 0 && s[0] == '#' {
      assert (s + w)[1..] == s[1..] + w;
      TrimEndAppend(s[1..], w);
    } else if s == [] {
      assert s + w == w;
      if |w| > 0 { assert !IsJsWhitespace('#'); }
      TrimEndAppend([], w);
    } else {
      TrimEndAppend(s, w);
    }
  }

  /**
   * The axes colour of the preset "Gray", `#777777`, is the grey with all
   * three channels 0x77/0xff.
   */
  lemma ParseGrayAxes()
    ensures ParseColor(Hex("#777777")) == Color(119.0 / 255.0, 119.0 / 255.0, 119.0 / 255.0)
  {
    var d := "777777";
    assert IsHexText(d);
    assert HexValue(d[..2]) == 119 && HexValue(d[2..4]) == 119 && HexValue(d[4..]) == 119 by {
      assert d[..2] == d[2..4] == d[4..] == "77";
      assert "77"[..1] == "7";
      assert "7"[..0] == "";
    }
    ParseSixDigits("#777777", d);
  }

  // ---------------------------------------------------------------------------
  // Sampling a scheme on the CPU

  /** `Math.trunc`. */
  function Trunc(x: real): int {
    if x >= 0.0 then x.Floor else -((-x).Floor)
  }

  /** JavaScript `%` on numbers: the remainder takes the sign of the dividend. */
  function JsRem(x: real, m: real): real
    requires m != 0.0
  {
    x - m * Trunc(x / m) as real
  }

  /** JavaScript `%` on integral numbers and a positive divisor. */
  function JsRemInt(a: int, m: int): (r: int)
    requires m > 0
    ensures -m < r < m
    ensures a >= 0 ==> r == a % m
  {
    if a >= 0 then a % m else -((-a) % m)
  }

  /** The fractional part, GLSL `fract`. */
  function Fract(x: real): (r: real)
    ensures 0.0 <= r < 1.0
  {
    x - x.Floor as real
  }

  /**
   * `i / n` as the table loop computes it. With `n = 0` JavaScript gives
   * `NaN`; the model uses 0 there, which no lookup can tell apart, since a
   * scheme without table intervals has no stops and every `get` fails.
   */
  function Ratio(i: nat, n: nat): real {
    if n == 0 then 0.0 else i as real / n as real
  }

  /** Where `v` falls on a cycle of `len` stops: `fract(v)·len`. */
  function Position(v: real, len: nat): real {
    Fract(v) * len as real
  }

  /**
   * `get(v)`: reduce `v·len` modulo `len`, then sample the stops there.
   * With no stops the source indexes with `NaN` and throws; that is `None`.
   */
  function Get(steps: seq<Color>, v: real): Option<Color> {
    if |steps| == 0 then None
    else Sample(steps, JsRem(v * |steps| as real, |steps| as real))
  }

  /**
   * Blend stop `i = floor(w) % len` with stop `(i + 1) % len` by the offset
   * `w - i`. A negative position makes `i` negative; the source then reads
   * an undefined stop and throws, which is `None` here.
   */
  function Sample(steps: seq<Color>, w: real): Option<Color>
    requires |steps| > 0
  {
    var len := |steps|;
    var i := JsRemInt(w.Floor, len);
    if i < 0 then None
    else Some(Lerp3(steps[i], steps[(i + 1) % len], w - i as real))
  }

  /**
   * The reference reading of a cyclic palette: position `w` lies between
   * stop `floor(w) mod len` and the next stop round the cycle, blended by
   * the fractional part of `w`.
   */
  function Blend(steps: seq<Color>, w: real): Color
    requires |steps| > 0
  {
    var i := w.Floor % |steps|;
    Lerp3(steps[i], steps[(i + 1) % |steps|], w - w.Floor as real)
  }

  lemma RatioNonNegative(i: nat, n: nat)
    ensures Ratio(i, n) >= 0.0
  {
  }

  lemma PositionInRange(v: real, len: nat)
    requires len > 0
    ensures 0.0 <= Position(v, len) < len as real
  {
    ScaledFraction(Fract(v), len as real);
  }

  lemma TruncOfNonNegative(x: real)
    requires x >= 0.0
    ensures Trunc(x) == x.Floor
  {
  }

  lemma DivideBack(v: real, l: real)
    requires l > 0.0
    ensures (v * l) / l == v
  {
  }

  lemma FactorOut(v: real, f: real, l: real)
    ensures v * l - l * f == (v - f) * l
  {
  }

  /** For `v >= 0` the reduced position `(v·len) % len` is `fract(v)·len`. */
  lemma ReducedPosition(steps: seq<Color>, v: real)
    requires |steps| > 0 && v >= 0.0
    ensures JsRem(v * |steps| as real, |steps| as real) == Position(v, |steps|)
  {
    RemOfScaled(v, |steps| as real, v * |steps| as real);
  }

  lemma RemOfScaled(v: real, l: real, x: real)
    requires l > 0.0 && v >= 0.0 && x == v * l
    ensures JsRem(x, l) == Fract(v) * l
  {
    DivideBack(v, l);
    TruncOfNonNegative(v);
    assert Trunc(x / l) == v.Floor;
    FactorOut(v, v.Floor as real, l);
  }

  /** Inside `[0, len)` the sample is the reference blend. */
  lemma SampleInRange(steps: seq<Color>, w: real)
    requires 0.0 <= w < |steps| as real
    ensures Sample(steps, w) == Some(Blend(steps, w))
  {
    FloorBelow(w, |steps|);
    ModSmall(w.Floor, |steps|);
  }

  lemma ModSmall(i: int, m: int)
    requires 0 <= i < m
    ensures i % m == i
  {
  }

  /**
   * For every `v >= 0` on a non-empty scheme, `get` succeeds and blends at
   * position `fract(v)·len`: the palette repeats with period 1 and the
   * blended stops are adjacent round the cycle.
   */
  lemma GetBlends(steps: seq<Color>, v: real)
    requires |steps| > 0 && v >= 0.0
    ensures Get(steps, v) == Some(Blend(steps, Position(v, |steps|)))
  {
    ReducedPosition(steps, v);
    PositionInRange(v, |steps|);
    SampleInRange(steps, Position(v, |steps|));
  }

  lemma FloorOfQuotient(k: nat, len: nat)
    requires len > 0
    ensures (k as real / len as real).Floor == k / len
  {
    var q, r := k / len, k % len;
    assert k == q * len + r;
    SplitQuotient(q, r, len);
    assert 0.0 <= r as real / len as real < 1.0;
  }

  lemma SplitQuotient(q: int, r: int, len: nat)
    requires len > 0
    ensures (q * len + r) as real / len as real == q as real + r as real / len as real
  {
  }

  lemma QuotientTimes(k: nat, len: nat)
    requires len > 0
    ensures (k as real / len as real) * len as real == k as real
  {
  }

  /** The `k`-th stop sits at position `k % len`. */
  lemma StopPosition(k: nat, len: nat)
    requires len > 0
    ensures Position(Ratio(k, len), len) == (k % len) as real
  {
    var v := k as real / len as real;
    var q, r := k / len, k % len;
    FloorOfQuotient(k, len);
    assert Fract(v) == v - q as real;
    QuotientTimes(k, len);
    FactorOut(v, q as real, len as real);
    assert k == q * len + r;
  }

  /** At a whole position the blend is the stop there. */
  lemma BlendAt(steps: seq<Color>, w: real, r: nat)
    requires r < |steps| && w == r as real
    ensures Blend(steps, w) == steps[r]
  {
    assert w.Floor == r;
    ModSmall(r, |steps|);
  }

  /**
   * At the `k`-th stop position `get` returns that stop exactly:
   * `get(k / len) == steps[k % len]`.
   */
  lemma GetAtStop(steps: seq<Color>, k: nat)
    requires |steps| > 0
    ensures Get(steps, Ratio(k, |steps|)) == Some(steps[k % |steps|])
  {
    RatioNonNegative(k, |steps|);
    StopPosition(k, |steps|);
    BlendAt(steps, Position(Ratio(k, |steps|), |steps|), k % |steps|);
    GetBlends(steps, Ratio(k, |steps|));
  }

  /** `get(0)` and `get(1)` are both the first stop, so the palette closes up. */
  lemma GetCyclic(steps: seq<Color>)
    requires |steps| > 0
    ensures Get(steps, 0.0) == Get(steps, 1.0) == Some(steps[0])
  {
    assert Position(0.0, |steps|) == 0.0 && Position(1.0, |steps|) == 0.0;
    BlendAt(steps, Position(0.0, |steps|), 0);
    GetBlends(steps, 0.0);
    GetBlends(steps, 1.0);
  }

  /** A negative position between two stops reads stop `-1`, which does not exist. */
  lemma GetBeforeFirstStop(steps: seq<Color>)
    requires |steps| >= 2
    ensures Get(steps, -1.0 / (2 * |steps|) as real) == None
  {
    var v := -1.0 / (2 * |steps|) as real;
    HalfStepBack(v, |steps|);
    NegativeHalfRem(|steps| as real);
  }

  lemma HalfStepBack(v: real, n: nat)
    requires n > 0 && v == -1.0 / (2 * n) as real
    ensures v * n as real == -0.5
  {
  }

  lemma NegativeHalfRem(l: real)
    requires l >= 2.0
    ensures JsRem(-0.5, l) == -0.5
  {
    assert 0.0 < 0.5 / l < 1.0;
    assert -(-0.5 / l) == 0.5 / l;
    assert (0.5 / l).Floor == 0;
  }

  /** `interpolationSteps`: the number of table intervals. */
  function InterpolationSteps(len: nat): (r: nat)
    ensures r <= MaxInterpolationSteps && r <= len
    ensures r == MaxInterpolationSteps || r == len
  {
    if len < MaxInterpolationSteps then len else MaxInterpolationSteps
  }

  // ---------------------------------------------------------------------------
  // The uniform table

  /** Table slot `i`: the blend at the position of `i / n`, `n` the number of table intervals. */
  function TableColor(steps: seq<Color>, i: nat): Color
    requires |steps| > 0
  {
    Blend(steps, Position(Ratio(i, InterpolationSteps(|steps|)), |steps|))
  }

  /** Table slot `i` is what `get(i / n)` returns. */
  lemma TableColorIsGet(steps: seq<Color>, i: nat)
    requires |steps| > 0
    ensures Get(steps, Ratio(i, InterpolationSteps(|steps|))) == Some(TableColor(steps, i))
  {
    RatioNonNegative(i, InterpolationSteps(|steps|));
    GetBlends(steps, Ratio(i, InterpolationSteps(|steps|)));
  }

  /** The first `k` table slots. */
  function TableColors(steps: seq<Color>, k: nat): (r: seq<Color>)
    requires |steps| > 0
    ensures |r| == k
    ensures forall i :: 0 <= i < k ==> r[i] == TableColor(steps, i)
  {
    if k == 0 then [] else TableColors(steps, k - 1) + [TableColor(steps, k - 1)]
  }

  lemma TableColorsNext(steps: seq<Color>, k: nat)
    requires |steps| > 0
    ensures TableColors(steps, k + 1) == TableColors(steps, k) + [TableColor(steps, k)]
  {
  }

  lemma AllTableColors(steps: seq<Color>, k: nat)
    requires |steps| > 0 && k == InterpolationSteps(|steps|) + 1
    ensures TableColors(steps, k) == UniformColors(steps)
  {
  }

  /** The `interpolationSteps + 1` colours the shader interpolates between. */
  function UniformColors(steps: seq<Color>): seq<Color>
    requires |steps| > 0
  {
    TableColors(steps, InterpolationSteps(|steps|) + 1)
  }

  /** Colours as the flat number list a `vec3` uniform array is set from. */
  function Flatten(cs: seq<Color>): (r: seq<real>)
    ensures |r| == 3 * |cs|
  {
    if cs == [] then [] else Flatten(cs[..|cs| - 1]) + [cs[|cs| - 1].r, cs[|cs| - 1].g, cs[|cs| - 1].b]
  }

  /** The colour stored in slots `3i .. 3i+2` of a flat list. */
  lemma {:induction false} FlattenAt(cs: seq<Color>, i: nat)
    requires i < |cs|
    ensures Flatten(cs)[3 * i] == cs[i].r && Flatten(cs)[3 * i + 1] == cs[i].g && Flatten(cs)[3 * i + 2] == cs[i].b
  {
    if i < |cs| - 1 {
      FlattenAt(cs[..|cs| - 1], i);
    }
  }

  /** When a scheme has at most 17 stops, table slot `i` is stop `i % len`. */
  lemma TableColorAtStop(steps: seq<Color>, i: nat)
    requires 0 < |steps| <= MaxInterpolationSteps
    ensures TableColor(steps, i) == steps[i % |steps|]
  {
    assert InterpolationSteps(|steps|) == |steps|;
    StopPosition(i, |steps|);
    BlendAt(steps, Position(Ratio(i, InterpolationSteps(|steps|)), |steps|), i % |steps|);
  }

  /** When a scheme has at most 17 stops, the table is the stops followed by the first one again. */
  lemma UniformColorsAreStops(steps: seq<Color>)
    requires 0 < |steps| <= MaxInterpolationSteps
    ensures |UniformColors(steps)| == |steps| + 1
    ensures forall i :: 0 <= i < |steps| ==> UniformColors(steps)[i] == steps[i]
    ensures UniformColors(steps)[|steps|] == steps[0]
  {
    assert InterpolationSteps(|steps|) == |steps|;
    forall i | 0 <= i < |steps| ensures UniformColors(steps)[i] == steps[i] {
      TableColorAtStop(steps, i);
      ModSmall(i, |steps|);
    }
    TableColorAtStop(steps, |steps|);
    assert |steps| % |steps| == 0;
  }

  /** The values the `uniforms` getter hands to the shader. */
  datatype SchemeUniforms = SchemeUniforms(
    uColorScheme: seq<real>,
    uColorSchemeNegative: Color,
    uColorSchemeAxes: Color,
    uColorSchemeSteps: nat)

  class Scheme {
    const name: string
    const steps: seq<Color>
    const negative: Color
    const axes: Color
    var uniformCache: Option<seq<real>>

    /** The cache, once filled, holds the flattened table of this scheme. */
    ghost predicate Valid()
      reads this
    {
      uniformCache.Some? ==> |steps| > 0 && uniformCache.value == Flatten(UniformColors(steps))
    }

    /** The defaults are black for negative values and white for the axes. */
    constructor (name: string, stepArgs: seq<ColorArg>, negativeArg: ColorArg := Given(Black), axesArg: ColorArg := Given(White))
      ensures this.name == name
      ensures |steps| == |stepArgs| && forall i :: 0 <= i < |stepArgs| ==> steps[i] == ParseColor(stepArgs[i])
      ensures negative == ParseColor(negativeArg) && axes == ParseColor(axesArg)
      ensures uniformCache == None
      ensures Valid()
    {
      this.name := name;
      steps := seq(|stepArgs|, i requires 0 <= i < |stepArgs| => ParseColor(stepArgs[i]));
      negative := ParseColor(negativeArg);
      axes := ParseColor(axesArg);
      uniformCache := None;
    }

    /**
     * `uniforms`: fills the cache on first use with `get(i / n)` for
     * `i = 0 .. n`, three numbers per colour, and reuses it afterwards.
     * A scheme without stops throws inside `get`; that is `None`.
     */
    method Uniforms() returns (r: Option<SchemeUniforms>)
      requires Valid()
      modifies this
      ensures Valid()
      ensures old(uniformCache).Some? ==> uniformCache == old(uniformCache)
      ensures r.Some? <==> |steps| > 0
      ensures r.Some? ==> uniformCache.Some? && r.value == SchemeUniforms(uniformCache.value, negative, axes, InterpolationSteps(|steps|))
      ensures r.Some? ==> |r.value.uColorScheme| == 3 * (InterpolationSteps(|steps|) + 1)
      ensures r.None? ==> uniformCache == old(uniformCache)
    {
      var n := InterpolationSteps(|steps|);
      if uniformCache.None? {
        var uc: seq<real> := [];
        var i := 0;
        while i <= n
          invariant 0 <= i <= n + 1
          invariant |steps| > 0 ==> uc == Flatten(TableColors(steps, i))
          invariant |steps| == 0 ==> i == 0
          invariant uniformCache == None
        {
          var c := Get(steps, Ratio(i, n));
          if |steps| > 0 {
            TableColorIsGet(steps, i);
          }
          if c.None? {
            return None;
          }
          TableColorsNext(steps, i);
          uc := uc + [c.value.r, c.value.g, c.value.b];
          i := i + 1;
        }
        AllTableColors(steps, i);
        uniformCache := Some(uc);
      }
      if |steps| == 0 {
        return None;
      }
      r := Some(SchemeUniforms(uniformCache.value, negative, axes, n));
    }
  }

  // ---------------------------------------------------------------------------
  // The GLSL lookup

  /**
   * The table slot below position `v` in `colorScheme(v)`: `int(fract(v)·n)`.
   * With `n` at most 17 the slot and the one after it lie inside the
   * 18-slot uniform array.
   */
  function ShaderIndex(n: nat, v: real): (i: int)
    requires n <= MaxInterpolationSteps
    ensures 0 <= i && i + 1 <= MaxInterpolationSteps + 1
    ensures n > 0 ==> i + 1 <= n
  {
    // with no intervals the scaled position is 0 and so is the slot
    if n == 0 then 0 else PositionFloor(v, n); Position(v, n).Floor
  }

  /** The whole part of a position on a cycle of `n > 0` stops is a stop index. */
  lemma PositionFloor(v: real, n: nat)
    requires n > 0
    ensures 0 <= Position(v, n).Floor < n
  {
    PositionInRange(v, n);
    FloorBelow(Position(v, n), n);
  }

  /**
   * The GLSL `colorScheme(v)`, reading the `uColorScheme[18]` array `u`:
   * the negative colour below 0, otherwise a blend of adjacent table slots.
   */
  function ShaderColor(u: seq<Color>, negative: Color, n: nat, v: real): (r: Color)
    requires |u| == MaxInterpolationSteps + 1 && n <= MaxInterpolationSteps
    ensures v < 0.0 ==> r == negative
  {
    if v < 0.0 then negative
    else
      var i := ShaderIndex(n, v);
      Lerp3(u[i], u[i + 1], Position(v, n) - i as real)
  }

  /**
   * For a scheme of at most 17 stops whose table sits at the start of the
   * uniform array, the GPU lookup equals the CPU `get` for every `v >= 0`.
   */
  lemma ShaderMatchesGet(steps: seq<Color>, u: seq<Color>, negative: Color, v: real)
    requires 0 < |steps| <= MaxInterpolationSteps
    requires |u| == MaxInterpolationSteps + 1
    requires u[..|steps| + 1] == UniformColors(steps)
    requires v >= 0.0
    ensures Get(steps, v).Some?
    ensures ShaderColor(u, negative, InterpolationSteps(|steps|), v) == Get(steps, v).value
  {
    assert InterpolationSteps(|steps|) == |steps|;
    ShaderBlends(steps, u, negative, v);
    GetBlends(steps, v);
  }

  /** The GPU lookup blends the same two stops by the same offset as the reference blend. */
  lemma ShaderBlends(steps: seq<Color>, u: seq<Color>, negative: Color, v: real)
    requires 0 < |steps| <= MaxInterpolationSteps
    requires |u| == MaxInterpolationSteps + 1
    requires u[..|steps| + 1] == UniformColors(steps)
    requires v >= 0.0
    ensures ShaderColor(u, negative, |steps|, v) == Blend(steps, Position(v, |steps|))
  {
    var i := ShaderIndex(|steps|, v);
    SlotsAreStops(steps, u, i);
    ModSmall(i, |steps|);
  }

  /** Slots `i` and `i + 1` of the uniform array hold stop `i` and the stop after it round the cycle. */
  lemma SlotsAreStops(steps: seq<Color>, u: seq<Color>, i: int)
    requires 0 < |steps| <= MaxInterpolationSteps
    requires |u| == MaxInterpolationSteps + 1
    requires u[..|steps| + 1] == UniformColors(steps)
    requires 0 <= i < |steps|
    ensures u[i] == steps[i] && u[i + 1] == steps[(i + 1) % |steps|]
  {
    var len := |steps|;
    UniformColorsAreStops(steps);
    assert u[i] == u[..len + 1][i];
    assert u[i + 1] == u[..len + 1][i + 1];
    NextIndex(i, len);
  }

  /** The index after `i` round a cycle of `m` stops. */
  lemma NextIndex(i: int, m: int)
    requires 0 <= i < m
    ensures (i + 1) % m == if i + 1 < m then i + 1 else 0
  {
  }

  // ---------------------------------------------------------------------------
  // Presets

  function Reverse<T>(s: seq<T>): (r: seq<T>)
    ensures |r| == |s|
    ensures forall i :: 0 <= i < |s| ==> r[i] == s[|s| - 1 - i]
  {
    if s == [] then [] else Reverse(s[1..]) + [s[0]]
  }

  /** `r.slice(1, -1)`: everything but the first and the last element. */
  function Inner<T>(r: seq<T>): seq<T> {
    if |r| < 2 then [] else r[1..|r| - 1]
  }

  /** The palette that runs through `r` and back again without repeating its ends. */
  function Mirrored<T>(r: seq<T>): seq<T> {
    r + Reverse(Inner(r))
  }

  /** `bidirectional`: copy `r`, then push its inner part in reverse. */
  method Bidirectional<T>(r: seq<T>) returns (a: seq<T>)
    ensures a == Mirrored(r)
  {
    a := r;
    var inner := Inner(r);
    var k := |inner|;
    while k > 0
      invariant 0 <= k <= |inner|
      invariant a == r + Reverse(inner)[..|inner| - k]
    {
      k := k - 1;
      assert Reverse(inner)[..|inner| - k] == Reverse(inner)[..|inner| - k - 1] + [inner[k]];
      a := a + [inner[k]];
    }
    assert Reverse(inner)[..|inner|] == Reverse(inner);
  }

  /** A bidirectional palette has `2n - 2` colours for `n >= 2` and `n` otherwise. */
  lemma MirroredLength<T>(r: seq<T>)
    ensures |r| >= 2 ==> |Mirrored(r)| == 2 * |r| - 2
    ensures |r| < 2 ==> Mirrored(r) == r
  {
  }

  /**
   * Read as a cycle, a bidirectional palette is symmetric about its first
   * colour: position `k` and position `-k` hold the same colour.
   */
  lemma MirroredSymmetric<T>(r: seq<T>, k: nat)
    requires |r| >= 2
    requires 0 < k < |Mirrored(r)|
    ensures Mirrored(r)[k] == Mirrored(r)[|Mirrored(r)| - k]
  {
    var a, n := Mirrored(r), |r|;
    var inner := Inner(r);
    assert |a| == 2 * n - 2;
    if k < n - 1 {
      assert a[k] == r[k];
      var j := |a| - k - n;
      assert a[|a| - k] == Reverse(inner)[j] == inner[|inner| - 1 - j] == r[k];
    } else if k == n - 1 {
      assert |a| - k == k;
    } else {
      var j := k - n;
      assert a[k] == Reverse(inner)[j] == inner[|inner| - 1 - j] == r[|a| - k];
    }
  }

  /** The registry of named schemes that `createScheme` fills. */
  class Registry {
    var schemes: map<string, Scheme>

    constructor ()
      ensures schemes == map[]
    {
      schemes := map[];
    }

    /**
     * `createScheme`: registers a new scheme under `name`, replacing an
     * earlier one of the same name; an omitted colour takes the default.
     */
    method CreateScheme(name: string, colors: seq<ColorArg>, negativeArg: Option<ColorArg>, axesArg: Option<ColorArg>)
      modifies this
      ensures schemes.Keys == old(schemes.Keys) + {name}
      ensures forall n :: n in old(schemes) && n != name ==> schemes[n] == old(schemes)[n]
      ensures fresh(schemes[name]) && schemes[name].name == name && schemes[name].uniformCache == None
      ensures |schemes[name].steps| == |colors| && forall i :: 0 <= i < |colors| ==> schemes[name].steps[i] == ParseColor(colors[i])
      ensures schemes[name].negative == (if negativeArg.Some? then ParseColor(negativeArg.value) else Black)
      ensures schemes[name].axes == (if axesArg.Some? then ParseColor(axesArg.value) else White)
    {
      var negative := if negativeArg.Some? then negativeArg.value else Given(Black);
      var axes := if axesArg.Some? then axesArg.value else Given(White);
      var s := new Scheme(name, colors, negative, axes);
      schemes := schemes[name := s];
    }
  }


}
