/**
 * The Mandelbrot shader: for the point `c` under a pixel, iterate
 * z := z*z + c from z = 0 at most 800 times and record the 0-based index of
 * the first update after which |z| > 2, or -1 when there is none. The
 * pixel is coloured by `colorScheme(steps / 60)`.
 */
module Mandelbrot {
  import opened Vec2
  import opened Complex
  import opened ColorScheme

  const MaxSteps: nat := 800

  /**
   * `s` is the first escape index of the orbit of `z0`: -1 when none of the
   * iterates 1 .. `MaxSteps` escapes, otherwise the index `s` whose update
   * (the `s + 1`-th iterate) is the first to escape.
   */
  ghost predicate IsEscapeIndexFrom(z0: Complex, c: Complex, s: int) {
    if s < 0 then
      s == -1 && forall k :: 1 <= k <= MaxSteps ==> !Escaped(Orbit(z0, c, k))
    else
      s < MaxSteps && Escaped(Orbit(z0, c, s + 1)) &&
      forall k :: 1 <= k <= s ==> !Escaped(Orbit(z0, c, k))
  }

  /** What the shader's `steps` means: the first escape index of the orbit of 0. */
  ghost predicate IsEscapeIndex(c: Complex, s: int) {
    IsEscapeIndexFrom(Zero, c, s)
  }

  /** The loop from iteration `i` on, with `z` the value it holds there. */
  function EscapeFrom(c: Complex, z: Complex, i: nat): int
    decreases MaxSteps - i
  {
    if i >= MaxSteps then -1
    else
      var z' := Step(z, c);
      if Escaped(z') then i else EscapeFrom(c, z', i + 1)
  }

  /** The `steps` the shader computes for the point `c`. */
  function EscapeSteps(c: Complex): int {
    EscapeFrom(c, Zero, 0)
  }

  /** The shader's `main` loop, up to the colour lookup. */
  method EscapeLoop(c: Complex) returns (steps: int)
    ensures IsEscapeIndex(c, steps)
    ensures steps == EscapeSteps(c)
  {
    var z := Zero;
    steps := -1;
    var i := 0;
    while i < MaxSteps
      invariant 0 <= i <= MaxSteps
      invariant z == Orbit(Zero, c, i)
      invariant forall k :: 1 <= k <= i ==> !Escaped(Orbit(Zero, c, k))
      invariant EscapeFrom(c, z, i) == EscapeSteps(c)
      invariant steps == -1
    {
      z := Step(z, c);
      if Escaped(z) {
        steps := i;
        break;
      }
      i := i + 1;
    }
  }

  /** The recursive definition agrees with what `steps` means. */
  lemma EscapeStepsMeaning(c: Complex)
    ensures IsEscapeIndex(c, EscapeSteps(c))
    ensures -1 <= EscapeSteps(c) < MaxSteps
  {
    EscapeFromMeaning(Zero, c, Zero, 0);
  }

  lemma {:induction false} EscapeFromMeaning(z0: Complex, c: Complex, z: Complex, i: nat)
    requires i <= MaxSteps && z == Orbit(z0, c, i)
    requires forall k :: 1 <= k <= i ==> !Escaped(Orbit(z0, c, k))
    ensures IsEscapeIndexFrom(z0, c, EscapeFrom(c, z, i))
    decreases MaxSteps - i
  {
    var z' := Step(z, c);
    assert z' == Orbit(z0, c, i + 1);
    if i < MaxSteps && !Escaped(z') {
      EscapeFromMeaning(z0, c, z', i + 1);
    }
  }

  /** There is only one escape index, so `IsEscapeIndexFrom` pins `steps` down. */
  lemma EscapeIndexUnique(z0: Complex, c: Complex, s: int, t: int)
    requires IsEscapeIndexFrom(z0, c, s) && IsEscapeIndexFrom(z0, c, t)
    ensures s == t
  {
  }

  /** An orbit that starts on a fixed point inside the disc never escapes. */
  lemma {:induction false} FixedOrbit(z0: Complex, c: Complex, n: nat)
    requires Step(z0, c) == z0
    ensures Orbit(z0, c, n) == z0
  {
    if n > 0 {
      FixedOrbit(z0, c, n - 1);
    }
  }

  lemma FixedPointNeverEscapes(z0: Complex, c: Complex)
    requires Step(z0, c) == z0 && !Escaped(z0)
    ensures IsEscapeIndexFrom(z0, c, -1)
  {
    forall k | 1 <= k <= MaxSteps
      ensures !Escaped(Orbit(z0, c, k))
    {
      FixedOrbit(z0, c, k);
    }
  }

  /** The origin is a fixed point of z*z + 0, so it never escapes. */
  lemma OriginNeverEscapes(c: Complex)
    requires c == Zero
    ensures EscapeSteps(c) == -1
  {
    OriginIndex(c);
    EscapeStepsMeaning(c);
    EscapeIndexUnique(Zero, c, -1, EscapeSteps(c));
  }

  lemma OriginIndex(c: Complex)
    requires c == Zero
    ensures IsEscapeIndex(c, -1)
  {
    OriginIsFixed(c);
    FixedPointNeverEscapes(Zero, c);
  }

  lemma OriginIsFixed(c: Complex)
    requires c == Zero
    ensures Step(Zero, c) == Zero && !Escaped(Zero)
  {
    StepFromZero(c);
  }

  /** A point outside the radius-2 disc escapes on the first update, at index 0. */
  lemma FarPointEscapesAtOnce(c: Complex)
    requires Escaped(c)
    ensures EscapeSteps(c) == 0
  {
    StepFromZero(c);
  }

  /** `color(steps)`: the scheme looked up at `steps / 60`. */
  function PixelColor(u: seq<Color>, negative: Color, n: nat, steps: int): Color
    requires |u| == MaxInterpolationSteps + 1 && n <= MaxInterpolationSteps
  {
    ShaderColor(u, negative, n, steps as real / 60.0)
  }

  /** `steps = -1` is painted in the negative colour; an escape index looks the scheme up at a non-negative position. */
  lemma ColorOfSteps(u: seq<Color>, negative: Color, n: nat, steps: int)
    requires |u| == MaxInterpolationSteps + 1 && n <= MaxInterpolationSteps
    ensures steps == -1 ==> PixelColor(u, negative, n, steps) == negative
    ensures steps >= 0 ==> PixelColor(u, negative, n, steps) == ShaderColor(u, negative, n, steps as real / 60.0) && steps as real / 60.0 >= 0.0
  {
    if steps == -1 {
      assert steps as real / 60.0 < 0.0;
    }
  }
}
