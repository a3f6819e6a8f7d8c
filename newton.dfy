/**
 * The Newton fractal shader: from the point `p` under a pixel, run at most
 * 100 Newton steps c := c - f(c)/f'(c) for a user-supplied `f` and its
 * derivative. The loop stops early when the step is not a number, or when
 * |f(c)| < 1e-2 and the step is below 1e-6; then `steps` is that iteration.
 * The user's `f` and `df` enter as function parameters. The NaN/Inf test
 * `newton_iswrong` holds for a zero divisor (x / 0 is NaN or infinite in
 * GLSL) and otherwise is the parameter `overflows` on the quotient, which
 * stands for a result that left the floating-point range.
 */
module Newton {
  import opened Vec2
  import opened Complex
  import opened ColorScheme

  const MaxSteps: nat := 100

  /** `newton_cdiv`: a / b for a non-zero divisor. */
  function CDiv(a: Complex, b: Complex): Complex
    requires ModSq(b) != 0.0
  {
    Vec2((a.x * b.x + a.y * b.y) / ModSq(b), (a.y * b.x - a.x * b.y) / ModSq(b))
  }

  /** `newton_cdiv` is a true quotient: (a / b) * b = a. */
  lemma CDivIsQuotient(a: Complex, b: Complex)
    requires ModSq(b) != 0.0
    ensures CMul(CDiv(a, b), b) == a
  {
    var m := ModSq(b);
    var p, q := a.x * b.x + a.y * b.y, a.y * b.x - a.x * b.y;
    QuotientParts(a.x, a.y, b.x, b.y, p, q, m);
    DivMinus(p, b.x, q, b.y, m, a.x);
    DivPlus(p, b.y, q, b.x, m, a.y);
  }

  lemma QuotientParts(ax: real, ay: real, u: real, v: real, p: real, q: real, m: real)
    requires p == ax * u + ay * v && q == ay * u - ax * v && m == u * u + v * v
    ensures p * u - q * v == ax * m
    ensures p * v + q * u == ay * m
  {
  }

  lemma DivMinus(p: real, s: real, q: real, t: real, m: real, r: real)
    requires m != 0.0 && p * s - q * t == r * m
    ensures (p / m) * s - (q / m) * t == r
  {
    assert (p / m) * s - (q / m) * t == (p * s - q * t) / m;
  }

  lemma DivPlus(p: real, s: real, q: real, t: real, m: real, r: real)
    requires m != 0.0 && p * s + q * t == r * m
    ensures (p / m) * s + (q / m) * t == r
  {
    assert (p / m) * s + (q / m) * t == (p * s + q * t) / m;
  }

  /** `newton_iswrong(dc)` for dc = fc / dfc. */
  predicate Wrong(fc: Complex, dfc: Complex, overflows: Complex -> bool) {
    ModSq(dfc) == 0.0 || overflows(CDiv(fc, dfc))
  }

  /** `length(fc) < 1e-2 && length(dc) < 1e-6`, squared on both sides. */
  predicate Converged(fc: Complex, dc: Complex) {
    ModSq(fc) < 0.0001 && ModSq(dc) < 0.000000000001
  }

  /** The iteration at `c` neither fails nor converges, so it moves on. */
  predicate Continues(f: Complex -> Complex, df: Complex -> Complex, overflows: Complex -> bool, c: Complex) {
    !Wrong(f(c), df(c), overflows) && !Converged(f(c), CDiv(f(c), df(c)))
  }

  /** The iteration at `c` converges: the step is a number and both tests pass. */
  predicate ConvergesAt(f: Complex -> Complex, df: Complex -> Complex, overflows: Complex -> bool, c: Complex) {
    !Wrong(f(c), df(c), overflows) && Converged(f(c), CDiv(f(c), df(c)))
  }

  /** One Newton update `c -= dc`; a point with a zero derivative is left in place. */
  function NewtonStep(f: Complex -> Complex, df: Complex -> Complex, c: Complex): Complex {
    if ModSq(df(c)) == 0.0 then c else CSub(c, CDiv(f(c), df(c)))
  }

  /** The point after `k` Newton updates from `p`. */
  function Path(f: Complex -> Complex, df: Complex -> Complex, p: Complex, k: nat): Complex {
    if k == 0 then p else NewtonStep(f, df, Path(f, df, p, k - 1))
  }

  /** Every iteration before `j` moved on. */
  ghost predicate RunsTo(f: Complex -> Complex, df: Complex -> Complex, overflows: Complex -> bool, p: Complex, j: nat) {
    forall k :: 0 <= k < j ==> Continues(f, df, overflows, Path(f, df, p, k))
  }

  /** How the loop ends: a converged iteration, or -1 with the last `c`. */
  datatype Outcome = Root(steps: nat, c: Complex, dc: Complex) | NoRoot(c: Complex)

  /** The `steps` value the shader keeps: the iteration index, or -1. */
  function Steps(o: Outcome): int {
    if o.Root? then o.steps else -1
  }

  /** The loop from iteration `i` on, with `c` its current point. */
  function Search(f: Complex -> Complex, df: Complex -> Complex, overflows: Complex -> bool, c: Complex, i: nat): Outcome
    decreases MaxSteps - i
  {
    if i >= MaxSteps || Wrong(f(c), df(c), overflows) then NoRoot(c)
    else
      var dc := CDiv(f(c), df(c));
      if Converged(f(c), dc) then Root(i, c, dc) else Search(f, df, overflows, CSub(c, dc), i + 1)
  }

  /** The shader's loop, with the last `c` and, on convergence, `dc`. */
  method NewtonLoop(f: Complex -> Complex, df: Complex -> Complex, overflows: Complex -> bool, p: Complex)
    returns (steps: int, c: Complex, dc: Complex)
    ensures steps == Steps(Search(f, df, overflows, p, 0))
    ensures c == Search(f, df, overflows, p, 0).c
    ensures steps >= 0 ==> dc == Search(f, df, overflows, p, 0).dc
    ensures -1 <= steps < MaxSteps
  {
    c := p;
    dc := p;
    steps := -1;
    var i := 0;
    while i < MaxSteps
      invariant 0 <= i <= MaxSteps
      invariant Search(f, df, overflows, c, i) == Search(f, df, overflows, p, 0)
      invariant steps == -1
    {
      var fc := f(c);
      var dfc := df(c);
      if Wrong(fc, dfc, overflows) {
        break;
      }
      dc := CDiv(fc, dfc);
      if Converged(fc, dc) {
        steps := i;
        break;
      }
      c := CSub(c, dc);
      i := i + 1;
    }
  }

  lemma {:induction false} PathStep(f: Complex -> Complex, df: Complex -> Complex, overflows: Complex -> bool, p: Complex, k: nat)
    requires !Wrong(f(Path(f, df, p, k)), df(Path(f, df, p, k)), overflows)
    ensures Path(f, df, p, k + 1) == CSub(Path(f, df, p, k), CDiv(f(Path(f, df, p, k)), df(Path(f, df, p, k))))
  {
  }

  /**
   * If iterations `i .. j-1` move on and iteration `j` converges, the loop
   * resumed at iteration `i` reports iteration `j`.
   */
  lemma {:induction false} RootFoundFrom(f: Complex -> Complex, df: Complex -> Complex, overflows: Complex -> bool, p: Complex, i: nat, j: nat)
    requires i <= j < MaxSteps
    requires forall k :: i <= k < j ==> Continues(f, df, overflows, Path(f, df, p, k))
    requires ConvergesAt(f, df, overflows, Path(f, df, p, j))
    ensures Search(f, df, overflows, Path(f, df, p, i), i) == Root(j, Path(f, df, p, j), CDiv(f(Path(f, df, p, j)), df(Path(f, df, p, j))))
    decreases j - i
  {
    if i < j {
      assert Continues(f, df, overflows, Path(f, df, p, i));
      PathStep(f, df, overflows, p, i);
      RootFoundFrom(f, df, overflows, p, i + 1, j);
    }
  }

  /** If iterations `i .. j-1` move on and iteration `j` yields NaN, the loop resumed at `i` ends with -1 there. */
  lemma {:induction false} FailureFrom(f: Complex -> Complex, df: Complex -> Complex, overflows: Complex -> bool, p: Complex, i: nat, j: nat)
    requires i <= j < MaxSteps
    requires forall k :: i <= k < j ==> Continues(f, df, overflows, Path(f, df, p, k))
    requires Wrong(f(Path(f, df, p, j)), df(Path(f, df, p, j)), overflows)
    ensures Search(f, df, overflows, Path(f, df, p, i), i) == NoRoot(Path(f, df, p, j))
    decreases j - i
  {
    if i < j {
      assert Continues(f, df, overflows, Path(f, df, p, i));
      PathStep(f, df, overflows, p, i);
      FailureFrom(f, df, overflows, p, i + 1, j);
    }
  }

  /** If every iteration from `i` on moves on, the loop ends with -1 after all 100. */
  lemma {:induction false} ExhaustedFrom(f: Complex -> Complex, df: Complex -> Complex, overflows: Complex -> bool, p: Complex, i: nat)
    requires i <= MaxSteps
    requires forall k :: i <= k < MaxSteps ==> Continues(f, df, overflows, Path(f, df, p, k))
    ensures Search(f, df, overflows, Path(f, df, p, i), i) == NoRoot(Path(f, df, p, MaxSteps))
    decreases MaxSteps - i
  {
    if i < MaxSteps {
      assert Continues(f, df, overflows, Path(f, df, p, i));
      PathStep(f, df, overflows, p, i);
      ExhaustedFrom(f, df, overflows, p, i + 1);
    }
  }

  /** A reported root is the first converging iteration, and `c` there has moved only by `dc` steps. */
  lemma {:induction false} RootIsFirstFrom(f: Complex -> Complex, df: Complex -> Complex, overflows: Complex -> bool, p: Complex, i: nat)
    requires i <= MaxSteps
    requires Search(f, df, overflows, Path(f, df, p, i), i).Root?
    ensures var o := Search(f, df, overflows, Path(f, df, p, i), i);
      i <= o.steps < MaxSteps && o.c == Path(f, df, p, o.steps) &&
      ConvergesAt(f, df, overflows, o.c) && o.dc == CDiv(f(o.c), df(o.c)) &&
      forall k :: i <= k < o.steps ==> Continues(f, df, overflows, Path(f, df, p, k))
    decreases MaxSteps - i
  {
    var c := Path(f, df, p, i);
    if !Wrong(f(c), df(c), overflows) && !Converged(f(c), CDiv(f(c), df(c))) {
      PathStep(f, df, overflows, p, i);
      RootIsFirstFrom(f, df, overflows, p, i + 1);
    }
  }

  /**
   * `steps` is the first iteration that converges, provided every earlier
   * one moved on; otherwise it is -1.
   */
  lemma RootFound(f: Complex -> Complex, df: Complex -> Complex, overflows: Complex -> bool, p: Complex, j: nat)
    requires j < MaxSteps && RunsTo(f, df, overflows, p, j)
    requires ConvergesAt(f, df, overflows, Path(f, df, p, j))
    ensures Steps(Search(f, df, overflows, p, 0)) == j
  {
    RootFoundFrom(f, df, overflows, p, 0, j);
  }

  /** A NaN step stops the loop before the convergence test and `steps` stays -1. */
  lemma FailureStops(f: Complex -> Complex, df: Complex -> Complex, overflows: Complex -> bool, p: Complex, j: nat)
    requires j < MaxSteps && RunsTo(f, df, overflows, p, j)
    requires Wrong(f(Path(f, df, p, j)), df(Path(f, df, p, j)), overflows)
    ensures Search(f, df, overflows, p, 0) == NoRoot(Path(f, df, p, j))
  {
    FailureFrom(f, df, overflows, p, 0, j);
  }

  /** 100 iterations that all move on leave `steps = -1` and `c` after 100 updates. */
  lemma Exhausted(f: Complex -> Complex, df: Complex -> Complex, overflows: Complex -> bool, p: Complex)
    requires RunsTo(f, df, overflows, p, MaxSteps)
    ensures Search(f, df, overflows, p, 0) == NoRoot(Path(f, df, p, MaxSteps))
  {
    ExhaustedFrom(f, df, overflows, p, 0);
  }

  /** A non-negative `steps` is an iteration that converged after only moving-on iterations. */
  lemma RootIsFirst(f: Complex -> Complex, df: Complex -> Complex, overflows: Complex -> bool, p: Complex)
    requires Steps(Search(f, df, overflows, p, 0)) >= 0
    ensures var o := Search(f, df, overflows, p, 0);
      o.steps < MaxSteps && RunsTo(f, df, overflows, p, o.steps) &&
      o.c == Path(f, df, p, o.steps) && ConvergesAt(f, df, overflows, o.c)
  {
    RootIsFirstFrom(f, df, overflows, p, 0);
  }

  /** GLSL `clamp(x, lo, hi)`. */
  function Clamp(x: real, lo: real, hi: real): (r: real)
    requires lo <= hi
    ensures lo <= r <= hi
    ensures lo <= x <= hi ==> r == x
  {
    if x < lo then lo else if x > hi then hi else x
  }

  /** Smooth shading: `steps += clamp(v, 0, 1)` keeps the shaded count within one step. */
  function SmoothSteps(steps: nat, v: real): (r: real)
    ensures steps as real <= r <= steps as real + 1.0
  {
    steps as real + Clamp(v, 0.0, 1.0)
  }

  function Cube(x: real): real {
    x * x * x
  }

  /** `newton_easeinout`: cubic ease-in below 1/2, mirrored ease-out above. */
  function EaseInOut(x: real): (r: real)
    ensures 0.0 <= x <= 1.0 ==> 0.0 <= r <= 1.0
  {
    if x < 0.5 then
      CubeBounds(x);
      4.0 * x * x * x
    else
      CubeBounds(2.0 - 2.0 * x);
      1.0 - 0.5 * Cube(2.0 - 2.0 * x)
  }

  lemma CubeBounds(y: real)
    ensures 0.0 <= y <= 1.0 ==> 0.0 <= Cube(y) <= 1.0
    ensures 0.0 <= y < 0.5 ==> 0.0 <= 4.0 * y * y * y <= 0.5
  {
    if 0.0 <= y <= 1.0 {
      assert 0.0 <= y * y <= 1.0;
      assert y * y * y <= y * y;
    }
    if 0.0 <= y < 0.5 {
      assert y * y <= 0.25;
      assert y * y * y <= 0.125;
    }
  }

  /** The ease starts at 0, ends at 1 and both branches meet at 1/2. */
  lemma EaseEnds()
    ensures EaseInOut(0.0) == 0.0 && EaseInOut(1.0) == 1.0
    ensures EaseInOut(0.5) == 0.5
    ensures 4.0 * 0.5 * 0.5 * 0.5 == 0.5
  {
    assert Cube(0.0) == 0.0;
    assert Cube(1.0) == 1.0;
  }

  /**
   * The root overlay: within distance 0.06 of the start point (`d < 1`
   * for `d = distance(c, p) / 0.06`) blend from the axes colour towards
   * `col` by the eased distance; elsewhere leave `col`.
   */
  function RootOverlay(col: Color, axes: Color, d: real): Color {
    if d < 1.0 then Lerp3(axes, col, EaseInOut(d)) else col
  }

  lemma OverlayOnlyNearStart(col: Color, axes: Color, d: real)
    ensures d >= 1.0 ==> RootOverlay(col, axes, d) == col
    ensures d == 0.0 ==> RootOverlay(col, axes, d) == axes
  {
    if d == 0.0 {
      EaseEnds();
    }
  }

  /**
   * The final colour: the negative colour without a root; otherwise `mixed`
   * (the scheme colour after smooth shading and attenuation) with the root
   * overlay when it is switched on.
   */
  function PixelColor(o: Outcome, negative: Color, axes: Color, mixed: Color, showRoots: bool, d: real): (r: Color)
    ensures o.NoRoot? ==> r == negative
    ensures o.Root? && (!showRoots || d >= 1.0) ==> r == mixed
  {
    if Steps(o) < 0 then negative
    else if showRoots then RootOverlay(mixed, axes, d)
    else mixed
  }

  /**
   * The host: the display switches and the program text. The colour
   * lookup and this shader's main are given as text; `setF` puts the
   * user's `f` between them.
   */
  class NewtonHost {
    const planeHeader: string
    const colorSchemeCode: string
    const shaderCode: string
    var drawAxes: bool
    var shadeSmooth: bool
    var showRoots: bool
    var program: string

    constructor (planeHeader: string, colorSchemeCode: string, shaderCode: string)
      ensures this.planeHeader == planeHeader && this.colorSchemeCode == colorSchemeCode && this.shaderCode == shaderCode
      ensures drawAxes && !shadeSmooth && !showRoots
      ensures program == "void main() {}"
    {
      this.planeHeader := planeHeader;
      this.colorSchemeCode := colorSchemeCode;
      this.shaderCode := shaderCode;
      drawAxes := true;
      shadeSmooth := false;
      showRoots := false;
      program := "void main() {}";
    }

    /** `setF`: header, colour lookup, `f`, then the Newton shader. */
    method SetF(f: string)
      modifies this
      ensures program == planeHeader + colorSchemeCode + f + shaderCode
      ensures drawAxes == old(drawAxes) && shadeSmooth == old(shadeSmooth) && showRoots == old(showRoots)
      ensures var at := |planeHeader| + |colorSchemeCode|;
        program[..|planeHeader|] == planeHeader && program[at..at + |f|] == f && program[at + |f|..] == shaderCode
    {
      program := planeHeader + colorSchemeCode + f + shaderCode;
      ProgramParts(planeHeader, colorSchemeCode, f, shaderCode);
    }
  }

  /** Four texts joined split back into the same four. */
  lemma ProgramParts(h: string, g: string, f: string, s: string)
    ensures var prog := h + g + f + s;
      prog[..|h|] == h && prog[|h|..|h| + |g|] == g &&
      prog[|h| + |g|..|h| + |g| + |f|] == f && prog[|h| + |g| + |f|..] == s
  {
    var prog := h + g + f + s;
    assert prog == h + (g + (f + s));
    assert prog[|h|..] == g + (f + s);
    assert prog[|h| + |g|..] == f + s;
  }
}
