/**
 * The Julia engine: a resumable per-pixel state machine. Every pixel holds
 * its current iterate `z` and a step counter. While the pixel runs, the
 * counter is `-1 - (updates so far)`. When |z| > 2 is first seen it becomes
 * `-steps - 1`, the number of updates made, and the pixel is frozen. The
 * host keeps two such buffers and ping-pongs between them, 200 updates per
 * stage.
 */
module Julia {
  import opened Vec2
  import opened Complex
  import opened ComplexPlane
  import opened ColorScheme

  const StepsPerStage: nat := 200

  /** One pixel of a buffer: the `oZ` and `oSteps` attachments. */
  datatype Cell = Cell(z: Complex, steps: int)

  /** The init shader: the pixel's point, not escaped, no updates yet. */
  function InitCell(point: Complex): Cell {
    Cell(point, -1)
  }

  /** The advance loop on a running pixel, with `budget` rounds left. */
  function Iterate(z: Complex, steps: int, c: Complex, budget: nat): Cell
    decreases budget
  {
    if budget == 0 then Cell(z, steps)
    else if Escaped(z) then Cell(z, -steps - 1)
    else Iterate(Step(z, c), steps - 1, c, budget - 1)
  }

  /** The advance shader with a round budget: frozen pixels pass through. */
  function Run(cell: Cell, c: Complex, budget: nat): Cell {
    if cell.steps < 0 then Iterate(cell.z, cell.steps, c, budget) else cell
  }

  /** The advance shader's `main` on one pixel. */
  method AdvanceCell(cell: Cell, c: Complex) returns (r: Cell)
    ensures r == Run(cell, c, StepsPerStage)
    ensures cell.steps >= 0 ==> r == cell
  {
    var z := cell.z;
    var steps := cell.steps;
    if steps < 0 {
      var i := 0;
      while i < StepsPerStage
        invariant 0 <= i <= StepsPerStage
        invariant steps < 0
        invariant Iterate(z, steps, c, StepsPerStage - i) == Run(cell, c, StepsPerStage)
      {
        if Escaped(z) {
          steps := -steps - 1;
          break;
        }
        steps := steps - 1;
        z := Step(z, c);
        i := i + 1;
      }
    }
    r := Cell(z, steps);
  }

  /** A running pixel either stays running with its counter lowered, or freezes. */
  lemma {:induction false} IterateChunks(z: Complex, steps: int, c: Complex, a: nat, b: nat)
    requires steps < 0
    ensures Run(Iterate(z, steps, c, a), c, b) == Iterate(z, steps, c, a + b)
    decreases a
  {
    if a > 0 && !Escaped(z) {
      IterateChunks(Step(z, c), steps - 1, c, a - 1, b);
    }
  }

  /** Chunked iteration composes: a run of `a` rounds then `b` is a run of `a + b`. */
  lemma RunChunks(cell: Cell, c: Complex, a: nat, b: nat)
    ensures Run(Run(cell, c, a), c, b) == Run(cell, c, a + b)
  {
    if cell.steps < 0 {
      IterateChunks(cell.z, cell.steps, c, a, b);
    }
  }

  /** `advance()` draws two stages, which together are one run of 400 rounds. */
  lemma TwoStagesAreOne(cell: Cell, c: Complex)
    ensures Run(Run(cell, c, StepsPerStage), c, StepsPerStage) == Run(cell, c, 2 * StepsPerStage)
  {
    RunChunks(cell, c, StepsPerStage, StepsPerStage);
  }

  /** A frozen pixel is left exactly as it is. */
  lemma FrozenCellUnchanged(cell: Cell, c: Complex, b: nat)
    requires cell.steps >= 0
    ensures Run(cell, c, b) == cell
  {
  }

  /**
   * What the counter means. From the state after `k` updates of the orbit
   * of `z0`, a run of `b` rounds either freezes the pixel at the first
   * escaping iterate `n` in [k, k + b) with the counter equal to `n`, or
   * leaves it running after `k + b` updates with the counter `-1 - (k + b)`.
   */
  lemma {:induction false} RunFromOrbit(z0: Complex, c: Complex, k: nat, b: nat)
    ensures var r := Run(Cell(Orbit(z0, c, k), -1 - k), c, b);
      if r.steps >= 0 then
        k <= r.steps < k + b && r.z == Orbit(z0, c, r.steps) && Escaped(r.z) &&
        forall j :: k <= j < r.steps ==> !Escaped(Orbit(z0, c, j))
      else
        r == Cell(Orbit(z0, c, k + b), -1 - (k + b)) &&
        forall j :: k <= j < k + b ==> !Escaped(Orbit(z0, c, j))
    decreases b
  {
    if b > 0 && !Escaped(Orbit(z0, c, k)) {
      assert Orbit(z0, c, k + 1) == Step(Orbit(z0, c, k), c);
      RunFromOrbit(z0, c, k + 1, b - 1);
    }
  }

  /** A pixel that does not escape within a stage has its counter lowered by exactly 200. */
  lemma StageLowersCounter(z0: Complex, c: Complex, k: nat)
    requires Run(Cell(Orbit(z0, c, k), -1 - k), c, StepsPerStage).steps < 0
    ensures Run(Cell(Orbit(z0, c, k), -1 - k), c, StepsPerStage).steps == -1 - k - StepsPerStage
  {
    RunFromOrbit(z0, c, k, StepsPerStage);
  }

  /**
   * What a run does to the counter of a running pixel with `u` updates
   * made (counter `-1 - u`): it stays running with `u + budget` updates,
   * or freezes at an escaping iterate with between `u` and `u + budget`
   * updates made.
   */
  lemma {:induction false} IterateCounter(z: Complex, steps: int, c: Complex, budget: nat)
    requires steps < 0
    ensures var r := Iterate(z, steps, c, budget);
      if r.steps < 0 then r.steps == steps - budget
      else Escaped(r.z) && -steps - 1 <= r.steps < -steps - 1 + budget
    decreases budget
  {
    if budget > 0 && !Escaped(z) {
      IterateCounter(Step(z, c), steps - 1, c, budget - 1);
    }
  }

  lemma StageCounters(fb: seq<Cell>, c: Complex, budget: nat)
    ensures forall i :: 0 <= i < |fb| && fb[i].steps < 0 ==>
      var r := Run(fb[i], c, budget);
      if r.steps < 0 then r.steps == fb[i].steps - budget
      else Escaped(r.z) && -fb[i].steps - 1 <= r.steps < -fb[i].steps - 1 + budget
  {
    forall i | 0 <= i < |fb| && fb[i].steps < 0 {
      IterateCounter(fb[i].z, fb[i].steps, c, budget);
    }
  }

  /**
   * A stage of the advance shader over a whole buffer: frozen pixels pass
   * through; a running pixel either stays running with its counter lowered
   * by the budget, or freezes at an escaping iterate, its counter the
   * number of updates made, which is fewer than before plus the budget.
   */
  function Stage(fb: seq<Cell>, c: Complex, budget: nat): (r: seq<Cell>)
    ensures |r| == |fb|
    ensures forall i :: 0 <= i < |fb| && fb[i].steps >= 0 ==> r[i] == fb[i]
    ensures forall i :: 0 <= i < |fb| && fb[i].steps < 0 && r[i].steps < 0 ==> r[i].steps == fb[i].steps - budget
    ensures forall i :: 0 <= i < |fb| && fb[i].steps < 0 && r[i].steps >= 0 ==>
      Escaped(r[i].z) && -fb[i].steps - 1 <= r[i].steps < -fb[i].steps - 1 + budget
  {
    StageCounters(fb, c, budget);
    seq(|fb|, i requires 0 <= i < |fb| => Run(fb[i], c, budget))
  }

  /** The init shader over a buffer of points. */
  function InitStage(points: seq<Complex>): (r: seq<Cell>)
    ensures |r| == |points|
    ensures forall i :: 0 <= i < |points| ==> r[i] == InitCell(points[i])
  {
    seq(|points|, i requires 0 <= i < |points| => InitCell(points[i]))
  }

  lemma StagesCompose(fb: seq<Cell>, c: Complex, a: nat, b: nat)
    ensures Stage(Stage(fb, c, a), c, b) == Stage(fb, c, a + b)
  {
    forall i | 0 <= i < |fb|
      ensures Stage(Stage(fb, c, a), c, b)[i] == Stage(fb, c, a + b)[i]
    {
      RunChunks(fb[i], c, a, b);
    }
  }

  /**
   * A buffer initialised from `points` and advanced by `n` rounds: each
   * pixel is frozen at the first escaping iterate of its orbit below `n`,
   * or still running after exactly `n` updates.
   */
  lemma InitializedPixel(points: seq<Complex>, c: Complex, n: nat, p: nat)
    requires p < |points|
    ensures var r := Stage(InitStage(points), c, n)[p];
      if r.steps >= 0 then
        r.steps < n && r.z == Orbit(points[p], c, r.steps) && Escaped(r.z) &&
        forall j :: 0 <= j < r.steps ==> !Escaped(Orbit(points[p], c, j))
      else
        r == Cell(Orbit(points[p], c, n), -1 - n) &&
        forall j :: 0 <= j < n ==> !Escaped(Orbit(points[p], c, j))
  {
    RunFromOrbit(points[p], c, 0, n);
  }

  /** The render shader: `color(steps < 0 ? -1 : steps)`, i.e. `colorScheme(s / 60)`. */
  function RenderCell(u: seq<Color>, negative: Color, n: nat, cell: Cell): Color
    requires |u| == MaxInterpolationSteps + 1 && n <= MaxInterpolationSteps
  {
    var s := if cell.steps < 0 then -1 else cell.steps;
    ShaderColor(u, negative, n, s as real / 60.0)
  }

  /** Running pixels get the negative colour; frozen ones the scheme at `steps / 60`. */
  lemma RenderCellColor(u: seq<Color>, negative: Color, n: nat, cell: Cell)
    requires |u| == MaxInterpolationSteps + 1 && n <= MaxInterpolationSteps
    ensures cell.steps < 0 ==> RenderCell(u, negative, n, cell) == negative
    ensures cell.steps >= 0 ==> RenderCell(u, negative, n, cell) == ShaderColor(u, negative, n, cell.steps as real / 60.0)
  {
    if cell.steps < 0 {
      assert (-1) as real / 60.0 < 0.0;
    }
  }

  /** The host: two ping-pong buffers, the step count and the parameter `c`. */
  class JuliaHost {
    var framebuffers: seq<seq<Cell>>
    var stepsExecuted: int
    var c: Complex
    /** The points the buffers were last initialised from. */
    ghost var origin: seq<Complex>

    ghost predicate Valid()
      reads this
    {
      |framebuffers| == 2
    }

    /** Buffer 0 holds the init state advanced by exactly `stepsExecuted` rounds. */
    ghost predicate Synced()
      reads this
    {
      Valid() && stepsExecuted >= 0 &&
      framebuffers[0] == Stage(InitStage(origin), c, stepsExecuted)
    }

    constructor ()
      ensures Valid()
      ensures framebuffers == [[], []] && stepsExecuted == 0 && c == Vec2(0.0, 0.0)
    {
      framebuffers := [[], []];
      stepsExecuted := 0;
      c := Vec2(0.0, 0.0);
      origin := [];
    }

    /** `changeView`: the init shader into buffer 0 and the count reset. */
    method ChangeView(u: PlaneUniforms, pixels: seq<Vec2>)
      requires Valid()
      modifies this
      ensures Synced()
      ensures origin == seq(|pixels|, i requires 0 <= i < |pixels| => Point(u, pixels[i]))
      ensures framebuffers == old(framebuffers)[0 := InitStage(origin)]
      ensures stepsExecuted == 0 && c == old(c)
    {
      var points := seq(|pixels|, i requires 0 <= i < |pixels| => Point(u, pixels[i]));
      origin := points;
      framebuffers := framebuffers[0 := InitStage(points)];
      stepsExecuted := 0;
      assert Stage(InitStage(origin), c, 0) == InitStage(origin);
    }

    /** `advance`: stage 0 to 1, then 1 to 0, 200 steps counted each. */
    method Advance()
      requires Valid()
      modifies this
      ensures Valid()
      ensures framebuffers[0] == Stage(old(framebuffers[0]), c, 2 * StepsPerStage)
      ensures framebuffers[1] == Stage(old(framebuffers[0]), c, StepsPerStage)
      ensures stepsExecuted == old(stepsExecuted) + 2 * StepsPerStage
      ensures c == old(c) && origin == old(origin)
      ensures old(Synced()) ==> Synced()
    {
      ghost var fb0 := framebuffers[0];
      for i := 0 to 2
        invariant |framebuffers| == 2 && c == old(c) && origin == old(origin)
        invariant stepsExecuted == old(stepsExecuted) + StepsPerStage * i
        invariant i == 0 ==> framebuffers == old(framebuffers)
        invariant i == 1 ==> framebuffers == [fb0, Stage(fb0, c, StepsPerStage)]
        invariant i == 2 ==> framebuffers == [Stage(fb0, c, 2 * StepsPerStage), Stage(fb0, c, StepsPerStage)]
      {
        stepsExecuted := stepsExecuted + StepsPerStage;
        framebuffers := framebuffers[1 - i := Stage(framebuffers[i], c, StepsPerStage)];
        if i == 1 {
          StagesCompose(fb0, c, StepsPerStage, StepsPerStage);
        }
      }
      if old(Synced()) {
        StagesCompose(Stage(InitStage(origin), c, old(stepsExecuted)), c, 2 * StepsPerStage, 0);
        StagesCompose(InitStage(origin), c, old(stepsExecuted), 2 * StepsPerStage);
      }
    }

    /** `render`: the colour of every pixel of buffer 0. */
    function Render(u: seq<Color>, negative: Color, n: nat): (r: seq<Color>)
      requires Valid()
      requires |u| == MaxInterpolationSteps + 1 && n <= MaxInterpolationSteps
      reads this
      ensures |r| == |framebuffers[0]|
      ensures forall i :: 0 <= i < |r| && framebuffers[0][i].steps < 0 ==> r[i] == negative
      ensures forall i :: 0 <= i < |r| && framebuffers[0][i].steps >= 0 ==>
        r[i] == ShaderColor(u, negative, n, framebuffers[0][i].steps as real / 60.0)
    {
      var fb := framebuffers[0];
      assert (-1) as real / 60.0 < 0.0;
      seq(|fb|, i requires 0 <= i < |fb| => RenderCell(u, negative, n, fb[i]))
    }
  }
}
