/**
 * The "proven" Littlewood shader: a pixel is painted in the negative
 * colour when a bounded depth-first search shows that no polynomial with
 * coefficients ±1 can vanish at its point `z`; otherwise it gets the axes
 * colour. The search keeps partial sums on an explicit stack of 21 items
 * with a `head` index. `length` is a parameter, a true Euclidean length.
 */
module LittlewoodProven {
  import opened Vec2
  import opened Complex
  import opened ColorScheme

  const StackSize: nat := 21
  const MaxIterations: nat := 100
  /** Points of at least this length (after inversion) are not searched. */
  const Threshold: real := 0.84089
  /** `1e-8`: a partial sum this close to 0 counts as a root. */
  const Epsilon: real := 0.00000001

  const One: Complex := Vec2(1.0, 0.0)

  /** `norm` is a Euclidean length: non-negative, squaring to `ModSq`. */
  ghost predicate IsLength(norm: Complex -> real) {
    forall w :: norm(w) >= 0.0 && norm(w) * norm(w) == ModSq(w)
  }

  lemma LengthOf(norm: Complex -> real, w: Complex)
    requires IsLength(norm)
    ensures norm(w) >= 0.0 && norm(w) * norm(w) == ModSq(w)
  {
  }

  /** A partial sum, the radius still allowed around it, and the current power z^n. */
  datatype Item = Item(value: Complex, reach: real, xn: Complex)

  /** How the shader ends. */
  datatype Exit = EarlyOut | NearZero | Overflow | Emptied | Exhausted

  /** The point after the inversion that folds the outside of the unit disc in. */
  datatype Start = Start(z: Complex, r: real)

  function Invert(p: Complex, norm: Complex -> real): (s: Start)
    requires IsLength(norm)
  {
    var r := norm(p);
    if r > 1.0 then
      LengthOf(norm, p);
      Start(CInv(p), 1.0 / r)
    else Start(p, r)
  }

  /** After the inversion `r` is at most 1 and is the length of the new `z`. */
  lemma InvertedIntoDisc(p: Complex, norm: Complex -> real)
    requires IsLength(norm)
    ensures 0.0 <= Invert(p, norm).r <= 1.0
    ensures Invert(p, norm).r == norm(Invert(p, norm).z)
  {
    var r := norm(p);
    LengthOf(norm, p);
    if r > 1.0 {
      var q := CInv(p);
      LengthOf(norm, q);
      ModSqInv(p);
      ReciprocalRoot(norm(q), r);
    }
  }

  /** x >= 0 and x^2 = 1/y^2 with y > 0 make x = 1/y. */
  lemma ReciprocalRoot(x: real, y: real)
    requires x >= 0.0 && y > 0.0 && x * x == 1.0 / (y * y)
    ensures x == 1.0 / y
  {
    var t := x * y;
    assert t * t == (x * x) * (y * y);
    assert t * t == 1.0;
    assert t >= 0.0;
  }

  /** The items an expanded item pushes: its two children `value ± xn` that still lie within their reach. */
  function Children(top: Item, z: Complex, norm: Complex -> real): (cs: seq<Item>)
    ensures |cs| <= 2
    ensures forall k :: 0 <= k < |cs| ==>
      cs[k].xn == CMul(top.xn, z) && cs[k].reach == top.reach - norm(cs[k].xn) &&
      norm(cs[k].value) < cs[k].reach &&
      (cs[k].value == Add(top.value, cs[k].xn) || cs[k].value == CSub(top.value, cs[k].xn))
  {
    var xn := CMul(top.xn, z);
    var reach := top.reach - norm(xn);
    var vp := Add(top.value, xn);
    var vm := CSub(top.value, xn);
    (if norm(vp) < reach then [Item(vp, reach, xn)] else []) +
    (if norm(vm) < reach then [Item(vm, reach, xn)] else [])
  }

  /** One of the children of `top` is within `1e-8` of 0. */
  predicate NearZeroAt(top: Item, z: Complex, norm: Complex -> real) {
    var xn := CMul(top.xn, z);
    norm(Add(top.value, xn)) < Epsilon || norm(CSub(top.value, xn)) < Epsilon
  }

  /** The outcome of the search: how it stopped, the live stack `stack[0..head]`, and the rounds begun. */
  datatype Final = Final(exit: Exit, live: seq<Item>, rounds: nat)

  /** The final `head`: `head` is the top index of the live stack, and 0 on the early exit. */
  function Head(f: Final): int {
    if f.exit == EarlyOut then 0 else |f.live| - 1
  }

  /** The loop from round `i`, with `live` the stack `stack[0..head]`. */
  function Run(live: seq<Item>, z: Complex, norm: Complex -> real, i: nat): Final
    requires 1 <= |live| < StackSize && i <= MaxIterations
    decreases MaxIterations - i
  {
    if i == MaxIterations then Final(Exhausted, live, i)
    else
      var top := live[|live| - 1];
      if NearZeroAt(top, z, norm) then Final(NearZero, live, i + 1)
      else
        var next := live[..|live| - 1] + Children(top, z, norm);
        if |next| >= StackSize then Final(Overflow, next, i + 1)
        else if |next| == 0 then Final(Emptied, next, i + 1)
        else Run(next, z, norm, i + 1)
  }

  /**
   * How the search can end: the live stack is empty exactly when it ran
   * empty, full (head 20) exactly on overflow, and otherwise within the
   * array; it stops within 100 rounds, and uses all 100 when exhausted.
   */
  lemma {:induction false} RunShape(live: seq<Item>, z: Complex, norm: Complex -> real, i: nat)
    requires 1 <= |live| < StackSize && i <= MaxIterations
    ensures var f := Run(live, z, norm, i);
      i <= f.rounds <= MaxIterations && f.exit != EarlyOut &&
      (f.exit == Emptied <==> |f.live| == 0) &&
      (f.exit == Overflow <==> |f.live| == StackSize) &&
      (f.exit == NearZero || f.exit == Exhausted ==> 1 <= |f.live| < StackSize) &&
      (f.exit == Exhausted ==> f.rounds == MaxIterations)
    decreases MaxIterations - i
  {
    if i < MaxIterations {
      var top := live[|live| - 1];
      if !NearZeroAt(top, z, norm) {
        var next := live[..|live| - 1] + Children(top, z, norm);
        if 0 < |next| < StackSize {
          RunShape(next, z, norm, i + 1);
        }
      }
    }
  }

  /** The first item: the constant coefficient 1, with reach r / (1 - r), the sum of r^n for n >= 1. */
  function Seed(r: real): Item
    requires r < 1.0
  {
    Item(One, r / (1.0 - r), One)
  }

  /** The whole per-pixel search for the point `p`. */
  function Search(p: Complex, norm: Complex -> real): Final
    requires IsLength(norm)
  {
    var s := Invert(p, norm);
    if s.r > Threshold then Final(EarlyOut, [], 0)
    else Run([Seed(s.r)], s.z, norm, 0)
  }

  /** The output colour: negative only when the stack ran empty. */
  function ColorOf(f: Final, negative: Color, axes: Color): Color {
    if Head(f) < 0 then negative else axes
  }

  /** The shader's `main`: the inversion, the early exit, then the search. */
  method Shade(p: Complex, norm: Complex -> real, negative: Color, axes: Color) returns (head: int, color: Color)
    requires IsLength(norm)
    ensures head == Head(Search(p, norm))
    ensures color == ColorOf(Search(p, norm), negative, axes)
  {
    var z := p;
    var r := norm(z);
    if r > 1.0 {
      LengthOf(norm, z);
      z := CInv(z);
      r := 1.0 / r;
    }
    assert Start(z, r) == Invert(p, norm);
    if r > Threshold {
      head := 0;
      color := axes;
      return;
    }
    RunShape([Seed(r)], z, norm, 0);
    head := SearchLoop(z, r, norm);
    color := if head < 0 then negative else axes;
  }

  /** The `for` loop over the stack `Item stack[21]`, kept as an array. */
  method SearchLoop(z: Complex, r: real, norm: Complex -> real) returns (head: int)
    requires r < 1.0
    ensures head == |Run([Seed(r)], z, norm, 0).live| - 1
  {
    var stack := new Item[StackSize](_ => Seed(r));
    head := 0;
    stack[0] := Seed(r);
    assert stack[..1] == [Seed(r)];
    ghost var f := Run([Seed(r)], z, norm, 0);
    var stop := false;
    for i := 0 to MaxIterations
      invariant !stop && 0 <= head < StackSize - 1 && Run(stack[..head + 1], z, norm, i) == f
    {
      head, stop := Round(stack, head, z, norm, i);
      if stop {
        break;
      }
    }
    if !stop {
      RunExhausted(stack[..head + 1], z, norm);
    }
  }

  /** One round of the loop, with the break when the stack is full or empty; `stop` says whether the loop breaks. */
  method Round(stack: array<Item>, head: int, z: Complex, norm: Complex -> real, ghost i: nat) returns (next: int, stop: bool)
    requires stack.Length == StackSize && 0 <= head < StackSize - 1 && i < MaxIterations
    modifies stack
    ensures stop ==> next == |Run(old(stack[..head + 1]), z, norm, i).live| - 1
    ensures !stop ==> 0 <= next < StackSize - 1
    ensures !stop ==> Run(old(stack[..head + 1]), z, norm, i) == Run(stack[..next + 1], z, norm, i + 1)
  {
    ghost var live := stack[..head + 1];
    assert live[|live| - 1] == stack[head] && live[..|live| - 1] == stack[..head];
    var nearZero;
    next, nearZero := PopAndPush(stack, head, z, norm);
    if nearZero {
      RunNearZero(live, z, norm, i);
      return next, true;
    }
    RunStep(live, z, norm, i, stack[..next + 1]);
    stop := next >= StackSize - 1 || next < 0;
  }

  /**
   * The body of one round on the item at `head`: stop at a near-zero child;
   * otherwise pop the item and push its children that stay within reach.
   */
  method PopAndPush(stack: array<Item>, head: int, z: Complex, norm: Complex -> real) returns (next: int, stop: bool)
    requires stack.Length == StackSize && 0 <= head < StackSize - 1
    modifies stack
    ensures stop <==> NearZeroAt(old(stack[head]), z, norm)
    ensures stop ==> next == head && stack[..] == old(stack[..])
    ensures !stop ==> -1 <= next <= head + 1
    ensures !stop ==> stack[..next + 1] == old(stack[..head]) + Children(old(stack[head]), z, norm)
  {
    var top := stack[head];
    var xn := CMul(top.xn, z);
    var reach := top.reach - norm(xn);
    var vp := Add(top.value, xn);
    var rp := norm(vp);
    var vm := CSub(top.value, xn);
    var rm := norm(vm);
    if rp < Epsilon || rm < Epsilon {
      return head, true;
    }
    ghost var kept := stack[..head];
    stop := false;
    next := head - 1;
    ghost var pushed: seq<Item> := [];
    if rp < reach {
      next := next + 1;
      stack[next] := Item(vp, reach, xn);
      pushed := pushed + [Item(vp, reach, xn)];
      assert stack[..next + 1] == kept + pushed;
    }
    ghost var half := stack[..next + 1];
    assert half == kept + pushed;
    if rm < reach {
      next := next + 1;
      stack[next] := Item(vm, reach, xn);
      pushed := pushed + [Item(vm, reach, xn)];
      assert stack[..next + 1] == half + [Item(vm, reach, xn)];
    }
    ChildrenOf(top, z, norm, xn, reach, vp, vm, pushed);
  }

  lemma RunNearZero(live: seq<Item>, z: Complex, norm: Complex -> real, i: nat)
    requires 1 <= |live| < StackSize && i < MaxIterations
    requires NearZeroAt(live[|live| - 1], z, norm)
    ensures Run(live, z, norm, i) == Final(NearZero, live, i + 1)
  {
  }

  lemma RunExhausted(live: seq<Item>, z: Complex, norm: Complex -> real)
    requires 1 <= |live| < StackSize
    ensures Run(live, z, norm, MaxIterations) == Final(Exhausted, live, MaxIterations)
  {
  }

  lemma ChildrenOf(top: Item, z: Complex, norm: Complex -> real, xn: Complex, reach: real, vp: Complex, vm: Complex, pushed: seq<Item>)
    requires xn == CMul(top.xn, z) && reach == top.reach - norm(xn)
    requires vp == Add(top.value, xn) && vm == CSub(top.value, xn)
    requires pushed == (if norm(vp) < reach then [Item(vp, reach, xn)] else []) + (if norm(vm) < reach then [Item(vm, reach, xn)] else [])
    ensures pushed == Children(top, z, norm)
  {
  }

  /** One round of `Run` that neither breaks nor runs out of rounds. */
  lemma RunStep(live: seq<Item>, z: Complex, norm: Complex -> real, i: nat, next: seq<Item>)
    requires 1 <= |live| < StackSize && i < MaxIterations
    requires !NearZeroAt(live[|live| - 1], z, norm)
    requires next == live[..|live| - 1] + Children(live[|live| - 1], z, norm)
    ensures |next| >= StackSize ==> Run(live, z, norm, i) == Final(Overflow, next, i + 1)
    ensures |next| == 0 ==> Run(live, z, norm, i) == Final(Emptied, next, i + 1)
    ensures 0 < |next| < StackSize ==> Run(live, z, norm, i) == Run(next, z, norm, i + 1)
  {
  }

  /** A searched point has r < 1, so the first reach r / (1 - r) is defined and non-negative. */
  lemma SeedReach(p: Complex, norm: Complex -> real)
    requires IsLength(norm)
    requires Invert(p, norm).r <= Threshold
    ensures Invert(p, norm).r < 1.0 && Seed(Invert(p, norm).r).reach >= 0.0
  {
    InvertedIntoDisc(p, norm);
    var r := Invert(p, norm).r;
    assert r / (1.0 - r) >= 0.0 by {
      QuotientNonNegative(r, 1.0 - r);
    }
  }

  lemma QuotientNonNegative(a: real, b: real)
    requires a >= 0.0 && b > 0.0
    ensures a / b >= 0.0
  {
  }

  /** Every pushed child has a positive reach, since its length is below it. */
  lemma ChildrenReach(top: Item, z: Complex, norm: Complex -> real)
    requires IsLength(norm)
    ensures forall k :: 0 <= k < |Children(top, z, norm)| ==> Children(top, z, norm)[k].reach > 0.0
  {
    var cs := Children(top, z, norm);
    forall k | 0 <= k < |cs|
      ensures cs[k].reach > 0.0
    {
      LengthOf(norm, cs[k].value);
    }
  }

  /** A round pops one item and pushes at most two, so `head` moves by -1, 0 or +1. */
  lemma HeadStep(live: seq<Item>, z: Complex, norm: Complex -> real)
    requires |live| >= 1
    ensures var next := live[..|live| - 1] + Children(live[|live| - 1], z, norm);
      |live| - 1 <= |next| <= |live| + 1
  {
  }

  /**
   * The search of a point that is not searched ends at once in the axes
   * colour; otherwise the colour is negative exactly when the stack ran
   * empty, and never at the near-zero break, which comes before the pop.
   */
  lemma ColorMeaning(p: Complex, norm: Complex -> real, negative: Color, axes: Color)
    requires IsLength(norm) && negative != axes
    ensures Invert(p, norm).r > Threshold ==> Search(p, norm).exit == EarlyOut && ColorOf(Search(p, norm), negative, axes) == axes
    ensures ColorOf(Search(p, norm), negative, axes) == negative <==> Search(p, norm).exit == Emptied
    ensures Search(p, norm).exit == NearZero ==> Head(Search(p, norm)) >= 0
    ensures Search(p, norm).rounds <= MaxIterations
  {
    var s := Invert(p, norm);
    if s.r <= Threshold {
      RunShape([Seed(s.r)], s.z, norm, 0);
    }
  }
}
