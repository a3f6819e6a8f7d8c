/**
 * Two-component real vectors, the `[number, number]` tuples of the host code
 * and the `vec2` values of the shaders. Floating point is modelled by `real`.
 */
module Vec2 {

  datatype Vec2 = Vec2(x: real, y: real)

  function Add(a: Vec2, b: Vec2): Vec2 {
    Vec2(a.x + b.x, a.y + b.y)
  }

  function MultiplyScalar(a: Vec2, f: real): Vec2 {
    Vec2(a.x * f, a.y * f)
  }

  function Dot(a: Vec2, b: Vec2): real {
    a.x * b.x + a.y * b.y
  }

  function Negate(a: Vec2): Vec2 {
    Vec2(-a.x, -a.y)
  }

  /** The componentwise total of a list of vectors, adding them left to right. */
  function Total(vs: seq<Vec2>): Vec2 {
    if vs == [] then Vec2(0.0, 0.0) else Add(Total(vs[..|vs| - 1]), vs[|vs| - 1])
  }

  /** The x components of a list of vectors, summed. */
  function SumX(vs: seq<Vec2>): real {
    if vs == [] then 0.0 else vs[0].x + SumX(vs[1..])
  }

  /** The y components of a list of vectors, summed. */
  function SumY(vs: seq<Vec2>): real {
    if vs == [] then 0.0 else vs[0].y + SumY(vs[1..])
  }

  /**
   * `sum(...a)`: an accumulator starting at [0, 0], updated once per
   * argument, in argument order.
   */
  method Sum(a: seq<Vec2>) returns (r: Vec2)
    ensures r == Total(a)
    ensures a == [] ==> r == Vec2(0.0, 0.0)
  {
    r := Vec2(0.0, 0.0);
    var i := 0;
    while i < |a|
      invariant 0 <= i <= |a|
      invariant r == Total(a[..i])
    {
      assert a[..i + 1][..i] == a[..i];
      r := Vec2(r.x + a[i].x, r.y + a[i].y);
      i := i + 1;
    }
    assert a[..|a|] == a;
  }

  lemma {:induction false} SumXAppend(a: seq<Vec2>, b: seq<Vec2>)
    ensures SumX(a + b) == SumX(a) + SumX(b)
  {
    if a != [] {
      assert (a + b)[1..] == a[1..] + b;
      SumXAppend(a[1..], b);
    } else {
      assert a + b == b;
    }
  }

  lemma {:induction false} SumYAppend(a: seq<Vec2>, b: seq<Vec2>)
    ensures SumY(a + b) == SumY(a) + SumY(b)
  {
    if a != [] {
      assert (a + b)[1..] == a[1..] + b;
      SumYAppend(a[1..], b);
    } else {
      assert a + b == b;
    }
  }

  /** The accumulated total is the componentwise sum of the arguments. */
  lemma {:induction false} TotalIsComponentwise(vs: seq<Vec2>)
    ensures Total(vs) == Vec2(SumX(vs), SumY(vs))
  {
    if vs != [] {
      var n := |vs| - 1;
      TotalIsComponentwise(vs[..n]);
      assert vs == vs[..n] + [vs[n]];
      SumXAppend(vs[..n], [vs[n]]);
      SumYAppend(vs[..n], [vs[n]]);
    }
  }

  /** Summing a concatenation is adding the two sums. */
  lemma {:induction false} TotalAppend(a: seq<Vec2>, b: seq<Vec2>)
    ensures Total(a + b) == Add(Total(a), Total(b))
  {
    if b == [] {
      assert a + b == a;
    } else {
      var n := |b| - 1;
      assert (a + b)[..|a + b| - 1] == a + b[..n];
      TotalAppend(a, b[..n]);
    }
  }

  /** Scaling a sum scales every summand. */
  lemma {:induction false} MultiplyScalarTotal(vs: seq<Vec2>, f: real)
    ensures MultiplyScalar(Total(vs), f) == Total(seq(|vs|, i requires 0 <= i < |vs| => MultiplyScalar(vs[i], f)))
  {
    var ws := seq(|vs|, i requires 0 <= i < |vs| => MultiplyScalar(vs[i], f));
    if vs != [] {
      var n := |vs| - 1;
      MultiplyScalarTotal(vs[..n], f);
      assert ws[..n] == seq(n, i requires 0 <= i < n => MultiplyScalar(vs[..n][i], f));
      var t := Total(vs[..n]);
      assert MultiplyScalar(Add(t, vs[n]), f) == Add(MultiplyScalar(t, f), MultiplyScalar(vs[n], f));
    }
  }

  /** Negating a sum negates every summand. */
  lemma NegateTotal(vs: seq<Vec2>)
    ensures Negate(Total(vs)) == Total(seq(|vs|, i requires 0 <= i < |vs| => Negate(vs[i])))
  {
    MultiplyScalarTotal(vs, -1.0);
    assert seq(|vs|, i requires 0 <= i < |vs| => Negate(vs[i]))
        == seq(|vs|, i requires 0 <= i < |vs| => MultiplyScalar(vs[i], -1.0));
  }

  lemma NegateInvolutive(a: Vec2)
    ensures Negate(Negate(a)) == a
  {
  }

  lemma DotSymmetric(a: Vec2, b: Vec2)
    ensures Dot(a, b) == Dot(b, a)
  {
  }

  lemma DotSelfNonNegative(a: Vec2)
    ensures Dot(a, a) >= 0.0
  {
    assert a.x * a.x >= 0.0 && a.y * a.y >= 0.0;
  }

  lemma MultiplyScalarOne(a: Vec2)
    ensures MultiplyScalar(a, 1.0) == a
  {
  }

  /** Scaling twice is scaling once by the product. */
  lemma MultiplyScalarCompose(a: Vec2, f: real, g: real)
    ensures MultiplyScalar(MultiplyScalar(a, f), g) == MultiplyScalar(a, f * g)
  {
  }
}
