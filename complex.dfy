/**
 * Complex arithmetic on `vec2` values as the shaders write it out
 * (`cMul`, `cmul`, `cinv`, `cdiv`), and the quadratic map z := z*z + c that
 * both escape-time engines iterate. The escape test `length(z) > 2.0` is
 * written without the square root as |z|^2 > 4, which is equivalent for the
 * non-negative `length`.
 */
module Complex {
  import opened Vec2

  type Complex = Vec2

  const Zero: Complex := Vec2(0.0, 0.0)

  function CMul(a: Complex, b: Complex): Complex {
    Vec2(a.x * b.x - a.y * b.y, a.x * b.y + a.y * b.x)
  }

  function CSub(a: Complex, b: Complex): Complex {
    Vec2(a.x - b.x, a.y - b.y)
  }

  /** The squared modulus, `dot(a, a)`. */
  function ModSq(a: Complex): real {
    Dot(a, a)
  }

  /** `cinv`: the conjugate divided by the squared modulus. */
  function CInv(a: Complex): Complex
    requires ModSq(a) != 0.0
  {
    Vec2(a.x / ModSq(a), -a.y / ModSq(a))
  }

  /** `cMod(z) > 2.0`, i.e. |z| > 2. */
  predicate Escaped(z: Complex) {
    ModSq(z) > 4.0
  }

  /** One step of the quadratic map: `cMul(z, z) + c`. */
  function Step(z: Complex, c: Complex): Complex {
    Add(CMul(z, z), c)
  }

  /** The n-th iterate of the quadratic map from `z0`. */
  function Orbit(z0: Complex, c: Complex, n: nat): Complex {
    if n == 0 then z0 else Step(Orbit(z0, c, n - 1), c)
  }

  lemma {:induction false} OrbitShift(z0: Complex, c: Complex, n: nat)
    ensures Orbit(Step(z0, c), c, n) == Orbit(z0, c, n + 1)
  {
    if n > 0 {
      OrbitShift(z0, c, n - 1);
    }
  }

  /** The first step from the origin lands on `c`. */
  lemma StepFromZero(c: Complex)
    ensures CMul(Zero, Zero) == Zero
    ensures Step(Zero, c) == c
  {
    assert CMul(Zero, Zero) == Zero;
  }

  lemma CMulCommutes(a: Complex, b: Complex)
    ensures CMul(a, b) == CMul(b, a)
  {
  }

  /** The modulus is multiplicative: |a b|^2 = |a|^2 |b|^2. */
  lemma ModSqMul(a: Complex, b: Complex)
    ensures ModSq(CMul(a, b)) == ModSq(a) * ModSq(b)
  {
    assert (a.x * b.x - a.y * b.y) * (a.x * b.x - a.y * b.y) + (a.x * b.y + a.y * b.x) * (a.x * b.y + a.y * b.x)
        == (a.x * a.x + a.y * a.y) * (b.x * b.x + b.y * b.y);
  }

  /** `cinv` is a true reciprocal: a * cinv(a) = 1. */
  lemma CInvIsReciprocal(a: Complex)
    requires ModSq(a) != 0.0
    ensures CMul(a, CInv(a)) == Vec2(1.0, 0.0)
  {
    var m := ModSq(a);
    assert a.x * (a.x / m) - a.y * (-a.y / m) == (a.x * a.x + a.y * a.y) / m;
    assert a.x * (-a.y / m) + a.y * (a.x / m) == 0.0;
    assert (a.x * a.x + a.y * a.y) / m == 1.0;
    assert CMul(a, CInv(a)) == Vec2(a.x * (a.x / m) - a.y * (-a.y / m), a.x * (-a.y / m) + a.y * (a.x / m));
  }

  /** Inverting a point of modulus r gives one of modulus 1/r. */
  lemma ModSqInv(a: Complex)
    requires ModSq(a) != 0.0
    ensures ModSq(CInv(a)) * ModSq(a) == 1.0
  {
    CInvIsReciprocal(a);
    ModSqMul(a, CInv(a));
  }
}
