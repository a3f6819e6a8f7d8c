/**
 * The Littlewood polynomial encoding: a polynomial with coefficients ±1
 * is an integer id whose leading 1 bit marks the end of the coefficient
 * list. Each id has `MaxDegree` root slots stored in a texture of
 * `TextureWidth` by `TextureHeight` texels. The GLSL `degree` and
 * `evaluate` act on GLSL ints; the ids in use are non-negative.
 */
module Littlewood {
  import opened Vec2
  import opened Complex

  const MaxDegree: nat := 16
  const TextureWidth: nat := 2048

  /** `1 << k` */
  function Pow2(k: nat): (r: nat)
    ensures r >= 1
  {
    if k == 0 then 1 else 2 * Pow2(k - 1)
  }

  /** `1 << MAX_DEGREE`: the number of polynomial ids. */
  const PolynomialCount: nat := 0x1_0000

  /** `((1 << MAX_DEGREE) * MAX_DEGREE) / TEXTURE_WIDTH` */
  const TextureHeight: nat := PolynomialCount * MaxDegree / TextureWidth

  lemma Pow2Table()
    ensures Pow2(1) == 2 && Pow2(2) == 4 && Pow2(4) == 16 && Pow2(8) == 0x100
    ensures Pow2(16) == 0x1_0000 && Pow2(32) == 0x1_0000_0000
  {
    assert Pow2(1) == 2;
    assert Pow2(2) == 4;
    assert Pow2(3) == 8;
    assert Pow2(4) == 16;
    assert Pow2(5) == 32;
    assert Pow2(6) == 64;
    assert Pow2(7) == 128;
    assert Pow2(8) == 0x100;
    Pow2Add(8, 8);
    Pow2Add(16, 16);
  }

  lemma {:induction false} Pow2Add(a: nat, b: nat)
    ensures Pow2(a + b) == Pow2(a) * Pow2(b)
  {
    if b > 0 {
      Pow2Add(a, b - 1);
      assert Pow2(a + b) == 2 * Pow2(a + b - 1);
    }
  }

  /** The texture has room for exactly one slot per id and root index. */
  lemma TextureHeightExact()
    ensures PolynomialCount == Pow2(MaxDegree)
    ensures TextureHeight == 512
    ensures TextureHeight * TextureWidth == PolynomialCount * MaxDegree
  {
    Pow2Table();
  }

  // ---------------------------------------------------------------
  // Bit operations on non-negative integers

  /** Bitwise `a & b`. */
  function And(a: nat, b: nat): nat
    decreases a
  {
    if a == 0 || b == 0 then 0
    else 2 * And(a / 2, b / 2) + (if a % 2 == 1 && b % 2 == 1 then 1 else 0)
  }

  /** `x >> k` */
  function Shr(x: nat, k: nat): nat {
    if k == 0 then x else Shr(x / 2, k - 1)
  }

  /** `x << k` */
  function Shl(x: nat, k: nat): nat {
    if k == 0 then x else 2 * Shl(x, k - 1)
  }

  /** The number of binary digits of `x`: 0 for 0, n when 2^(n-1) <= x < 2^n. */
  function BitLength(x: nat): nat {
    if x == 0 then 0 else 1 + BitLength(x / 2)
  }

  /** The number of 1 bits of `x`. */
  function Popcount(x: nat): nat {
    if x == 0 then 0 else x % 2 + Popcount(x / 2)
  }

  lemma AndOne(a: nat)
    ensures And(a, 1) == a % 2
  {
  }

  lemma AndDouble(a: nat, b: nat)
    ensures And(a, 2 * b) == 2 * And(a / 2, b)
  {
    if a == 0 {
      assert And(a / 2, b) == 0;
    } else if b != 0 {
      assert (2 * b) / 2 == b && (2 * b) % 2 == 0;
    }
  }

  /** Masking with 2^k - 1 keeps a number below 2^k unchanged. */
  lemma {:induction false} AndLowMask(y: nat, k: nat)
    requires y < Pow2(k)
    ensures And(y, Pow2(k) - 1) == y
  {
    if k > 0 && y > 0 {
      AndLowMask(y / 2, k - 1);
      assert (Pow2(k) - 1) / 2 == Pow2(k - 1) - 1;
    }
  }

  /** Masking with a mask shifted left by k is masking the value shifted right by k, shifted back. */
  lemma {:induction false} AndShiftedMask(x: nat, m: nat, k: nat)
    ensures And(x, Shl(m, k)) == Shl(And(Shr(x, k), m), k)
  {
    if k > 0 {
      AndDouble(x, Shl(m, k - 1));
      AndShiftedMask(x / 2, m, k - 1);
      ShlShr(And(Shr(x, k), m), k);
    }
  }

  lemma {:induction false} ShlShr(y: nat, k: nat)
    requires k > 0
    ensures Shl(y, k) == 2 * Shl(y, k - 1)
  {
  }

  lemma {:induction false} ShlZero(y: nat, k: nat)
    ensures Shl(y, k) == 0 <==> y == 0
  {
    if k > 0 {
      ShlZero(y, k - 1);
    }
  }

  lemma {:induction false} ShrPositive(x: nat, k: nat)
    ensures Shr(x, k) >= 1 <==> x >= Pow2(k)
  {
    if k > 0 {
      ShrPositive(x / 2, k - 1);
    }
  }

  lemma {:induction false} ShrBelow(x: nat, k: nat, n: nat)
    requires x < Pow2(k + n)
    ensures Shr(x, k) < Pow2(n)
  {
    if k > 0 {
      assert Pow2(k + n) == 2 * Pow2(k - 1 + n);
      ShrBelow(x / 2, k - 1, n);
    }
  }

  lemma {:induction false} BitLengthShr(x: nat, k: nat)
    requires Shr(x, k) >= 1
    ensures BitLength(x) == k + BitLength(Shr(x, k))
  {
    if k > 0 {
      BitLengthShr(x / 2, k - 1);
    }
  }

  /**
   * One test of `degree`: for x below 2^(2k) the mask of bits k .. 2k-1
   * (2^k - 1 shifted left by k) is met exactly when x >= 2^k, and then
   * x >> k is below 2^k and carries the bit length on.
   */
  lemma MaskTest(x: nat, k: nat)
    requires x < Pow2(k + k)
    ensures (And(x, Shl(Pow2(k) - 1, k)) != 0) == (x >= Pow2(k))
    ensures x >= Pow2(k) ==> 1 <= Shr(x, k) < Pow2(k) && BitLength(x) == k + BitLength(Shr(x, k))
  {
    var s := Shr(x, k);
    AndShiftedMask(x, Pow2(k) - 1, k);
    ShrBelow(x, k, k);
    AndLowMask(s, k);
    ShlZero(s, k);
    ShrPositive(x, k);
    if s >= 1 {
      BitLengthShr(x, k);
    }
  }

  /** The masks of `degree` are 2^k - 1 shifted left by k. */
  lemma MaskValues()
    ensures Pow2(1) == 2 && Pow2(2) == 4 && Pow2(4) == 16 && Pow2(8) == 0x100 && Pow2(16) == 0x1_0000
    ensures Pow2(32) == 0x1_0000_0000
    ensures Shl(Pow2(16) - 1, 16) == 0xFFFF_0000
    ensures Shl(Pow2(8) - 1, 8) == 0xFF00
    ensures Shl(Pow2(4) - 1, 4) == 0xF0
    ensures Shl(Pow2(2) - 1, 2) == 0xC
    ensures Shl(Pow2(1) - 1, 1) == 2
  {
    Pow2Table();
    ShlIsProduct(0xFFFF, 16);
    ShlIsProduct(0xFF, 8);
    ShlIsProduct(0xF, 4);
    ShlIsProduct(3, 2);
    ShlIsProduct(1, 1);
  }

  lemma {:induction false} ShlIsProduct(y: nat, k: nat)
    ensures Shl(y, k) == y * Pow2(k)
  {
    if k > 0 {
      ShlIsProduct(y, k - 1);
      assert y * Pow2(k) == 2 * (y * Pow2(k - 1));
    }
  }

  // ---------------------------------------------------------------
  // degree

  /** The degree of the polynomial with id `p`: one less than its number of coefficients. */
  function DegreeOf(p: nat): int {
    if p == 0 then -1 else BitLength(p) - 2
  }

  /**
   * What `degree` knows part way: `p`, the shifted id, is below 2^n, and
   * the bits shifted out plus the bit length of `p` make up the bit
   * length of the id.
   */
  ghost predicate Tracks(polynomial: nat, p: nat, degree: int, n: nat) {
    p < Pow2(n) &&
    (polynomial == 0 ==> p == 0 && degree == -1) &&
    (polynomial >= 1 ==> p >= 1 && BitLength(polynomial) == degree + 1 + BitLength(p))
  }

  /** One masked test and shift of `degree` halves the width still to search. */
  lemma DegreeStage(polynomial: nat, p: nat, degree: int, k: nat, mask: nat)
    requires mask == Shl(Pow2(k) - 1, k) && Tracks(polynomial, p, degree, k + k)
    ensures And(p, mask) != 0 ==> Tracks(polynomial, Shr(p, k), degree + k, k)
    ensures And(p, mask) == 0 ==> Tracks(polynomial, p, degree, k)
  {
    MaskTest(p, k);
  }

  /** The last test, of bit 1, settles the degree. */
  lemma DegreeLast(polynomial: nat, p: nat, degree: int)
    requires Tracks(polynomial, p, degree, 2)
    ensures DegreeOf(polynomial) == if And(p, 2) != 0 then degree + 1 else degree
  {
    MaskValues();
    MaskTest(p, 1);
    SmallBitLengths();
  }

  /** The GLSL `degree`: a binary search for the leading 1 by masks of 16, 8, 4, 2 and 1 bits. */
  method Degree(polynomial: int) returns (degree: int)
    requires 0 <= polynomial < 0x8000_0000
    ensures degree == DegreeOf(polynomial)
  {
    MaskValues();
    var p: nat := polynomial;
    degree := -1;
    DegreeStage(polynomial, p, degree, 16, 0xFFFF_0000);
    if And(p, 0xFFFF_0000) != 0 {
      degree := degree + 16;
      p := Shr(p, 16);
    }
    DegreeStage(polynomial, p, degree, 8, 0xFF00);
    if And(p, 0xFF00) != 0 {
      degree := degree + 8;
      p := Shr(p, 8);
    }
    DegreeStage(polynomial, p, degree, 4, 0xF0);
    if And(p, 0xF0) != 0 {
      degree := degree + 4;
      p := Shr(p, 4);
    }
    DegreeStage(polynomial, p, degree, 2, 0xC);
    if And(p, 0xC) != 0 {
      degree := degree + 2;
      p := Shr(p, 2);
    }
    DegreeLast(polynomial, p, degree);
    if And(p, 2) != 0 {
      degree := degree + 1;
    }
  }

  lemma SmallBitLengths()
    ensures BitLength(1) == 1 && BitLength(2) == 2 && BitLength(3) == 2
  {
  }

  /** A positive id of degree d lies in [2^(d+1), 2^(d+2)): the leading 1 is bit d+1. */
  lemma {:induction false} DegreeBounds(p: nat)
    requires p >= 1
    ensures Pow2(DegreeOf(p) + 1) <= p < Pow2(DegreeOf(p) + 2)
  {
    BitLengthBounds(p);
  }

  lemma {:induction false} BitLengthBounds(x: nat)
    requires x >= 1
    ensures BitLength(x) >= 1
    ensures Pow2(BitLength(x) - 1) <= x < Pow2(BitLength(x))
  {
    if x >= 2 {
      BitLengthBounds(x / 2);
    }
  }

  lemma DegreeSamples()
    ensures DegreeOf(0) == -1 && DegreeOf(1) == -1
    ensures DegreeOf(2) == 0 && DegreeOf(3) == 0
    ensures DegreeOf(4) == 1 && DegreeOf(0xFFFF) == 14
  {
  }

  // ---------------------------------------------------------------
  // evaluate

  /** The coefficients read by `evaluate`, least significant bit first: the bits below the leading 1, 1 as +1 and 0 as -1. */
  function Coefficients(p: int): seq<real>
    decreases p
  {
    if p <= 1 then [] else [if p % 2 == 1 then 1.0 else -1.0] + Coefficients(p / 2)
  }

  /** Horner's rule from the accumulator `r`: each coefficient is added after one multiplication by `z`. */
  function Horner(cs: seq<real>, z: Complex, r: Complex): Complex
    decreases |cs|
  {
    if cs == [] then r else Horner(cs[1..], z, Add(CMul(r, z), Vec2(cs[0], 0.0)))
  }

  /** The GLSL `evaluate`: the loop consumes one bit per round until only the leading 1 is left. */
  method Evaluate(polynomial: int, z: Complex) returns (r: Complex)
    ensures r == Horner(Coefficients(polynomial), z, Vec2(0.0, 0.0))
  {
    var p := polynomial;
    r := Vec2(0.0, 0.0);
    while p > 1
      invariant Horner(Coefficients(p), z, r) == Horner(Coefficients(polynomial), z, Vec2(0.0, 0.0))
      decreases p
    {
      AndOne(p);
      r := Add(CMul(r, z), if And(p, 1) != 0 then Vec2(1.0, 0.0) else Vec2(-1.0, 0.0));
      p := p / 2;
    }
  }

  /** The loop runs once per coefficient: bitLength(p) - 1 times, degree + 1 coefficients. */
  lemma {:induction false} CoefficientCount(p: nat)
    requires p >= 1
    ensures |Coefficients(p)| == BitLength(p) - 1 == DegreeOf(p) + 1
  {
    if p >= 2 {
      CoefficientCount(p / 2);
    }
  }

  /** The id 1 is the empty polynomial, whose value is 0 everywhere. */
  lemma EvaluateOne(z: Complex)
    ensures Horner(Coefficients(1), z, Vec2(0.0, 0.0)) == Vec2(0.0, 0.0)
  {
  }

  function Sum(cs: seq<real>): real {
    if cs == [] then 0.0 else cs[0] + Sum(cs[1..])
  }

  lemma {:induction false} HornerAtOne(cs: seq<real>, z: Complex, r: Complex)
    requires z == Vec2(1.0, 0.0)
    ensures Horner(cs, z, r) == Vec2(r.x + Sum(cs), r.y)
    decreases |cs|
  {
    if cs != [] {
      var r' := Add(CMul(r, z), Vec2(cs[0], 0.0));
      assert r' == Vec2(r.x + cs[0], r.y);
      HornerAtOne(cs[1..], z, r');
    }
  }

  lemma {:induction false} SumOfCoefficients(p: nat)
    requires p >= 1
    ensures Sum(Coefficients(p)) == (2 * Popcount(p) - BitLength(p) - 1) as real
  {
    if p >= 2 {
      SumOfCoefficients(p / 2);
      assert Coefficients(p)[1..] == Coefficients(p / 2);
    }
  }

  /**
   * At z = 1 the value is the number of 1 bits minus the number of 0 bits
   * below the leading 1.
   */
  lemma EvaluateAtOne(p: nat, z: Complex)
    requires p >= 1 && z == Vec2(1.0, 0.0)
    ensures Horner(Coefficients(p), z, Vec2(0.0, 0.0)) == Vec2(((Popcount(p) - 1) - (BitLength(p) - Popcount(p))) as real, 0.0)
  {
    HornerAtOne(Coefficients(p), z, Vec2(0.0, 0.0));
    SumOfCoefficients(p);
  }

  lemma {:induction false} HornerAtOrigin(cs: seq<real>, z: Complex, r: Complex)
    requires z == Vec2(0.0, 0.0) && |cs| > 0
    ensures Horner(cs, z, r) == Vec2(cs[|cs| - 1], 0.0)
    decreases |cs|
  {
    var r' := Add(CMul(r, z), Vec2(cs[0], 0.0));
    assert r' == Vec2(cs[0], 0.0);
    if |cs| > 1 {
      HornerAtOrigin(cs[1..], z, r');
    }
  }

  /** The last coefficient is the bit just below the leading 1: +1 exactly when p >= 3 * 2^(bitLength - 2). */
  lemma {:induction false} LastCoefficient(p: nat)
    requires p >= 2
    ensures BitLength(p) >= 2 && |Coefficients(p)| >= 1
    ensures Coefficients(p)[|Coefficients(p)| - 1] == if p >= 3 * Pow2(BitLength(p) - 2) then 1.0 else -1.0
  {
    if p >= 4 {
      LastCoefficient(p / 2);
      assert Coefficients(p) == [Coefficients(p)[0]] + Coefficients(p / 2);
      assert Pow2(BitLength(p) - 2) == 2 * Pow2(BitLength(p / 2) - 2);
    } else {
      assert Coefficients(p / 2) == [];
      assert BitLength(p / 2) == 1;
    }
  }

  /** At z = 0 the value is the constant coefficient: the sign of the bit just below the leading 1. */
  lemma EvaluateAtOrigin(p: nat, z: Complex)
    requires p >= 2 && z == Vec2(0.0, 0.0)
    ensures BitLength(p) >= 2
    ensures Horner(Coefficients(p), z, Vec2(0.0, 0.0)) == Vec2(if p >= 3 * Pow2(BitLength(p) - 2) then 1.0 else -1.0, 0.0)
  {
    LastCoefficient(p);
    HornerAtOrigin(Coefficients(p), z, Vec2(0.0, 0.0));
  }

  // ---------------------------------------------------------------
  // Root slot addressing

  /** A texel of the roots texture. */
  datatype Texel = Texel(row: nat, col: nat)

  /** A root slot: the polynomial id and the index of the root. */
  datatype Slot = Slot(polynomial: nat, root: nat)

  /** The address arithmetic of `getRoot`. */
  function RootTexel(s: Slot): (t: Texel)
    ensures t.row * TextureWidth + t.col == s.polynomial * MaxDegree + s.root
    ensures t.col < TextureWidth
    ensures s.polynomial < PolynomialCount && s.root < MaxDegree ==> t.row < TextureHeight
  {
    var pos := s.polynomial * MaxDegree + s.root;
    Texel(pos / TextureWidth, pos % TextureWidth)
  }

  /** The texture coordinate `getRoot` samples: (row / HEIGHT, col / WIDTH). */
  function RootCoordinate(s: Slot): (v: Vec2)
    ensures s.polynomial < PolynomialCount && s.root < MaxDegree ==>
      0.0 <= v.x < 1.0 && 0.0 <= v.y < 1.0
  {
    var t := RootTexel(s);
    Fraction(t.row, TextureHeight);
    Fraction(t.col, TextureWidth);
    Vec2(t.row as real / TextureHeight as real, t.col as real / TextureWidth as real)
  }

  lemma Fraction(n: nat, d: nat)
    requires d > 0
    ensures 0.0 <= n as real / d as real
    ensures n < d ==> n as real / d as real < 1.0
  {
  }

  /** The decomposition in the root-finding `main`: texel (x, y) holds slot `pos / 16`, `pos % 16` of `pos = x * WIDTH + y`. */
  function SlotOf(t: Texel): (s: Slot)
    ensures s.root < MaxDegree
    ensures s.polynomial * MaxDegree + s.root == t.row * TextureWidth + t.col
  {
    var pos := t.row * TextureWidth + t.col;
    Slot(pos / MaxDegree, pos % MaxDegree)
  }

  /** Every root slot is found again at the texel `getRoot` reads it from. */
  lemma SlotOfRootTexel(s: Slot)
    requires s.root < MaxDegree
    ensures SlotOf(RootTexel(s)) == s
  {
  }

  /** Every texel of the texture is the address of the slot it is decoded to. */
  lemma RootTexelOfSlot(t: Texel)
    requires t.col < TextureWidth
    ensures RootTexel(SlotOf(t)) == t
  {
  }

  // ---------------------------------------------------------------
  // The index lists of `RootsShader`

  /** The per-instance attribute: the ids 0 .. 2^16 - 1. */
  method PolynomialIds() returns (polynomials: seq<int>)
    ensures |polynomials| == PolynomialCount
    ensures forall i :: 0 <= i < |polynomials| ==> polynomials[i] == i
  {
    polynomials := [];
    var i := 0;
    while i < PolynomialCount
      invariant 0 <= i <= PolynomialCount && |polynomials| == i
      invariant forall j :: 0 <= j < i ==> polynomials[j] == j
    {
      polynomials := polynomials + [i];
      i := i + 1;
    }
  }

  /** The per-vertex attribute: the root indices 0 .. 15. */
  method RootIds() returns (roots: seq<int>)
    ensures |roots| == MaxDegree
    ensures forall k :: 0 <= k < |roots| ==> roots[k] == k
  {
    roots := [];
    var k := 0;
    while k < MaxDegree
      invariant 0 <= k <= MaxDegree && |roots| == k
      invariant forall j :: 0 <= j < k ==> roots[j] == j
    {
      roots := roots + [k];
      k := k + 1;
    }
  }
}
