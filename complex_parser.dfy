/**
 * The arithmetic catalog and the expression compiler of
 * src/util/complexParser.ts: the tables of GLSL complex functions, the
 * co-function loop, the priority (`order`) assignments, `compileTree`,
 * `compile` and `shaderHeader`.
 */
module ComplexParser {
  import opened Wrappers
  import opened BodyText
  import opened StableSort

  // ---------------------------------------------------------------------
  // JavaScript objects used as dictionaries
  // ---------------------------------------------------------------------

  /**
   * A plain JavaScript object with string keys: its own properties and
   * the order in which they were first inserted (the order of
   * `Object.entries`).
   */
  datatype Obj<V> = Obj(keys: seq<string>, vals: map<string, V>) {

    /** The key list holds exactly the own properties. */
    ghost predicate Consistent() {
      forall k :: k in vals <==> k in keys
    }

    /** No property is listed twice. */
    ghost predicate Distinct() {
      forall i, j :: 0 <= i < j < |keys| ==> keys[i] != keys[j]
    }

    /** `obj[k] = v`: a new key goes to the end, an existing one keeps its place. */
    function Put(k: string, v: V): (r: Obj<V>)
      ensures k in r.vals && r.vals[k] == v
      ensures forall n :: n != k ==> (n in r.vals <==> n in vals) && (n in vals ==> r.vals[n] == vals[n])
      ensures keys <= r.keys
      ensures k in vals ==> |r.keys| == |keys|
      ensures k !in vals ==> |r.keys| == |keys| + 1 && r.keys[|keys|] == k
    {
      Obj(if k in vals then keys else keys + [k], vals[k := v])
    }
  }

  /** Assignment keeps the key list an exact, duplicate-free listing of the own properties. */
  lemma PutKeepsShape<V>(o: Obj<V>, k: string, v: V)
    requires o.Consistent() && o.Distinct()
    ensures o.Put(k, v).Consistent() && o.Put(k, v).Distinct()
  {
  }

  // ---------------------------------------------------------------------
  // The catalog tables
  // ---------------------------------------------------------------------

  // Each body is a named constant; a text run longer than forty characters
  // is written as two literals joined with `+`, which is the same string.

  const AddBody: Body := [Text("return a + b;")]
  const SubtractBody: Body := [Text("return a - b;")]
  const MultiplyBody: Body := [Text("return vec2(a.x*b.x-a.y*b.y, " + "a.x*b.y+a.y*b.x);")]
  const DivideBody: Body := [Text("return vec2(a.x * b.x + a.y * b.y, " + "a.y * b.x - a.x * b.y) / dot(b, b);")]
  const PowBody: Body := [Text("return "), Ref("exp"), Text("("), Ref("multiply"), Text("(b, "), Ref("log"), Text("(a)));")]

  /** `binary_functions`. */
  const BinaryFunctions: Obj<Body> := Obj(
    ["add", "subtract", "multiply", "divide", "pow"],
    map["add" := AddBody, "subtract" := SubtractBody, "multiply" := MultiplyBody, "divide" := DivideBody, "pow" := PowBody])

  const InverseBody: Body := [Text("return vec2(a.x, -a.y)/dot(a, a);")]
  const UnaryMinusBody: Body := [Text("return -a;")]
  const MultiplyIBody: Body := [Text("return vec2(-a.y, a.x);")]
  const LogBody: Body := [Text("return vec2(log(length(a)), " + "atan(a.y, a.x));")]
  const ExpBody: Body := [Text("return exp(a.x)*" + "vec2(cos(a.y), sin(a.y));")]
  const SinhBody: Body := [Text("vec2 epa = "), Ref("exp"), Text("(a); return .5 * (epa - "), Ref("inverse"), Text("(epa));")]
  const CoshBody: Body := [Text("vec2 epa = "), Ref("exp"), Text("(a); return .5 * (epa + "), Ref("inverse"), Text("(epa));")]
  const TanhBody: Body := [Text("vec2 epa = "), Ref("exp"), Text("(a); vec2 ema = "), Ref("inverse"),
                           Text("(epa); return "), Ref("divide"), Text("(epa - ema, epa + ema);")]
  const SinBody: Body := [Text("return -"), Ref("multiply_i"), Text("("), Ref("sinh"), Text("("), Ref("multiply_i"), Text("(a)));")]
  const CosBody: Body := [Text("return "), Ref("cosh"), Text("("), Ref("multiply_i"), Text("(a));")]
  const TanBody: Body := [Text("return -"), Ref("multiply_i"), Text("("), Ref("tanh"), Text("("), Ref("multiply_i"), Text("(a)));")]
  const SqrtBody: Body := [Text("return "), Ref("exp"), Text("(0.5*"), Ref("log"), Text("(a));")]
  const CbrtBody: Body := [Text("return "), Ref("exp"), Text("(0.33333333333*"), Ref("log"), Text("(a));")]

  /** `unary_functions` as its literal declares it, before the co-function loop. */
  const UnaryBase: Obj<Body> := Obj(
    ["inverse", "unaryMinus", "multiply_i", "log", "exp", "sinh", "cosh", "tanh",
     "sin", "cos", "tan", "sqrt", "cbrt"],
    map[
      "inverse" := InverseBody, "unaryMinus" := UnaryMinusBody, "multiply_i" := MultiplyIBody,
      "log" := LogBody, "exp" := ExpBody, "sinh" := SinhBody, "cosh" := CoshBody, "tanh" := TanhBody,
      "sin" := SinBody, "cos" := CosBody, "tan" := TanBody, "sqrt" := SqrtBody, "cbrt" := CbrtBody])

  /** `symbols`: the named constants and their GLSL literals. */
  const Symbols: map<string, string> := map[
    "i" := "vec2(0.,1.)",
    "e" := "vec2(2.7182818284,0.)",
    "pi" := "vec2(3.14159265358,0.)",
    "phi" := "vec2(1.6180339887, 0.)"
  ]

  /** The pairs the co-function loop runs over: base function, co-function. */
  const CofunctionPairs: seq<(string, string)> := [("sin", "csc"), ("cos", "sec"), ("tan", "cot")]

  /** `return c_inverse(c_${func}(a));` */
  function Cofunction(func: string): Body {
    [Text("return "), Ref("inverse"), Text("("), Ref(func), Text("(a));")]
  }

  /** One round of the co-function loop. */
  function AddCofunction(u: Obj<Body>, pair: (string, string)): Obj<Body> {
    u.Put(pair.1, Cofunction(pair.0)).Put(pair.1 + "h", Cofunction(pair.0 + "h"))
  }

  /** The table after the co-function loop has run over `pairs`, in order. */
  function WithCofunctions(u: Obj<Body>, pairs: seq<(string, string)>): Obj<Body> {
    if pairs == [] then u
    else AddCofunction(WithCofunctions(u, pairs[..|pairs| - 1]), pairs[|pairs| - 1])
  }

  /** The co-function loop: for each pair, `cofunc` and `cofunc + "h"` become reciprocals. */
  method AddCofunctions(u: Obj<Body>) returns (r: Obj<Body>)
    ensures r == WithCofunctions(u, CofunctionPairs)
  {
    r := u;
    var k := 0;
    while k < |CofunctionPairs|
      invariant 0 <= k <= |CofunctionPairs|
      invariant r == WithCofunctions(u, CofunctionPairs[..k])
    {
      var (func, cofunc) := CofunctionPairs[k];
      assert CofunctionPairs[..k + 1][..k] == CofunctionPairs[..k];
      r := r.Put(cofunc, Cofunction(func));
      r := r.Put(cofunc + "h", Cofunction(func + "h"));
      k := k + 1;
    }
    assert CofunctionPairs[..k] == CofunctionPairs;
  }

  /** `unary_functions` after the co-function loop. */
  function UnaryFunctions(): Obj<Body> {
    WithCofunctions(UnaryBase, CofunctionPairs)
  }

  /** The co-function loop runs exactly these three rounds. */
  lemma UnaryFunctionsUnrolled()
    ensures UnaryFunctions() ==
      AddCofunction(AddCofunction(AddCofunction(UnaryBase, ("sin", "csc")), ("cos", "sec")), ("tan", "cot"))
  {
    var p := CofunctionPairs;
    assert p[..1][..0] == [] && p[..2][..1] == p[..1] && p[..3][..2] == p[..2] && p[..3] == p;
    assert WithCofunctions(UnaryBase, p[..1]) == AddCofunction(UnaryBase, ("sin", "csc"));
    assert WithCofunctions(UnaryBase, p[..2]) == AddCofunction(WithCofunctions(UnaryBase, p[..1]), ("cos", "sec"));
    assert WithCofunctions(UnaryBase, p[..3]) == AddCofunction(WithCofunctions(UnaryBase, p[..2]), ("tan", "cot"));
  }

  /** A catalog entry of `complex_functions`. */
  datatype Entry = Entry(body: Body, args: int, order: int)

  function EmptyObj<V>(): (r: Obj<V>)
    ensures r.Consistent() && r.Distinct()
  {
    Obj([], map[])
  }

  /**
   * `Object.entries(src).forEach(([f, body]) => (complex_functions[f] =
   * { body, args, order: 0 }))` over the keys `ks`, in order.
   */
  function InsertAll(cat: Obj<Entry>, ks: seq<string>, src: map<string, Body>, args: int): Obj<Entry>
    requires forall k :: k in ks ==> k in src
  {
    if ks == [] then cat
    else
      var k := ks[|ks| - 1];
      InsertAll(cat, ks[..|ks| - 1], src, args).Put(k, Entry(src[k], args, 0))
  }

  /** `complex_functions.<name>.order = order`, on an entry that exists. */
  function SetOrder(cat: Obj<Entry>, name: string, order: int): (r: Obj<Entry>)
    requires name in cat.vals
    ensures r.keys == cat.keys && r.vals.Keys == cat.vals.Keys
  {
    Obj(cat.keys, cat.vals[name := cat.vals[name].(order := order)])
  }

  /** The six statements that give priority 100. */
  function TopOrders(cat: Obj<Entry>): (r: Obj<Entry>)
    requires forall n :: n in TopPriority ==> n in cat.vals
    ensures r.keys == cat.keys && r.vals.Keys == cat.vals.Keys
  {
    var c1 := SetOrder(cat, "divide", 100);
    var c2 := SetOrder(c1, "multiply", 100);
    var c3 := SetOrder(c2, "multiply_i", 100);
    var c4 := SetOrder(c3, "log", 100);
    var c5 := SetOrder(c4, "exp", 100);
    SetOrder(c5, "inverse", 100)
  }

  /** The entries given priority 100. */
  const TopPriority: set<string> := {"divide", "multiply", "multiply_i", "log", "exp", "inverse"}

  /** The functions that get priority 10 and whose hyperbolic forms get priority 20. */
  const Trigonometric: seq<string> := ["sin", "cos", "tan"]

  /** `f + "h"` gets 20 and then `f` gets 10, for each `f` of `fs` in order. */
  function TrigonometricOrders(cat: Obj<Entry>, fs: seq<string>): (r: Obj<Entry>)
    requires forall f :: f in fs ==> f in cat.vals && f + "h" in cat.vals
    ensures r.keys == cat.keys && r.vals.Keys == cat.vals.Keys
  {
    if fs == [] then cat
    else
      var f := fs[|fs| - 1];
      SetOrder(SetOrder(TrigonometricOrders(cat, fs[..|fs| - 1]), f + "h", 20), f, 10)
  }

  /** The hyperbolic names `f + "h"` of the functions in `fs`. */
  function Hyperbolic(fs: seq<string>): set<string> {
    set f | f in fs :: f + "h"
  }

  /**
   * The priority a name ends up with when it had `before`: the last
   * assignment to it wins, and a name no statement touches keeps `before`.
   */
  function AssignedOrder(n: string, before: int): int {
    if n in Trigonometric then 10
    else if n in Hyperbolic(Trigonometric) then 20
    else if n in TopPriority then 100
    else before
  }

  // ---------------------------------------------------------------------
  // The catalog `complex_functions`
  // ---------------------------------------------------------------------

  /** Insertion adds one entry with priority 0 per inserted key and keeps the rest. */
  lemma {:induction false} InsertAllAt(cat: Obj<Entry>, ks: seq<string>, src: map<string, Body>, args: int, n: string)
    requires forall k :: k in ks ==> k in src
    ensures n in InsertAll(cat, ks, src, args).vals <==> n in cat.vals || n in ks
    ensures n in InsertAll(cat, ks, src, args).vals ==>
      InsertAll(cat, ks, src, args).vals[n] == if n in ks then Entry(src[n], args, 0) else cat.vals[n]
  {
    if ks != [] {
      var front := ks[..|ks| - 1];
      InsertAllAt(cat, front, src, args, n);
      assert n in ks <==> n in front || n == ks[|ks| - 1];
    }
  }

  /** Insertion keeps the key list exact and duplicate-free. */
  lemma {:induction false} InsertAllShape(cat: Obj<Entry>, ks: seq<string>, src: map<string, Body>, args: int)
    requires forall k :: k in ks ==> k in src
    requires cat.Consistent() && cat.Distinct()
    ensures InsertAll(cat, ks, src, args).Consistent() && InsertAll(cat, ks, src, args).Distinct()
  {
    if ks != [] {
      var k := ks[|ks| - 1];
      InsertAllShape(cat, ks[..|ks| - 1], src, args);
      PutKeepsShape(InsertAll(cat, ks[..|ks| - 1], src, args), k, Entry(src[k], args, 0));
    }
  }

  /** The six priority-100 statements change exactly the order of those six entries. */
  lemma TopOrdersVals(cat: Obj<Entry>, n: string)
    requires forall m :: m in TopPriority ==> m in cat.vals
    requires n in cat.vals
    ensures TopOrders(cat).vals[n] == if n in TopPriority then cat.vals[n].(order := 100) else cat.vals[n]
  {
  }

  /** In the trigonometric loop the last assignment to a name wins. */
  lemma {:induction false} TrigonometricOrdersVals(cat: Obj<Entry>, fs: seq<string>, n: string)
    requires forall f :: f in fs ==> f in cat.vals && f + "h" in cat.vals
    requires forall f, g :: f in fs && g in fs ==> f + "h" != g
    requires n in cat.vals
    ensures TrigonometricOrders(cat, fs).vals[n] ==
      if n in fs then cat.vals[n].(order := 10)
      else if n in Hyperbolic(fs) then cat.vals[n].(order := 20)
      else cat.vals[n]
  {
    if fs != [] {
      var f := fs[|fs| - 1];
      var front := fs[..|fs| - 1];
      assert forall x :: x in fs <==> x in front || x == f;
      TrigonometricOrdersVals(cat, front, n);
      assert Hyperbolic(fs) == Hyperbolic(front) + {f + "h"};
    }
  }

  /** The trigonometric names and their hyperbolic forms never coincide. */
  lemma TrigonometricNamesApart()
    ensures forall f, g :: f in Trigonometric && g in Trigonometric ==> f + "h" != g
    ensures Hyperbolic(Trigonometric) == {"sinh", "cosh", "tanh"}
  {
    assert "sin" + "h" == "sinh" && "cos" + "h" == "cosh" && "tan" + "h" == "tanh";
  }

  /** The unary table lists exactly its own properties. */
  lemma UnaryBaseConsistent()
    ensures UnaryBase.Consistent()
  {
  }

  /** The binary table lists exactly its own properties. */
  lemma BinaryFunctionsConsistent()
    ensures BinaryFunctions.Consistent()
  {
  }

  /** The co-function loop keeps the key list exact. */
  lemma {:induction false} WithCofunctionsConsistent(u: Obj<Body>, pairs: seq<(string, string)>)
    requires u.Consistent()
    ensures WithCofunctions(u, pairs).Consistent()
  {
    if pairs != [] {
      WithCofunctionsConsistent(u, pairs[..|pairs| - 1]);
    }
  }

  /** One round of the co-function loop adds (or replaces) the two reciprocals. */
  lemma AddCofunctionVals(u: Obj<Body>, pair: (string, string))
    ensures AddCofunction(u, pair).vals ==
      u.vals[pair.1 := Cofunction(pair.0)][pair.1 + "h" := Cofunction(pair.0 + "h")]
  {
  }

  /** The unary table after the co-function loop lists exactly its own properties. */
  lemma UnaryFunctionsConsistent()
    ensures UnaryFunctions().Consistent()
  {
    UnaryBaseConsistent();
    WithCofunctionsConsistent(UnaryBase, CofunctionPairs);
  }

  /** The unary table after the co-function loop: the thirteen base entries and six reciprocals. */
  lemma UnaryFunctionsVals()
    ensures UnaryFunctions().vals == UnaryBase.vals[
      "csc" := Cofunction("sin")][
      "csch" := Cofunction("sinh")][
      "sec" := Cofunction("cos")][
      "sech" := Cofunction("cosh")][
      "cot" := Cofunction("tan")][
      "coth" := Cofunction("tanh")]
  {
    UnaryFunctionsUnrolled();
    var u1 := AddCofunction(UnaryBase, ("sin", "csc"));
    var u2 := AddCofunction(u1, ("cos", "sec"));
    AddCofunctionVals(UnaryBase, ("sin", "csc"));
    AddCofunctionVals(u1, ("cos", "sec"));
    AddCofunctionVals(u2, ("tan", "cot"));
    assert "sin" + "h" == "sinh" && "cos" + "h" == "cosh" && "tan" + "h" == "tanh";
    assert "csc" + "h" == "csch" && "sec" + "h" == "sech" && "cot" + "h" == "coth";
  }

  /** Both insertion loops: first every unary entry, then every binary one, all with priority 0. */
  function InsertBoth(u: Obj<Body>, b: Obj<Body>): (r: Obj<Entry>)
    requires u.Consistent() && b.Consistent()
    ensures r.Consistent() && r.Distinct()
  {
    var c1 := InsertAll(EmptyObj(), u.keys, u.vals, 1);
    InsertAllShape(EmptyObj(), u.keys, u.vals, 1);
    InsertAllShape(c1, b.keys, b.vals, 2);
    InsertAll(c1, b.keys, b.vals, 2)
  }

  /** What both insertion loops leave, entry by entry: a binary entry replaces a unary one. */
  lemma InsertBothVals(u: Obj<Body>, b: Obj<Body>)
    requires u.Consistent() && b.Consistent()
    ensures InsertBoth(u, b).vals.Keys == u.vals.Keys + b.vals.Keys
    ensures forall n :: n in InsertBoth(u, b).vals ==>
      InsertBoth(u, b).vals[n] == if n in b.vals then Entry(b.vals[n], 2, 0) else Entry(u.vals[n], 1, 0)
  {
    var c1 := InsertAll(EmptyObj(), u.keys, u.vals, 1);
    var r := InsertBoth(u, b);
    assert r == InsertAll(c1, b.keys, b.vals, 2);
    forall n
      ensures n in r.vals <==> n in u.vals || n in b.vals
      ensures n in r.vals ==> r.vals[n] == if n in b.vals then Entry(b.vals[n], 2, 0) else Entry(u.vals[n], 1, 0)
    {
      InsertAllAt(EmptyObj(), u.keys, u.vals, 1, n);
      InsertAllAt(c1, b.keys, b.vals, 2, n);
    }
    assert r.vals.Keys == u.vals.Keys + b.vals.Keys;
  }

  /** Every name the priority statements assign to. */
  ghost predicate HasOrderedNames(names: set<string>) {
    && (forall n :: n in TopPriority ==> n in names)
    && (forall f :: f in Trigonometric ==> f in names && f + "h" in names)
  }

  /** The priority statements: first the six 100s, then the trigonometric loop. */
  function Orders(cat: Obj<Entry>): (r: Obj<Entry>)
    requires HasOrderedNames(cat.vals.Keys)
    ensures r.keys == cat.keys && r.vals.Keys == cat.vals.Keys
    ensures forall n :: n in cat.vals ==> r.vals[n] == cat.vals[n].(order := AssignedOrder(n, cat.vals[n].order))
  {
    var top := TopOrders(cat);
    TrigonometricNamesApart();
    forall n | n in cat.vals
      ensures TrigonometricOrders(top, Trigonometric).vals[n] == cat.vals[n].(order := AssignedOrder(n, cat.vals[n].order))
    {
      TopOrdersVals(cat, n);
      TrigonometricOrdersVals(top, Trigonometric, n);
    }
    TrigonometricOrders(top, Trigonometric)
  }

  /**
   * `complex_functions` as the module's top-level statements leave it,
   * built from the unary table `u` and the binary table `b`.
   */
  function CatalogOf(u: Obj<Body>, b: Obj<Body>): (r: Obj<Entry>)
    requires u.Consistent() && b.Consistent()
    requires HasOrderedNames(u.vals.Keys + b.vals.Keys)
    ensures r.Consistent() && r.Distinct()
    ensures r.vals.Keys == u.vals.Keys + b.vals.Keys
    ensures forall n :: n in r.vals ==>
      r.vals[n] == if n in b.vals then Entry(b.vals[n], 2, AssignedOrder(n, 0)) else Entry(u.vals[n], 1, AssignedOrder(n, 0))
  {
    var ins := InsertBoth(u, b);
    InsertBothVals(u, b);
    Orders(ins)
  }

  /** The names of `unary_functions` after the co-function loop. */
  const UnaryNames: set<string> := {
    "inverse", "unaryMinus", "multiply_i", "log", "exp", "sinh", "cosh", "tanh",
    "sin", "cos", "tan", "sqrt", "cbrt", "csc", "csch", "sec", "sech", "cot", "coth"}

  /** The names of `binary_functions`. */
  const BinaryNames: set<string> := {"add", "subtract", "multiply", "divide", "pow"}

  /** The unary table after the co-function loop has exactly the nineteen unary names. */
  lemma UnaryFunctionsNames()
    ensures UnaryFunctions().vals.Keys == UnaryNames
  {
    UnaryFunctionsVals();
  }

  /** Every name the priority statements touch is in one of the tables. */
  lemma OrderedNamesPresent()
    ensures HasOrderedNames(UnaryFunctions().vals.Keys + BinaryFunctions.vals.Keys)
  {
    UnaryFunctionsNames();
    assert "sin" + "h" == "sinh" && "cos" + "h" == "cosh" && "tan" + "h" == "tanh";
  }

  /** `complex_functions`. */
  function Catalog(): (r: Obj<Entry>)
    ensures r.Consistent() && r.Distinct()
  {
    UnaryFunctionsConsistent();
    BinaryFunctionsConsistent();
    OrderedNamesPresent();
    CatalogOf(UnaryFunctions(), BinaryFunctions)
  }

  /** A reciprocal body is well-formed and calls `inverse` and the base function. */
  lemma CofunctionShape(func: string)
    requires PieceOk(Ref(func))
    ensures WellFormed(Cofunction(func)) && RefNames(Cofunction(func)) == {"inverse", func}
  {
    var p0, p1, p2, p3, p4 := Text("return "), Ref("inverse"), Text("("), Ref(func), Text("(a));");
    Shape5(p0, p1, p2, p3, p4);
    RefNames5(p0, p1, p2, p3, p4);
  }

  /** Every function the entry `n` calls is in the catalog with a strictly higher priority. */
  ghost predicate CallsHigher(cat: Obj<Entry>, n: string)
    requires n in cat.vals
  {
    forall r :: r in RefNames(cat.vals[n].body) ==> r in cat.vals && cat.vals[r].order > cat.vals[n].order
  }

  /** The names of the whole catalog. */
  const CatalogNameSet: set<string> := UnaryNames + BinaryNames

  /**
   * The body of `n` is well-formed, and every function it calls is one of
   * `names` and ends up with a strictly higher priority than `n`.
   */
  ghost predicate BodyCallsHigher(body: Body, n: string, names: set<string>) {
    WellFormed(body) && RefsHigher(body, n, names)
  }

  /** Every function the body of `n` calls is one of `names`, with a strictly higher priority than `n`. */
  ghost predicate RefsHigher(body: Body, n: string, names: set<string>) {
    forall r :: r in RefNames(body) ==> r in names && AssignedOrder(r, 0) > AssignedOrder(n, 0)
  }

  /** When every table body calls only higher-priority names, so does every entry built from the tables. */
  lemma EntriesCallHigher(cat: Obj<Entry>, u: Obj<Body>, b: Obj<Body>, names: set<string>)
    requires cat.vals.Keys == u.vals.Keys + b.vals.Keys == names
    requires forall n :: n in cat.vals ==>
      cat.vals[n] == if n in b.vals then Entry(b.vals[n], 2, AssignedOrder(n, 0)) else Entry(u.vals[n], 1, AssignedOrder(n, 0))
    requires forall n :: n in u.vals ==> BodyCallsHigher(u.vals[n], n, names)
    requires forall n :: n in b.vals ==> BodyCallsHigher(b.vals[n], n, names)
    ensures forall n :: n in cat.vals ==> WellFormed(cat.vals[n].body) && CallsHigher(cat, n)
  {
    forall n | n in cat.vals
      ensures WellFormed(cat.vals[n].body) && CallsHigher(cat, n)
    {
      var body := if n in b.vals then b.vals[n] else u.vals[n];
      assert cat.vals[n].body == body && cat.vals[n].order == AssignedOrder(n, 0);
      assert BodyCallsHigher(body, n, names);
      forall r | r in RefNames(body) ensures r in cat.vals && cat.vals[r].order > cat.vals[n].order {
        assert r in names;
        assert cat.vals[r].order == AssignedOrder(r, 0);
      }
    }
  }

  /** The unary entry `n` is in the table with a body that calls only higher-priority names. */
  ghost predicate UnaryOk(n: string) {
    n in UnaryFunctions().vals && BodyCallsHigher(UnaryFunctions().vals[n], n, CatalogNameSet)
  }

  /** The final priorities: 10 for the trigonometric functions, 20 for their hyperbolic forms, 100 for the six. */
  lemma OrderIs(n: string)
    ensures AssignedOrder(n, 0) ==
      if n in {"sin", "cos", "tan"} then 10
      else if n in {"sinh", "cosh", "tanh"} then 20
      else if n in TopPriority then 100
      else 0
  {
    TrigonometricNamesApart();
  }

  lemma AddBodyWellFormed()
    ensures WellFormed(AddBody)
  {
    Shape1(Text("return a + b;"));
  }

  lemma AddBodyRefs()
    ensures RefNames(AddBody) == {}
  {
    RefNames1(Text("return a + b;"));
  }

  lemma SubtractBodyWellFormed()
    ensures WellFormed(SubtractBody)
  {
    Shape1(Text("return a - b;"));
  }

  lemma SubtractBodyRefs()
    ensures RefNames(SubtractBody) == {}
  {
    RefNames1(Text("return a - b;"));
  }

  lemma MultiplyBodyWellFormed()
    ensures WellFormed(MultiplyBody)
  {
    Shape1(Text("return vec2(a.x*b.x-a.y*b.y, " + "a.x*b.y+a.y*b.x);"));
  }

  lemma MultiplyBodyRefs()
    ensures RefNames(MultiplyBody) == {}
  {
    RefNames1(Text("return vec2(a.x*b.x-a.y*b.y, " + "a.x*b.y+a.y*b.x);"));
  }

  lemma DivideBodyWellFormed()
    ensures WellFormed(DivideBody)
  {
    Shape1(Text("return vec2(a.x * b.x + a.y * b.y, " + "a.y * b.x - a.x * b.y) / dot(b, b);"));
  }

  lemma DivideBodyRefs()
    ensures RefNames(DivideBody) == {}
  {
    RefNames1(Text("return vec2(a.x * b.x + a.y * b.y, " + "a.y * b.x - a.x * b.y) / dot(b, b);"));
  }

  lemma PowBodyWellFormed()
    ensures WellFormed(PowBody)
  {
    Shape7(Text("return "), Ref("exp"), Text("("), Ref("multiply"), Text("(b, "), Ref("log"), Text("(a)));"));
  }

  lemma PowBodyRefs()
    ensures RefNames(PowBody) == {"exp", "multiply", "log"}
  {
    RefNames7(Text("return "), Ref("exp"), Text("("), Ref("multiply"), Text("(b, "), Ref("log"), Text("(a)));"));
  }

  lemma InverseBodyWellFormed()
    ensures WellFormed(InverseBody)
  {
    Shape1(Text("return vec2(a.x, -a.y)/dot(a, a);"));
  }

  lemma InverseBodyRefs()
    ensures RefNames(InverseBody) == {}
  {
    RefNames1(Text("return vec2(a.x, -a.y)/dot(a, a);"));
  }

  lemma UnaryMinusBodyWellFormed()
    ensures WellFormed(UnaryMinusBody)
  {
    Shape1(Text("return -a;"));
  }

  lemma UnaryMinusBodyRefs()
    ensures RefNames(UnaryMinusBody) == {}
  {
    RefNames1(Text("return -a;"));
  }

  lemma MultiplyIBodyWellFormed()
    ensures WellFormed(MultiplyIBody)
  {
    Shape1(Text("return vec2(-a.y, a.x);"));
  }

  lemma MultiplyIBodyRefs()
    ensures RefNames(MultiplyIBody) == {}
  {
    RefNames1(Text("return vec2(-a.y, a.x);"));
  }

  lemma LogBodyWellFormed()
    ensures WellFormed(LogBody)
  {
    Shape1(Text("return vec2(log(length(a)), " + "atan(a.y, a.x));"));
  }

  lemma LogBodyRefs()
    ensures RefNames(LogBody) == {}
  {
    RefNames1(Text("return vec2(log(length(a)), " + "atan(a.y, a.x));"));
  }

  lemma ExpBodyWellFormed()
    ensures WellFormed(ExpBody)
  {
    Shape1(Text("return exp(a.x)*" + "vec2(cos(a.y), sin(a.y));"));
  }

  lemma ExpBodyRefs()
    ensures RefNames(ExpBody) == {}
  {
    RefNames1(Text("return exp(a.x)*" + "vec2(cos(a.y), sin(a.y));"));
  }

  lemma SinhBodyWellFormed()
    ensures WellFormed(SinhBody)
  {
    Shape5(Text("vec2 epa = "), Ref("exp"), Text("(a); return .5 * (epa - "), Ref("inverse"), Text("(epa));"));
  }

  lemma SinhBodyRefs()
    ensures RefNames(SinhBody) == {"exp", "inverse"}
  {
    RefNames5(Text("vec2 epa = "), Ref("exp"), Text("(a); return .5 * (epa - "), Ref("inverse"), Text("(epa));"));
  }

  lemma CoshBodyWellFormed()
    ensures WellFormed(CoshBody)
  {
    Shape5(Text("vec2 epa = "), Ref("exp"), Text("(a); return .5 * (epa + "), Ref("inverse"), Text("(epa));"));
  }

  lemma CoshBodyRefs()
    ensures RefNames(CoshBody) == {"exp", "inverse"}
  {
    RefNames5(Text("vec2 epa = "), Ref("exp"), Text("(a); return .5 * (epa + "), Ref("inverse"), Text("(epa));"));
  }

  lemma TanhBodyWellFormed()
    ensures WellFormed(TanhBody)
  {
    Shape7(Text("vec2 epa = "), Ref("exp"), Text("(a); vec2 ema = "), Ref("inverse"), Text("(epa); return "), Ref("divide"), Text("(epa - ema, epa + ema);"));
  }

  lemma TanhBodyRefs()
    ensures RefNames(TanhBody) == {"exp", "inverse", "divide"}
  {
    RefNames7(Text("vec2 epa = "), Ref("exp"), Text("(a); vec2 ema = "), Ref("inverse"), Text("(epa); return "), Ref("divide"), Text("(epa - ema, epa + ema);"));
  }

  lemma SinBodyWellFormed()
    ensures WellFormed(SinBody)
  {
    Shape7(Text("return -"), Ref("multiply_i"), Text("("), Ref("sinh"), Text("("), Ref("multiply_i"), Text("(a)));"));
  }

  lemma SinBodyRefs()
    ensures RefNames(SinBody) == {"multiply_i", "sinh"}
  {
    RefNames7(Text("return -"), Ref("multiply_i"), Text("("), Ref("sinh"), Text("("), Ref("multiply_i"), Text("(a)));"));
  }

  lemma CosBodyWellFormed()
    ensures WellFormed(CosBody)
  {
    Shape5(Text("return "), Ref("cosh"), Text("("), Ref("multiply_i"), Text("(a));"));
  }

  lemma CosBodyRefs()
    ensures RefNames(CosBody) == {"cosh", "multiply_i"}
  {
    RefNames5(Text("return "), Ref("cosh"), Text("("), Ref("multiply_i"), Text("(a));"));
  }

  lemma TanBodyWellFormed()
    ensures WellFormed(TanBody)
  {
    Shape7(Text("return -"), Ref("multiply_i"), Text("("), Ref("tanh"), Text("("), Ref("multiply_i"), Text("(a)));"));
  }

  lemma TanBodyRefs()
    ensures RefNames(TanBody) == {"multiply_i", "tanh"}
  {
    RefNames7(Text("return -"), Ref("multiply_i"), Text("("), Ref("tanh"), Text("("), Ref("multiply_i"), Text("(a)));"));
  }

  lemma SqrtBodyWellFormed()
    ensures WellFormed(SqrtBody)
  {
    Shape5(Text("return "), Ref("exp"), Text("(0.5*"), Ref("log"), Text("(a));"));
  }

  lemma SqrtBodyRefs()
    ensures RefNames(SqrtBody) == {"exp", "log"}
  {
    RefNames5(Text("return "), Ref("exp"), Text("(0.5*"), Ref("log"), Text("(a));"));
  }

  lemma CbrtBodyWellFormed()
    ensures WellFormed(CbrtBody)
  {
    Shape5(Text("return "), Ref("exp"), Text("(0.33333333333*"), Ref("log"), Text("(a));"));
  }

  lemma CbrtBodyRefs()
    ensures RefNames(CbrtBody) == {"exp", "log"}
  {
    RefNames5(Text("return "), Ref("exp"), Text("(0.33333333333*"), Ref("log"), Text("(a));"));
  }

  lemma InverseRefsHigher()
    ensures RefsHigher(InverseBody, "inverse", CatalogNameSet)
  {
    InverseBodyRefs(); OrderIs("inverse");
  }

  lemma InverseCallsHigher()
    ensures BodyCallsHigher(InverseBody, "inverse", CatalogNameSet)
  {
    InverseBodyWellFormed(); InverseRefsHigher();
  }

  lemma UnaryMinusRefsHigher()
    ensures RefsHigher(UnaryMinusBody, "unaryMinus", CatalogNameSet)
  {
    UnaryMinusBodyRefs(); OrderIs("unaryMinus");
  }

  lemma UnaryMinusCallsHigher()
    ensures BodyCallsHigher(UnaryMinusBody, "unaryMinus", CatalogNameSet)
  {
    UnaryMinusBodyWellFormed(); UnaryMinusRefsHigher();
  }

  lemma MultiplyIRefsHigher()
    ensures RefsHigher(MultiplyIBody, "multiply_i", CatalogNameSet)
  {
    MultiplyIBodyRefs(); OrderIs("multiply_i");
  }

  lemma MultiplyICallsHigher()
    ensures BodyCallsHigher(MultiplyIBody, "multiply_i", CatalogNameSet)
  {
    MultiplyIBodyWellFormed(); MultiplyIRefsHigher();
  }

  lemma LogRefsHigher()
    ensures RefsHigher(LogBody, "log", CatalogNameSet)
  {
    LogBodyRefs(); OrderIs("log");
  }

  lemma LogCallsHigher()
    ensures BodyCallsHigher(LogBody, "log", CatalogNameSet)
  {
    LogBodyWellFormed(); LogRefsHigher();
  }

  lemma ExpRefsHigher()
    ensures RefsHigher(ExpBody, "exp", CatalogNameSet)
  {
    ExpBodyRefs(); OrderIs("exp");
  }

  lemma ExpCallsHigher()
    ensures BodyCallsHigher(ExpBody, "exp", CatalogNameSet)
  {
    ExpBodyWellFormed(); ExpRefsHigher();
  }

  lemma SinhRefsHigher()
    ensures RefsHigher(SinhBody, "sinh", CatalogNameSet)
  {
    SinhBodyRefs(); OrderIs("sinh"); OrderIs("exp"); OrderIs("inverse");
  }

  lemma SinhCallsHigher()
    ensures BodyCallsHigher(SinhBody, "sinh", CatalogNameSet)
  {
    SinhBodyWellFormed(); SinhRefsHigher();
  }

  lemma CoshRefsHigher()
    ensures RefsHigher(CoshBody, "cosh", CatalogNameSet)
  {
    CoshBodyRefs(); OrderIs("cosh"); OrderIs("exp"); OrderIs("inverse");
  }

  lemma CoshCallsHigher()
    ensures BodyCallsHigher(CoshBody, "cosh", CatalogNameSet)
  {
    CoshBodyWellFormed(); CoshRefsHigher();
  }

  lemma TanhRefsHigher()
    ensures RefsHigher(TanhBody, "tanh", CatalogNameSet)
  {
    TanhBodyRefs(); OrderIs("tanh"); OrderIs("exp"); OrderIs("inverse"); OrderIs("divide");
  }

  lemma TanhCallsHigher()
    ensures BodyCallsHigher(TanhBody, "tanh", CatalogNameSet)
  {
    TanhBodyWellFormed(); TanhRefsHigher();
  }

  lemma SinRefsHigher()
    ensures RefsHigher(SinBody, "sin", CatalogNameSet)
  {
    SinBodyRefs(); OrderIs("sin"); OrderIs("multiply_i"); OrderIs("sinh");
  }

  lemma SinCallsHigher()
    ensures BodyCallsHigher(SinBody, "sin", CatalogNameSet)
  {
    SinBodyWellFormed(); SinRefsHigher();
  }

  lemma CosRefsHigher()
    ensures RefsHigher(CosBody, "cos", CatalogNameSet)
  {
    CosBodyRefs(); OrderIs("cos"); OrderIs("cosh"); OrderIs("multiply_i");
  }

  lemma CosCallsHigher()
    ensures BodyCallsHigher(CosBody, "cos", CatalogNameSet)
  {
    CosBodyWellFormed(); CosRefsHigher();
  }

  lemma TanRefsHigher()
    ensures RefsHigher(TanBody, "tan", CatalogNameSet)
  {
    TanBodyRefs(); OrderIs("tan"); OrderIs("multiply_i"); OrderIs("tanh");
  }

  lemma TanCallsHigher()
    ensures BodyCallsHigher(TanBody, "tan", CatalogNameSet)
  {
    TanBodyWellFormed(); TanRefsHigher();
  }

  lemma SqrtRefsHigher()
    ensures RefsHigher(SqrtBody, "sqrt", CatalogNameSet)
  {
    SqrtBodyRefs(); OrderIs("sqrt"); OrderIs("exp"); OrderIs("log");
  }

  lemma SqrtCallsHigher()
    ensures BodyCallsHigher(SqrtBody, "sqrt", CatalogNameSet)
  {
    SqrtBodyWellFormed(); SqrtRefsHigher();
  }

  lemma CbrtRefsHigher()
    ensures RefsHigher(CbrtBody, "cbrt", CatalogNameSet)
  {
    CbrtBodyRefs(); OrderIs("cbrt"); OrderIs("exp"); OrderIs("log");
  }

  lemma CbrtCallsHigher()
    ensures BodyCallsHigher(CbrtBody, "cbrt", CatalogNameSet)
  {
    CbrtBodyWellFormed(); CbrtRefsHigher();
  }

  lemma InverseOrder()
    ensures AssignedOrder("inverse", 0) == 100 && "inverse" in CatalogNameSet
  {
    OrderIs("inverse");
  }

  /** A reciprocal of priority 0 calls `inverse` and its base function, both of higher priority. */
  lemma CofunctionRefsHigher(c: string, f: string)
    requires PieceOk(Ref(f)) && f in CatalogNameSet
    requires AssignedOrder(c, 0) == 0 && AssignedOrder(f, 0) > 0
    ensures RefsHigher(Cofunction(f), c, CatalogNameSet)
  {
    CofunctionShape(f);
    InverseOrder();
  }

  lemma CscRefsHigher()
    ensures RefsHigher(Cofunction("sin"), "csc", CatalogNameSet)
  {
    OrderIs("csc"); OrderIs("sin"); CofunctionRefsHigher("csc", "sin");
  }

  lemma CscCallsHigher()
    ensures BodyCallsHigher(Cofunction("sin"), "csc", CatalogNameSet)
  {
    CofunctionShape("sin"); CscRefsHigher();
  }

  lemma CschRefsHigher()
    ensures RefsHigher(Cofunction("sinh"), "csch", CatalogNameSet)
  {
    OrderIs("csch"); OrderIs("sinh"); CofunctionRefsHigher("csch", "sinh");
  }

  lemma CschCallsHigher()
    ensures BodyCallsHigher(Cofunction("sinh"), "csch", CatalogNameSet)
  {
    CofunctionShape("sinh"); CschRefsHigher();
  }

  lemma SecRefsHigher()
    ensures RefsHigher(Cofunction("cos"), "sec", CatalogNameSet)
  {
    OrderIs("sec"); OrderIs("cos"); CofunctionRefsHigher("sec", "cos");
  }

  lemma SecCallsHigher()
    ensures BodyCallsHigher(Cofunction("cos"), "sec", CatalogNameSet)
  {
    CofunctionShape("cos"); SecRefsHigher();
  }

  lemma SechRefsHigher()
    ensures RefsHigher(Cofunction("cosh"), "sech", CatalogNameSet)
  {
    OrderIs("sech"); OrderIs("cosh"); CofunctionRefsHigher("sech", "cosh");
  }

  lemma SechCallsHigher()
    ensures BodyCallsHigher(Cofunction("cosh"), "sech", CatalogNameSet)
  {
    CofunctionShape("cosh"); SechRefsHigher();
  }

  lemma CotRefsHigher()
    ensures RefsHigher(Cofunction("tan"), "cot", CatalogNameSet)
  {
    OrderIs("cot"); OrderIs("tan"); CofunctionRefsHigher("cot", "tan");
  }

  lemma CotCallsHigher()
    ensures BodyCallsHigher(Cofunction("tan"), "cot", CatalogNameSet)
  {
    CofunctionShape("tan"); CotRefsHigher();
  }

  lemma CothRefsHigher()
    ensures RefsHigher(Cofunction("tanh"), "coth", CatalogNameSet)
  {
    OrderIs("coth"); OrderIs("tanh"); CofunctionRefsHigher("coth", "tanh");
  }

  lemma CothCallsHigher()
    ensures BodyCallsHigher(Cofunction("tanh"), "coth", CatalogNameSet)
  {
    CofunctionShape("tanh"); CothRefsHigher();
  }

  lemma AddRefsHigher()
    ensures RefsHigher(AddBody, "add", CatalogNameSet)
  {
    AddBodyRefs(); OrderIs("add");
  }

  lemma AddCallsHigher()
    ensures BodyCallsHigher(AddBody, "add", CatalogNameSet)
  {
    AddBodyWellFormed(); AddRefsHigher();
  }

  lemma SubtractRefsHigher()
    ensures RefsHigher(SubtractBody, "subtract", CatalogNameSet)
  {
    SubtractBodyRefs(); OrderIs("subtract");
  }

  lemma SubtractCallsHigher()
    ensures BodyCallsHigher(SubtractBody, "subtract", CatalogNameSet)
  {
    SubtractBodyWellFormed(); SubtractRefsHigher();
  }

  lemma MultiplyRefsHigher()
    ensures RefsHigher(MultiplyBody, "multiply", CatalogNameSet)
  {
    MultiplyBodyRefs(); OrderIs("multiply");
  }

  lemma MultiplyCallsHigher()
    ensures BodyCallsHigher(MultiplyBody, "multiply", CatalogNameSet)
  {
    MultiplyBodyWellFormed(); MultiplyRefsHigher();
  }

  lemma DivideRefsHigher()
    ensures RefsHigher(DivideBody, "divide", CatalogNameSet)
  {
    DivideBodyRefs(); OrderIs("divide");
  }

  lemma DivideCallsHigher()
    ensures BodyCallsHigher(DivideBody, "divide", CatalogNameSet)
  {
    DivideBodyWellFormed(); DivideRefsHigher();
  }

  lemma PowRefsHigher()
    ensures RefsHigher(PowBody, "pow", CatalogNameSet)
  {
    PowBodyRefs(); PowOrders(); PowNames();
  }

  lemma PowOrders()
    ensures AssignedOrder("pow", 0) == 0 && AssignedOrder("exp", 0) == 100 && AssignedOrder("multiply", 0) == 100 && AssignedOrder("log", 0) == 100
  {
    OrderIs("pow"); OrderIs("exp"); OrderIs("multiply"); OrderIs("log");
  }

  lemma PowNames()
    ensures "exp" in CatalogNameSet && "multiply" in CatalogNameSet && "log" in CatalogNameSet
  {
  }

  lemma PowCallsHigher()
    ensures BodyCallsHigher(PowBody, "pow", CatalogNameSet)
  {
    PowBodyWellFormed(); PowRefsHigher();
  }

  lemma InverseLookup()
    ensures "inverse" in UnaryFunctions().vals && UnaryFunctions().vals["inverse"] == InverseBody
  {
    UnaryFunctionsVals();
  }

  lemma UnaryMinusLookup()
    ensures "unaryMinus" in UnaryFunctions().vals && UnaryFunctions().vals["unaryMinus"] == UnaryMinusBody
  {
    UnaryFunctionsVals();
  }

  lemma MultiplyILookup()
    ensures "multiply_i" in UnaryFunctions().vals && UnaryFunctions().vals["multiply_i"] == MultiplyIBody
  {
    UnaryFunctionsVals();
  }

  lemma LogLookup()
    ensures "log" in UnaryFunctions().vals && UnaryFunctions().vals["log"] == LogBody
  {
    UnaryFunctionsVals();
  }

  lemma ExpLookup()
    ensures "exp" in UnaryFunctions().vals && UnaryFunctions().vals["exp"] == ExpBody
  {
    UnaryFunctionsVals();
  }

  lemma SinhLookup()
    ensures "sinh" in UnaryFunctions().vals && UnaryFunctions().vals["sinh"] == SinhBody
  {
    UnaryFunctionsVals();
  }

  lemma CoshLookup()
    ensures "cosh" in UnaryFunctions().vals && UnaryFunctions().vals["cosh"] == CoshBody
  {
    UnaryFunctionsVals();
  }

  lemma TanhLookup()
    ensures "tanh" in UnaryFunctions().vals && UnaryFunctions().vals["tanh"] == TanhBody
  {
    UnaryFunctionsVals();
  }

  lemma SinLookup()
    ensures "sin" in UnaryFunctions().vals && UnaryFunctions().vals["sin"] == SinBody
  {
    UnaryFunctionsVals();
  }

  lemma CosLookup()
    ensures "cos" in UnaryFunctions().vals && UnaryFunctions().vals["cos"] == CosBody
  {
    UnaryFunctionsVals();
  }

  lemma TanLookup()
    ensures "tan" in UnaryFunctions().vals && UnaryFunctions().vals["tan"] == TanBody
  {
    UnaryFunctionsVals();
  }

  lemma SqrtLookup()
    ensures "sqrt" in UnaryFunctions().vals && UnaryFunctions().vals["sqrt"] == SqrtBody
  {
    UnaryFunctionsVals();
  }

  lemma CbrtLookup()
    ensures "cbrt" in UnaryFunctions().vals && UnaryFunctions().vals["cbrt"] == CbrtBody
  {
    UnaryFunctionsVals();
  }

  lemma CscLookup()
    ensures "csc" in UnaryFunctions().vals && UnaryFunctions().vals["csc"] == Cofunction("sin")
  {
    UnaryFunctionsVals();
  }

  lemma CschLookup()
    ensures "csch" in UnaryFunctions().vals && UnaryFunctions().vals["csch"] == Cofunction("sinh")
  {
    UnaryFunctionsVals();
  }

  lemma SecLookup()
    ensures "sec" in UnaryFunctions().vals && UnaryFunctions().vals["sec"] == Cofunction("cos")
  {
    UnaryFunctionsVals();
  }

  lemma SechLookup()
    ensures "sech" in UnaryFunctions().vals && UnaryFunctions().vals["sech"] == Cofunction("cosh")
  {
    UnaryFunctionsVals();
  }

  lemma CotLookup()
    ensures "cot" in UnaryFunctions().vals && UnaryFunctions().vals["cot"] == Cofunction("tan")
  {
    UnaryFunctionsVals();
  }

  lemma CothLookup()
    ensures "coth" in UnaryFunctions().vals && UnaryFunctions().vals["coth"] == Cofunction("tanh")
  {
    UnaryFunctionsVals();
  }

  lemma AddLookup()
    ensures "add" in BinaryFunctions.vals && BinaryFunctions.vals["add"] == AddBody
  {
  }

  lemma SubtractLookup()
    ensures "subtract" in BinaryFunctions.vals && BinaryFunctions.vals["subtract"] == SubtractBody
  {
  }

  lemma MultiplyLookup()
    ensures "multiply" in BinaryFunctions.vals && BinaryFunctions.vals["multiply"] == MultiplyBody
  {
  }

  lemma DivideLookup()
    ensures "divide" in BinaryFunctions.vals && BinaryFunctions.vals["divide"] == DivideBody
  {
  }

  lemma PowLookup()
    ensures "pow" in BinaryFunctions.vals && BinaryFunctions.vals["pow"] == PowBody
  {
  }

  lemma UnaryCallsHigher0()
    ensures forall n :: n in {"inverse", "unaryMinus", "multiply_i", "log", "exp"} ==> UnaryOk(n)
  {
    forall n | n in {"inverse", "unaryMinus", "multiply_i", "log", "exp"} ensures UnaryOk(n) {
      if n == "inverse" { InverseLookup(); InverseCallsHigher(); }
      else if n == "unaryMinus" { UnaryMinusLookup(); UnaryMinusCallsHigher(); }
      else if n == "multiply_i" { MultiplyILookup(); MultiplyICallsHigher(); }
      else if n == "log" { LogLookup(); LogCallsHigher(); }
      else { ExpLookup(); ExpCallsHigher(); }
    }
  }

  lemma UnaryCallsHigher1()
    ensures forall n :: n in {"sinh", "cosh", "tanh", "sin", "cos"} ==> UnaryOk(n)
  {
    forall n | n in {"sinh", "cosh", "tanh", "sin", "cos"} ensures UnaryOk(n) {
      if n == "sinh" { SinhLookup(); SinhCallsHigher(); }
      else if n == "cosh" { CoshLookup(); CoshCallsHigher(); }
      else if n == "tanh" { TanhLookup(); TanhCallsHigher(); }
      else if n == "sin" { SinLookup(); SinCallsHigher(); }
      else { CosLookup(); CosCallsHigher(); }
    }
  }

  lemma UnaryCallsHigher2()
    ensures forall n :: n in {"tan", "sqrt", "cbrt", "csc", "csch"} ==> UnaryOk(n)
  {
    forall n | n in {"tan", "sqrt", "cbrt", "csc", "csch"} ensures UnaryOk(n) {
      if n == "tan" { TanLookup(); TanCallsHigher(); }
      else if n == "sqrt" { SqrtLookup(); SqrtCallsHigher(); }
      else if n == "cbrt" { CbrtLookup(); CbrtCallsHigher(); }
      else if n == "csc" { CscLookup(); CscCallsHigher(); }
      else { CschLookup(); CschCallsHigher(); }
    }
  }

  lemma UnaryCallsHigher3()
    ensures forall n :: n in {"sec", "sech", "cot", "coth"} ==> UnaryOk(n)
  {
    forall n | n in {"sec", "sech", "cot", "coth"} ensures UnaryOk(n) {
      if n == "sec" { SecLookup(); SecCallsHigher(); }
      else if n == "sech" { SechLookup(); SechCallsHigher(); }
      else if n == "cot" { CotLookup(); CotCallsHigher(); }
      else { CothLookup(); CothCallsHigher(); }
    }
  }

  /** The binary entry `n` is in the table with a body that calls only higher-priority names. */
  ghost predicate BinaryOk(n: string) {
    n in BinaryFunctions.vals && BodyCallsHigher(BinaryFunctions.vals[n], n, CatalogNameSet)
  }

  lemma BinaryNamesCallHigher0()
    ensures forall n :: n in {"add", "subtract", "multiply"} ==> BinaryOk(n)
  {
    forall n | n in {"add", "subtract", "multiply"} ensures BinaryOk(n) {
      if n == "add" { AddLookup(); AddCallsHigher(); }
      else if n == "subtract" { SubtractLookup(); SubtractCallsHigher(); }
      else { MultiplyLookup(); MultiplyCallsHigher(); }
    }
  }

  lemma BinaryNamesCallHigher1()
    ensures forall n :: n in {"divide", "pow"} ==> BinaryOk(n)
  {
    forall n | n in {"divide", "pow"} ensures BinaryOk(n) {
      if n == "divide" { DivideLookup(); DivideCallsHigher(); }
      else { PowLookup(); PowCallsHigher(); }
    }
  }

  lemma BinaryNamesCallHigher()
    ensures forall n :: n in BinaryNames ==> BinaryOk(n)
  {
    BinaryNamesCallHigher0();
    BinaryNamesCallHigher1();
  }

  lemma BinaryCallsHigher()
    ensures forall n :: n in BinaryFunctions.vals ==> BodyCallsHigher(BinaryFunctions.vals[n], n, CatalogNameSet)
  {
    BinaryFunctionsNames();
    BinaryNamesCallHigher();
  }

  /**
   * What the module's top-level statements leave in a catalog: the keys of
   * both tables, each entry with its table's body, its arity and its final
   * priority (a binary entry replaces a unary one of the same name).
   */
  ghost predicate IsCatalog(cat: Obj<Entry>) {
    && cat.Consistent()
    && cat.vals.Keys == UnaryFunctions().vals.Keys + BinaryFunctions.vals.Keys
    && forall n :: n in cat.vals ==>
      cat.vals[n] == if n in BinaryFunctions.vals then Entry(BinaryFunctions.vals[n], 2, AssignedOrder(n, 0))
                     else Entry(UnaryFunctions().vals[n], 1, AssignedOrder(n, 0))
  }

  /** `complex_functions` is what the top-level statements leave. */
  lemma CatalogIsCatalog()
    ensures IsCatalog(Catalog())
  {
  }

  lemma UnaryNotBinary0()
    ensures forall n :: n in {"inverse", "unaryMinus", "multiply_i", "log", "exp"} ==> n !in BinaryNames
  {
  }

  lemma UnaryNotBinary1()
    ensures forall n :: n in {"sinh", "cosh", "tanh", "sin", "cos"} ==> n !in BinaryNames
  {
  }

  lemma UnaryNotBinary2()
    ensures forall n :: n in {"tan", "sqrt", "cbrt", "csc", "csch"} ==> n !in BinaryNames
  {
  }

  lemma UnaryNotBinary3()
    ensures forall n :: n in {"sec", "sech", "cot", "coth"} ==> n !in BinaryNames
  {
  }

  /** No name is both unary and binary. */
  lemma UnaryNotBinary()
    ensures forall n :: n in UnaryNames ==> n !in BinaryNames
  {
    UnaryNotBinary0(); UnaryNotBinary1(); UnaryNotBinary2(); UnaryNotBinary3();
  }

  lemma BinaryFunctionsNames()
    ensures BinaryFunctions.vals.Keys == BinaryNames
  {
  }

  /** A catalog has exactly the nineteen unary and the five binary names. */
  lemma CatalogKeys(cat: Obj<Entry>)
    requires IsCatalog(cat)
    ensures cat.vals.Keys == UnaryFunctions().vals.Keys + BinaryFunctions.vals.Keys == CatalogNameSet
  {
    UnaryFunctionsNames();
    BinaryFunctionsNames();
  }

  /** In a catalog the nineteen unary functions take one argument and the five binary ones two. */
  lemma ArityIn(cat: Obj<Entry>)
    requires IsCatalog(cat)
    ensures forall n :: n in UnaryNames ==> n in cat.vals && cat.vals[n].args == 1
    ensures forall n :: n in BinaryNames ==> n in cat.vals && cat.vals[n].args == 2
  {
    CatalogKeys(cat);
    BinaryFunctionsNames();
    UnaryNotBinary();
  }

  /** The nineteen unary functions of `complex_functions` take one argument and the five binary ones two. */
  lemma CatalogArity()
    ensures forall n :: n in UnaryNames ==> n in Catalog().vals && Catalog().vals[n].args == 1
    ensures forall n :: n in BinaryNames ==> n in Catalog().vals && Catalog().vals[n].args == 2
  {
    CatalogIsCatalog();
    ArityIn(Catalog());
  }

  /** A unary name that is not also binary has its unary body, one argument and its final priority. */
  lemma UnaryEntry(cat: Obj<Entry>, n: string)
    requires IsCatalog(cat)
    requires n in UnaryFunctions().vals && n !in BinaryFunctions.vals
    ensures n in cat.vals && cat.vals[n] == Entry(UnaryFunctions().vals[n], 1, AssignedOrder(n, 0))
  {
  }

  lemma NotBinary(n: string)
    requires n !in BinaryNames
    ensures n !in BinaryFunctions.vals
  {
    BinaryFunctionsNames();
  }

  /** The catalog entry `c` is unary, has priority 0 and returns the reciprocal of `f`. */
  ghost predicate CofunctionEntry(cat: Obj<Entry>, c: string, f: string) {
    c in cat.vals && cat.vals[c] == Entry(Cofunction(f), 1, 0)
  }

  /** A reciprocal in the unary table, not binary and given no priority, is a co-function entry. */
  lemma CofunctionEntryOf(cat: Obj<Entry>, c: string, f: string)
    requires IsCatalog(cat)
    requires c in UnaryFunctions().vals && UnaryFunctions().vals[c] == Cofunction(f)
    requires c !in BinaryFunctions.vals && AssignedOrder(c, 0) == 0
    ensures CofunctionEntry(cat, c, f)
  {
    UnaryEntry(cat, c);
  }

  lemma CscEntry(cat: Obj<Entry>)
    requires IsCatalog(cat)
    ensures CofunctionEntry(cat, "csc", "sin")
  {
    CscLookup();
    NotBinary("csc");
    OrderIs("csc");
    CofunctionEntryOf(cat, "csc", "sin");
  }

  lemma CschEntry(cat: Obj<Entry>)
    requires IsCatalog(cat)
    ensures CofunctionEntry(cat, "csch", "sinh")
  {
    CschLookup();
    NotBinary("csch");
    OrderIs("csch");
    CofunctionEntryOf(cat, "csch", "sinh");
  }

  lemma SecEntry(cat: Obj<Entry>)
    requires IsCatalog(cat)
    ensures CofunctionEntry(cat, "sec", "cos")
  {
    SecLookup();
    NotBinary("sec");
    OrderIs("sec");
    CofunctionEntryOf(cat, "sec", "cos");
  }

  lemma SechEntry(cat: Obj<Entry>)
    requires IsCatalog(cat)
    ensures CofunctionEntry(cat, "sech", "cosh")
  {
    SechLookup();
    NotBinary("sech");
    OrderIs("sech");
    CofunctionEntryOf(cat, "sech", "cosh");
  }

  lemma CotEntry(cat: Obj<Entry>)
    requires IsCatalog(cat)
    ensures CofunctionEntry(cat, "cot", "tan")
  {
    CotLookup();
    NotBinary("cot");
    OrderIs("cot");
    CofunctionEntryOf(cat, "cot", "tan");
  }

  lemma CothEntry(cat: Obj<Entry>)
    requires IsCatalog(cat)
    ensures CofunctionEntry(cat, "coth", "tanh")
  {
    CothLookup();
    NotBinary("coth");
    OrderIs("coth");
    CofunctionEntryOf(cat, "coth", "tanh");
  }

  /**
   * Each co-function, plain and hyperbolic, is a unary entry of
   * `complex_functions` with priority 0 whose body is `c_inverse` of its
   * base function.
   */
  lemma CofunctionEntries()
    ensures CofunctionEntry(Catalog(), "csc", "sin") && CofunctionEntry(Catalog(), "csch", "sinh")
    ensures CofunctionEntry(Catalog(), "sec", "cos") && CofunctionEntry(Catalog(), "sech", "cosh")
    ensures CofunctionEntry(Catalog(), "cot", "tan") && CofunctionEntry(Catalog(), "coth", "tanh")
  {
    var cat := Catalog();
    CatalogIsCatalog();
    CscEntry(cat); CschEntry(cat); SecEntry(cat); SechEntry(cat); CotEntry(cat); CothEntry(cat);
  }

  lemma UnaryNamesCallHigher()
    ensures forall n :: n in UnaryNames ==> UnaryOk(n)
  {
    UnaryCallsHigher0();
    UnaryCallsHigher1();
    UnaryCallsHigher2();
    UnaryCallsHigher3();
  }

  lemma UnaryTableCallsHigher()
    ensures forall n :: n in UnaryFunctions().vals ==> BodyCallsHigher(UnaryFunctions().vals[n], n, CatalogNameSet)
  {
    UnaryFunctionsNames();
    UnaryNamesCallHigher();
  }

  /** In a catalog every body is well-formed and calls only entries of strictly higher priority. */
  lemma CallsHigherIn(cat: Obj<Entry>)
    requires IsCatalog(cat)
    ensures forall n :: n in cat.vals ==> WellFormed(cat.vals[n].body) && CallsHigher(cat, n)
  {
    UnaryTableCallsHigher();
    BinaryCallsHigher();
    CatalogKeys(cat);
    EntriesCallHigher(cat, UnaryFunctions(), BinaryFunctions, CatalogNameSet);
  }

  /**
   * Every body of `complex_functions` is well-formed and calls only catalog
   * functions of strictly higher priority.
   */
  lemma CatalogCallsHigher()
    ensures forall n :: n in Catalog().vals ==> WellFormed(Catalog().vals[n].body) && CallsHigher(Catalog(), n)
  {
    CatalogIsCatalog();
    CallsHigherIn(Catalog());
  }

  // ---------------------------------------------------------------------
  // Building the catalog step by step
  // ---------------------------------------------------------------------

  /** One `Object.entries(src).forEach(...)` insertion loop over the keys `ks`. */
  method InsertEntries(cat0: Obj<Entry>, ks: seq<string>, src: map<string, Body>, args: int) returns (cat: Obj<Entry>)
    requires forall k :: k in ks ==> k in src
    ensures cat == InsertAll(cat0, ks, src, args)
  {
    cat := cat0;
    var i := 0;
    while i < |ks|
      invariant 0 <= i <= |ks|
      invariant cat == InsertAll(cat0, ks[..i], src, args)
    {
      var f := ks[i];
      assert ks[..i + 1][..i] == ks[..i];
      cat := cat.Put(f, Entry(src[f], args, 0));
      i := i + 1;
    }
    assert ks[..i] == ks;
  }

  /** The loop over `["sin", "cos", "tan"]`: `f + "h"` gets priority 20, then `f` gets 10. */
  method AssignTrigonometricOrders(top: Obj<Entry>) returns (cat: Obj<Entry>)
    requires forall f :: f in Trigonometric ==> f in top.vals && f + "h" in top.vals
    ensures cat == TrigonometricOrders(top, Trigonometric)
  {
    cat := top;
    var k := 0;
    while k < |Trigonometric|
      invariant 0 <= k <= |Trigonometric|
      invariant cat == TrigonometricOrders(top, Trigonometric[..k])
    {
      var f := Trigonometric[k];
      assert Trigonometric[..k + 1][..k] == Trigonometric[..k];
      cat := SetOrder(cat, f + "h", 20);
      cat := SetOrder(cat, f, 10);
      k := k + 1;
    }
    assert Trigonometric[..k] == Trigonometric;
  }

  /**
   * The module's top-level statements, run in order: both insertion loops,
   * the six priority-100 assignments and the trigonometric loop.
   */
  method BuildCatalogOf(u: Obj<Body>, b: Obj<Body>) returns (cat: Obj<Entry>)
    requires u.Consistent() && b.Consistent()
    requires HasOrderedNames(u.vals.Keys + b.vals.Keys)
    ensures cat == CatalogOf(u, b)
  {
    cat := InsertEntries(EmptyObj(), u.keys, u.vals, 1);
    cat := InsertEntries(cat, b.keys, b.vals, 2);
    assert cat == InsertBoth(u, b);
    InsertBothVals(u, b);
    var inserted := cat;
    cat := SetOrder(cat, "divide", 100);
    cat := SetOrder(cat, "multiply", 100);
    cat := SetOrder(cat, "multiply_i", 100);
    cat := SetOrder(cat, "log", 100);
    cat := SetOrder(cat, "exp", 100);
    cat := SetOrder(cat, "inverse", 100);
    assert cat == TopOrders(inserted);
    cat := AssignTrigonometricOrders(cat);
  }

  /** `complex_functions`, built by running the co-function loop and then the catalog statements. */
  method BuildCatalog() returns (cat: Obj<Entry>)
    ensures cat == Catalog()
  {
    var u := AddCofunctions(UnaryBase);
    UnaryFunctionsConsistent();
    BinaryFunctionsConsistent();
    OrderedNamesPresent();
    cat := BuildCatalogOf(u, BinaryFunctions);
  }

  // ---------------------------------------------------------------------
  // `shaderHeader`
  // ---------------------------------------------------------------------

  /** `Object.entries` of a map listed in the key order `ks`: each key with its value. */
  function EntriesOf<V>(vals: map<string, V>, ks: seq<string>): (r: seq<(string, V)>)
    requires forall k :: k in ks ==> k in vals
    ensures |r| == |ks|
    ensures forall i :: 0 <= i < |ks| ==> r[i] == (ks[i], vals[ks[i]])
  {
    if ks == [] then [] else [(ks[0], vals[ks[0]])] + EntriesOf(vals, ks[1..])
  }

  /** `Object.entries(o)`, in insertion order. */
  function Entries<V>(o: Obj<V>): seq<(string, V)>
    requires o.Consistent()
  {
    EntriesOf(o.vals, o.keys)
  }

  /** The pairs `Object.entries` lists are exactly the own properties with their values. */
  lemma EntriesMembers<V>(o: Obj<V>, n: string, v: V)
    requires o.Consistent()
    ensures (n, v) in Entries(o) <==> n in o.vals && v == o.vals[n]
  {
    var es := Entries(o);
    if n in o.vals && v == o.vals[n] {
      var i :| 0 <= i < |o.keys| && o.keys[i] == n;
      assert es[i] == (n, v);
    }
  }

  /** The parameter list of a catalog function: `vec2 a`, and `vec2 b` for a binary one. */
  function Parameters(args: int): string {
    "(vec2 a" + (if args == 2 then ", vec2 b" else "")
  }

  /** `vec2 c_${name}(vec2 a${args == 2 ? ", vec2 b" : ""}){ ${body} }` */
  function HeaderLine(name: string, e: Entry): string {
    "vec2 c_" + name + Parameters(e.args) + "){ " + Render(e.body) + " }"
  }

  function EntryOrder(p: (string, Entry)): int { p.1.order }
  function EntryLine(p: (string, Entry)): string { HeaderLine(p.0, p.1) }

  /** The `[order, line]` pair the first `.map` makes of an entry. */
  function HeaderPair(p: (string, Entry)): (int, string) { (p.1.order, HeaderLine(p.0, p.1)) }
  function PairOrder(q: (int, string)): int { q.0 }
  function PairLine(q: (int, string)): string { q.1 }

  /** `Array.prototype.join(sep)` on strings. */
  function Join(ls: seq<string>, sep: string): string {
    if |ls| == 0 then ""
    else if |ls| == 1 then ls[0]
    else ls[0] + sep + Join(ls[1..], sep)
  }

  /** Joining one more string appends the separator and that string. */
  lemma {:induction false} JoinSnoc(ls: seq<string>, x: string, sep: string)
    ensures Join(ls + [x], sep) == if ls == [] then x else Join(ls, sep) + sep + x
  {
    if |ls| > 1 {
      assert (ls + [x])[1..] == ls[1..] + [x];
      JoinSnoc(ls[1..], x, sep);
    } else if |ls| == 1 {
      assert (ls + [x])[1..] == [x];
    }
  }

  /** `shaderHeader` for the catalog `cat`: entries to pairs, stable sort by descending order, lines, join. */
  function ShaderHeaderOf(cat: Obj<Entry>): string
    requires cat.Consistent()
  {
    Join(MapSeq(PairLine, SortDescending(MapSeq(HeaderPair, Entries(cat)), PairOrder)), "\n")
  }

  /** `shaderHeader`. */
  function ShaderHeader(): string {
    ShaderHeaderOf(Catalog())
  }

  /** The entries in the order their lines appear in the header. */
  function HeaderOrder(cat: Obj<Entry>): (r: seq<(string, Entry)>)
    requires cat.Consistent()
    ensures multiset(r) == multiset(Entries(cat))
    ensures Descending(r, EntryOrder)
  {
    SortDescendingIsDescending(Entries(cat), EntryOrder);
    SortDescending(Entries(cat), EntryOrder)
  }

  /** The header is one line per entry, in header order. */
  lemma HeaderLines(cat: Obj<Entry>)
    requires cat.Consistent()
    ensures ShaderHeaderOf(cat) == Join(MapSeq(EntryLine, HeaderOrder(cat)), "\n")
  {
    SortMapCommutes(Entries(cat), HeaderPair, EntryOrder, PairOrder);
    var order := HeaderOrder(cat);
    assert MapSeq(PairLine, MapSeq(HeaderPair, order)) == MapSeq(EntryLine, order);
  }

  /** Every entry of the catalog has a line, and each line comes from an entry. */
  lemma HeaderOrderMembers(cat: Obj<Entry>, n: string, e: Entry)
    requires cat.Consistent()
    ensures (n, e) in HeaderOrder(cat) <==> n in cat.vals && e == cat.vals[n]
  {
    SortDescendingMembers(Entries(cat), EntryOrder, (n, e));
    EntriesMembers(cat, n, e);
  }

  /** The references in a header line: the function it defines and those its body calls. */
  lemma HeaderLineRefs(n: string, e: Entry)
    requires PieceOk(Ref(n)) && WellFormed(e.body)
    ensures Refs(HeaderLine(n, e)) == {n} + RefNames(e.body)
  {
    var body := Render(e.body) + " }";
    var tail := Parameters(e.args) + "){ " + body;
    assert HeaderLine(n, e) == "vec2 " + ("c_" + n + tail);
    DeclarationRefs(n, tail);
    ParameterListRefs(e.args, body);
    RefsOfRender(e.body, " }");
    ClosingBraceRefs();
  }

  /** `vec2 c_<n>` followed by text that opens with `(` references `n` and what that text references. */
  lemma DeclarationRefs(n: string, tail: string)
    requires PieceOk(Ref(n)) && |tail| > 0 && tail[0] == '('
    ensures Refs("vec2 " + ("c_" + n + tail)) == {n} + Refs(tail)
  {
    NoUnderscoreNoMarker("vec2 ");
    RefsSkipText("vec2 ", "c_" + n + tail);
    RefsOfReference(n, tail);
  }

  /** The parameter list and the opening brace reference nothing. */
  lemma ParameterListRefs(args: int, body: string)
    ensures Refs(Parameters(args) + "){ " + body) == Refs(body)
  {
    var open := Parameters(args) + "){ ";
    assert Lacks(open, '_') by {
      if args == 2 {
        assert open == "(vec2 a" + ", vec2 b" + "){ ";
      } else {
        assert open == "(vec2 a" + "" + "){ ";
      }
    }
    NoUnderscoreNoMarker(open);
    RefsSkipText(open, body);
  }

  lemma ClosingBraceRefs()
    ensures Refs(" }") == {}
  {
  }

  /** The line of `n` declares the parameter `vec2 b` exactly when `n` takes two arguments. */
  lemma HeaderLineParameters(n: string, e: Entry)
    ensures var line := HeaderLine(n, e);
      line[..|"vec2 c_" + n + "(vec2 a"|] == "vec2 c_" + n + "(vec2 a" &&
      (", vec2 b" <= line[|"vec2 c_" + n + "(vec2 a"|..] <==> e.args == 2)
  {
    var head := "vec2 c_" + n + "(vec2 a";
    var line := HeaderLine(n, e);
    var rest := "){ " + Render(e.body) + " }";
    if e.args == 2 {
      assert line == head + (", vec2 b" + rest);
    } else {
      assert line == head + rest;
      assert line[|head|..] == rest;
      assert rest[0] == ')';
    }
  }

  /**
   * No header line calls a function defined on a later line: every `c_X`
   * in line `j` is the function the line defines or one defined above it.
   */
  lemma HeaderNoForwardReferences(cat: Obj<Entry>)
    requires cat.Consistent()
    requires forall n :: n in cat.vals ==> PieceOk(Ref(n)) && WellFormed(cat.vals[n].body) && CallsHigher(cat, n)
    ensures forall j, x :: 0 <= j < |HeaderOrder(cat)| && x in Refs(EntryLine(HeaderOrder(cat)[j])) ==>
      x == HeaderOrder(cat)[j].0 || exists i :: 0 <= i < j && HeaderOrder(cat)[i].0 == x
  {
    var order := HeaderOrder(cat);
    forall j, x | 0 <= j < |order| && x in Refs(EntryLine(order[j]))
      ensures x == order[j].0 || exists i :: 0 <= i < j && order[i].0 == x
    {
      var (n, e) := order[j];
      HeaderOrderMembers(cat, n, e);
      HeaderLineRefs(n, e);
      if x != n {
        assert x in RefNames(cat.vals[n].body);
        assert x in cat.vals && cat.vals[x].order > e.order;
        HeaderOrderMembers(cat, x, cat.vals[x]);
        var i :| 0 <= i < |order| && order[i] == (x, cat.vals[x]);
        assert i != j;
        assert i < j;
      }
    }
  }

  /** Every catalog name can be written after `c_` as one GLSL identifier. */
  lemma UnaryNamesAreIdentifiers0()
    ensures forall n :: n in {"inverse", "unaryMinus", "multiply_i", "log", "exp"} ==> PieceOk(Ref(n))
  {
  }

  lemma UnaryNamesAreIdentifiers1()
    ensures forall n :: n in {"sinh", "cosh", "tanh", "sin", "cos"} ==> PieceOk(Ref(n))
  {
  }

  lemma UnaryNamesAreIdentifiers2()
    ensures forall n :: n in {"tan", "sqrt", "cbrt", "csc", "csch"} ==> PieceOk(Ref(n))
  {
  }

  lemma UnaryNamesAreIdentifiers3()
    ensures forall n :: n in {"sec", "sech", "cot", "coth"} ==> PieceOk(Ref(n))
  {
  }

  lemma BinaryNamesAreIdentifiers()
    ensures forall n :: n in BinaryNames ==> PieceOk(Ref(n))
  {
  }

  /** What the no-forward-reference argument needs of a catalog. */
  ghost predicate HeaderReady(cat: Obj<Entry>) {
    && cat.Consistent()
    && forall n :: n in cat.vals ==> PieceOk(Ref(n)) && WellFormed(cat.vals[n].body) && CallsHigher(cat, n)
  }

  /** Every name of the whole catalog can be written after `c_` as one GLSL identifier. */
  lemma CatalogNamesAreIdentifiers()
    ensures forall n :: n in CatalogNameSet ==> PieceOk(Ref(n))
  {
    UnaryNamesAreIdentifiers0();
    UnaryNamesAreIdentifiers1();
    UnaryNamesAreIdentifiers2();
    UnaryNamesAreIdentifiers3();
    BinaryNamesAreIdentifiers();
  }

  lemma HeaderReadyOf(cat: Obj<Entry>, names: set<string>)
    requires cat.Consistent() && cat.vals.Keys == names
    requires forall n :: n in names ==> PieceOk(Ref(n))
    requires forall n :: n in cat.vals ==> WellFormed(cat.vals[n].body) && CallsHigher(cat, n)
    ensures HeaderReady(cat)
  {
  }

  /** A catalog is ready for the no-forward-reference argument. */
  lemma HeaderReadyIn(cat: Obj<Entry>)
    requires IsCatalog(cat)
    ensures HeaderReady(cat)
  {
    CallsHigherIn(cat);
    CatalogKeys(cat);
    CatalogNamesAreIdentifiers();
    HeaderReadyOf(cat, CatalogNameSet);
  }

  /**
   * `shaderHeader` defines every catalog function before the first line
   * that calls it, so the GLSL it prefixes compiles.
   */
  lemma ShaderHeaderNoForwardReferences()
    ensures forall j, x :: 0 <= j < |HeaderOrder(Catalog())| && x in Refs(EntryLine(HeaderOrder(Catalog())[j])) ==>
      x == HeaderOrder(Catalog())[j].0 || exists i :: 0 <= i < j && HeaderOrder(Catalog())[i].0 == x
  {
    CatalogIsCatalog();
    HeaderReadyIn(Catalog());
    HeaderNoForwardReferences(Catalog());
  }

  /** `shaderHeader` is one line per catalog entry, in header order. */
  lemma ShaderHeaderLines()
    ensures ShaderHeader() == Join(MapSeq(EntryLine, HeaderOrder(Catalog())), "\n")
  {
    HeaderLines(Catalog());
  }

  /** In the header of a catalog exactly the five binary functions take the second parameter `vec2 b`. */
  lemma ParametersIn(cat: Obj<Entry>)
    requires IsCatalog(cat)
    ensures forall j :: 0 <= j < |HeaderOrder(cat)| ==>
      var (n, e) := HeaderOrder(cat)[j];
      (", vec2 b" <= EntryLine((n, e))[|"vec2 c_" + n + "(vec2 a"|..] <==> n in BinaryNames)
  {
    var order := HeaderOrder(cat);
    BinaryFunctionsNames();
    forall j | 0 <= j < |order|
      ensures var (n, e) := order[j];
        (", vec2 b" <= EntryLine((n, e))[|"vec2 c_" + n + "(vec2 a"|..] <==> n in BinaryNames)
    {
      var (n, e) := order[j];
      HeaderOrderMembers(cat, n, e);
      HeaderLineParameters(n, e);
    }
  }

  /** In `shaderHeader` exactly the five binary functions take the second parameter `vec2 b`. */
  lemma ShaderHeaderParameters()
    ensures forall j :: 0 <= j < |HeaderOrder(Catalog())| ==>
      var (n, e) := HeaderOrder(Catalog())[j];
      (", vec2 b" <= EntryLine((n, e))[|"vec2 c_" + n + "(vec2 a"|..] <==> n in BinaryNames)
  {
    CatalogIsCatalog();
    ParametersIn(Catalog());
  }

  // ---------------------------------------------------------------------
  // `compileTree` and `compile`
  // ---------------------------------------------------------------------

  /**
   * The mathjs expression nodes `compileTree` tells apart. A function
   * node carries the name of its callee (`tree.fn.name`), an operator node
   * the name of its operation (`tree.fn`), a constant node its value as
   * `${v}` prints it, and any other node its text as `"" + tree` prints it.
   */
  datatype Node =
    | SymbolNode(name: string)
    | FunctionNode(fn: string, args: seq<Node>)
    | OperatorNode(fn: string, args: seq<Node>)
    | ConstantNode(value: string)
    | ParenthesisNode(content: Node)
    | OtherNode(text: string)

  /** The `SyntaxError`s `compileTree` throws. */
  datatype CompileError = InvalidSymbol(name: string) | InvalidFunction(name: string) | UnknownNode(text: string)

  /** The message of the `SyntaxError`; it quotes the offending name. */
  function Message(e: CompileError): (r: string)
    ensures e.InvalidSymbol? ==> "Invalid symbol name: '" + e.name <= r
    ensures e.InvalidFunction? ==> "Invalid function name: '" + e.name <= r
    ensures e.UnknownNode? ==> "Unknown node: " + e.text == r
  {
    match e
    case InvalidSymbol(n) => "Invalid symbol name: '" + n + "'"
    case InvalidFunction(n) => "Invalid function name: '" + n + "'"
    case UnknownNode(t) => "Unknown node: " + t
  }

  /**
   * The two lookups `compileTree` makes: `symbols` maps every name for
   * which `symbols[name] !== undefined` holds to the text that name
   * compiles to, and `functions` holds every name for which
   * `complex_functions[name] !== undefined` holds.
   */
  datatype Scope = Scope(symbols: map<string, string>, functions: set<string>)

  /** What `compileTree(tree, vars)` returns or throws, looking names up in `scope`. */
  function Compilation(tree: Node, vars: seq<string>, scope: Scope): Result<string, CompileError>
    decreases tree, 1
  {
    match tree
    case SymbolNode(name) =>
      if name in scope.symbols then Ok(scope.symbols[name])
      else if name !in vars then Err(InvalidSymbol(name))
      else Ok(name)
    case FunctionNode(_, _) => CallCompilation(tree, vars, scope)
    case OperatorNode(_, _) => CallCompilation(tree, vars, scope)
    case ConstantNode(v) => Ok("vec2(" + v + ", 0)")
    case ParenthesisNode(c) => Compilation(c, vars, scope)
    case OtherNode(t) => Err(UnknownNode(t))
  }

  /** A function or operator node: the name is checked first, then the arguments are compiled in order. */
  function CallCompilation(tree: Node, vars: seq<string>, scope: Scope): Result<string, CompileError>
    requires tree.FunctionNode? || tree.OperatorNode?
    decreases tree, 0
  {
    if tree.fn !in scope.functions then Err(InvalidFunction(tree.fn))
    else
      var a :- JoinResults(Results(tree, tree.args, vars, scope));
      Ok("c_" + tree.fn + "(" + a + ")")
  }

  /** What compiling each of the arguments `args` (a prefix of the node's) gives, one by one. */
  function Results(tree: Node, args: seq<Node>, vars: seq<string>, scope: Scope): (r: seq<Result<string, CompileError>>)
    requires (tree.FunctionNode? || tree.OperatorNode?) && args <= tree.args
    ensures |r| == |args|
    decreases tree, 0, |args|
  {
    if args == [] then []
    else Results(tree, args[..|args| - 1], vars, scope) + [Compilation(args[|args| - 1], vars, scope)]
  }

  /** The `i`-th result is what compiling the `i`-th argument gives. */
  lemma {:induction false} ResultsAt(tree: Node, args: seq<Node>, i: nat, vars: seq<string>, scope: Scope)
    requires (tree.FunctionNode? || tree.OperatorNode?) && args <= tree.args
    requires i < |args|
    ensures Results(tree, args, vars, scope)[i] == Compilation(args[i], vars, scope)
    decreases |args|
  {
    if i < |args| - 1 {
      ResultsAt(tree, args[..|args| - 1], i, vars, scope);
    }
  }

  /** The loop over the arguments: their texts joined with `,`, or the first error. */
  function JoinResults<E>(rs: seq<Result<string, E>>): Result<string, E> {
    if rs == [] then Ok("")
    else
      var init :- JoinResults(rs[..|rs| - 1]);
      var last :- rs[|rs| - 1];
      Ok(if |rs| == 1 then last else init + "," + last)
  }

  /** The texts of successful results, in order (empty for a failure). */
  function Texts<E>(rs: seq<Result<string, E>>): (r: seq<string>)
    ensures |r| == |rs|
    ensures forall i :: 0 <= i < |rs| && rs[i].Ok? ==> r[i] == rs[i].value
  {
    if rs == [] then [] else Texts(rs[..|rs| - 1]) + [if rs[|rs| - 1].Ok? then rs[|rs| - 1].value else ""]
  }

  /** When every argument compiles, the arguments compile to their texts joined with `,`. */
  lemma {:induction false} JoinAllOk<E>(rs: seq<Result<string, E>>)
    requires forall i :: 0 <= i < |rs| ==> rs[i].Ok?
    ensures JoinResults(rs) == Ok(Join(Texts(rs), ","))
  {
    if rs != [] {
      var init := rs[..|rs| - 1];
      JoinAllOk(init);
      JoinSnoc(Texts(init), rs[|rs| - 1].value, ",");
    }
  }

  /** The first argument that fails decides the error. */
  lemma {:induction false} JoinFirstError<E>(rs: seq<Result<string, E>>, k: nat)
    requires k < |rs| && rs[k].Err?
    requires forall i :: 0 <= i < k ==> rs[i].Ok?
    ensures JoinResults(rs) == rs[k]
  {
    var init := rs[..|rs| - 1];
    if k < |rs| - 1 {
      JoinFirstError(init, k);
    } else {
      JoinAllOk(init);
    }
  }

  /** One more successful result adds its text. */
  lemma TextsSnoc<E>(rs: seq<Result<string, E>>, i: nat)
    requires i < |rs| && rs[i].Ok?
    ensures Texts(rs[..i + 1]) == Texts(rs[..i]) + [rs[i].value]
  {
    assert rs[..i + 1][..i] == rs[..i];
  }

  /** One round of the argument loop: a `,` from the second argument on, then the argument's text. */
  lemma JoinStep<E>(rs: seq<Result<string, E>>, i: nat, f: string)
    requires i < |rs| && rs[i].Ok?
    requires f == Join(Texts(rs[..i]), ",")
    ensures (if i > 0 then f + "," else f) + rs[i].value == Join(Texts(rs[..i + 1]), ",")
  {
    TextsSnoc(rs, i);
    JoinSnoc(Texts(rs[..i]), rs[i].value, ",");
    if i == 0 {
      assert Texts(rs[..i]) == [];
    }
  }

  /** `compileTree`: recursion over the tree; a thrown error is returned. */
  method CompileTree(tree: Node, vars: seq<string>, scope: Scope) returns (r: Result<string, CompileError>)
    ensures r == Compilation(tree, vars, scope)
    decreases tree, 1
  {
    match tree {
      case SymbolNode(name) =>
        if name in scope.symbols {
          return Ok(scope.symbols[name]);
        }
        if name !in vars {
          return Err(InvalidSymbol(name));
        }
        return Ok(name);
      case FunctionNode(_, _) | OperatorNode(_, _) =>
        r := CompileCall(tree, vars, scope);
      case ConstantNode(v) =>
        return Ok("vec2(" + v + ", 0)");
      case ParenthesisNode(c) =>
        r := CompileTree(c, vars, scope);
      case OtherNode(t) =>
        return Err(UnknownNode(t));
    }
  }

  /**
   * The call branch of `compileTree`: `f` starts as `c_<name>(`, the loop
   * appends the arguments, and `)` closes it.
   */
  method CompileCall(tree: Node, vars: seq<string>, scope: Scope) returns (r: Result<string, CompileError>)
    requires tree.FunctionNode? || tree.OperatorNode?
    ensures r == CallCompilation(tree, vars, scope)
    decreases tree, 0
  {
    var name := tree.fn;
    if name !in scope.functions {
      return Err(InvalidFunction(name));
    }
    var args := CompileArgs(tree, vars, scope);
    if args.Err? {
      return Err(args.error);
    }
    return Ok("c_" + name + "(" + args.value + ")");
  }

  /** What one round of the argument loop learns from compiling argument `i` to `a`. */
  lemma ArgumentStep(tree: Node, vars: seq<string>, scope: Scope, i: nat, f: string, a: Result<string, CompileError>)
    requires (tree.FunctionNode? || tree.OperatorNode?) && i < |tree.args|
    requires a == Compilation(tree.args[i], vars, scope)
    requires forall j :: 0 <= j < i ==> Results(tree, tree.args, vars, scope)[j].Ok?
    requires f == Join(Texts(Results(tree, tree.args, vars, scope)[..i]), ",")
    ensures a == Results(tree, tree.args, vars, scope)[i]
    ensures a.Err? ==> JoinResults(Results(tree, tree.args, vars, scope)) == a
    ensures a.Ok? ==> (if i > 0 then f + "," else f) + a.value == Join(Texts(Results(tree, tree.args, vars, scope)[..i + 1]), ",")
  {
    var rs := Results(tree, tree.args, vars, scope);
    ResultsAt(tree, tree.args, i, vars, scope);
    if a.Err? {
      JoinFirstError(rs, i);
    } else {
      JoinStep(rs, i, f);
    }
  }

  /** The loop of the call branch: each compiled argument is appended, after a `,` from the second on. */
  method CompileArgs(tree: Node, vars: seq<string>, scope: Scope) returns (r: Result<string, CompileError>)
    requires tree.FunctionNode? || tree.OperatorNode?
    ensures r == JoinResults(Results(tree, tree.args, vars, scope))
    decreases tree, 0, |tree.args|
  {
    ghost var rs := Results(tree, tree.args, vars, scope);
    var f := "";
    var i := 0;
    while i < |tree.args|
      invariant 0 <= i <= |tree.args|
      invariant forall j :: 0 <= j < i ==> rs[j].Ok?
      invariant f == Join(Texts(rs[..i]), ",")
    {
      ghost var before := f;
      if i > 0 {
        f := f + ",";
      }
      var a := CompileTree(tree.args[i], vars, scope);
      ArgumentStep(tree, vars, scope, i, before, a);
      if a.Err? {
        return Err(a.error);
      }
      f := f + a.value;
      i := i + 1;
    }
    assert rs[..i] == rs;
    JoinAllOk(rs);
    return Ok(f);
  }

  /** `compile(expr, vars = ["z"])`, with the lookups of `compileTree` as written. */
  method Compile(expr: Node, vars: seq<string> := ["z"]) returns (r: Result<string, CompileError>)
    ensures r == Compilation(expr, vars, AsWritten)
  {
    r := CompileTree(expr, vars, AsWritten);
  }

  // ---------------------------------------------------------------------
  // What compilation promises
  // ---------------------------------------------------------------------

  /** The tree contains nothing `compileTree` rejects: no unbound symbol, no unknown function, no other node kind. */
  predicate Compilable(tree: Node, vars: seq<string>, scope: Scope)
    decreases tree
  {
    match tree
    case SymbolNode(n) => n in scope.symbols || n in vars
    case FunctionNode(n, args) => n in scope.functions && forall i :: 0 <= i < |args| ==> Compilable(args[i], vars, scope)
    case OperatorNode(n, args) => n in scope.functions && forall i :: 0 <= i < |args| ==> Compilable(args[i], vars, scope)
    case ConstantNode(_) => true
    case ParenthesisNode(c) => Compilable(c, vars, scope)
    case OtherNode(_) => false
  }

  /** Somewhere in the tree a node raises `e`: the node `e` names, checked where `compileTree` checks it. */
  predicate Raises(tree: Node, e: CompileError, vars: seq<string>, scope: Scope)
    decreases tree
  {
    match tree
    case SymbolNode(n) => e == InvalidSymbol(n) && n !in scope.symbols && n !in vars
    case FunctionNode(n, args) =>
      (e == InvalidFunction(n) && n !in scope.functions) || exists i :: 0 <= i < |args| && Raises(args[i], e, vars, scope)
    case OperatorNode(n, args) =>
      (e == InvalidFunction(n) && n !in scope.functions) || exists i :: 0 <= i < |args| && Raises(args[i], e, vars, scope)
    case ConstantNode(_) => false
    case ParenthesisNode(c) => Raises(c, e, vars, scope)
    case OtherNode(t) => e == UnknownNode(t)
  }

  /** The index of the first failure among results that do not all succeed. */
  lemma {:induction false} FirstFailure<E>(rs: seq<Result<string, E>>) returns (k: nat)
    requires exists i :: 0 <= i < |rs| && rs[i].Err?
    ensures k < |rs| && rs[k].Err? && forall i :: 0 <= i < k ==> rs[i].Ok?
  {
    if rs[0].Err? {
      k := 0;
    } else {
      var j :| 0 <= j < |rs| && rs[j].Err?;
      assert rs[1..][j - 1] == rs[j];
      var k' := FirstFailure(rs[1..]);
      k := k' + 1;
      assert forall i :: 1 <= i < k ==> rs[i] == rs[1..][i - 1];
    }
  }

  /** The joined result succeeds exactly when every result does, and fails with the first failure. */
  lemma JoinResultsCases<E>(rs: seq<Result<string, E>>)
    ensures JoinResults(rs).Ok? <==> forall i :: 0 <= i < |rs| ==> rs[i].Ok?
    ensures JoinResults(rs).Err? ==> exists k :: 0 <= k < |rs| && rs[k] == JoinResults(rs)
  {
    if forall i :: 0 <= i < |rs| ==> rs[i].Ok? {
      JoinAllOk(rs);
    } else {
      var k := FirstFailure(rs);
      JoinFirstError(rs, k);
    }
  }

  /**
   * Compilation succeeds exactly on the trees with nothing to reject, and
   * an error it reports is raised by a node of the tree that it names.
   */
  lemma {:induction false} CompilationSucceedsIffCompilable(tree: Node, vars: seq<string>, scope: Scope)
    ensures Compilation(tree, vars, scope).Ok? <==> Compilable(tree, vars, scope)
    ensures Compilation(tree, vars, scope).Err? ==> Raises(tree, Compilation(tree, vars, scope).error, vars, scope)
    decreases tree, 1
  {
    match tree
    case FunctionNode(_, _) => CallSucceedsIffCompilable(tree, vars, scope);
    case OperatorNode(_, _) => CallSucceedsIffCompilable(tree, vars, scope);
    case ParenthesisNode(c) => CompilationSucceedsIffCompilable(c, vars, scope);
    case _ =>
  }

  lemma {:induction false} CallSucceedsIffCompilable(tree: Node, vars: seq<string>, scope: Scope)
    requires tree.FunctionNode? || tree.OperatorNode?
    ensures Compilation(tree, vars, scope).Ok? <==> Compilable(tree, vars, scope)
    ensures Compilation(tree, vars, scope).Err? ==> Raises(tree, Compilation(tree, vars, scope).error, vars, scope)
    decreases tree, 0
  {
    var rs := Results(tree, tree.args, vars, scope);
    forall i | 0 <= i < |tree.args|
      ensures rs[i] == Compilation(tree.args[i], vars, scope)
      ensures rs[i].Ok? <==> Compilable(tree.args[i], vars, scope)
      ensures rs[i].Err? ==> Raises(tree.args[i], rs[i].error, vars, scope)
    {
      ResultsAt(tree, tree.args, i, vars, scope);
      CompilationSucceedsIffCompilable(tree.args[i], vars, scope);
    }
    JoinResultsCases(rs);
    if tree.fn in scope.functions && JoinResults(rs).Err? {
      var k :| 0 <= k < |rs| && rs[k] == JoinResults(rs);
      assert Raises(tree.args[k], rs[k].error, vars, scope);
    }
  }

  /** Argument `k` of the call is the first one that fails to compile. */
  predicate FirstFailing(tree: Node, k: int, vars: seq<string>, scope: Scope)
    requires tree.FunctionNode? || tree.OperatorNode?
  {
    && 0 <= k < |tree.args|
    && Compilation(tree.args[k], vars, scope).Err?
    && forall i :: 0 <= i < k ==> Compilation(tree.args[i], vars, scope).Ok?
  }

  /** The texts the arguments of a call compile to, in order. */
  function ArgumentTexts(tree: Node, vars: seq<string>, scope: Scope): seq<string>
    requires tree.FunctionNode? || tree.OperatorNode?
  {
    Texts(Results(tree, tree.args, vars, scope))
  }

  /**
   * A call: an unknown name is rejected before any argument is looked at;
   * a known name with compiling arguments gives `c_<name>(` and the
   * argument texts joined with `,` and `)`, whatever their number; the
   * first argument that fails decides the error.
   */
  lemma CallCompilationCases(tree: Node, vars: seq<string>, scope: Scope)
    requires tree.FunctionNode? || tree.OperatorNode?
    ensures tree.fn !in scope.functions ==> Compilation(tree, vars, scope) == Err(InvalidFunction(tree.fn))
    ensures |ArgumentTexts(tree, vars, scope)| == |tree.args|
    ensures forall i :: 0 <= i < |tree.args| && Compilation(tree.args[i], vars, scope).Ok? ==>
      ArgumentTexts(tree, vars, scope)[i] == Compilation(tree.args[i], vars, scope).value
    ensures tree.fn in scope.functions && (forall i :: 0 <= i < |tree.args| ==> Compilation(tree.args[i], vars, scope).Ok?) ==>
      Compilation(tree, vars, scope) == Ok("c_" + tree.fn + "(" + Join(ArgumentTexts(tree, vars, scope), ",") + ")")
    ensures forall k :: tree.fn in scope.functions && FirstFailing(tree, k, vars, scope) ==>
      Compilation(tree, vars, scope) == Compilation(tree.args[k], vars, scope)
  {
    var rs := Results(tree, tree.args, vars, scope);
    forall i | 0 <= i < |tree.args| ensures rs[i] == Compilation(tree.args[i], vars, scope) {
      ResultsAt(tree, tree.args, i, vars, scope);
    }
    if tree.fn in scope.functions {
      if forall i :: 0 <= i < |tree.args| ==> Compilation(tree.args[i], vars, scope).Ok? {
        JoinAllOk(rs);
      }
      forall k | FirstFailing(tree, k, vars, scope)
        ensures Compilation(tree, vars, scope) == Compilation(tree.args[k], vars, scope)
      {
        JoinFirstError(rs, k);
      }
    }
  }

  /** `w*z` with the variable `z` is rejected, and the error names `w`. */
  lemma UnboundSymbolExample()
    ensures Compilation(OperatorNode("multiply", [SymbolNode("w"), SymbolNode("z")]), ["z"], AsWritten)
      == Err(InvalidSymbol("w"))
  {
    var tree := OperatorNode("multiply", [SymbolNode("w"), SymbolNode("z")]);
    AsWrittenExampleNames();
    ZIsNoSymbol();
    CallCompilationCases(tree, ["z"], AsWritten);
    assert FirstFailing(tree, 0, ["z"], AsWritten);
  }

  /** A call of a known name on one variable compiles to `c_<name>(<variable>)`. */
  lemma CallOnVariable(name: string, x: string, vars: seq<string>, scope: Scope)
    requires name in scope.functions && x !in scope.symbols && x in vars
    ensures Compilation(FunctionNode(name, [SymbolNode(x)]), vars, scope) == Ok("c_" + name + "(" + x + ")")
  {
    var tree := FunctionNode(name, [SymbolNode(x)]);
    CallCompilationCases(tree, vars, scope);
    assert Compilation(tree.args[0], vars, scope) == Ok(x);
    assert ArgumentTexts(tree, vars, scope) == [x];
  }

  /** A call of a known name on one symbol compiles to `c_<name>(` and the symbol's own text. */
  lemma CallOnSymbol(name: string, x: string, vars: seq<string>, scope: Scope)
    requires name in scope.functions && Compilation(SymbolNode(x), vars, scope).Ok?
    ensures Compilation(FunctionNode(name, [SymbolNode(x)]), vars, scope)
      == Ok("c_" + name + "(" + Compilation(SymbolNode(x), vars, scope).value + ")")
  {
    var tree := FunctionNode(name, [SymbolNode(x)]);
    CallCompilationCases(tree, vars, scope);
    assert ArgumentTexts(tree, vars, scope) == [Compilation(SymbolNode(x), vars, scope).value];
  }

  /** A call of a known name on two variables compiles to `c_<name>(<x>,<y>)`, whatever the name's arity. */
  lemma CallOnTwoVariables(name: string, x: string, y: string, vars: seq<string>, scope: Scope)
    requires name in scope.functions && x !in scope.symbols && x in vars && y !in scope.symbols && y in vars
    ensures Compilation(FunctionNode(name, [SymbolNode(x), SymbolNode(y)]), vars, scope)
      == Ok("c_" + name + "(" + x + "," + y + ")")
  {
    var tree := FunctionNode(name, [SymbolNode(x), SymbolNode(y)]);
    CallCompilationCases(tree, vars, scope);
    assert Compilation(tree.args[0], vars, scope) == Ok(x);
    assert Compilation(tree.args[1], vars, scope) == Ok(y);
    var texts := ArgumentTexts(tree, vars, scope);
    assert texts == [x, y];
    assert texts[1..] == [y];
    assert Join(texts, ",") == x + "," + y;
    assert "c_" + name + "(" + (x + "," + y) + ")" == "c_" + name + "(" + x + "," + y + ")";
  }

  /** `foo(z)` is rejected, and the error names `foo`. */
  lemma UnknownFunctionExample()
    ensures Compilation(FunctionNode("foo", [SymbolNode("z")]), ["z"], AsWritten) == Err(InvalidFunction("foo"))
  {
    FooUnknown();
    CallCompilationCases(FunctionNode("foo", [SymbolNode("z")]), ["z"], AsWritten);
  }

  /** The number of arguments is not checked: `sin(z, z)` compiles to `c_sin(z,z)`. */
  lemma ArityNotChecked()
    ensures Compilation(FunctionNode("sin", [SymbolNode("z"), SymbolNode("z")]), ["z"], AsWritten) == Ok("c_sin(z,z)")
  {
    AsWrittenExampleNames();
    ZIsNoSymbol();
    ArityNotCheckedIn(AsWritten);
  }

  /** The same in any scope where `sin` is a function and `z` no symbol. */
  lemma ArityNotCheckedIn(scope: Scope)
    requires "sin" in scope.functions && "z" !in scope.symbols
    ensures Compilation(FunctionNode("sin", [SymbolNode("z"), SymbolNode("z")]), ["z"], scope) == Ok("c_sin(z,z)")
  {
    CallOnTwoVariables("sin", "z", "z", ["z"], scope);
    assert "c_" + "sin" + "(" + "z" + "," + "z" + ")" == "c_sin(z,z)";
  }

  /** A named constant wins over a variable of the same name. */
  lemma ConstantBeforeVariable()
    ensures Compilation(SymbolNode("pi"), ["pi"], AsWritten) == Ok("vec2(3.14159265358,0.)")
  {
  }

  /**
   * The leaves: a named constant gives its literal, a bound variable its
   * own name and an unbound one an error quoting it; a number `v` gives
   * `vec2(v, 0)`; any other node kind is rejected with its text.
   */
  lemma LeafCompilation(name: string, v: string, t: string, vars: seq<string>, scope: Scope)
    ensures name in scope.symbols ==> Compilation(SymbolNode(name), vars, scope) == Ok(scope.symbols[name])
    ensures name !in scope.symbols && name in vars ==> Compilation(SymbolNode(name), vars, scope) == Ok(name)
    ensures name !in scope.symbols && name !in vars ==>
      Compilation(SymbolNode(name), vars, scope) == Err(InvalidSymbol(name)) &&
      "Invalid symbol name: '" + name <= Message(InvalidSymbol(name))
    ensures Compilation(ConstantNode(v), vars, scope) == Ok("vec2(" + v + ", 0)")
    ensures Compilation(OtherNode(t), vars, scope) == Err(UnknownNode(t))
    ensures Message(UnknownNode(t)) == "Unknown node: " + t
  {
  }

  /** The names of all calls in the tree. */
  function CallNames(tree: Node): set<string>
    decreases tree, 1
  {
    match tree
    case FunctionNode(_, args) => {tree.fn} + ArgsCallNames(tree, args)
    case OperatorNode(_, args) => {tree.fn} + ArgsCallNames(tree, args)
    case ParenthesisNode(c) => CallNames(c)
    case _ => {}
  }

  /** The names of all calls in the arguments `args` (a prefix of the node's). */
  function ArgsCallNames(tree: Node, args: seq<Node>): set<string>
    requires (tree.FunctionNode? || tree.OperatorNode?) && args <= tree.args
    decreases tree, 0, |args|
  {
    if args == [] then {} else ArgsCallNames(tree, args[..|args| - 1]) + CallNames(args[|args| - 1])
  }

  /** No constant of the tree prints with a `c_` in it (no number does). */
  predicate PlainConstants(tree: Node)
    decreases tree
  {
    match tree
    case ConstantNode(v) => NoMarker(v)
    case FunctionNode(_, args) => forall i :: 0 <= i < |args| ==> PlainConstants(args[i])
    case OperatorNode(_, args) => forall i :: 0 <= i < |args| ==> PlainConstants(args[i])
    case ParenthesisNode(c) => PlainConstants(c)
    case _ => true
  }

  /** The literals of the named constants contain no `c_`. */
  lemma SymbolsPlain()
    ensures forall k :: k in Symbols ==> NoMarker(Symbols[k])
  {
    forall k | k in Symbols ensures NoMarker(Symbols[k]) {
      assert '_' !in Symbols[k];
      NoUnderscoreNoMarker(Symbols[k]);
    }
  }

  /**
   * The catalog functions a compiled expression calls, found by scanning
   * its text for `c_`, are exactly the calls of the tree, and all of them
   * are known.
   */
  lemma {:induction false} RefsOfCompilation(tree: Node, vars: seq<string>, scope: Scope)
    requires forall v :: v in vars ==> NoMarker(v)
    requires forall k :: k in scope.symbols ==> NoMarker(scope.symbols[k])
    requires forall n :: n in scope.functions ==> PieceOk(Ref(n))
    requires PlainConstants(tree)
    requires Compilation(tree, vars, scope).Ok?
    ensures Refs(Compilation(tree, vars, scope).value) == CallNames(tree)
    ensures CallNames(tree) <= scope.functions
    decreases tree, 1
  {
    match tree
    case SymbolNode(n) =>
      NoMarkerNoRefs(Compilation(tree, vars, scope).value);
    case ConstantNode(v) =>
      var t := v + ", 0)";
      assert "vec2(" + v + ", 0)" == "vec2(" + t;
      NoUnderscoreNoMarker("vec2(");
      RefsSkipText("vec2(", t);
      RefsConcat(v, ", 0)");
      NoMarkerNoRefs(v);
      NoUnderscoreNoMarker(", 0)");
      NoMarkerNoRefs(", 0)");
    case FunctionNode(_, _) => CallRefs(tree, vars, scope);
    case OperatorNode(_, _) => CallRefs(tree, vars, scope);
    case ParenthesisNode(c) => RefsOfCompilation(c, vars, scope);
    case OtherNode(_) =>
  }

  lemma {:induction false} CallRefs(tree: Node, vars: seq<string>, scope: Scope)
    requires tree.FunctionNode? || tree.OperatorNode?
    requires forall v :: v in vars ==> NoMarker(v)
    requires forall k :: k in scope.symbols ==> NoMarker(scope.symbols[k])
    requires forall n :: n in scope.functions ==> PieceOk(Ref(n))
    requires PlainConstants(tree)
    requires Compilation(tree, vars, scope).Ok?
    ensures Refs(Compilation(tree, vars, scope).value) == CallNames(tree)
    ensures CallNames(tree) <= scope.functions
    decreases tree, 0
  {
    CallArgumentsCompile(tree, vars, scope);
    CallCompilationCases(tree, vars, scope);
    ArgsRefs(tree, tree.args, vars, scope);
    CallTextRefs(tree.fn, Join(ArgumentTexts(tree, vars, scope), ","));
  }

  /** A call that compiles has a known name and arguments that all compile. */
  lemma CallArgumentsCompile(tree: Node, vars: seq<string>, scope: Scope)
    requires tree.FunctionNode? || tree.OperatorNode?
    requires Compilation(tree, vars, scope).Ok?
    ensures tree.fn in scope.functions
    ensures forall i :: 0 <= i < |tree.args| ==> Compilation(tree.args[i], vars, scope).Ok?
  {
    var rs := Results(tree, tree.args, vars, scope);
    JoinResultsCases(rs);
    forall i | 0 <= i < |tree.args| ensures Compilation(tree.args[i], vars, scope).Ok? {
      ResultsAt(tree, tree.args, i, vars, scope);
    }
  }

  /** The text of a call references the callee and whatever its arguments reference. */
  lemma CallTextRefs(name: string, a: string)
    requires PieceOk(Ref(name))
    ensures Refs("c_" + name + "(" + a + ")") == {name} + Refs(a)
  {
    assert "c_" + name + "(" + a + ")" == "c_" + name + ("(" + a + ")");
    RefsOfReference(name, "(" + a + ")");
    assert "(" + a + ")" == "(" + (a + ")");
    NoUnderscoreNoMarker("(");
    RefsSkipText("(", a + ")");
    RefsConcat(a, ")");
    NoUnderscoreNoMarker(")");
    NoMarkerNoRefs(")");
  }

  /** Joining one more text with `,` adds that text's references. */
  lemma JoinRefsSnoc(ts: seq<string>, text: string)
    ensures Refs(Join(ts + [text], ",")) == Refs(Join(ts, ",")) + Refs(text)
  {
    JoinSnoc(ts, text, ",");
    if ts == [] {
      NoMarkerNoRefs("");
    } else {
      var front := Join(ts, ",");
      assert front + "," + text == front + ("," + text);
      RefsConcat(front, "," + text);
      NoUnderscoreNoMarker(",");
      RefsSkipText(",", text);
    }
  }

  /** The texts of one more argument's result. */
  lemma TextsOfResultsSnoc(tree: Node, args: seq<Node>, vars: seq<string>, scope: Scope)
    requires (tree.FunctionNode? || tree.OperatorNode?) && args <= tree.args && args != []
    requires Compilation(args[|args| - 1], vars, scope).Ok?
    ensures Texts(Results(tree, args, vars, scope)) ==
      Texts(Results(tree, args[..|args| - 1], vars, scope)) + [Compilation(args[|args| - 1], vars, scope).value]
  {
    var rs := Results(tree, args, vars, scope);
    assert rs[..|rs| - 1] == Results(tree, args[..|args| - 1], vars, scope);
  }

  lemma {:induction false} ArgsRefs(tree: Node, args: seq<Node>, vars: seq<string>, scope: Scope)
    requires (tree.FunctionNode? || tree.OperatorNode?) && args <= tree.args
    requires forall v :: v in vars ==> NoMarker(v)
    requires forall k :: k in scope.symbols ==> NoMarker(scope.symbols[k])
    requires forall n :: n in scope.functions ==> PieceOk(Ref(n))
    requires PlainConstants(tree)
    requires forall i :: 0 <= i < |args| ==> Compilation(args[i], vars, scope).Ok?
    ensures Refs(Join(Texts(Results(tree, args, vars, scope)), ",")) == ArgsCallNames(tree, args)
    ensures ArgsCallNames(tree, args) <= scope.functions
    decreases tree, 0, |args|
  {
    if args == [] {
      NoMarkerNoRefs("");
    } else {
      var init := args[..|args| - 1];
      var last := args[|args| - 1];
      assert last == tree.args[|args| - 1];
      ArgsRefs(tree, init, vars, scope);
      RefsOfCompilation(last, vars, scope);
      TextsOfResultsSnoc(tree, args, vars, scope);
      JoinRefsSnoc(Texts(Results(tree, init, vars, scope)), Compilation(last, vars, scope).value);
    }
  }

  /** The tree with every parenthesis node replaced by its content. */
  function Unparenthesized(tree: Node): Node
    decreases tree, 1
  {
    match tree
    case FunctionNode(n, args) => FunctionNode(n, UnparenthesizedArgs(tree, args))
    case OperatorNode(n, args) => OperatorNode(n, UnparenthesizedArgs(tree, args))
    case ParenthesisNode(c) => Unparenthesized(c)
    case _ => tree
  }

  function UnparenthesizedArgs(tree: Node, args: seq<Node>): (r: seq<Node>)
    requires (tree.FunctionNode? || tree.OperatorNode?) && args <= tree.args
    ensures |r| == |args|
    decreases tree, 0, |args|
  {
    if args == [] then [] else UnparenthesizedArgs(tree, args[..|args| - 1]) + [Unparenthesized(args[|args| - 1])]
  }

  lemma {:induction false} UnparenthesizedArgsAt(tree: Node, args: seq<Node>, i: nat)
    requires (tree.FunctionNode? || tree.OperatorNode?) && args <= tree.args && i < |args|
    ensures UnparenthesizedArgs(tree, args)[i] == Unparenthesized(args[i])
    decreases |args|
  {
    if i < |args| - 1 {
      UnparenthesizedArgsAt(tree, args[..|args| - 1], i);
    }
  }

  /** Parentheses make no difference anywhere in a tree: a parenthesis node compiles as its content. */
  lemma {:induction false} ParenthesesTransparent(tree: Node, vars: seq<string>, scope: Scope)
    ensures Compilation(Unparenthesized(tree), vars, scope) == Compilation(tree, vars, scope)
    decreases tree, 1
  {
    match tree
    case FunctionNode(_, _) => CallParenthesesTransparent(tree, vars, scope);
    case OperatorNode(_, _) => CallParenthesesTransparent(tree, vars, scope);
    case ParenthesisNode(c) => ParenthesesTransparent(c, vars, scope);
    case _ =>
  }

  lemma {:induction false} CallParenthesesTransparent(tree: Node, vars: seq<string>, scope: Scope)
    requires tree.FunctionNode? || tree.OperatorNode?
    ensures Compilation(Unparenthesized(tree), vars, scope) == Compilation(tree, vars, scope)
    decreases tree, 0
  {
    var stripped := Unparenthesized(tree);
    assert stripped.fn == tree.fn && stripped.args == UnparenthesizedArgs(tree, tree.args);
    var rs := Results(tree, tree.args, vars, scope);
    var rs' := Results(stripped, stripped.args, vars, scope);
    forall i | 0 <= i < |tree.args| ensures rs'[i] == rs[i] {
      ResultsAt(tree, tree.args, i, vars, scope);
      ResultsAt(stripped, stripped.args, i, vars, scope);
      UnparenthesizedArgsAt(tree, tree.args, i);
      ParenthesesTransparent(tree.args[i], vars, scope);
    }
    assert rs' == rs;
  }

  /**
   * Every catalog function a compiled expression calls has a line in the
   * header of a catalog (`CatalogIsCatalog`: `complex_functions` is one),
   * so `shaderHeader` followed by the expression has no undefined call,
   * when names are looked up among the own keys of `symbols` and
   * `complex_functions`.
   */
  lemma CompiledCallsAreInHeader(cat: Obj<Entry>, expr: Node, vars: seq<string>)
    requires IsCatalog(cat)
    requires forall v :: v in vars ==> NoMarker(v)
    requires PlainConstants(expr)
    requires Compilation(expr, vars, Corrected).Ok?
    ensures forall x :: x in Refs(Compilation(expr, vars, Corrected).value) ==>
      exists j :: 0 <= j < |HeaderOrder(cat)| && HeaderOrder(cat)[j].0 == x
  {
    CatalogKeys(cat);
    CatalogNamesAreIdentifiers();
    SymbolsPlain();
    CompiledCallsHaveLines(cat, Corrected, expr, vars);
  }

  /** `compile` as written has the same guarantee for an expression naming no inherited property. */
  lemma AsWrittenCallsAreInHeader(cat: Obj<Entry>, expr: Node, vars: seq<string>)
    requires IsCatalog(cat)
    requires forall v :: v in vars ==> NoMarker(v)
    requires PlainConstants(expr) && AvoidsInherited(expr)
    requires Compilation(expr, vars, AsWritten).Ok?
    ensures forall x :: x in Refs(Compilation(expr, vars, AsWritten).value) ==>
      exists j :: 0 <= j < |HeaderOrder(cat)| && HeaderOrder(cat)[j].0 == x
  {
    ScopesAgree(expr, vars);
    CompiledCallsAreInHeader(cat, expr, vars);
  }

  /** Against the names of a catalog, every function a compiled expression calls has a header line. */
  lemma CompiledCallsHaveLines(cat: Obj<Entry>, scope: Scope, expr: Node, vars: seq<string>)
    requires cat.Consistent() && cat.vals.Keys == scope.functions
    requires forall n :: n in scope.functions ==> PieceOk(Ref(n))
    requires forall v :: v in vars ==> NoMarker(v)
    requires forall k :: k in scope.symbols ==> NoMarker(scope.symbols[k])
    requires PlainConstants(expr)
    requires Compilation(expr, vars, scope).Ok?
    ensures forall x :: x in Refs(Compilation(expr, vars, scope).value) ==>
      exists j :: 0 <= j < |HeaderOrder(cat)| && HeaderOrder(cat)[j].0 == x
  {
    RefsOfCompilation(expr, vars, scope);
    var order := HeaderOrder(cat);
    forall x | x in Refs(Compilation(expr, vars, scope).value)
      ensures exists j :: 0 <= j < |order| && order[j].0 == x
    {
      HeaderOrderMembers(cat, x, cat.vals[x]);
      var j :| 0 <= j < |order| && order[j] == (x, cat.vals[x]);
    }
  }


  // ---------------------------------------------------------------------
  // The `!== undefined` tests on inherited properties
  // ---------------------------------------------------------------------

  /** The properties every plain JavaScript object inherits from `Object.prototype`. */
  const InheritedNames: set<string> := {
    "constructor", "hasOwnProperty", "isPrototypeOf", "propertyIsEnumerable", "toString",
    "toLocaleString", "valueOf", "__proto__", "__defineGetter__", "__defineSetter__",
    "__lookupGetter__", "__lookupSetter__"}

  /**
   * The string an inherited property of `symbols` turns into when it is
   * appended to the call text: `Object` for `constructor`, the prototype
   * itself for `__proto__`, and a native method for every other name.
   */
  function InheritedText(n: string): string {
    if n == "constructor" then "function Object() { [native code] }"
    else if n == "__proto__" then "[object Object]"
    else "function " + n + "() { [native code] }"
  }

  /** What `symbols[name] !== undefined` finds as the test is written: own and inherited properties. */
  const AsWrittenSymbols: map<string, string> := (map n | n in InheritedNames :: InheritedText(n)) + Symbols

  /** The names for which `complex_functions[name] !== undefined` holds as the test is written. */
  const AsWrittenKnown: set<string> := CatalogNameSet + InheritedNames

  /** The own and the inherited symbols of `AsWrittenSymbols`. */
  lemma AsWrittenSymbolsLookup(n: string)
    ensures n in AsWrittenSymbols <==> n in Symbols || n in InheritedNames
    ensures n in Symbols ==> AsWrittenSymbols[n] == Symbols[n]
    ensures n !in Symbols && n in InheritedNames ==> AsWrittenSymbols[n] == InheritedText(n)
  {
  }

  /** The variables the examples use are no symbols, as written. */
  lemma ZIsNoSymbol()
    ensures "z" !in AsWritten.symbols && "w" !in AsWritten.symbols
  {
    OneLetterNames();
    AsWrittenSymbolsLookup("z");
    AsWrittenSymbolsLookup("w");
  }

  lemma OneLetterNames()
    ensures "z" !in InheritedNames && "w" !in InheritedNames
    ensures "z" !in Symbols && "w" !in Symbols
  {
  }

  /** The functions the examples below call pass the test as written. */
  lemma AsWrittenExampleNames()
    ensures "sin" in AsWritten.functions && "toString" in AsWritten.functions
    ensures "multiply" in AsWritten.functions
  {
    assert "sin" in CatalogNameSet && "multiply" in CatalogNameSet;
    assert "toString" in InheritedNames;
  }

  /** `foo` is neither a catalog function nor an inherited property. */
  lemma FooUnknown()
    ensures "foo" !in AsWritten.functions
  {
    FooNotInCatalog();
    FooNotInherited();
  }

  lemma FooNotInCatalog()
    ensures "foo" !in CatalogNameSet
  {
  }

  lemma FooNotInherited()
    ensures "foo" !in InheritedNames
  {
  }

  /** No named constant shares its name with an inherited property. */
  lemma InheritedNotSymbols(n: string)
    requires n in InheritedNames
    ensures n !in Symbols
  {
  }

  /** The lookups of `compileTree` as written. */
  const AsWritten: Scope := Scope(AsWrittenSymbols, AsWrittenKnown)

  /** The lookups restricted to own properties, as `symbols` and `complex_functions` are meant. */
  const Corrected: Scope := Scope(Symbols, CatalogNameSet)

  /** The tree names no symbol and calls no function that a plain object inherits. */
  predicate AvoidsInherited(tree: Node)
    decreases tree
  {
    match tree
    case SymbolNode(n) => n !in InheritedNames
    case FunctionNode(n, args) => n !in InheritedNames && forall i :: 0 <= i < |args| ==> AvoidsInherited(args[i])
    case OperatorNode(n, args) => n !in InheritedNames && forall i :: 0 <= i < |args| ==> AvoidsInherited(args[i])
    case ParenthesisNode(c) => AvoidsInherited(c)
    case _ => true
  }

  /** Apart from the inherited names, both scopes hold the same names and texts. */
  lemma ScopesAgreeOn(n: string)
    requires n !in InheritedNames
    ensures n in AsWritten.symbols <==> n in Corrected.symbols
    ensures n in Corrected.symbols ==> AsWritten.symbols[n] == Corrected.symbols[n]
    ensures n in AsWritten.functions <==> n in Corrected.functions
  {
  }

  /** A tree that names nothing inherited compiles the same as written and as corrected. */
  lemma {:induction false} ScopesAgree(tree: Node, vars: seq<string>)
    requires AvoidsInherited(tree)
    ensures Compilation(tree, vars, AsWritten) == Compilation(tree, vars, Corrected)
    decreases tree, 1
  {
    match tree
    case SymbolNode(n) => ScopesAgreeOn(n);
    case FunctionNode(_, _) => CallScopesAgree(tree, vars);
    case OperatorNode(_, _) => CallScopesAgree(tree, vars);
    case ParenthesisNode(c) => ScopesAgree(c, vars);
    case _ =>
  }

  lemma {:induction false} CallScopesAgree(tree: Node, vars: seq<string>)
    requires (tree.FunctionNode? || tree.OperatorNode?) && AvoidsInherited(tree)
    ensures Compilation(tree, vars, AsWritten) == Compilation(tree, vars, Corrected)
    decreases tree, 0
  {
    ScopesAgreeOn(tree.fn);
    var rs := Results(tree, tree.args, vars, AsWritten);
    var rs' := Results(tree, tree.args, vars, Corrected);
    forall i | 0 <= i < |tree.args| ensures rs[i] == rs'[i] {
      ResultsAt(tree, tree.args, i, vars, AsWritten);
      ResultsAt(tree, tree.args, i, vars, Corrected);
      ScopesAgree(tree.args[i], vars);
    }
    assert rs == rs';
  }

  /**
   * An inherited name used as a symbol: as written it compiles to the
   * printed inherited value, even when it is also a variable; looked up
   * among own keys it is a variable or an error naming it.
   */
  lemma InheritedSymbolLookup(n: string, vars: seq<string>)
    requires n in InheritedNames
    ensures Compilation(SymbolNode(n), vars, AsWritten) == Ok(InheritedText(n))
    ensures n in vars ==> Compilation(SymbolNode(n), vars, Corrected) == Ok(n)
    ensures n !in vars ==> Compilation(SymbolNode(n), vars, Corrected) == Err(InvalidSymbol(n))
  {
    InheritedNotSymbols(n);
    AsWrittenSymbolsLookup(n);
  }

  /**
   * As written, `sin(toString)` compiles, and its argument is the printed
   * native method, which is not GLSL.
   */
  lemma InheritedSymbolCompilesAsWritten()
    ensures Compilation(FunctionNode("sin", [SymbolNode("toString")]), ["z"], AsWritten)
      == Ok("c_sin(" + InheritedText("toString") + ")")
    ensures InheritedText("toString") == "function toString() { [native code] }"
  {
    ToStringPrinted();
    AsWrittenExampleNames();
    ToStringInherited();
    InheritedSymbolLookup("toString", ["z"]);
    SinOfSymbolIn(AsWritten, InheritedText("toString"));
  }

  /** In any scope where `sin` is a function and `toString` a symbol with text `t`, `sin(toString)` gives `c_sin(t)`. */
  lemma SinOfSymbolIn(scope: Scope, t: string)
    requires "sin" in scope.functions && Compilation(SymbolNode("toString"), ["z"], scope) == Ok(t)
    ensures Compilation(FunctionNode("sin", [SymbolNode("toString")]), ["z"], scope) == Ok("c_sin(" + t + ")")
  {
    CallOnSymbol("sin", "toString", ["z"], scope);
    assert "c_" + "sin" + "(" + t + ")" == "c_sin(" + t + ")";
  }

  lemma ToStringInherited()
    ensures "toString" in InheritedNames
  {
  }

  /** The text `toString` compiles to is the printed native method. */
  lemma ToStringPrinted()
    ensures InheritedText("toString") == "function toString() { [native code] }"
  {
  }

  /** Looking symbols up among own keys only, `sin(toString)` is rejected and the error names `toString`. */
  lemma InheritedSymbolRejected()
    ensures Compilation(FunctionNode("sin", [SymbolNode("toString")]), ["z"], Corrected) == Err(InvalidSymbol("toString"))
  {
    var tree := FunctionNode("sin", [SymbolNode("toString")]);
    assert "sin" in Corrected.functions;
    InheritedSymbolLookup("toString", ["z"]);
    CallCompilationCases(tree, ["z"], Corrected);
    assert FirstFailing(tree, 0, ["z"], Corrected);
  }

  /** A name has a line in `shaderHeader` exactly when it is one of the catalog's names. */
  lemma HeaderNamesIn(cat: Obj<Entry>, n: string)
    requires IsCatalog(cat)
    ensures (exists j :: 0 <= j < |HeaderOrder(cat)| && HeaderOrder(cat)[j].0 == n) <==> n in CatalogNameSet
  {
    CatalogKeys(cat);
    var order := HeaderOrder(cat);
    if n in CatalogNameSet {
      HeaderOrderMembers(cat, n, cat.vals[n]);
      var j :| 0 <= j < |order| && order[j] == (n, cat.vals[n]);
    }
    forall j | 0 <= j < |order| && order[j].0 == n ensures n in CatalogNameSet {
      var (m, e) := order[j];
      HeaderOrderMembers(cat, m, e);
    }
  }

  /**
   * As written, `toString(z)` passes the function-name test and compiles
   * to a call of `c_toString` ...
   */
  lemma InheritedNameCompilesAsWritten()
    ensures Compilation(FunctionNode("toString", [SymbolNode("z")]), ["z"], AsWritten) == Ok("c_toString(z)")
  {
    AsWrittenExampleNames();
    ZIsNoSymbol();
    ToStringCallIn(AsWritten);
  }

  /** The same in any scope where `toString` is a function and `z` no symbol. */
  lemma ToStringCallIn(scope: Scope)
    requires "toString" in scope.functions && "z" !in scope.symbols
    ensures Compilation(FunctionNode("toString", [SymbolNode("z")]), ["z"], scope) == Ok("c_toString(z)")
  {
    CallOnVariable("toString", "z", ["z"], scope);
    assert "c_" + "toString" + "(" + "z" + ")" == "c_toString(z)";
  }

  /** ... which no line of `shaderHeader` defines. */
  lemma NoHeaderLineForToString()
    ensures forall j :: 0 <= j < |HeaderOrder(Catalog())| ==> HeaderOrder(Catalog())[j].0 != "toString"
  {
    CatalogIsCatalog();
    ToStringNotInCatalog();
    HeaderNamesIn(Catalog(), "toString");
  }

  lemma ToStringNotInCatalog()
    ensures "toString" !in CatalogNameSet
  {
  }

  /** Testing own properties only, `toString(z)` is rejected as an unknown function. */
  lemma InheritedNameRejected()
    ensures Compilation(FunctionNode("toString", [SymbolNode("z")]), ["z"], Corrected) == Err(InvalidFunction("toString"))
  {
    assert "toString" !in CatalogNameSet;
  }
}
