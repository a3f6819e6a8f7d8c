# romeo: a verified model of the fractal explorer's core

romeo is a browser fractal explorer. It draws Mandelbrot and Julia sets,
Newton basins for a user-typed function, and Littlewood polynomial roots.
Most of its logic is small integer, index and string computation, plus
iteration over complex numbers, written as GLSL text inside TypeScript
template strings. This project models that logic in Dafny and proves what
it promises:

- **The expression compiler** (`complexParser.ts`):
  - the catalog of GLSL complex functions: the two tables, the co-function
    loop, the insertion loops and the priority (`order`) assignments;
  - `compileTree` / `compile`, over a datatype of mathjs nodes. The two
    name lookups are a `Scope`: `AsWritten` finds own and inherited
    properties, as `!== undefined` does, and `Corrected` finds own
    properties only. `compile` uses `AsWritten`; the header guarantee is
    proved for `Corrected` and carried over to every expression that names
    no inherited property;
  - `shaderHeader`, with the proof that it has no forward reference: every
    `c_X` a header line calls is defined on that line or an earlier one.
- **Colour schemes** (`ColorScheme.ts`):
  - hex parsing by byte extraction;
  - the cyclic `get`;
  - the memoised uniform table, as a class whose method fills a cache
    field;
  - the GLSL `colorScheme` lookup, with its array bound and its agreement
    with `get`;
  - `bidirectional`;
  - the `createScheme` registry.
- **The escape-time engines**:
  - Mandelbrot's fixed-budget loop;
  - Julia's resumable per-pixel state machine, with the host's ping-pong
    buffers and `stepsExecuted` counter as a class.
- **Newton's loop control** over abstract `f` and `df`, with its colouring
  branches and the easing functions.
- **Littlewood polynomial encoding**:
  - the bit-trick `degree`;
  - Horner's-rule `evaluate`;
  - the root-texture addressing and its inverse;
  - the index lists.
- **The bounded stack search of `LittlewoodProven.ts`**, over an array of
  21 items.
- **The view mapping** (`ComplexPlane.ts`), **the axes geometry**
  (`Axes.ts`) and **the vector helpers** (`vec2.ts`).

Reals stand for floating-point numbers. The escape test `cMod(z) > 2.0` is written
`x*x + y*y > 4`, which is equivalent and needs no square root. Code that changes state step by step (loops, pushes, field
updates) is modelled by methods, each proved against a function that
specifies it.

Each module corresponds to one source file, plus four modules of support:

| module | models |
|---|---|
| `Wrappers` | the `Option` and `Result` types |
| `Vec2` | `vec2.ts` |
| `Complex` | the shaders' complex arithmetic |
| `StableSort` | the stable `Array.prototype.sort` behind `shaderHeader` |
| `BodyText` | GLSL bodies as text with marked `c_` references, and the scan that finds them again |
| `ColorScheme` | `ColorScheme.ts` |
| `ComplexParser` | `complexParser.ts` |
| `ComplexPlane` | `ComplexPlane.ts` |
| `Mandelbrot` | `Mandelbrot.ts` |
| `Julia` | `Julia.ts` |
| `Newton` | `Newton.ts` |
| `Littlewood` | `Littlewood.ts` |
| `LittlewoodProven` | `LittlewoodProven.ts` |
| `Axes` | `Axes.ts` |

## Model

| member | source | states |
|---|---|---|
| Vec2.Sum | src/util/vec2.ts:19-26 | the accumulator loop returns the left-to-right total of its arguments, and [0, 0] for none |
| Vec2.TotalIsComponentwise | src/util/vec2.ts:19-26 | the total is the sum of the x components and the sum of the y components |
| Vec2.TotalAppend | src/util/vec2.ts:19-26 | summing a concatenation is adding the two sums |
| Vec2.MultiplyScalarTotal | src/util/vec2.ts:7-26 | scaling a sum equals summing the scaled vectors |
| Vec2.NegateTotal | src/util/vec2.ts:19-30 | negating a sum equals summing the negated vectors |
| Vec2.NegateInvolutive | src/util/vec2.ts:28-30 | negating twice gives the vector back |
| Vec2.DotSymmetric | src/util/vec2.ts:15-17 | dot(a, b) == dot(b, a) |
| Vec2.DotSelfNonNegative | src/util/vec2.ts:15-17 | dot(a, a) >= 0 |
| Vec2.MultiplyScalarOne | src/util/vec2.ts:7-9 | scaling by 1 changes nothing |
| Vec2.MultiplyScalarCompose | src/util/vec2.ts:7-9 | scaling by f and then by g is scaling by f*g |
| Complex.OrbitShift | src/shaders/Mandelbrot.ts:33-39 | starting the iteration one step later shifts the orbit by one |
| Complex.StepFromZero | src/shaders/Mandelbrot.ts:30-34 | the first update from z = 0 gives c |
| Complex.CMulCommutes | src/shaders/Mandelbrot.ts:16-18 | cMul is commutative |
| Complex.ModSqMul | src/shaders/LittlewoodProven.ts:22-24 | the modulus of a cmul product is the product of the moduli |
| Complex.CInvIsReciprocal | src/shaders/LittlewoodProven.ts:26-28 | a * cinv(a) = 1 for a non-zero a |
| Complex.ModSqInv | src/shaders/LittlewoodProven.ts:26-28 | cinv maps modulus r to modulus 1/r |
| StableSort.SortDescending | src/util/complexParser.ts:105 | the sort returns a permutation of its input |
| StableSort.Insert | src/util/complexParser.ts:105 | one insertion step adds exactly one element and keeps the rest |
| StableSort.SortDescendingIsDescending | src/util/complexParser.ts:105 | the sort output is ordered by descending key |
| StableSort.InsertDescending | src/util/complexParser.ts:105 | inserting into a descending list keeps it descending |
| StableSort.SortDescendingMembers | src/util/complexParser.ts:105 | an element is in the output exactly when it is in the input |
| StableSort.SortMapCommutes | src/util/complexParser.ts:101-106 | mapping entries to [order, line] pairs and then sorting equals sorting the entries and then mapping, because equal keys keep their order |
| StableSort.InsertMapCommutes | src/util/complexParser.ts:101-106 | an insertion step commutes with a key-preserving map |
| BodyText.Ident | src/util/complexParser.ts:79 | the identifier after `c_` is the longest identifier-character prefix |
| BodyText.RefsOfRender | src/util/complexParser.ts:3-26 | scanning a rendered body for `c_` finds exactly the function references it was written with |
| BodyText.RefsConcat | src/util/complexParser.ts:79-84 | scanning two texts glued together finds the references of both, when the second cannot continue a name |
| ComplexParser.Obj.Put | src/util/complexParser.ts:40-41 | after `obj[k] = v`, `k` gives `v` and every other key keeps its value; the old key list is a prefix of the new one, which grows by `k` at the end exactly when `k` is new |
| ComplexParser.PutKeepsShape | src/util/complexParser.ts:40-41 | assignment keeps the key list an exact, duplicate-free listing of the own properties |
| ComplexParser.AddCofunctions | src/util/complexParser.ts:35-42 | the co-function loop runs its rounds over the three pairs, in order |
| ComplexParser.UnaryFunctionsUnrolled | src/util/complexParser.ts:35-42 | the co-function loop is exactly the three rounds sin/csc, cos/sec and tan/cot |
| ComplexParser.AddCofunctionVals | src/util/complexParser.ts:39-42 | one round sets `cofunc` to `c_inverse(c_func(a))` and `cofunc + "h"` to `c_inverse(c_funch(a))` |
| ComplexParser.UnaryFunctionsVals | src/util/complexParser.ts:12-42 | the unary table after the loop holds the thirteen literal bodies and the six reciprocals |
| ComplexParser.UnaryFunctionsNames | src/util/complexParser.ts:12-42 | the unary table has exactly nineteen names |
| ComplexParser.UnaryFunctionsConsistent | src/util/complexParser.ts:12-42 | the unary table's key order lists exactly its own properties |
| ComplexParser.BinaryFunctionsNames | src/util/complexParser.ts:3-10 | the binary table has exactly the names add, subtract, multiply, divide and pow |
| ComplexParser.UnaryNotBinary | src/util/complexParser.ts:3-26 | no name is in both tables |
| ComplexParser.InsertAllAt | src/util/complexParser.ts:48-53 | an insertion loop adds one entry with priority 0 and the given arity per inserted key, and keeps the other entries |
| ComplexParser.InsertAllShape | src/util/complexParser.ts:48-53 | insertion keeps the key list exact and duplicate-free |
| ComplexParser.InsertBoth | src/util/complexParser.ts:48-53 | after both insertion loops the catalog's key list is exact and duplicate-free |
| ComplexParser.InsertBothVals | src/util/complexParser.ts:48-53 | the entries after both loops: unary bodies with arity 1, binary bodies with arity 2, and a binary entry replaces a unary one of the same name |
| ComplexParser.SetOrder | src/util/complexParser.ts:55-60 | an order assignment keeps the catalog's keys and their order |
| ComplexParser.TopOrders | src/util/complexParser.ts:55-60 | the six priority-100 statements keep the catalog's keys |
| ComplexParser.TopOrdersVals | src/util/complexParser.ts:55-60 | exactly divide, multiply, multiply_i, log, exp and inverse get priority 100; the other entries are unchanged |
| ComplexParser.TrigonometricOrders | src/util/complexParser.ts:61-64 | the trigonometric loop keeps the catalog's keys |
| ComplexParser.TrigonometricOrdersVals | src/util/complexParser.ts:61-64 | in the trigonometric loop the last assignment to a name wins |
| ComplexParser.TrigonometricNamesApart | src/util/complexParser.ts:61-64 | sin, cos and tan never coincide with the hyperbolic names sinh, cosh and tanh |
| ComplexParser.Orders | src/util/complexParser.ts:55-64 | all the priority statements give every entry its final priority and change nothing else |
| ComplexParser.OrderIs | src/util/complexParser.ts:55-64 | the final priorities: 100 for the six, 20 for sinh/cosh/tanh, 10 for sin/cos/tan, 0 otherwise |
| ComplexParser.CatalogOf | src/util/complexParser.ts:44-64 | the top-level statements build an exact catalog of both tables' names, each with its body, its arity and its final priority |
| ComplexParser.Catalog | src/util/complexParser.ts:44-64 | `complex_functions` lists its own properties exactly and without duplicates |
| ComplexParser.CatalogIsCatalog | src/util/complexParser.ts:44-64 | `complex_functions` is what the top-level statements leave |
| ComplexParser.CatalogKeys | src/util/complexParser.ts:44-53 | the catalog has exactly the nineteen unary and five binary names |
| ComplexParser.CatalogArity | src/util/complexParser.ts:48-53 | every unary function takes one argument and every binary function takes two |
| ComplexParser.ArityIn | src/util/complexParser.ts:48-53 | in any catalog the statements build, unary names take one argument and binary names two |
| ComplexParser.UnaryEntry | src/util/complexParser.ts:48-64 | a unary name has its unary body, arity 1 and its final priority |
| ComplexParser.CofunctionShape | src/util/complexParser.ts:40-41 | a reciprocal body is well formed and calls exactly `inverse` and its base function |
| ComplexParser.CofunctionEntryOf | src/util/complexParser.ts:35-64 | a reciprocal that is not binary and gets no priority is a unary catalog entry with priority 0 that inverts its base function |
| ComplexParser.CofunctionEntries | src/util/complexParser.ts:35-64 | csc, csch, sec, sech, cot and coth are unary entries of priority 0 whose bodies are `c_inverse` of sin, sinh, cos, cosh, tan and tanh |
| ComplexParser.PowBodyRefs | src/util/complexParser.ts:9 | pow calls exp, multiply and log |
| ComplexParser.SinhBodyRefs | src/util/complexParser.ts:18 | sinh calls exp and inverse |
| ComplexParser.CoshBodyRefs | src/util/complexParser.ts:19 | cosh calls exp and inverse |
| ComplexParser.TanhBodyRefs | src/util/complexParser.ts:20 | tanh calls exp, inverse and divide |
| ComplexParser.SinBodyRefs | src/util/complexParser.ts:21 | sin calls multiply_i and sinh |
| ComplexParser.CosBodyRefs | src/util/complexParser.ts:22 | cos calls cosh and multiply_i |
| ComplexParser.TanBodyRefs | src/util/complexParser.ts:23 | tan calls multiply_i and tanh |
| ComplexParser.SqrtBodyRefs | src/util/complexParser.ts:24 | sqrt calls exp and log |
| ComplexParser.CbrtBodyRefs | src/util/complexParser.ts:25 | cbrt calls exp and log |
| ComplexParser.EntriesCallHigher | src/util/complexParser.ts:44-64 | when every table body calls only names of higher final priority, so does every catalog entry |
| ComplexParser.UnaryTableCallsHigher | src/util/complexParser.ts:12-64 | every unary body calls only catalog functions of strictly higher priority |
| ComplexParser.BinaryCallsHigher | src/util/complexParser.ts:3-64 | every binary body calls only catalog functions of strictly higher priority |
| ComplexParser.CallsHigherIn | src/util/complexParser.ts:44-64 | in any catalog the statements build, every body is well formed and calls only entries of strictly higher priority |
| ComplexParser.CatalogCallsHigher | src/util/complexParser.ts:3-64 | every body of `complex_functions` calls only catalog functions of strictly higher priority |
| ComplexParser.CatalogNamesAreIdentifiers | src/util/complexParser.ts:3-42 | every catalog name can follow `c_` as a single GLSL identifier |
| ComplexParser.InsertEntries | src/util/complexParser.ts:48-53 | one `Object.entries(...).forEach` insertion loop computes the insertion function |
| ComplexParser.AssignTrigonometricOrders | src/util/complexParser.ts:61-64 | the loop over sin, cos and tan computes the trigonometric assignments |
| ComplexParser.BuildCatalogOf | src/util/complexParser.ts:48-64 | both insertion loops and all the order statements, run in order, build the catalog |
| ComplexParser.BuildCatalog | src/util/complexParser.ts:35-64 | running the co-function loop and then the catalog statements gives `complex_functions` |
| ComplexParser.EntriesOf | src/util/complexParser.ts:100 | `Object.entries` pairs each key, in order, with its value |
| ComplexParser.EntriesMembers | src/util/complexParser.ts:100 | `Object.entries` lists exactly the own properties with their values |
| ComplexParser.JoinSnoc | src/util/complexParser.ts:107 | joining one more line appends the separator and that line |
| ComplexParser.HeaderOrder | src/util/complexParser.ts:100-106 | the header lists a permutation of the entries, by descending priority |
| ComplexParser.HeaderLines | src/util/complexParser.ts:100-107 | the header is one line per entry, in header order, joined by newlines |
| ComplexParser.HeaderOrderMembers | src/util/complexParser.ts:100-106 | every entry has a header line, and every line comes from an entry |
| ComplexParser.HeaderLineRefs | src/util/complexParser.ts:103 | a header line references the function it defines and exactly the functions its body calls |
| ComplexParser.HeaderLineParameters | src/util/complexParser.ts:103 | a header line declares `vec2 b` exactly when the entry takes two arguments |
| ComplexParser.HeaderNoForwardReferences | src/util/complexParser.ts:100-107 | in the header of a catalog whose bodies call only higher priorities, every `c_X` on line j is defined on line j or above it |
| ComplexParser.HeaderReadyIn | src/util/complexParser.ts:44-107 | every catalog the statements build meets the no-forward-reference conditions |
| ComplexParser.ShaderHeaderNoForwardReferences | src/util/complexParser.ts:100-107 | `shaderHeader` defines every function before the first line that calls it |
| ComplexParser.ShaderHeaderLines | src/util/complexParser.ts:100-107 | `shaderHeader` is one line per catalog entry, in header order |
| ComplexParser.ParametersIn | src/util/complexParser.ts:103 | in a catalog's header exactly the binary functions take `vec2 b` |
| ComplexParser.ShaderHeaderParameters | src/util/complexParser.ts:100-107 | in `shaderHeader` exactly the five binary functions take `vec2 b` |
| ComplexParser.Message | src/util/complexParser.ts:69-92 | each SyntaxError message starts with its fixed text and quotes the offending name or node |
| ComplexParser.Results | src/util/complexParser.ts:80-83 | the argument loop produces one result per argument |
| ComplexParser.ResultsAt | src/util/complexParser.ts:80-83 | result i is the compilation of argument i |
| ComplexParser.Texts | src/util/complexParser.ts:80-83 | the texts of successful results are kept, in order |
| ComplexParser.JoinAllOk | src/util/complexParser.ts:80-84 | when every argument compiles, the arguments give their texts joined by `,` |
| ComplexParser.JoinFirstError | src/util/complexParser.ts:80-83 | the first argument that fails decides the error |
| ComplexParser.JoinStep | src/util/complexParser.ts:80-83 | one loop round appends `,` from the second argument on, then the argument's text |
| ComplexParser.JoinResultsCases | src/util/complexParser.ts:80-83 | the argument loop succeeds exactly when every argument compiles, and otherwise fails with one of their errors |
| ComplexParser.CompileTree | src/util/complexParser.ts:66-94 | the recursive compiler returns, or throws as an error value, what the compilation function gives for the scope its lookups use |
| ComplexParser.CompileCall | src/util/complexParser.ts:72-85 | the call branch builds `c_<name>(`, the arguments and `)` |
| ComplexParser.CompileArgs | src/util/complexParser.ts:80-83 | the argument loop appends each compiled argument, after a `,` from the second on |
| ComplexParser.Compile | src/util/complexParser.ts:96-98 | `compile` compiles with the lookups as written, which find own and inherited properties of `symbols` and `complex_functions`, and with the default variable list `["z"]` |
| ComplexParser.CompilationSucceedsIffCompilable | src/util/complexParser.ts:66-94 | for any lookup scope, compilation succeeds exactly on trees with no unbound symbol, unknown function or other node kind; a reported error is raised by a node of the tree |
| ComplexParser.CallSucceedsIffCompilable | src/util/complexParser.ts:72-85 | the same for a call node |
| ComplexParser.CallCompilationCases | src/util/complexParser.ts:72-85 | an unknown name is rejected before any argument; a known name with compiling arguments gives `c_<name>(` + the argument texts joined by `,` + `)`; the first failing argument decides the error |
| ComplexParser.CallArgumentsCompile | src/util/complexParser.ts:72-85 | a call that compiles has a known name, and all its arguments compile |
| ComplexParser.LeafCompilation | src/util/complexParser.ts:67-93 | a name the symbol lookup finds gives that lookup's text and wins over a variable; a bound variable is emitted as written and an unbound one raises an error naming it; a number v gives `vec2(v, 0)`; other node kinds are rejected |
| ComplexParser.UnboundSymbolExample | src/util/complexParser.ts:69-70 | `w*z` with the variable z raises an invalid-symbol error naming w |
| ComplexParser.CallOnVariable | src/util/complexParser.ts:76-85 | a known call on one variable compiles to `c_<name>(<variable>)` |
| ComplexParser.CallOnSymbol | src/util/complexParser.ts:67-85 | a known call on one symbol compiles to `c_<name>(` + the symbol's text + `)` |
| ComplexParser.CallOnTwoVariables | src/util/complexParser.ts:76-85 | a known call on two variables compiles to `c_<name>(<x>,<y>)`, whatever the arity |
| ComplexParser.UnknownFunctionExample | src/util/complexParser.ts:77-78 | `foo(z)` raises an invalid-function error naming foo |
| ComplexParser.ArityNotChecked | src/util/complexParser.ts:77-85 | `sin(z, z)` compiles to `c_sin(z,z)`: arity is not checked |
| ComplexParser.ConstantBeforeVariable | src/util/complexParser.ts:67-68 | `pi` compiles to its literal even when it is also a variable |
| ComplexParser.SymbolsPlain | src/util/complexParser.ts:28-33 | no constant literal contains `c_` |
| ComplexParser.RefsOfCompilation | src/util/complexParser.ts:66-94 | the `c_` functions in a compiled text are exactly the calls of the tree, and all are known |
| ComplexParser.ParenthesesTransparent | src/util/complexParser.ts:89-90 | removing every parenthesis node changes nothing in the compilation |
| ComplexParser.CallParenthesesTransparent | src/util/complexParser.ts:72-90 | the same for a call whose arguments hold parentheses |
| ComplexParser.CompiledCallsAreInHeader | src/util/complexParser.ts:77-107 | with lookups among own properties, every function a compiled expression calls has a line in the header |
| ComplexParser.AsWrittenCallsAreInHeader | src/util/complexParser.ts:66-107 | as written, every function a compiled expression calls has a header line when the expression names no inherited property |
| ComplexParser.CompiledCallsHaveLines | src/util/complexParser.ts:77-107 | the same against the names of any catalog |
| ComplexParser.HeaderNamesIn | src/util/complexParser.ts:100-107 | a name has a header line exactly when it is a catalog name |
| ComplexParser.InheritedNameCompilesAsWritten | src/util/complexParser.ts:77 | as written, `toString(z)` passes the function-name test and compiles to `c_toString(z)` |
| ComplexParser.NoHeaderLineForToString | src/util/complexParser.ts:100-107 | no header line defines `c_toString` |
| ComplexParser.InheritedNameRejected | src/util/complexParser.ts:77 | with an own-property test, `toString(z)` is rejected as an unknown function |
| ComplexParser.ScopesAgree | src/util/complexParser.ts:66-94 | a tree that names no inherited property compiles the same as written and with own-property lookups |
| ComplexParser.CallScopesAgree | src/util/complexParser.ts:72-85 | the same for a call node |
| ComplexParser.InheritedSymbolLookup | src/util/complexParser.ts:68-71 | as written, an inherited name used as a symbol compiles to the inherited value's printed text, even when it is a variable; with own-property lookups it is the variable or an invalid-symbol error |
| ComplexParser.InheritedSymbolCompilesAsWritten | src/util/complexParser.ts:68 | as written, `sin(toString)` compiles to `c_sin(function toString() { [native code] })` |
| ComplexParser.InheritedSymbolRejected | src/util/complexParser.ts:68-70 | with own-property lookups, `sin(toString)` raises an invalid-symbol error naming `toString` |
| ColorScheme.Lerp | src/util/ColorScheme.ts:5-7 | lerp gives a at v = 0 and b at v = 1 |
| ColorScheme.LerpBetween | src/util/ColorScheme.ts:5-7 | for v in [0, 1] the result lies between the two ends |
| ColorScheme.Lerp3 | src/util/ColorScheme.ts:46 | channel-wise blending gives a at 0 and b at 1 |
| ColorScheme.Lerp3InUnitCube | src/util/ColorScheme.ts:46 | blending two unit-cube colours stays in the unit cube |
| ColorScheme.HexValue | src/util/ColorScheme.ts:14 | n hex digits read as a number below 16^n |
| ColorScheme.HexValueAppend | src/util/ColorScheme.ts:14 | the value of concatenated digits is the positional combination |
| ColorScheme.Channel | src/util/ColorScheme.ts:16-18 | a byte extracted by shift and mask, over 0xff, lies in [0, 1] |
| ColorScheme.ChannelsOf | src/util/ColorScheme.ts:16-18 | the three shifts extract red, green and blue of r·65536 + g·256 + b |
| ColorScheme.ParseColor | src/util/ColorScheme.ts:11-21 | a colour array is returned unchanged; hex text gives channels in [0, 1] |
| ColorScheme.TrimEnd | src/util/ColorScheme.ts:14 | dropping trailing white space leaves a prefix that does not end in white space, and only white space is dropped |
| ColorScheme.TrimEndAppend | src/util/ColorScheme.ts:14 | trailing white space makes no difference to the trimmed text |
| ColorScheme.ParseTrailingWhitespace | src/util/ColorScheme.ts:12-19 | `Number` ignores trailing white space, so a colour text followed by white space gives the same colour |
| ColorScheme.ParseSixDigits | src/util/ColorScheme.ts:11-21 | `#RRGGBB` and `RRGGBB` give [RR/255, GG/255, BB/255] |
| ColorScheme.ParseNotHex | src/util/ColorScheme.ts:14-19 | text that is not a hex number once trailing white space is dropped reads as NaN and gives black |
| ColorScheme.ParseGrayAxes | src/util/ColorScheme.ts:122 | the preset "Gray" axes colour `#777777` is the grey 0x77/0xff |
| ColorScheme.JsRemInt | src/util/ColorScheme.ts:42 | JavaScript `%` on integers lies strictly between -m and m, and agrees with the modulus for a non-negative dividend |
| ColorScheme.Fract | src/util/ColorScheme.ts:75 | `fract` lies in [0, 1) |
| ColorScheme.PositionInRange | src/util/ColorScheme.ts:41 | the reduced position lies in [0, len) |
| ColorScheme.ReducedPosition | src/util/ColorScheme.ts:41 | for v >= 0, (v·len) % len is fract(v)·len |
| ColorScheme.SampleInRange | src/util/ColorScheme.ts:42-46 | inside [0, len) the sample is the blend of stop floor(w) with the next stop round the cycle |
| ColorScheme.GetBlends | src/util/ColorScheme.ts:40-47 | for v >= 0 on a non-empty scheme, `get` succeeds and blends the stop at the reduced position with the next one round the cycle |
| ColorScheme.GetAtStop | src/util/ColorScheme.ts:40-47 | get(k/len) is exactly steps[k % len] |
| ColorScheme.GetCyclic | src/util/ColorScheme.ts:40-47 | get(0) and get(1) are both the first stop |
| ColorScheme.GetBeforeFirstStop | src/util/ColorScheme.ts:40-47 | a negative position between two stops reads stop -1, which does not exist |
| ColorScheme.InterpolationSteps | src/util/ColorScheme.ts:49-51 | `interpolationSteps` is min(17, number of stops) |
| ColorScheme.TableColorIsGet | src/util/ColorScheme.ts:56-57 | table slot i is get(i / n) |
| ColorScheme.TableColors | src/util/ColorScheme.ts:56-57 | the first k table slots, in order |
| ColorScheme.AllTableColors | src/util/ColorScheme.ts:55-58 | the loop's n + 1 slots are the uniform table |
| ColorScheme.Flatten | src/util/ColorScheme.ts:57 | the flat number list has three numbers per colour |
| ColorScheme.FlattenAt | src/util/ColorScheme.ts:57 | numbers 3i, 3i+1 and 3i+2 are colour i's channels |
| ColorScheme.TableColorAtStop | src/util/ColorScheme.ts:53-58 | with at most 17 stops, table slot i is stop i % len |
| ColorScheme.UniformColorsAreStops | src/util/ColorScheme.ts:53-58 | with at most 17 stops, the table is the stops followed by the first stop again |
| ColorScheme.Scheme.constructor | src/util/ColorScheme.ts:29-38 | the constructor parses every colour; the defaults are black for negative values and white for the axes; the cache starts empty |
| ColorScheme.Scheme.Uniforms | src/util/ColorScheme.ts:53-66 | the getter fills the cache once with 3·(n+1) numbers and reuses a filled cache unchanged; a scheme without stops throws |
| ColorScheme.ShaderIndex | src/util/ColorScheme.ts:75-77 | the GLSL slot i and i + 1 stay inside the 18-slot array, and i + 1 <= n |
| ColorScheme.ShaderColor | src/util/ColorScheme.ts:73-78 | `colorScheme(v)` is the negative colour for v < 0 |
| ColorScheme.ShaderMatchesGet | src/util/ColorScheme.ts:40-78 | for at most 17 stops and v >= 0 the GPU lookup equals the CPU `get` |
| ColorScheme.ShaderBlends | src/util/ColorScheme.ts:73-78 | the GPU lookup blends the same two stops by the same offset as the reference blend |
| ColorScheme.SlotsAreStops | src/util/ColorScheme.ts:53-77 | slots i and i + 1 of the uniform array hold stop i and the next stop round the cycle |
| ColorScheme.Reverse | src/util/ColorScheme.ts:102 | `reverse` lists the elements back to front |
| ColorScheme.Bidirectional | src/util/ColorScheme.ts:100-104 | `bidirectional(r)` is r followed by its inner part reversed |
| ColorScheme.MirroredLength | src/util/ColorScheme.ts:100-104 | the result has 2n - 2 colours for n >= 2, and is r itself otherwise |
| ColorScheme.MirroredSymmetric | src/util/ColorScheme.ts:100-104 | read as a cycle, the palette is symmetric about its first colour |
| ColorScheme.Registry.constructor | src/util/ColorScheme.ts:9 | the registry starts empty |
| ColorScheme.Registry.CreateScheme | src/util/ColorScheme.ts:91-98 | registers a fresh scheme under its name, replacing an earlier one, with the defaults for omitted colours, and keeps every other entry |
| ComplexPlane.Vmin | src/shaders/ComplexPlane.ts:18-20 | `vmin` is the smaller of width and height |
| ComplexPlane.ScaleFactor | src/shaders/ComplexPlane.ts:32-34 | the factor times vmin is zoom |
| ComplexPlane.Uniforms | src/shaders/ComplexPlane.ts:22-30 | the centre passes unchanged, and each extent is zoom·side/vmin |
| ComplexPlane.ShorterSideIsZoom | src/shaders/ComplexPlane.ts:22-34 | the extent along the shorter side is exactly zoom |
| ComplexPlane.SmallerExtentIsZoom | src/shaders/ComplexPlane.ts:18-34 | for positive sizes and zoom, the smaller extent equals zoom and neither is below it |
| ComplexPlane.UniformsKeepAspect | src/shaders/ComplexPlane.ts:22-30 | the extents keep the canvas's aspect ratio |
| ComplexPlane.DefaultUniforms | src/shaders/ComplexPlane.ts:14-34 | the defaults give centre [0, 0] and zoom [3, 3] |
| ComplexPlane.PointAtMiddle | src/shaders/ComplexPlane.ts:10-12 | the middle of the canvas shows the centre |
| ComplexPlane.PointAtCorners | src/shaders/ComplexPlane.ts:10-12 | the corners show the centre minus and plus half the extents |
| ComplexPlane.PointWithinView | src/shaders/ComplexPlane.ts:10-12 | every pixel shows a point within half an extent of the centre |
| ComplexPlane.PixelOfPoint | src/shaders/ComplexPlane.ts:10-12 | `point()` is invertible: the pixel is recovered from the point |
| ComplexPlane.PointOfPixel | src/shaders/ComplexPlane.ts:10-12 | every plane point is shown by some pixel |
| Mandelbrot.EscapeLoop | src/shaders/Mandelbrot.ts:28-39 | the loop's steps is the first 0-based index whose update leaves the disc of radius 2, or -1 when none of 800 does |
| Mandelbrot.EscapeStepsMeaning | src/shaders/Mandelbrot.ts:6-39 | the specification has that meaning and lies in [-1, 799] |
| Mandelbrot.EscapeFromMeaning | src/shaders/Mandelbrot.ts:33-39 | the loop resumed after i non-escaping updates finds the first escape index |
| Mandelbrot.EscapeIndexUnique | src/shaders/Mandelbrot.ts:32-39 | the escape index is unique |
| Mandelbrot.FixedOrbit | src/shaders/Mandelbrot.ts:34 | an orbit that starts on a fixed point stays there |
| Mandelbrot.FixedPointNeverEscapes | src/shaders/Mandelbrot.ts:33-39 | a fixed point inside the disc never escapes |
| Mandelbrot.OriginNeverEscapes | src/shaders/Mandelbrot.ts:29-39 | for c = 0, steps is -1 |
| Mandelbrot.OriginIndex | src/shaders/Mandelbrot.ts:29-39 | for c = 0 no update escapes |
| Mandelbrot.FarPointEscapesAtOnce | src/shaders/Mandelbrot.ts:34-37 | for c outside the disc of radius 2, steps is 0 |
| Mandelbrot.ColorOfSteps | src/shaders/Mandelbrot.ts:24-26 | steps = -1 gets the negative colour; an escape index looks the scheme up at steps/60 >= 0 |
| Julia.AdvanceCell | src/shaders/Julia.ts:38-55 | the advance shader on a pixel is a 200-round run, and leaves a frozen pixel unchanged |
| Julia.IterateChunks | src/shaders/Julia.ts:42-51 | a run of a rounds and then b rounds of a running pixel is a run of a + b rounds |
| Julia.IterateCounter | src/shaders/Julia.ts:42-51 | a run lowers a running pixel's counter by the budget, or freezes it at an escaping iterate with between u and u + budget updates counted |
| Julia.RunChunks | src/shaders/Julia.ts:42-51 | chunked runs compose for every pixel |
| Julia.TwoStagesAreOne | src/shaders/Julia.ts:124-142 | two 200-round stages are one 400-round run |
| Julia.FrozenCellUnchanged | src/shaders/Julia.ts:42-54 | a pixel with steps >= 0 passes through unchanged |
| Julia.RunFromOrbit | src/shaders/Julia.ts:16-50 | a pixel either freezes at the first escaping iterate n with steps = n, or keeps running with steps = -1 - (updates so far) |
| Julia.StageLowersCounter | src/shaders/Julia.ts:7-50 | a pixel that does not escape in a stage has its counter lowered by exactly 200 |
| Julia.Stage | src/shaders/Julia.ts:38-55 | in a stage frozen pixels pass through; a running pixel either stays running with its counter lowered by the budget, or freezes at an escaping iterate with fewer than (updates before + budget) updates counted |
| Julia.StagesCompose | src/shaders/Julia.ts:124-142 | stages over a buffer compose |
| Julia.InitializedPixel | src/shaders/Julia.ts:15-55 | after init and n rounds, each pixel is frozen at its first escape below n, or is still running after exactly n updates |
| Julia.RenderCellColor | src/shaders/Julia.ts:65-71 | running pixels get the negative colour; frozen ones the scheme at steps/60 |
| Julia.JuliaHost.constructor | src/shaders/Julia.ts:78-79 | the host starts with stepsExecuted = 0 and c = [0, 0] |
| Julia.JuliaHost.ChangeView | src/shaders/Julia.ts:114-122 | init is drawn into buffer 0 from the view's points, and stepsExecuted is reset to 0 |
| Julia.JuliaHost.Advance | src/shaders/Julia.ts:124-142 | buffer 0 is advanced by 400 rounds through buffer 1, stepsExecuted grows by 400, and buffer 0 stays in step with stepsExecuted |
| Julia.JuliaHost.Render | src/shaders/Julia.ts:144-154 | render gives the negative colour to every running pixel of buffer 0 and the scheme at steps/60 to every frozen one |
| Newton.CDivIsQuotient | src/shaders/Newton.ts:19-22 | `newton_cdiv` is a true quotient: (a/b)·b = a |
| Newton.NewtonLoop | src/shaders/Newton.ts:42-52 | the loop's steps, last c and dc are those of the search specification, and -1 <= steps < 100 |
| Newton.PathStep | src/shaders/Newton.ts:44-51 | an update that does not fail is `c -= f(c)/df(c)` |
| Newton.RootFoundFrom | src/shaders/Newton.ts:43-52 | a run of moving-on iterations and then a converging one ends at that iteration |
| Newton.FailureFrom | src/shaders/Newton.ts:43-52 | a run of moving-on iterations and then an invalid step ends with -1 there |
| Newton.ExhaustedFrom | src/shaders/Newton.ts:43-52 | when every iteration moves on, the loop ends with -1 after 100 |
| Newton.RootIsFirstFrom | src/shaders/Newton.ts:43-52 | a reported root is the first converging iteration after moving-on ones |
| Newton.RootFound | src/shaders/Newton.ts:42-52 | steps is the first converged index |
| Newton.FailureStops | src/shaders/Newton.ts:28-46 | an invalid (NaN/Inf) dc stops the loop before the convergence test, and steps stays -1 |
| Newton.Exhausted | src/shaders/Newton.ts:43-52 | 100 moving-on iterations leave steps = -1 and c after 100 updates |
| Newton.RootIsFirst | src/shaders/Newton.ts:44-51 | a non-negative steps is an iteration that converged, with `c -= dc` only on earlier iterations, which neither failed nor converged |
| Newton.Clamp | src/shaders/Newton.ts:63 | clamp lands in [lo, hi] and keeps values already inside |
| Newton.SmoothSteps | src/shaders/Newton.ts:60-64 | the shaded step lies in [i, i + 1] |
| Newton.EaseInOut | src/shaders/Newton.ts:32-34 | the ease maps [0, 1] into [0, 1] |
| Newton.CubeBounds | src/shaders/Newton.ts:24-34 | the cube and the ease-in branch stay in range |
| Newton.EaseEnds | src/shaders/Newton.ts:32-34 | ease(0) = 0, ease(1) = 1, and both branches give 0.5 at 0.5 |
| Newton.OverlayOnlyNearStart | src/shaders/Newton.ts:67-72 | the root overlay changes the colour only when distance/0.06 < 1, and gives the axes colour at distance 0 |
| Newton.PixelColor | src/shaders/Newton.ts:54-75 | no root gives the negative colour; a root without overlay gives the attenuated scheme colour |
| Newton.NewtonHost.constructor | src/shaders/Newton.ts:78-91 | drawAxes on, shadeSmooth and showRoots off, and the placeholder program |
| Newton.NewtonHost.SetF | src/shaders/Newton.ts:109-113 | the program is plane header + colour lookup + f + Newton shader, with `f` recoverable at offset |header| + |colour lookup|, and the flags are unchanged |
| Littlewood.TextureHeightExact | src/shaders/Littlewood.ts:9-11 | TEXTURE_HEIGHT is 512, and the texture has exactly one texel per id and root index |
| Littlewood.AndLowMask | src/shaders/Littlewood.ts:20-24 | masking with 2^k - 1 keeps a number below 2^k |
| Littlewood.AndShiftedMask | src/shaders/Littlewood.ts:20-24 | masking with a mask shifted by k is masking the shifted value, shifted back |
| Littlewood.MaskTest | src/shaders/Littlewood.ts:20-23 | for x < 2^2k the mask test of the high k bits holds exactly when x >= 2^k |
| Littlewood.MaskValues | src/shaders/Littlewood.ts:20-24 | the literal masks 0xFFFF0000, 0xFF00, 0xF0, 0b1100 and 0b10 are 2^k - 1 shifted by k |
| Littlewood.DegreeStage | src/shaders/Littlewood.ts:20-23 | each masked test and shift halves the width still to search |
| Littlewood.DegreeLast | src/shaders/Littlewood.ts:24 | the last test settles the degree |
| Littlewood.Degree | src/shaders/Littlewood.ts:18-26 | the binary search returns bitLength(p) - 2, or -1 for p = 0 |
| Littlewood.DegreeBounds | src/shaders/Littlewood.ts:18-26 | a positive id of degree d lies in [2^(d+1), 2^(d+2)) |
| Littlewood.DegreeSamples | src/shaders/Littlewood.ts:18-26 | degree is -1 for 0 and 1, 0 for 2 and 3, 1 for 4, and 14 for 0xFFFF |
| Littlewood.Evaluate | src/shaders/Littlewood.ts:35-44 | the loop is Horner's rule over the ±1 coefficients below the leading 1, least significant bit first |
| Littlewood.CoefficientCount | src/shaders/Littlewood.ts:37-42 | the loop runs bitLength(p) - 1 = degree + 1 times |
| Littlewood.EvaluateOne | src/shaders/Littlewood.ts:35-44 | evaluate(1, z) = 0 |
| Littlewood.SumOfCoefficients | src/shaders/Littlewood.ts:38-41 | the coefficients sum to the ones minus the zeros below the leading 1 |
| Littlewood.EvaluateAtOne | src/shaders/Littlewood.ts:35-44 | evaluate(p, 1) is the number of ones minus the number of zeros below the leading 1 |
| Littlewood.LastCoefficient | src/shaders/Littlewood.ts:37-42 | the last coefficient is the sign of the bit just below the leading 1 |
| Littlewood.EvaluateAtOrigin | src/shaders/Littlewood.ts:35-44 | evaluate(p, 0) is the sign of the bit just below the leading 1 |
| Littlewood.RootTexel | src/shaders/Littlewood.ts:28-31 | row·2048 + col = p·16 + root, col < 2048, and row < 512 for a valid slot |
| Littlewood.RootCoordinate | src/shaders/Littlewood.ts:32 | a valid slot's texture coordinate lies in [0, 1)² |
| Littlewood.SlotOf | src/shaders/Littlewood.ts:68-71 | the decomposition gives a root index below 16 and the same position |
| Littlewood.SlotOfRootTexel | src/shaders/Littlewood.ts:28-31 | decoding the texture address of a slot gives the slot back |
| Littlewood.RootTexelOfSlot | src/shaders/Littlewood.ts:68-71 | the address of a decoded texel is the texel |
| Littlewood.PolynomialIds | src/shaders/Littlewood.ts:119-120 | the ids are 0 .. 2^16 - 1, in order |
| Littlewood.RootIds | src/shaders/Littlewood.ts:122-123 | the root indices are 0 .. 15, in order |
| LittlewoodProven.InvertedIntoDisc | src/shaders/LittlewoodProven.ts:34-38 | after the inversion r <= 1, and r is the length of the new z |
| LittlewoodProven.Children | src/shaders/LittlewoodProven.ts:48-73 | an expanded item pushes at most two children, value ± z^n, each within its reach |
| LittlewoodProven.ChildrenOf | src/shaders/LittlewoodProven.ts:48-73 | the pushes of a round are those children |
| LittlewoodProven.RunShape | src/shaders/LittlewoodProven.ts:47-77 | the loop runs at most 100 rounds; every exit leaves the stack it names |
| LittlewoodProven.Shade | src/shaders/LittlewoodProven.ts:30-82 | the shader's head and colour are those of the search specification |
| LittlewoodProven.SearchLoop | src/shaders/LittlewoodProven.ts:43-77 | the array loop's head is the top index of the specified final stack |
| LittlewoodProven.Round | src/shaders/LittlewoodProven.ts:47-77 | one round keeps 0 <= head < 20 when it does not break, and the array's live prefix follows the specification |
| LittlewoodProven.PopAndPush | src/shaders/LittlewoodProven.ts:57-73 | the near-zero test breaks before the pop; otherwise the top is replaced by its children |
| LittlewoodProven.RunNearZero | src/shaders/LittlewoodProven.ts:57-59 | a near-zero child ends the search with the stack intact |
| LittlewoodProven.RunExhausted | src/shaders/LittlewoodProven.ts:47 | the search stops after 100 rounds |
| LittlewoodProven.RunStep | src/shaders/LittlewoodProven.ts:60-76 | a full stack or an empty one breaks, otherwise the loop goes on |
| LittlewoodProven.SeedReach | src/shaders/LittlewoodProven.ts:39-45 | a searched point has r < 1, so the first reach r/(1 - r) is defined and >= 0 |
| LittlewoodProven.ChildrenReach | src/shaders/LittlewoodProven.ts:62-73 | every pushed child has a positive reach |
| LittlewoodProven.HeadStep | src/shaders/LittlewoodProven.ts:60-73 | a round moves head by -1, 0 or +1 |
| LittlewoodProven.ColorMeaning | src/shaders/LittlewoodProven.ts:39-82 | r > 0.84089 gives the axes colour with no search; the colour is negative exactly when the stack ran empty; a near-zero break keeps head >= 0; at most 100 rounds |
| Axes.BuildLines | src/shaders/Axes.ts:40-57 | the list has 192 numbers: the axis, the arrowhead and 21 ticks, then every vertex again with its coordinates swapped |
| Axes.TickPositions | src/shaders/Axes.ts:50-53 | tick i runs from (i/10, 0) down to (i/10, -0.025) |
| Axes.BaseOnRealAxis | src/shaders/Axes.ts:46-53 | every segment before mirroring starts on the real axis within [-1.1, 1.1] |
| Axes.ArrowheadAtTip | src/shaders/Axes.ts:42-48 | both arrowhead strokes start at (1.1, 0) and lean back symmetrically |
| Axes.MirrorOnImaginaryAxis | src/shaders/Axes.ts:55-57 | the mirrored vertices lie on the imaginary axis where the originals lie on the real axis |
| Axes.MirroredSegment | src/shaders/Axes.ts:55-57 | segment k + 24 is segment k with both ends' coordinates swapped |
| Axes.ClipMatchesView | src/shaders/Axes.ts:14 | the vertex shader sends the point of pixel coordinate t to clip coordinate 2t - 1 |

## Left out

- WebGL plumbing is I/O against a GPU API. This covers framebuffer creation and resizing, `setUniforms`, the draw calls, `dispose`, `SquareShader` and `Axes.render`. Buffers are sequences of pixels; a shader is a function applied to every pixel.
- The source texts of the shaders (`glslCode`, `srcShader*`, `ComplexPlane.header`) are not modelled as text. Their GLSL is modelled as functions. `NewtonHost` takes the texts it concatenates as given strings.
- Expression parsing is done by the mathjs library. Only the node tree that `compileTree` consumes is modelled.
- `ColorScheme.randomScheme` uses `Math.random`. The preset palettes are data; only the "Gray" axes colour is checked (`ParseGrayAxes`).
- `vec2.length` and `normalized` need a square root. Lengths in `LittlewoodProven` are a function parameter constrained by `IsLength`.
- Floating point is exact `real` arithmetic. There is no rounding, NaN or infinity. GLSL `int` is an unbounded integer with no 32-bit wrap-around.
- Newton.Wrong: the NaN/Inf test on `dc` is an abstract `overflows` predicate, plus a zero divisor.
- Newton.PixelColor: the hash colouring by angle and length and the `exp(-pow(...))` attenuation (atan, log, exp, pow) are not computed. The attenuated colour is a parameter, so only the branch structure is proved.
- Newton.SmoothSteps: the value added before the clamp comes from `log(length(dc))`, so it is a parameter.
- Littlewood.Degree: requires 0 <= id < 2^31. Ids are non-negative GLSL ints, and the model has no 32-bit sign bit.
- In Littlewood.ts, the root-update part of `main` (lines 72-84) is not modelled. It is not coherent code: `polynomial` is undefined and `polynomialID()` returns nothing. The same holds for the drawing shaders and the `Julia`-named host class at the end of the file, which uses fields it does not have.
- `RootsShader.drawDegree` and `draw` are draw calls.
- ComplexPlane.ScaleFactor and ComplexPlane.Uniforms require a non-zero shorter side. JavaScript would give Infinity or NaN there.
- ColorScheme.Get: with no stops JavaScript indexes with NaN and fails. The model returns `None`; `Uniforms` then returns `None` and leaves the cache empty.
- LittlewoodProven.Shade: the bases `base` and `speed` are declared in the shader but never used, so they are not modelled.
- Axes: the constructor's `console.log(this.lineBuffer)` (Axes.ts:66) is logging, and `createBufferInfoFromArrays` (Axes.ts:59-64) uploads the line list to the GPU. Only the list of numbers, `BuildLines`, is modelled.
- ComplexParser.Compile: at the top level, an inherited property found by the symbol lookup (`compile` of the single symbol `toString`) is returned as the JavaScript value itself, not as a string. The model gives the text it prints as, which is what an enclosing call appends.
- ComplexParser.InheritedText: the printed form of a native function is the usual engine form `function NAME() { [native code] }`; engines may differ in spacing.
- `downloadImage`, the pages and the build configuration are not part of this model.

## Findings

| source | as written | input that shows it | evidently intended | confidence | as-written member | corrected member |
|---|---|---|---|---|---|---|
| src/util/complexParser.ts:77 | the test `complex_functions[name] === undefined` misses names that a plain object inherits from `Object.prototype` | `toString(z)` compiles to `c_toString(z)`, which no header line defines, so the shader fails to compile instead of a SyntaxError being raised | names that are not own properties of the catalog are rejected as invalid functions | not executed | ComplexParser.InheritedNameCompilesAsWritten | ComplexParser.InheritedNameRejected |
| src/util/complexParser.ts:68 | the test `symbols[tree.name] !== undefined` also finds the properties a plain object inherits, and returns the inherited value | `sin(toString)` compiles to `c_sin(function toString() { [native code] })`, which is not GLSL, so the shader fails to compile instead of a SyntaxError being raised | a name that is not an own property of `symbols` is a variable or an invalid symbol | not executed | ComplexParser.InheritedSymbolCompilesAsWritten | ComplexParser.InheritedSymbolRejected |
