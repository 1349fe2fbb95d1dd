# asm.js validator, modelled in Dafny

This project models the static validator for asm.js modules in `lib/`. The validator takes the parsed syntax tree of a JavaScript function. It accepts the function only if the function is an asm.js module:
- a `"use asm"` directive;
- global imports and definitions;
- functions whose parameters and results are annotated by coercion idioms;
- function tables;
- a final `return` of the exports.

Every expression inside the functions must typecheck in the asm.js type lattice. On success the validator produces a report of the module's bindings and exports. On failure it reports the first error.

The Dafny modules follow the source files:

| module | file | what it holds |
|---|---|---|
| `Failure` | `failure.dfy` | `Option`, `Result` and `Outcome` values that stand in for the thrown validation error |
| `Ast` | `ast.dfy` | the syntax-tree node kinds the validator inspects, `hasDot`, `nonEmpty` and size measures |
| `Types` | `types.dfy` | the value-type lattice and `subtype` (`lib/types.js`), arrows, and the other kinds of binding |
| `Tables` | `tables.dfy` | the heap views, the standard library, and the operator signature tables (`lib/tables.js`) |
| `Environment` | `env.dfy` | the scope class `Env` with `lookup` and `bind` (`lib/env.js`) |
| `Match` | `match.dfy` | the node guards of `lib/match.js` |
| `Reports` | `reports.dfy` | the report and its queries (`lib/report.js`) |
| `Utilities` | `utilities.dfy` | these helpers from `lib/validate.js`: `split`, `powerOf2`, `log2` and `flattenAdditive` |
| `Checker` | `checker.dfy` | the typing of function bodies in `lib/validate.js`: lookups, subtype checks, overload resolution, expressions, calls and statements |
| `Declarations` | `declarations.dfy` | `splitModule`, the parameter and return annotations, `functionType`, `global`, `local`, `table` and `exports` |
| `Validation` | `validation.dfy` | the `Validator` class and what an accepted module guarantees |
| `Scenarios` | `scenarios.dfy` | concrete verdicts on the idioms the repository's tests exercise |

Where the source loops and updates state, the model does too:
- `Validator` is a class. It holds the recorded roots, the module scope (an `Env`), and the scope and result of the function being checked.
- Its methods bind names step by step in `while` loops, like the source's `forEach` loops.
- Each method is proved equal to a function over values: `CheckFunction`, `ModuleScope`, `ModuleSpec`, `TableType`, `ExportsOf` and `ValidateSpec`.
- Properties are proved about those functions.
- `split` and `flattenAdditive` are methods with loops, proved equal to `Sections` and to `Leaves`.

The expression and statement checkers are pure recursion in the source. They are pure functions here.

Numbers in literals are JavaScript doubles. They are modelled as exact `real` values, and `match.range(lo, hi)` is read as `lo <= x < hi`. `powerOf2` reduces its operands modulo 2^32, as JavaScript's `&` does.

Some places in the source can only crash. These are read the way the surrounding code evidently intends:
- `types.boolish` at line 721 is undefined, so the test is checked against Boolish.
- `this.literal` at line 765 is undefined, so a case test is typed as an expression.
- `init.type` of a missing for-initialiser at line 746 is read from null, so the head is skipped.
- `init.loc` at lines 340 and 353 is undefined, so this is a plain failure.
- At line 350 `match.var('x')` binds the whole property node rather than its name (compare line 336), so the lookups in `STDLIB_TYPES` at lines 352-354 would receive a node and `stdlib.Infinity` could never be imported. The model looks up the property's name.
- The bare `elements` at line 433 means the matched `vars.elements`.
- `t.Intish` at line 854 means Intish.
- `table` returns the table type built at line 459; the source does not return the result of the match that begins at line 428.
- The comparison with the table itself at line 1024 means the expected result type.
- The roots of the lattice, declared with `null` supertypes in `lib/types.js`, have no supertypes. In the source, `subtype` from a root to a different type would throw.

`lib/tables.js` uses `Doublish` and the `View` and `Overloaded` constructors. `lib/types.js` does not define them. Here:
- Doublish is a root.
- Double lies below Doublish and Extern.
- Overloaded signatures and views are kinds of binding.

## Model

| member | source | states |
|---|---|---|
| Ast.NonEmpty | lib/validate.js:30-32 | the kept statements are exactly the non-empty ones of the input, and there are no more of them than the input has |
| Ast.NonEmptySingle | lib/validate.js:30-32 | a single statement is kept exactly when it is not empty |
| Ast.NonEmptyConcat | lib/validate.js:30-32 | filtering a concatenation is concatenating the filtered parts, so the filter keeps order and multiplicity |
| Types.Supertypes | lib/types.js:29-49 | every immediate supertype is declared before its subtype, so the supertype graph is acyclic |
| Types.Subtype | lib/types.js:18-23 | no contract of its own: equal, or some immediate supertype is a subtype; its properties are the lattice lemmas below |
| Types.UpSet | lib/types.js:29-49 | no contract of its own: the full set of supertypes of each type, written out by hand as a reference for `SubtypeMatchesUpSet` |
| Types.ArrowEquals | lib/types.js:62-67 | no contract of its own: same parameter count, pointwise-equal parameters, equal result; `ArrowEqualsIsStructural` states what it means |
| Types.SubtypeTransitive | lib/types.js:18-23 | subtyping is transitive |
| Types.SubtypeClimbsRank | lib/types.js:18-23 | a supertype is never declared later, and it is declared at the same point only when it is the same type (so `subtype` terminates) |
| Types.SubtypeAntisymmetric | lib/types.js:18-23 | two types that are each below the other are equal |
| Types.SubtypeIffReachable | lib/types.js:18-23 | `a` is below `b` if and only if some chain of immediate-supertype edges leads from `a` to `b` |
| Types.ChainOf | lib/types.js:18-23 | a subtype relation yields a chain of supertype edges from the subtype to the supertype |
| Types.ChainIsSubtype | lib/types.js:18-23 | the ends of any chain of supertype edges are related by subtyping |
| Types.SubtypeMatchesUpSet | lib/types.js:29-49 | the full subtype relation, written out per type. For example, constant (Fixnum) is below signed, unsigned, int, intish, boolish and extern; double is not below int or intish |
| Types.UpSetUnfolds | lib/types.js:29-49 | the written-out supersets are closed under one step up the declared supertype lists |
| Types.ArrowEqualsIsStructural | lib/types.js:62-67 | `arrow.equals` holds exactly when the other type denotes the same signature |
| Tables.HeapViewCount | lib/tables.js:6-15 | in the table `HeapViewTypes` there are exactly eight heap view constructors, with distinct names |
| Tables.HeapViewShapes | lib/tables.js:6-15 | each view has byte width 1, 2, 4 or 8; the integer views hold Intish elements and the float views hold Doublish elements |
| Tables.LibraryValuesAreDouble | lib/tables.js:19-51 | in the tables `StdlibTypes` and `StdlibMathTypes`, `Infinity`, `NaN` and the non-callable Math entries (the constants) are all Double |
| Tables.OperatorArities | lib/tables.js:53-101 | in the tables `Binops` and `Unops`, every binary operator signature (and every alternative of an overloaded one) takes two operands, and every unary one takes one |
| Environment.BindCheck | lib/env.js:14-20 | binding is refused exactly for `arguments`, `eval` and a name already bound; the illegal-name message comes first |
| Environment.Env.constructor | lib/env.js:3-8 | a new scope is empty |
| Environment.Env.Lookup | lib/env.js:10-12 | the lookup finds a binding exactly for a bound name, and returns that binding |
| Environment.Env.Bind | lib/env.js:14-20 | on success the name now looks up to the new binding; on failure nothing is stored; every other name keeps its binding |
| Environment.BindTwiceFails | lib/env.js:14-20 | a name just bound in a scope cannot be bound there again (duplicate binding) |
| Match.ExpectLiteral | lib/match.js:1-6 | passes exactly when the node is a literal with the expected value |
| Match.ExpectIdentifier | lib/match.js:8-13 | passes exactly when the node is an identifier with the given name |
| Match.ExpectNodeType | lib/match.js:15-18 | passes exactly when the expression node has the expected kind |
| Match.ExpectStmtType | lib/match.js:15-18 | passes exactly when the statement node has the expected kind |
| Match.ExpectNodeOp | lib/match.js:20-23 | passes exactly when the node carries the expected operator: unary, binary and assignment expressions carry one, and so may other node kinds (logical, update); a node without one fails |
| Reports.Report.GetFunction | lib/report.js:8-13 | finds a signature exactly for a name bound to a function, and returns that signature |
| Reports.Report.IsSingleExport | lib/report.js:15-17 | no contract of its own: whether the exports are a single function; `GetExport` and `SingleExportIgnoresKey` state what follows from it |
| Reports.Report.GetExport | lib/report.js:15-25 | a single export answers its function's name for any key; an export object answers the name stored under the key, and nothing for an unknown key |
| Reports.SingleExportIgnoresKey | lib/report.js:21-25 | in single-export mode the answer does not depend on the key |
| Utilities.RunIsMaximal | lib/validate.js:40-41 | the inner loop of `split` collects nodes of one kind and stops only at a node of another kind or at the end |
| Utilities.TakeRun | lib/validate.js:40-41 | the inner loop returns the maximal run of the filter's kind and the position after it |
| Utilities.Split | lib/validate.js:35-49 | the loop computes `Sections`: each filter in turn takes the maximal run of its kind from where the previous filter stopped |
| Utilities.Sections | lib/validate.js:35-49 | one section per filter; the lemmas below state that each is the maximal run at its start and that together they are a prefix of the input |
| Utilities.SectionIsMaximalRun | lib/validate.js:35-49 | each section is a slice of the input; all its nodes have its filter's kind; the node right after it has another kind |
| Utilities.SectionsArePrefix | lib/validate.js:35-49 | the sections, laid end to end, are a prefix of the input in its original order |
| Utilities.SectionsAtCuts | lib/validate.js:35-49 | suppose cut points divide the input into stretches, each of its filter's kind and not followed by that kind. Then the sections are exactly those stretches |
| Utilities.RunAt | lib/validate.js:40-41 | a stretch of one kind that ends at another kind, or at the end, is the run at its start |
| Utilities.PowerOf2IsPow2 | lib/validate.js:25-27 | for every length below 2^32, the bit trick `(x & (x - 1)) === 0` holds exactly when the length is a power of two |
| Utilities.PowerOf2 | lib/validate.js:25-27 | no contract of its own: the bit trick on 32-bit operands; `PowerOf2IsPow2` and `PowerOf2Zero` state what it accepts |
| Utilities.BitAndPredecessor | lib/validate.js:25-27 | for positive integers, `x & (x - 1)` is zero exactly for powers of two |
| Utilities.PowerOf2Zero | lib/validate.js:25-27 | the bit trick also accepts 0, even though 0 is not a power of two, which is why the table check tests emptiness first |
| Utilities.Log2OfPow2 | lib/validate.js:20-22 | the logarithm of a power of two is its exponent |
| Utilities.Log2OfWidths | lib/validate.js:20-22 | the shifts for view widths 1, 2, 4 and 8 are 0, 1, 2 and 3 |
| Utilities.Log2 | lib/validate.js:20-22 | no contract of its own: the number of halvings down to one; `Log2OfPow2` states that for a power of two `n`, two to the result is `n` |
| Utilities.Leaves | lib/validate.js:62-85 | the operands of an additive chain are never `+`/`-` nodes themselves, and a non-additive expression is its own only operand |
| Utilities.LeavesSize | lib/validate.js:62-85 | flattening never makes the tree larger |
| Utilities.FlattenAdditive | lib/validate.js:62-85 | the work-stack loop returns the left operand's leaves followed by the right operand's, left to right |
| Checker.Lookup | lib/validate.js:276-288 | locals shadow the module scope; the lookup fails exactly for a name bound in neither |
| Checker.Expression | lib/validate.js:779-972 | no contract of its own: the typing of each expression form; the per-form lemmas (`AssignmentTyping` to `IndirectCallTyping`, `AdditiveTyping`, `SequenceTyping`) state each rule |
| Checker.Additive | lib/validate.js:930-955 | no contract of its own: the first operand decides Double or Int for the rest; `AdditiveTyping` states the rule |
| Checker.SequenceItems | lib/validate.js:873-885 | no contract of its own: leading items checked, calls in void context, the last gives the type; `SequenceTyping` states the rule |
| Checker.Call | lib/validate.js:979-1027 | no contract of its own: direct calls and masked table calls; `DirectCallTyping` and `IndirectCallTyping` state the rules |
| Checker.Statement | lib/validate.js:644-682 | no contract of its own: the typing of each statement form; `ReturnTyping`, `IfTyping` and `IllegalStatements` state the rules |
| Checker.Statements | lib/validate.js:639-641 | no contract of its own: each statement in turn; `StatementsAll` states the rule |
| Checker.Cases | lib/validate.js:755-767 | no contract of its own: each case test typed as an expression, then its body |
| Checker.FirstMatch | lib/validate.js:702-713 | a result is the result of some alternative that applies to the argument types |
| Checker.CheckArguments | lib/validate.js:696-717 | only a plain or overloaded signature can succeed; a plain one gives its declared result, an overloaded one the result of an alternative that applies |
| Checker.FirstMatchCommonResult | lib/validate.js:702-713 | when every alternative has the same result, a successful resolution gives that result |
| Checker.UnaryPlusIsDouble | lib/validate.js:900-918 | unary `+`, of a call or of any other operand, can only give Double |
| Checker.BitwiseOrIsSigned | lib/validate.js:920-928 | `a\|b`, the call coercion or the operator row, can only give Signed |
| Checker.LookupValueType | lib/validate.js:291-296 | succeeds exactly when the name is bound to a value type, and returns that type |
| Checker.CheckSubtype | lib/validate.js:685-688 | passes exactly when the actual type is below the expected one |
| Checker.CheckSameType | lib/validate.js:690-693 | passes exactly when the two types are equal |
| Checker.FirstMatchIsFirst | lib/validate.js:703-711 | overload resolution returns the result of the first alternative that applies, in declared order |
| Checker.FirstMatchNone | lib/validate.js:703-713 | overload resolution finds nothing exactly when no alternative applies |
| Checker.CheckArgumentsOnArrow | lib/validate.js:697-701 | a plain signature accepts exactly when every argument is below the parameter at its position and there are no more arguments than parameters; the result is the signature's result |
| Checker.CheckArgumentsOnOverloaded | lib/validate.js:702-713 | an overloaded signature gives the result of its first applicable alternative |
| Checker.CheckArgumentsFails | lib/validate.js:702-716 | an overloaded signature with no applicable alternative fails, and so does anything that is not a signature |
| Checker.OperandsAllBelow | lib/validate.js:940-951 | the operand loop passes exactly when every operand types below the bound |
| Checker.IntAndDoubleDisjoint | lib/validate.js:938-954 | no type lies below both Int and Double, so the two additive cases exclude each other |
| Checker.AdditiveTyping | lib/validate.js:930-955 | an additive chain is Double exactly when all operands are below Double. It is Intish exactly when all operands are below Int and there are at most 2^20 of them. Nothing else typechecks |
| Checker.HeapAccessConstant | lib/validate.js:804-813 | `x[n]` with a constant index typechecks exactly when `x` is a view; it has the view's element type |
| Checker.HeapAccessShifted | lib/validate.js:815-838 | `x[e >> n]` typechecks exactly when `x` is a view, `e` is below Intish and `n` is the log of the view's width; it has the view's element type |
| Checker.HeapAccessUnshifted | lib/validate.js:840-855 | a non-constant, unshifted index is allowed only on a one-byte Intish view, with an index below Int; the load is Intish |
| Checker.DoubleToSigned | lib/validate.js:887-898 | `~~e` is Signed, and it typechecks exactly when `e` is below Double |
| Checker.ConditionalTyping | lib/validate.js:857-871 | a conditional has type `t` exactly when its test is below Int and both arms have type `t`, which is Int or Double |
| Checker.AssignmentTyping | lib/validate.js:793-802 | an assignment to a name or heap location typechecks exactly when its right side is below the target's type; it has the right side's type |
| Checker.SequenceTyping | lib/validate.js:873-885 | a comma expression typechecks exactly when every leading item does (calls in void context) and the last item does; it has the last item's type |
| Checker.ArgumentsTyping | lib/validate.js:985 | the argument list typechecks exactly when each argument does, and gives their types in order |
| Checker.DirectCallTyping | lib/validate.js:981-992 | `f(...)` in a context expecting `t` typechecks exactly when its arguments do and `f`'s signature accepts them with result exactly `t` |
| Checker.IndirectCallTyping | lib/validate.js:994-1025 | `tbl[i & n](...)` typechecks exactly when `tbl` is a table of length n + 1, `i` is below Intish, and the entry signature accepts the arguments with result exactly the expected type |
| Checker.StatementsAll | lib/validate.js:639-641 | a statement list passes exactly when each statement does |
| Checker.VoidIsIsolated | lib/validate.js:728-730 | only Void is below Void, and Void is below nothing else |
| Checker.ReturnTyping | lib/validate.js:728-730 | a bare return is allowed only in a Void function; `return e` needs `e` below the declared result |
| Checker.IfTyping | lib/validate.js:720-725 | an if statement passes exactly when its test is below Boolish and both branches pass |
| Checker.IllegalStatements | lib/validate.js:644-682 | declarations, empty statements and any other unlisted kind are rejected inside a function body |
| Declarations.SplitModuleAsWritten | lib/validate.js:162-184 | the split as written accepts only a body that starts with `"use asm"` |
| Declarations.SplitModule | lib/validate.js:162-184 | every body the corrected split accepts is accepted with the same sections by the split as written |
| Declarations.SplitModuleShape | lib/validate.js:162-184 | an accepted body is exactly the directive, the globals, the functions, the tables and the export return, in order, with each section holding only its own kind |
| Declarations.SplitModuleAccepts | lib/validate.js:162-184 | conversely, a body laid out in module order is accepted and split into exactly those sections |
| Declarations.SplitModuleConsumesBody | lib/validate.js:162-184 | an accepted split leaves no statement behind |
| Declarations.TrailingStatementsIgnored | lib/validate.js:162-184 | as written, statements after the export return are in no section and are accepted unchecked; the corrected split rejects that body |
| Declarations.ParamType | lib/validate.js:187-215 | an annotation gives Double exactly for `x = +x` and Int exactly for `x = x\|0`; nothing else typechecks |
| Declarations.AnnotationRoundTrip | lib/validate.js:187-215 | reading back the annotation written for type `t` gives `t` |
| Declarations.AnnotationNamesItsParameter | lib/validate.js:187-215 | an annotation of another parameter does not annotate `x` |
| Declarations.ReturnType | lib/validate.js:218-259 | a last statement that is not a return, or a bare return, gives Void; `return +e` and a dotted numeric literal give Double; `return e\|0` and a dotless literal in [-2^31, 2^32) give Signed; every other argument fails |
| Declarations.ParamTypesPointwise | lib/validate.js:266-270 | the parameter types succeed exactly when each annotation does, and are read position by position |
| Declarations.FunctionType | lib/validate.js:262-273 | a function with fewer annotation statements than parameters fails |
| Declarations.Signature | lib/validate.js:262-273 | fewer body statements than parameters fail; `FunctionTypeSpec` states the rest |
| Declarations.FunctionTypeSpec | lib/validate.js:262-273 | the signature is one type per parameter, from the statement at its position, and the result from the last statement. It fails exactly when one of those readings fails |
| Declarations.Local | lib/validate.js:463-480 | a local is Double exactly for a dotted number, Int exactly for an integer literal in range; nothing else typechecks |
| Declarations.Global | lib/validate.js:299-425 | a missing initialiser fails; only number literals make a mutable global, and such a global is Double or Int |
| Declarations.GlobalMathImport | lib/validate.js:321-342 | `stdlib.Math.x` is accepted exactly for library names `x`, and is bound immutably to the library's signature |
| Declarations.GlobalStdlibImport | lib/validate.js:344-355 | `stdlib.x` outside Math is Infinity or NaN, immutable Double; other names fail |
| Declarations.GlobalForeignImports | lib/validate.js:357-400 | `foreign.x`, `foreign.x\|0` and `+foreign.x` import an opaque function, an Int and a Double |
| Declarations.GlobalHeapView | lib/validate.js:402-423 | `new stdlib.V(heap)` is accepted exactly for the eight view constructors, and is bound immutably to that view |
| Declarations.LocalAgreesWithGlobal | lib/validate.js:312-319 | a literal initialiser is accepted for a local exactly when it is accepted for a global, and with the same type (the global is mutable) |
| Declarations.EntryNames | lib/validate.js:433-437 | table entries succeed exactly when they are all identifiers, one name per entry |
| Declarations.EntryType | lib/validate.js:444-449 | an entry succeeds exactly when it is bound to a function, and gives that function's signature |
| Declarations.TableType | lib/validate.js:428-460 | a table initialiser yields a table type |
| Declarations.TableTypeSpec | lib/validate.js:428-460 | a table is accepted exactly when it is a non-empty array of identifiers whose length passes the power-of-two test, all bound to functions of the first entry's signature. The table then has that signature and a power-of-two length |
| Declarations.ExportedArrow | lib/validate.js:522-533 | an export succeeds exactly when it names a function of the module scope, and gives its signature |
| Declarations.ExportEntry | lib/validate.js:551-583 | an entry is well formed only with a string or identifier key, an identifier value, and the plain `init` kind |
| Declarations.AddExportsOk | lib/validate.js:541-583 | adding export entries succeeds exactly when each entry is well formed and names a function of the module scope |
| Declarations.AddExportsKeepsFunctions | lib/validate.js:541-583 | afterwards, every exported name is still a function of the module scope with its signature |
| Declarations.AddExportsKeys | lib/validate.js:541-583 | the keys afterwards are the old keys plus the entries' external names |
| Declarations.AddExportsLastWins | lib/validate.js:541-583 | a key maps to the last entry that mentions it |
| Declarations.AddExportsUntouched | lib/validate.js:541-583 | a key that no entry mentions keeps its value |
| Declarations.ExportsOf | lib/validate.js:520-588 | a returned identifier is a single export and an object literal is a multiple export; a missing return argument fails |
| Declarations.ExportsOfSpec | lib/validate.js:520-588 | every export of an accepted module is a function of the module scope, reported with its signature |
| Validation.ReturnLiteralTypechecks | lib/validate.js:218-259 | a function whose result annotation is a numeric literal typechecks that return against the declared result |
| Validation.ReturnAnnotationTypechecks | lib/validate.js:218-259 | every return annotation `returnType` accepts is sound: when the returned expression types, the return passes against the declared result |
| Validation.LocalIntLiteralIsFixnum | lib/validate.js:463-480 | an integer literal that makes a local Int is itself a Fixnum, which is below Int |
| Validation.FixnumBoundAsWritten | lib/validate.js:785-787 | the literal 4294967295 annotates a Signed return and an Int local, yet lies outside the literal range as written |
| Validation.SetRoot | lib/validate.js:594-598 | the `i`-th module parameter is recorded under the `i`-th root name |
| Validation.BindParamsBinds | lib/validate.js:495-498 | the parameters are pairwise distinct, are not `arguments` or `eval`, and are bound to their types; the scope only grows |
| Validation.BindModuleParamsBinds | lib/validate.js:594-598 | the module parameters are recorded as the roots in order and bound as module parameters under distinct names |
| Validation.BindGlobalDeclsBinds | lib/validate.js:601-607 | binding global declarators only adds names, each bound to what its initialiser gives |
| Validation.BindGlobalsExtends | lib/validate.js:601-607 | binding the global statements only adds names |
| Validation.BindFunctionsBinds | lib/validate.js:609-614 | binding functions only adds names, and each function is bound immutably to its signature |
| Validation.BindTableDeclsExtends | lib/validate.js:616-623 | binding table declarators only adds names |
| Validation.BindTablesExtends | lib/validate.js:616-623 | binding the table statements only adds names |
| Validation.CheckFunctionsAll | lib/validate.js:626 | checking the functions passes exactly when each function declaration does |
| Validation.CheckFunction | lib/validate.js:483-516 | no contract of its own: the specification `Validator.Function` is proved equal to; `AcceptedFunctions` states what it guarantees |
| Validation.ModuleScope | lib/validate.js:591-623 | no contract of its own: the scope `Validator.BuildScope` is proved equal to; `ModuleScopeBinds` states what it holds |
| Validation.SectionsSpec | lib/validate.js:594-632 | no contract of its own: scope, function checks and exports in that order; the `Accepted*` lemmas state what an accepted result guarantees |
| Validation.ModuleSpec | lib/validate.js:591-632 | no contract of its own: the specification `Validator.Module` is proved equal to; `AcceptedModule` states what it guarantees |
| Validation.ValidateSpec | lib/validate.js:139-149 | no contract of its own: the specification `Validator.Validate` is proved equal to |
| Validation.ModuleScopeBinds | lib/validate.js:591-623 | in the scope an accepted module builds, the parameters are distinct module parameters and every function is bound immutably to its signature |
| Validation.AcceptedFunctions | lib/validate.js:591-632 | the report of an accepted module gives every declared function its annotated signature, and every body typechecks against it |
| Validation.AcceptedParameters | lib/validate.js:591-632 | the module parameters of an accepted module are distinct, and are bound in its report as module parameters |
| Validation.AcceptedExports | lib/validate.js:591-632 | whatever an accepted module exports is one of its functions, with that function's signature |
| Validation.AcceptedModule | lib/validate.js:591-632 | an accepted module's body has the module layout, and the report is the one its sections give |
| Validation.Validator.constructor | lib/validate.js:91-101 | a new validator has no roots, an empty module scope, and no function being checked |
| Validation.Validator.Table | lib/validate.js:428-460 | the loop that compares each entry's signature with the first computes `TableType` |
| Validation.Validator.Exports | lib/validate.js:520-588 | the loop that adds the object literal's entries in order computes `ExportsOf` |
| Validation.Validator.BindParameters | lib/validate.js:495-498 | the function's scope afterwards is the one `BindParams` gives, or the same failure |
| Validation.Validator.BindLocalDeclarators | lib/validate.js:500-508 | the function's scope afterwards is the one `BindLocalDecls` gives, or the same failure |
| Validation.Validator.BindLocalDeclarations | lib/validate.js:500-508 | the scope and the position of the first non-declaration are those `LocalsFrom` gives |
| Validation.Validator.Function | lib/validate.js:483-516 | the outcome is `CheckFunction`'s; the function's scope and result are cleared afterwards, whether it passed or not; the module state is unchanged |
| Validation.Validator.BindModuleParameters | lib/validate.js:594-598 | the roots and module scope afterwards are those `BindModuleParams` gives |
| Validation.Validator.BindGlobalDeclarators | lib/validate.js:601-607 | the module scope afterwards is the one `BindGlobalDecls` gives |
| Validation.Validator.BindFunctionTypes | lib/validate.js:609-614 | the module scope afterwards is the one `BindFunctions` gives |
| Validation.Validator.BindGlobalStatements | lib/validate.js:600-607 | the module scope afterwards is the one `BindGlobals` gives |
| Validation.Validator.BindTableDeclarators | lib/validate.js:617-622 | the module scope afterwards is the one `BindTableDecls` gives |
| Validation.Validator.BindTableStatements | lib/validate.js:616-623 | the module scope afterwards is the one `BindTables` gives |
| Validation.Validator.CheckFunctionBodies | lib/validate.js:626 | the outcome is `CheckFunctions`'s, and no function state is left behind |
| Validation.Validator.BuildScope | lib/validate.js:591-623 | the roots and module scope afterwards are those `ModuleScope` gives |
| Validation.Validator.Module | lib/validate.js:591-632 | the result is `ModuleSpec`'s, and an accepted module's report holds the validator's module scope |
| Validation.Validator.Validate | lib/validate.js:139-149 | the result is `ValidateSpec`'s: a named function with at most three parameters, whose non-empty statements form the module |
| Scenarios.OrZeroTyping | lib/tables.js:53-75 | `e\|0` is accepted exactly when `e` is below Intish, and it is then Signed |
| Scenarios.RemainderIsIntish | lib/tables.js:70-74 | `(x\|0)%(y\|0)` on Int locals is Intish |
| Scenarios.IntishIntoIntFails | lib/validate.js:793-802 | any Intish right side is refused when the assigned name is an Int local |
| Scenarios.RecoercedIntoInt | lib/validate.js:793-802 | the `\|0` recoercion of an Intish right side is accepted for an Int local and the assignment is Signed |
| Scenarios.RemainderNeedsRecoercion | test/index.js:4-18 | assigning `(x\|0)%(y\|0)` to an Int local fails, and recoercing it with `\|0` first passes |
| Scenarios.PlusOfDoublish | lib/tables.js:90-94 | unary `+` of a Doublish operand is Double, by the third alternative of its row |
| Scenarios.DoubleLoadTyping | lib/validate.js:804-813 | a constant-index load from a Float64Array view is Doublish, and unary `+` makes it Double |
| Scenarios.DoubleToSignedNeedsPlus | test/index.js:20-34 | `~~HF64[0]` fails, while `~~+HF64[0]` is Signed |
| Scenarios.WordLoadShiftBy | lib/validate.js:815-836 | `H32[i>>n]` on an Int local `i` is accepted exactly when `n` is 2, the log2 of the 4-byte element size, and it is then Intish |
| Scenarios.WordLoadShift | test/index.js:78-88 | an Int32Array load must shift by 2; shifting by 1 fails; `H32[i>>2]\|0` is Signed |
| Scenarios.AbsOfSigned | lib/tables.js:36-39 | `abs` of a Signed or Fixnum argument takes the integer form and is Unsigned |
| Scenarios.AbsOfDouble | lib/tables.js:36-39 | `abs` of a Double falls through to the floating form |
| Scenarios.AbsOfInt | lib/tables.js:36-39 | `abs` of an Int matches no alternative |

## Left out

- Parsing: the syntax tree is taken as given. `validate` on source text is modelled from the parsed function onward, and source locations are dropped.
- Error messages come from the thrown error in `lib/fail.js`, which carries a message, a location and a rewritten stack. Here an error is a value holding a message; the wording, location and stack are not modelled.
- Crashes (a TypeError on a malformed tree, or `subtype` from a lattice root) are modelled as validation failures, or by the evident intent, as listed above.
- `log2` divides two floating-point logarithms. The model uses the exact integer logarithm on the view widths it is applied to.
- Two error paths cannot arise once the signature is read from the same declaration: "missing type for parameter" and "expected function type for". They are not modelled separately.
- `mutable` is recorded for globals, but the source never consults it, so neither does the model.
- A foreign function imported with `foreign.x` is opaque. It is not callable through `checkArguments`, just as in the source.
- Validation.Validator.Module: requires at most three parameters and a fresh validator, which is what `validate` establishes before calling it.
- Reports.Report.GetExport: for an unknown key in multiple-export mode the source's dictionary lookup throws; the model answers nothing.
- Conditionals whose arms are both Fixnum literals, or an Int and a Fixnum, are rejected, because the code (lib/validate.js:857-871) demands equal arms that are exactly Int or Double; the tests at test/index.js:305-310 and 319-324 expect `(1 ? 2 : 3)|0` and `(1 ? (2 < 3) : 4)|0` to pass. The model follows the code.
- `return -42` is rejected, since a negated literal is neither a literal nor a coercion. `if (0);` is rejected, since the empty statement is not a legal statement. `Math.min` and `Math.max` are absent from the tables. In each case the model follows the code rather than the tests.
- Numbers are exact reals: double rounding, NaN and negative zero in literals are not modelled.

## Findings

| source | as written | input that shows it | evidently intended | confidence | as-written member | corrected member |
|---|---|---|---|---|---|---|
| lib/validate.js:785 | integer literals are Fixnum in [-2^31, 0xffffffff), excluding 0xffffffff itself | the literal `4294967295`: `return 4294967295` is annotated Signed (line 253) and `var x = 4294967295` is Int (line 475), yet the literal does not typecheck | the range [-2^31, 2^32) used at lines 253, 315, 475 and 807 | not executed | Validation.FixnumBoundAsWritten | Validation.ReturnLiteralTypechecks |
| lib/validate.js:162-184 | `splitModule` splits the body into five sections and ignores whatever follows the export return | `"use asm"; return f; function g() { … }`: the trailing statements land in no section and are never checked | a body that ends with the export return, with nothing after it | not executed | Declarations.TrailingStatementsIgnored | Declarations.SplitModuleShape |
