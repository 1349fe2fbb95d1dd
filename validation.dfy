// The validator object (lib/validate.js:91-149, 428-460, 483-632): it records
// the names of the module parameters, owns the module scope, and, while one
// function is checked, that function's scope and declared result. Each of
// its driving methods is proved equal to a function over values that says
// what the pass computes; the lemmas at the end state what an accepted
// module guarantees.
module Validation {
  import opened Failure
  import opened Ast
  import opened Types
  import opened Tables
  import opened Utilities
  import opened Environment
  import opened Reports
  import opened Checker
  import opened Declarations

  // ---------------------------------------------------------------------------
  // What one function check computes (lib/validate.js:483-516)
  // ---------------------------------------------------------------------------

  /**
   * The parameters from position `i` on, bound in turn to the parameter types
   * of the signature. A parameter without a type cannot arise, since the
   * signature is read from the same declaration.
   */
  function BindParams(dict: map<string, ValueType>, xs: seq<string>, ts: seq<ValueType>, i: nat): Result<map<string, ValueType>>
    decreases |xs| - i
  {
    if i >= |xs| then Ok(dict)
    else if i >= |ts| then Err("missing type for parameter " + xs[i])
    else
      var _ :- BindCheck(dict, xs[i]);
      BindParams(dict[xs[i] := ts[i]], xs, ts, i + 1)
  }

  /** The declarators of one `var` statement from position `k` on, each bound to the type its initialiser gives. */
  function BindLocalDecls(dict: map<string, ValueType>, ds: seq<Declarator>, k: nat): Result<map<string, ValueType>>
    decreases |ds| - k
  {
    if k >= |ds| then Ok(dict)
    else
      var t :- Local(ds[k].init);
      var _ :- BindCheck(dict, ds[k].id);
      BindLocalDecls(dict[ds[k].id := t], ds, k + 1)
  }

  /**
   * The local declarations: the `var` statements that follow position `i`
   * without interruption. The result is the scope and the position of the
   * first statement of the function proper.
   */
  function LocalsFrom(dict: map<string, ValueType>, body: seq<Stmt>, i: nat): Result<(map<string, ValueType>, nat)>
    decreases |body| - i
  {
    if i < |body| && body[i].VariableDeclaration? then
      var d :- BindLocalDecls(dict, body[i].declarations, 0);
      LocalsFrom(d, body, i + 1)
    else Ok((dict, i))
  }

  /** The statements from position `i` on; none when `i` lies past the end. */
  function From(body: seq<Stmt>, i: nat): seq<Stmt> {
    if i <= |body| then body[i..] else []
  }

  /**
   * `function`: the function's signature is looked up in the module scope;
   * the parameters, then the locals, are bound in a new scope; and the rest
   * of the body is checked against the declared result.
   */
  function CheckFunction(globals: map<string, Binding>, decl: FunctionDecl): Outcome {
    if decl.id !in globals || !globals[decl.id].ty.Fn? then Err("expected function type for " + decl.id)
    else
      var ft := globals[decl.id].ty.arrow;
      var body := NonEmpty(decl.body);
      var ps :- BindParams(map[], decl.params, ft.params, 0);
      var ls :- LocalsFrom(ps, body, |decl.params|);
      Statements(FunCtx(globals, ls.0, ft.result), From(body, ls.1))
  }

  // ---------------------------------------------------------------------------
  // Annotations agree with the expression checker
  // ---------------------------------------------------------------------------

  /**
   * A function whose result annotation is a numeric literal returns that
   * literal without a type error: the literal's expression type lies below
   * the result type the annotation declares. This holds for the Fixnum range
   * [-2^31, 2^32) that FixnumLiteral uses.
   */
  lemma ReturnLiteralTypechecks(ctx: FunCtx, v: LitValue, raw: string)
    requires ReturnType(ReturnStatement(Some(Literal(v, raw)))) == Ok(ctx.result)
    ensures Statement(ctx, ReturnStatement(Some(Literal(v, raw)))) == Pass
  {
    var e := Literal(v, raw);
    if HasDot(raw) {
      assert ctx.result == Double && Expression(ctx, e) == Ok(Double);
      assert Subtype(Double, Double);
    } else {
      assert ctx.result == Signed && Expression(ctx, e) == Ok(Fixnum);
      SubtypeMatchesUpSet(Fixnum, Signed);
    }
    ReturnTyping(ctx, Some(e));
  }

  /**
   * Every return annotation that `returnType` accepts is sound for the
   * checker: when the returned expression types at all, its type lies below
   * the result type the annotation declares, so the return typechecks.
   */
  lemma ReturnAnnotationTypechecks(ctx: FunCtx, e: Expr)
    requires ReturnType(ReturnStatement(Some(e))) == Ok(ctx.result)
    requires Expression(ctx, e).Ok?
    ensures Statement(ctx, ReturnStatement(Some(e))) == Pass
  {
    if IsPlusAnnotation(e) {
      UnaryPlusIsDouble(ctx, e.argument);
      assert Subtype(Double, Double);
    } else if IsOrZeroAnnotation(e) {
      BitwiseOrIsSigned(ctx, e.left, e.right);
      assert Subtype(Signed, Signed);
    } else {
      ReturnLiteralTypechecks(ctx, e.value, e.raw);
    }
    ReturnTyping(ctx, Some(e));
  }

  /** A local declared with an integer literal has type Int, and the literal itself is a Fixnum, below Int. */
  lemma LocalIntLiteralIsFixnum(ctx: FunCtx, e: Expr)
    requires Local(Some(e)) == Ok(Int)
    ensures Expression(ctx, e) == Ok(Fixnum) && Subtype(Fixnum, Int)
  {
    SubtypeMatchesUpSet(Fixnum, Int);
  }

  /**
   * The range as lib/validate.js:785 writes it leaves out 0xffffffff, which
   * `returnType` (line 253) and `local` (line 475) both accept: a function
   * `return 4294967295` would be declared Signed, and a local initialised
   * with that literal would be Int, yet the bare literal would not typecheck.
   */
  lemma FixnumBoundAsWritten()
    ensures var lit := Literal(Num(4294967295.0), "4294967295");
      && ReturnType(ReturnStatement(Some(lit))) == Ok(Signed)
      && Local(Some(lit)) == Ok(Int)
      && !FixnumLiteralAsWritten(lit.value)
      && FixnumLiteral(lit.value)
  {
    var lit := Literal(Num(4294967295.0), "4294967295");
    assert !HasDot(lit.raw);
    assert IsInteger(lit.value) by {
      assert (4294967295.0).Floor == 4294967295;
    }
  }

  // ---------------------------------------------------------------------------
  // What a module check computes (lib/validate.js:591-632)
  // ---------------------------------------------------------------------------

  /** No parameter name recorded yet. */
  const NoRoots := Roots(None, None, None)

  /** Records `x` as the name of the `i`-th module parameter, named by RootNames (lib/tables.js). */
  function SetRoot(roots: Roots, i: nat, x: string): (r: Roots)
    requires i < |RootNames|
    ensures RootNames[i] == "stdlib" ==> r == roots.(stdlib := Some(x))
    ensures RootNames[i] == "foreign" ==> r == roots.(foreign := Some(x))
    ensures RootNames[i] == "heap" ==> r == roots.(heap := Some(x))
  {
    if i == 0 then roots.(stdlib := Some(x))
    else if i == 1 then roots.(foreign := Some(x))
    else roots.(heap := Some(x))
  }

  /** The module parameters from position `i` on: each is recorded as a root and bound as a module parameter. */
  function BindModuleParams(roots: Roots, g: map<string, Binding>, params: seq<string>, i: nat): Result<(Roots, map<string, Binding>)>
    requires |params| <= |RootNames|
    decreases |params| - i
  {
    if i >= |params| then Ok((roots, g))
    else
      var roots' := SetRoot(roots, i, params[i]);
      var _ :- BindCheck(g, params[i]);
      BindModuleParams(roots', g[params[i] := Binding(false, ModuleParameter)], params, i + 1)
  }

  /** The declarators of a `var` statement; other statements declare nothing. */
  function DeclsOf(s: Stmt): seq<Declarator> {
    if s.VariableDeclaration? then s.declarations else []
  }

  /** The global declarators of one statement from position `k` on, each bound to what its initialiser imports or defines. */
  function BindGlobalDecls(roots: Roots, g: map<string, Binding>, ds: seq<Declarator>, k: nat): Result<map<string, Binding>>
    decreases |ds| - k
  {
    if k >= |ds| then Ok(g)
    else
      var b :- Global(roots, ds[k].init);
      var _ :- BindCheck(g, ds[k].id);
      BindGlobalDecls(roots, g[ds[k].id := b], ds, k + 1)
  }

  /** The global `var` statements from position `j` on. */
  function BindGlobals(roots: Roots, g: map<string, Binding>, ss: seq<Stmt>, j: nat): Result<map<string, Binding>>
    decreases |ss| - j
  {
    if j >= |ss| then Ok(g)
    else
      var g' :- BindGlobalDecls(roots, g, DeclsOf(ss[j]), 0);
      BindGlobals(roots, g', ss, j + 1)
  }

  /** The function declarations from position `j` on, each bound (immutable) to the signature its annotations give. */
  function BindFunctions(g: map<string, Binding>, fs: seq<Stmt>, j: nat): Result<map<string, Binding>>
    decreases |fs| - j
  {
    if j >= |fs| then Ok(g)
    else if !fs[j].FunctionDeclaration? then BindFunctions(g, fs, j + 1)
    else
      var t :- FunctionType(fs[j].decl);
      var _ :- BindCheck(g, fs[j].decl.id);
      BindFunctions(g[fs[j].decl.id := Binding(false, Fn(t))], fs, j + 1)
  }

  /** The table declarators of one statement from position `k` on, each bound (immutable) to its table type. */
  function BindTableDecls(g: map<string, Binding>, ds: seq<Declarator>, k: nat): Result<map<string, Binding>>
    decreases |ds| - k
  {
    if k >= |ds| then Ok(g)
    else
      var t :- TableType(g, ds[k].init);
      var _ :- BindCheck(g, ds[k].id);
      BindTableDecls(g[ds[k].id := Binding(false, t)], ds, k + 1)
  }

  /** The table `var` statements from position `j` on. */
  function BindTables(g: map<string, Binding>, ss: seq<Stmt>, j: nat): Result<map<string, Binding>>
    decreases |ss| - j
  {
    if j >= |ss| then Ok(g)
    else
      var g' :- BindTableDecls(g, DeclsOf(ss[j]), 0);
      BindTables(g', ss, j + 1)
  }

  /** Every function declaration from position `j` on, checked in the complete module scope. */
  function CheckFunctions(g: map<string, Binding>, fs: seq<Stmt>, j: nat): Outcome
    decreases |fs| - j
  {
    if j >= |fs| then Pass
    else
      var _ :- (if fs[j].FunctionDeclaration? then CheckFunction(g, fs[j].decl) else Pass);
      CheckFunctions(g, fs, j + 1)
  }

  /** The module scope once the parameters, globals, functions and tables are bound. */
  function ModuleScope(params: seq<string>, sec: ModuleSections): Result<(Roots, map<string, Binding>)>
    requires |params| <= |RootNames|
  {
    var p :- BindModuleParams(NoRoots, map[], params, 0);
    var g1 :- BindGlobals(p.0, p.1, sec.globals, 0);
    var g2 :- BindFunctions(g1, sec.functions, 0);
    var g3 :- BindTables(g2, sec.tables, 0);
    Ok((p.0, g3))
  }

  /** The sections of a module, checked: build the module scope, check every function, then read the exports. */
  function SectionsSpec(params: seq<string>, sec: ModuleSections): Result<Report>
    requires |params| <= |RootNames|
  {
    var scope :- ModuleScope(params, sec);
    var _ :- CheckFunctions(scope.1, sec.functions, 0);
    var ex :- ExportsOf(scope.1, sec.exports);
    Ok(Report(scope.1, ex))
  }

  /** `module`: split the body, then check its sections. */
  function ModuleSpec(params: seq<string>, body: seq<Stmt>): Result<Report>
    requires |params| <= |RootNames|
  {
    var sec :- SplitModule(body);
    SectionsSpec(params, sec)
  }

  /** The function expression that `validate` expects the source to be. */
  datatype ModuleExpr = ModuleExpr(id: Option<string>, params: seq<string>, body: seq<Stmt>)

  /** `validate`: a named function of at most three parameters, whose non-empty body statements form the module. */
  function ValidateSpec(m: ModuleExpr): Result<Report> {
    if m.id.None? || |m.params| > |RootNames| then Err("invalid asm.js module declaration")
    else ModuleSpec(m.params, NonEmpty(m.body))
  }

  // ---------------------------------------------------------------------------
  // What binding guarantees
  // ---------------------------------------------------------------------------

  /** Every binding of `g` is still there, unchanged, in `g'`. */
  predicate Extends<T(==)>(g: map<string, T>, g': map<string, T>) {
    forall k :: k in g ==> k in g' && g'[k] == g[k]
  }

  /**
   * The parameters become bound to their types, in a scope where none of
   * them was bound before; so the names are pairwise distinct, and none is
   * `arguments` or `eval`.
   */
  lemma {:induction false} BindParamsBinds(dict: map<string, ValueType>, xs: seq<string>, ts: seq<ValueType>, i: nat)
    requires BindParams(dict, xs, ts, i).Ok?
    ensures i < |xs| ==> |xs| <= |ts|
    ensures forall j :: i <= j < |xs| ==> xs[j] !in dict && xs[j] != "arguments" && xs[j] != "eval"
    ensures forall j :: i <= j < |xs| ==> xs[j] in BindParams(dict, xs, ts, i).value && BindParams(dict, xs, ts, i).value[xs[j]] == ts[j]
    ensures forall j1, j2 :: i <= j1 < j2 < |xs| ==> xs[j1] != xs[j2]
    ensures Extends(dict, BindParams(dict, xs, ts, i).value)
    decreases |xs| - i
  {
    if i < |xs| {
      assert i < |ts| && BindCheck(dict, xs[i]).Ok?;
      var dict' := dict[xs[i] := ts[i]];
      assert BindParams(dict, xs, ts, i) == BindParams(dict', xs, ts, i + 1);
      BindParamsBinds(dict', xs, ts, i + 1);
      assert Extends(dict, dict');
      forall j | i < j < |xs|
        ensures xs[j] !in dict && xs[j] != xs[i]
      {
        assert xs[j] !in dict';
      }
    }
  }

  /** The module parameters are recorded as the roots, in order, and bound as module parameters, under distinct names. */
  lemma {:induction false} BindModuleParamsBinds(roots: Roots, g: map<string, Binding>, params: seq<string>, i: nat)
    requires |params| <= |RootNames|
    requires BindModuleParams(roots, g, params, i).Ok?
    ensures var p := BindModuleParams(roots, g, params, i).value;
      && (i <= 0 < |params| ==> p.0.stdlib == Some(params[0]))
      && (i <= 1 < |params| ==> p.0.foreign == Some(params[1]))
      && (i <= 2 < |params| ==> p.0.heap == Some(params[2]))
      && (forall j :: i <= j < |params| ==> params[j] !in g && params[j] in p.1 && p.1[params[j]] == Binding(false, ModuleParameter))
      && (forall j1, j2 :: i <= j1 < j2 < |params| ==> params[j1] != params[j2])
      && Extends(g, p.1)
    decreases |params| - i
  {
    if i < |params| {
      BindModuleParamsBinds(SetRoot(roots, i, params[i]), g[params[i] := Binding(false, ModuleParameter)], params, i + 1);
      if i == 0 {
        RootsAfter(SetRoot(roots, 0, params[0]), g[params[0] := Binding(false, ModuleParameter)], params, 1);
      } else if i == 1 {
        RootsAfter(SetRoot(roots, 1, params[1]), g[params[1] := Binding(false, ModuleParameter)], params, 2);
      }
    }
  }

  /** Later parameters do not overwrite the roots recorded for earlier ones. */
  lemma {:induction false} RootsAfter(roots: Roots, g: map<string, Binding>, params: seq<string>, i: nat)
    requires |params| <= |RootNames|
    requires BindModuleParams(roots, g, params, i).Ok?
    ensures i > 0 ==> BindModuleParams(roots, g, params, i).value.0.stdlib == roots.stdlib
    ensures i > 1 ==> BindModuleParams(roots, g, params, i).value.0.foreign == roots.foreign
    decreases |params| - i
  {
    if i < |params| {
      RootsAfter(SetRoot(roots, i, params[i]), g[params[i] := Binding(false, ModuleParameter)], params, i + 1);
    }
  }

  /** Binding globals only adds names; each added name is bound to what its initialiser gives. */
  lemma {:induction false} BindGlobalDeclsBinds(roots: Roots, g: map<string, Binding>, ds: seq<Declarator>, k: nat)
    requires BindGlobalDecls(roots, g, ds, k).Ok?
    ensures Extends(g, BindGlobalDecls(roots, g, ds, k).value)
    ensures forall m :: k <= m < |ds| ==>
      && ds[m].id !in g && ds[m].id in BindGlobalDecls(roots, g, ds, k).value
      && Global(roots, ds[m].init) == Ok(BindGlobalDecls(roots, g, ds, k).value[ds[m].id])
    decreases |ds| - k
  {
    if k < |ds| {
      var b := Global(roots, ds[k].init).value;
      BindGlobalDeclsBinds(roots, g[ds[k].id := b], ds, k + 1);
    }
  }

  lemma {:induction false} BindGlobalsExtends(roots: Roots, g: map<string, Binding>, ss: seq<Stmt>, j: nat)
    requires BindGlobals(roots, g, ss, j).Ok?
    ensures Extends(g, BindGlobals(roots, g, ss, j).value)
    decreases |ss| - j
  {
    if j < |ss| {
      var g' := BindGlobalDecls(roots, g, DeclsOf(ss[j]), 0).value;
      BindGlobalDeclsBinds(roots, g, DeclsOf(ss[j]), 0);
      BindGlobalsExtends(roots, g', ss, j + 1);
    }
  }

  /** Binding functions only adds names; each function's name is bound, immutable, to its signature. */
  lemma {:induction false} BindFunctionsBinds(g: map<string, Binding>, fs: seq<Stmt>, j: nat)
    requires BindFunctions(g, fs, j).Ok?
    ensures Extends(g, BindFunctions(g, fs, j).value)
    ensures forall i :: j <= i < |fs| && fs[i].FunctionDeclaration? ==>
      && FunctionType(fs[i].decl).Ok? && fs[i].decl.id !in g
      && fs[i].decl.id in BindFunctions(g, fs, j).value
      && BindFunctions(g, fs, j).value[fs[i].decl.id] == Binding(false, Fn(FunctionType(fs[i].decl).value))
    decreases |fs| - j
  {
    if j < |fs| {
      if fs[j].FunctionDeclaration? {
        var f := fs[j].decl.id;
        var t := FunctionType(fs[j].decl).value;
        BindFunctionsBinds(g[f := Binding(false, Fn(t))], fs, j + 1);
      } else {
        BindFunctionsBinds(g, fs, j + 1);
      }
    }
  }

  lemma {:induction false} BindTableDeclsExtends(g: map<string, Binding>, ds: seq<Declarator>, k: nat)
    requires BindTableDecls(g, ds, k).Ok?
    ensures Extends(g, BindTableDecls(g, ds, k).value)
    decreases |ds| - k
  {
    if k < |ds| {
      var t := TableType(g, ds[k].init).value;
      BindTableDeclsExtends(g[ds[k].id := Binding(false, t)], ds, k + 1);
    }
  }

  lemma {:induction false} BindTablesExtends(g: map<string, Binding>, ss: seq<Stmt>, j: nat)
    requires BindTables(g, ss, j).Ok?
    ensures Extends(g, BindTables(g, ss, j).value)
    decreases |ss| - j
  {
    if j < |ss| {
      var g' := BindTableDecls(g, DeclsOf(ss[j]), 0).value;
      BindTableDeclsExtends(g, DeclsOf(ss[j]), 0);
      BindTablesExtends(g', ss, j + 1);
    }
  }

  /** Checking the functions passes exactly when each function declaration passes on its own. */
  lemma {:induction false} CheckFunctionsAll(g: map<string, Binding>, fs: seq<Stmt>, j: nat)
    ensures CheckFunctions(g, fs, j).Ok? <==>
      forall i :: j <= i < |fs| && fs[i].FunctionDeclaration? ==> CheckFunction(g, fs[i].decl).Ok?
    decreases |fs| - j
  {
    if j < |fs| {
      CheckFunctionsAll(g, fs, j + 1);
    }
  }

  // ---------------------------------------------------------------------------
  // What an accepted module guarantees
  // ---------------------------------------------------------------------------

  /**
   * In the scope an accepted module builds, the module parameters are bound
   * as such under distinct names, and every function declaration is bound,
   * immutable, to the signature its annotations give.
   */
  lemma ModuleScopeBinds(params: seq<string>, sec: ModuleSections)
    requires |params| <= |RootNames|
    requires ModuleScope(params, sec).Ok?
    ensures var g := ModuleScope(params, sec).value.1;
      && (forall j :: 0 <= j < |params| ==> params[j] in g && g[params[j]] == Binding(false, ModuleParameter))
      && (forall j1, j2 :: 0 <= j1 < j2 < |params| ==> params[j1] != params[j2])
      && (forall i :: 0 <= i < |sec.functions| && sec.functions[i].FunctionDeclaration? ==>
            && FunctionType(sec.functions[i].decl).Ok?
            && sec.functions[i].decl.id in g
            && g[sec.functions[i].decl.id] == Binding(false, Fn(FunctionType(sec.functions[i].decl).value)))
  {
    var p := BindModuleParams(NoRoots, map[], params, 0).value;
    var g1 := BindGlobals(p.0, p.1, sec.globals, 0).value;
    var g2 := BindFunctions(g1, sec.functions, 0).value;
    var g3 := BindTables(g2, sec.tables, 0).value;
    BindModuleParamsBinds(NoRoots, map[], params, 0);
    BindGlobalsExtends(p.0, p.1, sec.globals, 0);
    BindFunctionsBinds(g1, sec.functions, 0);
    BindTablesExtends(g2, sec.tables, 0);
  }

  /**
   * Once the sections of a module are accepted, the report gives every
   * declared function the signature its annotations give, and every such
   * function's body typechecks against that signature in the module scope.
   */
  lemma AcceptedFunctions(params: seq<string>, sec: ModuleSections)
    requires |params| <= |RootNames|
    requires SectionsSpec(params, sec).Ok?
    ensures var rep := SectionsSpec(params, sec).value;
      forall i :: 0 <= i < |sec.functions| && sec.functions[i].FunctionDeclaration? ==>
        && FunctionType(sec.functions[i].decl).Ok?
        && rep.GetFunction(sec.functions[i].decl.id) == Some(FunctionType(sec.functions[i].decl).value)
        && CheckFunction(rep.globals, sec.functions[i].decl) == Pass
  {
    var g := ModuleScope(params, sec).value.1;
    var rep := SectionsSpec(params, sec).value;
    assert rep.globals == g;
    ModuleScopeBinds(params, sec);
    CheckFunctionsAll(g, sec.functions, 0);
    forall i | 0 <= i < |sec.functions| && sec.functions[i].FunctionDeclaration?
      ensures FunctionType(sec.functions[i].decl).Ok?
      ensures rep.GetFunction(sec.functions[i].decl.id) == Some(FunctionType(sec.functions[i].decl).value)
      ensures CheckFunction(rep.globals, sec.functions[i].decl) == Pass
    {
      var o := CheckFunction(g, sec.functions[i].decl);
      assert o.Ok?;
      assert o == Pass by {
        match o case Ok(u) => assert u == ();
      }
    }
  }

  /** The module parameters of an accepted module are distinct names, bound in its report as module parameters. */
  lemma AcceptedParameters(params: seq<string>, sec: ModuleSections)
    requires |params| <= |RootNames|
    requires SectionsSpec(params, sec).Ok?
    ensures var rep := SectionsSpec(params, sec).value;
      && (forall j :: 0 <= j < |params| ==> params[j] in rep.globals && rep.globals[params[j]] == Binding(false, ModuleParameter))
      && (forall j1, j2 :: 0 <= j1 < j2 < |params| ==> params[j1] != params[j2])
  {
    ModuleScopeBinds(params, sec);
  }

  /** Whatever an accepted module exports is one of its functions, reported with that function's signature. */
  lemma AcceptedExports(params: seq<string>, sec: ModuleSections)
    requires |params| <= |RootNames|
    requires SectionsSpec(params, sec).Ok?
    ensures var rep := SectionsSpec(params, sec).value;
      && (rep.exportsRecord.Single? ==> rep.GetFunction(rep.exportsRecord.sole.name) == Some(rep.exportsRecord.sole.arrow))
      && (rep.exportsRecord.Multiple? ==> forall k :: k in rep.exportsRecord.exports ==>
            rep.GetFunction(rep.exportsRecord.exports[k].name) == Some(rep.exportsRecord.exports[k].arrow))
  {
    var g := ModuleScope(params, sec).value.1;
    ExportsOfSpec(g, sec.exports);
  }

  /** The report of an accepted module is the one its sections give, and the body has the layout of a module. */
  lemma AcceptedModule(params: seq<string>, body: seq<Stmt>)
    requires |params| <= |RootNames|
    requires ModuleSpec(params, body).Ok?
    ensures SplitModule(body).Ok?
    ensures ModuleSpec(params, body) == SectionsSpec(params, SplitModule(body).value)
    ensures var sec := SplitModule(body).value;
      && IsUseAsm(body[0])
      && body == [body[0]] + sec.globals + sec.functions + sec.tables + [ReturnStatement(sec.exports)]
  {
    SplitModuleShape(body);
  }

  // ---------------------------------------------------------------------------
  // The validator
  // ---------------------------------------------------------------------------

  class Validator {
    var roots: Roots
    var globals: Env<Binding>
    var locals: Env?<ValueType>
    var result: Option<ValueType>

    /** A validator as lib/validate.js:91-101 creates it: no roots, an empty module scope, no function being checked. */
    predicate Fresh()
      reads this, globals
    {
      roots == NoRoots && globals.dict == map[] && locals == null && result == None
    }

    constructor ()
      ensures Fresh() && fresh(globals)
    {
      roots := NoRoots;
      globals := new Env<Binding>();
      locals := null;
      result := None;
    }

    /** `table` (lib/validate.js:428-460), with its loop comparing each entry's signature to the first. */
    method Table(init: Option<Expr>) returns (r: Result<Type>)
      ensures r == TableType(globals.dict, init)
    {
      if init.None? || !init.value.ArrayExpression? {
        return Err("invalid function table");
      }
      var names := EntryNames(init.value.elements);
      if names.Err? {
        return Err(names.msg);
      }
      var fs := names.value;
      if |fs| == 0 {
        return Err("empty function table");
      }
      if !PowerOf2(|fs|) {
        return Err("function table length must be a power of 2");
      }
      var types := EntryTypes(globals.dict, fs);
      if types.Err? {
        return Err(types.msg);
      }
      var fts := types.value;
      var ft := fts[0];
      var i := 1;
      while i < |fts|
        invariant 1 <= i <= |fts|
        invariant forall j :: 1 <= j < i ==> ArrowEquals(ft, Fn(fts[j]))
      {
        if !ArrowEquals(ft, Fn(fts[i])) {
          return Err("unexpected function type in function table");
        }
        i := i + 1;
      }
      return Ok(Type.Table(ft, |fs|));
    }

    /** `exports` (lib/validate.js:520-588), with its loop adding the entries of an object literal in order. */
    method Exports(expr: Option<Expr>) returns (r: Result<Exports>)
      ensures r == ExportsOf(globals.dict, expr)
    {
      if expr.Some? && expr.value.Identifier? {
        var a := ExportedArrow(globals.dict, expr.value.name);
        if a.Err? {
          return Err(a.msg);
        }
        return Ok(Single(Export(expr.value.name, a.value)));
      }
      if !(expr.Some? && expr.value.ObjectExpression?) {
        return Err("invalid exports declaration");
      }
      var props := expr.value.properties;
      var table: map<string, Export> := map[];
      var i := 0;
      while i < |props|
        invariant 0 <= i <= |props|
        invariant AddExports(globals.dict, map[], props) == AddExports(globals.dict, table, props[i..])
      {
        assert props[i..][1..] == props[i + 1..];
        var entry := ExportEntry(props[i]);
        if entry.None? {
          return Err("invalid export declaration");
        }
        var a := ExportedArrow(globals.dict, entry.value.1);
        if a.Err? {
          return Err(a.msg);
        }
        table := table[entry.value.0 := Export(entry.value.1, a.value)];
        i := i + 1;
      }
      return Ok(Multiple(table));
    }

    /** The parameters bound in the function's scope (lib/validate.js:495-498). */
    method BindParameters(xs: seq<string>, ts: seq<ValueType>) returns (o: Outcome)
      requires locals != null
      modifies locals
      ensures BindParams(old(locals.dict), xs, ts, 0) == if o.Ok? then Ok(locals.dict) else Err(o.msg)
    {
      var i := 0;
      while i < |xs|
        invariant 0 <= i <= |xs|
        invariant BindParams(old(locals.dict), xs, ts, 0) == BindParams(locals.dict, xs, ts, i)
      {
        if i >= |ts| {
          return Err("missing type for parameter " + xs[i]);
        }
        o := locals.Bind(xs[i], ts[i]);
        if o.Err? {
          return;
        }
        i := i + 1;
      }
      return Pass;
    }

    /** The declarators of one local `var` statement bound in the function's scope (lib/validate.js:503-506). */
    method BindLocalDeclarators(ds: seq<Declarator>) returns (o: Outcome)
      requires locals != null
      modifies locals
      ensures BindLocalDecls(old(locals.dict), ds, 0) == if o.Ok? then Ok(locals.dict) else Err(o.msg)
    {
      var k := 0;
      while k < |ds|
        invariant 0 <= k <= |ds|
        invariant BindLocalDecls(old(locals.dict), ds, 0) == BindLocalDecls(locals.dict, ds, k)
      {
        var t := Local(ds[k].init);
        if t.Err? {
          return Err(t.msg);
        }
        o := locals.Bind(ds[k].id, t.value);
        if o.Err? {
          return;
        }
        k := k + 1;
      }
      return Pass;
    }

    /**
     * The local declarations from position `i` on (lib/validate.js:501-508):
     * on success, the position of the first statement that is not one.
     */
    method BindLocalDeclarations(body: seq<Stmt>, i: nat) returns (r: Result<nat>)
      requires locals != null
      modifies locals
      ensures LocalsFrom(old(locals.dict), body, i) == if r.Ok? then Ok((locals.dict, r.value)) else Err(r.msg)
    {
      var j := i;
      while j < |body| && body[j].VariableDeclaration?
        invariant i <= j
        invariant LocalsFrom(old(locals.dict), body, i) == LocalsFrom(locals.dict, body, j)
        decreases |body| - j
      {
        var o := BindLocalDeclarators(body[j].declarations);
        if o.Err? {
          return Err(o.msg);
        }
        j := j + 1;
      }
      return Ok(j);
    }

    /**
     * `function` (lib/validate.js:483-516). The function's scope lives in
     * `locals` and its result in `result` while the body is checked; both are
     * cleared afterwards, whether the check passed or failed.
     */
    method Function(decl: FunctionDecl) returns (o: Outcome)
      requires locals == null && result == None
      modifies this
      ensures o == CheckFunction(globals.dict, decl)
      ensures locals == null && result == None
      ensures roots == old(roots) && globals == old(globals)
    {
      var look := globals.Lookup(decl.id);
      if look.None? || !look.value.ty.Fn? {
        return Err("expected function type for " + decl.id);
      }
      var ft := look.value.ty.arrow;
      var body := NonEmpty(decl.body);
      var env := new Env<ValueType>();
      locals := env;
      result := Some(ft.result);
      var p := BindParameters(decl.params, ft.params);
      if p.Err? {
        locals, result := null, None;
        return p;
      }
      var l := BindLocalDeclarations(body, |decl.params|);
      if l.Err? {
        locals, result := null, None;
        return Err(l.msg);
      }
      o := Statements(FunCtx(globals.dict, env.dict, ft.result), From(body, l.value));
      locals, result := null, None;
    }

    /** The module parameters recorded and bound (lib/validate.js:594-598). */
    method BindModuleParameters(params: seq<string>) returns (o: Outcome)
      requires |params| <= |RootNames|
      modifies this, globals
      ensures BindModuleParams(old(roots), old(globals.dict), params, 0) ==
        if o.Ok? then Ok((roots, globals.dict)) else Err(o.msg)
      ensures globals == old(globals) && locals == old(locals) && result == old(result)
    {
      var i := 0;
      while i < |params|
        invariant 0 <= i <= |params|
        invariant BindModuleParams(old(roots), old(globals.dict), params, 0) == BindModuleParams(roots, globals.dict, params, i)
        invariant globals == old(globals) && locals == old(locals) && result == old(result)
      {
        roots := SetRoot(roots, i, params[i]);
        o := globals.Bind(params[i], Binding(false, ModuleParameter));
        if o.Err? {
          return;
        }
        i := i + 1;
      }
      return Pass;
    }

    /** The declarators of one global `var` statement checked and bound (lib/validate.js:602-606). */
    method BindGlobalDeclarators(ds: seq<Declarator>) returns (o: Outcome)
      modifies globals
      ensures BindGlobalDecls(roots, old(globals.dict), ds, 0) == if o.Ok? then Ok(globals.dict) else Err(o.msg)
    {
      var k := 0;
      while k < |ds|
        invariant 0 <= k <= |ds|
        invariant BindGlobalDecls(roots, old(globals.dict), ds, 0) == BindGlobalDecls(roots, globals.dict, ds, k)
      {
        var mt := Global(roots, ds[k].init);
        if mt.Err? {
          return Err(mt.msg);
        }
        o := globals.Bind(ds[k].id, mt.value);
        if o.Err? {
          return;
        }
        k := k + 1;
      }
      return Pass;
    }

    /** The function declarations bound to their signatures (lib/validate.js:610-614). */
    method BindFunctionTypes(fs: seq<Stmt>) returns (o: Outcome)
      modifies globals
      ensures BindFunctions(old(globals.dict), fs, 0) == if o.Ok? then Ok(globals.dict) else Err(o.msg)
    {
      var j := 0;
      while j < |fs|
        invariant 0 <= j <= |fs|
        invariant BindFunctions(old(globals.dict), fs, 0) == BindFunctions(globals.dict, fs, j)
      {
        if fs[j].FunctionDeclaration? {
          var decl := fs[j].decl;
          var t := FunctionType(decl);
          if t.Err? {
            return Err(t.msg);
          }
          o := globals.Bind(decl.id, Binding(false, Fn(t.value)));
          if o.Err? {
            return;
          }
        }
        j := j + 1;
      }
      return Pass;
    }

    /** The declarators of one table `var` statement checked and bound (lib/validate.js:618-622). */
    method BindTableDeclarators(ds: seq<Declarator>) returns (o: Outcome)
      modifies globals
      ensures BindTableDecls(old(globals.dict), ds, 0) == if o.Ok? then Ok(globals.dict) else Err(o.msg)
    {
      var k := 0;
      while k < |ds|
        invariant 0 <= k <= |ds|
        invariant BindTableDecls(old(globals.dict), ds, 0) == BindTableDecls(globals.dict, ds, k)
      {
        var t := Table(ds[k].init);
        if t.Err? {
          return Err(t.msg);
        }
        o := globals.Bind(ds[k].id, Binding(false, t.value));
        if o.Err? {
          return;
        }
        k := k + 1;
      }
      return Pass;
    }

    /** Every function body checked in turn (lib/validate.js:626). */
    method CheckFunctionBodies(fs: seq<Stmt>) returns (o: Outcome)
      requires locals == null && result == None
      modifies this
      ensures o == CheckFunctions(globals.dict, fs, 0)
      ensures locals == null && result == None
      ensures roots == old(roots) && globals == old(globals)
    {
      var j := 0;
      while j < |fs|
        invariant 0 <= j <= |fs|
        invariant CheckFunctions(globals.dict, fs, 0) == CheckFunctions(globals.dict, fs, j)
        invariant locals == null && result == None
        invariant roots == old(roots) && globals == old(globals) && globals.dict == old(globals.dict)
      {
        if fs[j].FunctionDeclaration? {
          o := Function(fs[j].decl);
          if o.Err? {
            return;
          }
        }
        j := j + 1;
      }
      return Pass;
    }

    /** The global `var` statements bound in turn (lib/validate.js:600-607). */
    method BindGlobalStatements(ss: seq<Stmt>) returns (o: Outcome)
      modifies globals
      ensures BindGlobals(roots, old(globals.dict), ss, 0) == if o.Ok? then Ok(globals.dict) else Err(o.msg)
    {
      var j := 0;
      while j < |ss|
        invariant 0 <= j <= |ss|
        invariant BindGlobals(roots, old(globals.dict), ss, 0) == BindGlobals(roots, globals.dict, ss, j)
      {
        o := BindGlobalDeclarators(DeclsOf(ss[j]));
        if o.Err? {
          return;
        }
        j := j + 1;
      }
      return Pass;
    }

    /** The function table `var` statements bound in turn (lib/validate.js:616-623). */
    method BindTableStatements(ss: seq<Stmt>) returns (o: Outcome)
      modifies globals
      ensures BindTables(old(globals.dict), ss, 0) == if o.Ok? then Ok(globals.dict) else Err(o.msg)
    {
      var j := 0;
      while j < |ss|
        invariant 0 <= j <= |ss|
        invariant BindTables(old(globals.dict), ss, 0) == BindTables(globals.dict, ss, j)
      {
        o := BindTableDeclarators(DeclsOf(ss[j]));
        if o.Err? {
          return;
        }
        j := j + 1;
      }
      return Pass;
    }

    /** The module scope built from the sections (lib/validate.js:594-623). */
    method BuildScope(params: seq<string>, sec: ModuleSections) returns (o: Outcome)
      requires |params| <= |RootNames|
      requires Fresh()
      modifies this, globals
      ensures ModuleScope(params, sec) == if o.Ok? then Ok((roots, globals.dict)) else Err(o.msg)
      ensures globals == old(globals) && locals == null && result == None
    {
      o := BindModuleParameters(params);
      if o.Err? {
        return;
      }
      ghost var p := (roots, globals.dict);
      o := BindGlobalStatements(sec.globals);
      if o.Err? {
        return;
      }
      ghost var g1 := globals.dict;
      o := BindFunctionTypes(sec.functions);
      if o.Err? {
        return;
      }
      ghost var g2 := globals.dict;
      o := BindTableStatements(sec.tables);
      if o.Err? {
        return;
      }
      assert BindModuleParams(NoRoots, map[], params, 0) == Ok(p);
      assert BindGlobals(p.0, p.1, sec.globals, 0) == Ok(g1);
      assert BindFunctions(g1, sec.functions, 0) == Ok(g2);
      assert BindTables(g2, sec.tables, 0) == Ok(globals.dict);
      return Pass;
    }

    /** `module` (lib/validate.js:591-632), on a validator no module has been checked with yet. */
    method Module(params: seq<string>, body: seq<Stmt>) returns (r: Result<Report>)
      requires |params| <= |RootNames|
      requires Fresh()
      modifies this, globals
      ensures r == ModuleSpec(params, body)
      ensures r.Ok? ==> globals.dict == r.value.globals && locals == null && result == None
    {
      var split := SplitModule(body);
      if split.Err? {
        return Err(split.msg);
      }
      var sec := split.value;
      var o := BuildScope(params, sec);
      if o.Err? {
        return Err(o.msg);
      }
      o := CheckFunctionBodies(sec.functions);
      if o.Err? {
        return Err(o.msg);
      }
      var exports := Exports(sec.exports);
      if exports.Err? {
        return Err(exports.msg);
      }
      return Ok(Report(globals.dict, exports.value));
    }

    /** `validate` (lib/validate.js:139-149), on a newly created validator; parsing is not modelled. */
    method Validate(m: ModuleExpr) returns (r: Result<Report>)
      requires Fresh()
      modifies this, globals
      ensures r == ValidateSpec(m)
    {
      if m.id.None? || |m.params| > |RootNames| {
        return Err("invalid asm.js module declaration");
      }
      r := Module(m.params, NonEmpty(m.body));
    }
  }
}
