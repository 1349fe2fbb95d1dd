// The module-level declarations (lib/validate.js:162-273, 299-588): the
// decomposition of a module body into sections, the annotations that give
// parameters and results their types, the initialisers of globals and
// locals, function tables and the export clause. Each is a pure function of
// the syntax and of the module scope built so far; the loops that the source
// writes for tables and exports are methods of the validator, proved equal
// to the functions here.
module Declarations {
  import opened Failure
  import opened Ast
  import opened Types
  import opened Tables
  import opened Utilities
  import opened Reports

  // ---------------------------------------------------------------------------
  // splitModule (lib/validate.js:162-184)
  // ---------------------------------------------------------------------------

  /** The section filters, in order: directive, globals, functions, tables, exports. */
  const ModuleLayout: seq<StmtKind> :=
    [KExpressionStatement, KVariableDeclaration, KFunctionDeclaration, KVariableDeclaration, KReturnStatement]

  /** What `splitModule` hands on: the three declaration sections and the argument of the export return. */
  datatype ModuleSections = ModuleSections(globals: seq<Stmt>, functions: seq<Stmt>, tables: seq<Stmt>, exports: Option<Expr>)

  /** The `"use asm"` directive: an expression statement whose expression is that string literal. */
  predicate IsUseAsm(s: Stmt) {
    s.ExpressionStatement? && s.expression.Literal? && s.expression.value == Str("use asm")
  }

  /**
   * `splitModule` as lib/validate.js:162-184 writes it: exactly one directive
   * section, which is `"use asm"`, and exactly one return. Statements that
   * follow the return are in no section and are never looked at.
   */
  function SplitModuleAsWritten(body: seq<Stmt>): (r: Result<ModuleSections>)
    ensures r.Ok? ==> |body| > 0 && IsUseAsm(body[0])
  {
    var s := Sections(body, ModuleLayout);
    DirectiveHead(body);
    ExportHead(body);
    if |s[0]| != 1 then Err("expected single \"use asm\" directive")
    else if !IsUseAsm(s[0][0]) then Err("invalid \"use asm\" directive")
    else if |s[4]| != 1 then Err("expected single exports declaration")
    else Ok(ModuleSections(s[1], s[2], s[3], s[4][0].argument))
  }

  /** The directive section starts the body. */
  lemma DirectiveHead(body: seq<Stmt>)
    ensures var r := Sections(body, ModuleLayout);
      |r[0]| > 0 ==> |body| > 0 && r[0][0] == body[0]
  {
    SectionIsMaximalRun(body, ModuleLayout, 0);
  }

  /** The export section holds return statements. */
  lemma ExportHead(body: seq<Stmt>)
    ensures var r := Sections(body, ModuleLayout);
      |r[4]| > 0 ==> r[4][0].ReturnStatement?
  {
    var r := Sections(body, ModuleLayout);
    SectionKinds(body, 4);
    if |r[4]| > 0 {
      ReturnKind(r[4][0]);
    }
  }

  lemma ReturnKind(s: Stmt)
    requires KindOf(s) == KReturnStatement
    ensures s.ReturnStatement?
  {
  }

  /**
   * `splitModule` with the module shape enforced in full: in addition, the
   * five sections must use up the whole body, so nothing may follow the
   * export return and no statement may appear out of order.
   */
  function SplitModule(body: seq<Stmt>): (r: Result<ModuleSections>)
    ensures r.Ok? ==> SplitModuleAsWritten(body) == r
  {
    var sections :- SplitModuleAsWritten(body);
    if |Concat(Sections(body, ModuleLayout))| != |body| then Err("unexpected statement in module body")
    else Ok(sections)
  }

  /**
   * An accepted body is exactly the directive, then the globals, the
   * functions and the tables, then the export return, in that order; each
   * section holds statements of its own kind only.
   */
  lemma SplitModuleShape(body: seq<Stmt>)
    requires SplitModule(body).Ok?
    ensures var sec := SplitModule(body).value;
      && IsUseAsm(body[0])
      && body == [body[0]] + sec.globals + sec.functions + sec.tables + [ReturnStatement(sec.exports)]
      && (forall i :: 0 <= i < |sec.globals| ==> sec.globals[i].VariableDeclaration?)
      && (forall i :: 0 <= i < |sec.functions| ==> sec.functions[i].FunctionDeclaration?)
      && (forall i :: 0 <= i < |sec.tables| ==> sec.tables[i].VariableDeclaration?)
  {
    var s: seq<seq<Stmt>> := Sections(body, ModuleLayout);
    var sec := SplitModule(body).value;
    AcceptedSections(body);
    ConcatFive(s);
    assert s[0] == [body[0]];
    SectionKinds(body, 1);
    KindsAre(s[1], KVariableDeclaration);
    SectionKinds(body, 2);
    KindsAre(s[2], KFunctionDeclaration);
    SectionKinds(body, 3);
    KindsAre(s[3], KVariableDeclaration);
  }

  /** The sections of an accepted body: one directive, the three declaration sections, one return; together, the whole body. */
  lemma AcceptedSections(body: seq<Stmt>)
    requires SplitModule(body).Ok?
    ensures var s := Sections(body, ModuleLayout);
      var sec := SplitModule(body).value;
      && |body| > 0 && IsUseAsm(body[0])
      && |s[0]| == 1 && s[0][0] == body[0]
      && s[4] == [ReturnStatement(sec.exports)]
      && sec.globals == s[1] && sec.functions == s[2] && sec.tables == s[3]
      && body == Concat(s)
  {
    var s: seq<seq<Stmt>> := Sections(body, ModuleLayout);
    var sec := SplitModule(body).value;
    DirectiveHead(body);
    ExportHead(body);
    assert SplitModuleAsWritten(body) == Ok(sec);
    SectionsArePrefix(body, ModuleLayout);
  }

  lemma ConcatFive(s: seq<seq<Stmt>>)
    requires |s| == 5
    ensures Concat(s) == s[0] + s[1] + s[2] + s[3] + s[4]
  {
    assert s[4..][1..] == [];
    assert Concat(s[4..]) == s[4];
    assert s[3..][1..] == s[4..];
    assert Concat(s[3..]) == s[3] + s[4];
    assert s[2..][1..] == s[3..];
    assert Concat(s[2..]) == s[2] + (s[3] + s[4]);
    assert s[1..][1..] == s[2..];
    assert Concat(s[1..]) == s[1] + (s[2] + (s[3] + s[4]));
    assert Concat(s) == s[0] + (s[1] + (s[2] + (s[3] + s[4])));
    Regroup3(s[0], s[1], s[2], s[3] + s[4]);
    Associative(s[0] + s[1] + s[2], s[3], s[4]);
  }

  lemma Regroup3(p: seq<Stmt>, a: seq<Stmt>, b: seq<Stmt>, c: seq<Stmt>)
    ensures p + a + b + c == p + (a + (b + c))
  {
    Associative(p, a, b + c);
    Associative(p + a, b, c);
    Associative(a, b, c);
  }

  /** Each section of a module body holds statements of its filter's kind only. */
  lemma SectionKinds(body: seq<Stmt>, k: nat)
    requires k < 5
    ensures var r := Sections(body, ModuleLayout)[k];
      forall j :: 0 <= j < |r| ==> KindOf(r[j]) == ModuleLayout[k]
  {
    SectionIsMaximalRun(body, ModuleLayout, k);
  }

  lemma KindsAre(ss: seq<Stmt>, k: StmtKind)
    requires forall j :: 0 <= j < |ss| ==> KindOf(ss[j]) == k
    ensures k == KVariableDeclaration ==> forall j :: 0 <= j < |ss| ==> ss[j].VariableDeclaration?
    ensures k == KFunctionDeclaration ==> forall j :: 0 <= j < |ss| ==> ss[j].FunctionDeclaration?
  {
  }

  /**
   * Conversely, a body laid out in module order is accepted and split into
   * exactly those sections. With no functions, table declarations cannot be
   * told apart from globals, so an empty function section requires an empty
   * table section.
   */
  lemma SplitModuleAccepts(d: Stmt, gs: seq<Stmt>, fs: seq<Stmt>, ts: seq<Stmt>, e: Option<Expr>)
    requires IsUseAsm(d)
    requires forall i :: 0 <= i < |gs| ==> gs[i].VariableDeclaration?
    requires forall i :: 0 <= i < |fs| ==> fs[i].FunctionDeclaration?
    requires forall i :: 0 <= i < |ts| ==> ts[i].VariableDeclaration?
    requires fs == [] ==> ts == []
    ensures SplitModule([d] + gs + fs + ts + [ReturnStatement(e)]) == Ok(ModuleSections(gs, fs, ts, e))
  {
    var ret := [ReturnStatement(e)];
    var body := [d] + gs + fs + ts + ret;
    SectionsOfLayout(d, gs, fs, ts, ret, []);
    assert body + [] == body;
    var s := Sections(body, ModuleLayout);
    assert s == [[d], gs, fs, ts, ret];
    ConcatFive(s);
  }

  lemma Pieces(d: Stmt, gs: seq<Stmt>, fs: seq<Stmt>, ts: seq<Stmt>, ret: seq<Stmt>, rest: seq<Stmt>)
    ensures LaidOut([d] + gs + fs + ts + ret + rest, d, gs, fs, ts, ret, rest)
  {
  }

  predicate LaidOut(body: seq<Stmt>, d: Stmt, gs: seq<Stmt>, fs: seq<Stmt>, ts: seq<Stmt>, ret: seq<Stmt>, rest: seq<Stmt>)
  {
    && |body| == 1 + |gs| + |fs| + |ts| + |ret| + |rest|
    && body[0] == d
    && Placed(body, 1, gs)
    && Placed(body, 1 + |gs|, fs)
    && Placed(body, 1 + |gs| + |fs|, ts)
    && Placed(body, 1 + |gs| + |fs| + |ts|, ret)
    && Placed(body, 1 + |gs| + |fs| + |ts| + |ret|, rest)
  }

  /** `block` occurs in `body` at position `c`. */
  predicate Placed(body: seq<Stmt>, c: nat, block: seq<Stmt>) {
    c + |block| <= |body| && forall j :: 0 <= j < |block| ==> body[c + j] == block[j]
  }

  function LayoutCuts(gs: seq<Stmt>, fs: seq<Stmt>, ts: seq<Stmt>): seq<nat>
  {
    [0, 1, 1 + |gs|, 1 + |gs| + |fs|, 1 + |gs| + |fs| + |ts|, 2 + |gs| + |fs| + |ts|]
  }

  /** A placed block of statements of one kind makes that stretch of the body of that kind. */
  lemma PlacedKinds(body: seq<Stmt>, c: nat, block: seq<Stmt>, k: StmtKind)
    requires Placed(body, c, block)
    requires forall i :: 0 <= i < |block| ==> KindOf(block[i]) == k
    ensures forall j :: c <= j < c + |block| ==> KindOf(body[j]) == k
  {
    forall j | c <= j < c + |block|
      ensures KindOf(body[j]) == k
    {
      assert body[j] == block[j - c];
    }
  }

  /** The stretch between cuts `k` and `k + 1` holds statements of filter `k`'s kind. */
  lemma LayoutKinds(body: seq<Stmt>, d: Stmt, gs: seq<Stmt>, fs: seq<Stmt>, ts: seq<Stmt>, ret: seq<Stmt>, rest: seq<Stmt>)
    requires LaidOut(body, d, gs, fs, ts, ret, rest)
    requires d.ExpressionStatement? && |ret| == 1 && ret[0].ReturnStatement?
    requires forall i :: 0 <= i < |gs| ==> KindOf(gs[i]) == KVariableDeclaration
    requires forall i :: 0 <= i < |fs| ==> KindOf(fs[i]) == KFunctionDeclaration
    requires forall i :: 0 <= i < |ts| ==> KindOf(ts[i]) == KVariableDeclaration
    ensures var cuts := LayoutCuts(gs, fs, ts);
      forall k, j :: 0 <= k < 5 && cuts[k] <= j < cuts[k + 1] ==> KindOf(body[j]) == ModuleLayout[k]
  {
    var cuts := LayoutCuts(gs, fs, ts);
    PlacedKinds(body, 1, gs, KVariableDeclaration);
    PlacedKinds(body, 1 + |gs|, fs, KFunctionDeclaration);
    PlacedKinds(body, 1 + |gs| + |fs|, ts, KVariableDeclaration);
    assert body[cuts[4]] == ret[0];
    forall k, j | 0 <= k < 5 && cuts[k] <= j < cuts[k + 1]
      ensures KindOf(body[j]) == ModuleLayout[k]
    {
      if k == 4 {
        assert j == cuts[4];
      }
    }
  }

  /** The statement right after the stretch of filter `k`, if any, has another kind. */
  lemma LayoutBoundaries(body: seq<Stmt>, d: Stmt, gs: seq<Stmt>, fs: seq<Stmt>, ts: seq<Stmt>, ret: seq<Stmt>, rest: seq<Stmt>)
    requires LaidOut(body, d, gs, fs, ts, ret, rest)
    requires |ret| == 1 && ret[0].ReturnStatement?
    requires forall i :: 0 <= i < |gs| ==> KindOf(gs[i]) == KVariableDeclaration
    requires forall i :: 0 <= i < |fs| ==> KindOf(fs[i]) == KFunctionDeclaration
    requires forall i :: 0 <= i < |ts| ==> KindOf(ts[i]) == KVariableDeclaration
    requires fs == [] ==> ts == []
    requires rest != [] ==> !rest[0].ReturnStatement?
    ensures var cuts := LayoutCuts(gs, fs, ts);
      forall k :: 0 <= k < 5 && cuts[k + 1] < |body| ==> KindOf(body[cuts[k + 1]]) != ModuleLayout[k]
  {
    var cuts := LayoutCuts(gs, fs, ts);
    var c1, c2, c3, c4, c5 := cuts[1], cuts[2], cuts[3], cuts[4], cuts[5];
    assert body[c4] == ret[0];
    forall k | 0 <= k < 5 && cuts[k + 1] < |body|
      ensures KindOf(body[cuts[k + 1]]) != ModuleLayout[k]
    {
      if k == 0 {
        if gs != [] {
          assert body[c1] == gs[0];
        } else if fs != [] {
          assert body[c1] == fs[0];
        }
      } else if k == 1 {
        if fs != [] {
          assert body[c2] == fs[0];
        }
      } else if k == 2 {
        if ts != [] {
          assert body[c3] == ts[0];
        }
      } else if k == 4 {
        assert body[c5] == rest[0];
      }
    }
  }

  lemma LayoutFits(body: seq<Stmt>, d: Stmt, gs: seq<Stmt>, fs: seq<Stmt>, ts: seq<Stmt>, ret: seq<Stmt>, rest: seq<Stmt>)
    requires LaidOut(body, d, gs, fs, ts, ret, rest)
    requires d.ExpressionStatement? && |ret| == 1 && ret[0].ReturnStatement?
    requires forall i :: 0 <= i < |gs| ==> KindOf(gs[i]) == KVariableDeclaration
    requires forall i :: 0 <= i < |fs| ==> KindOf(fs[i]) == KFunctionDeclaration
    requires forall i :: 0 <= i < |ts| ==> KindOf(ts[i]) == KVariableDeclaration
    requires fs == [] ==> ts == []
    requires rest != [] ==> !rest[0].ReturnStatement?
    ensures CutsFit(body, ModuleLayout, LayoutCuts(gs, fs, ts), 0)
  {
    LayoutKinds(body, d, gs, fs, ts, ret, rest);
    LayoutBoundaries(body, d, gs, fs, ts, ret, rest);
  }

  lemma SliceIs(body: seq<Stmt>, c: nat, block: seq<Stmt>)
    requires Placed(body, c, block)
    ensures body[c..c + |block|] == block
  {
  }

  /** Cut points that fit the body give its sections: the stretches between consecutive cuts. */
  lemma SectionsAreBlocks(body: seq<Stmt>, c: seq<nat>, blocks: seq<seq<Stmt>>)
    requires CutsFit(body, ModuleLayout, c, 0) && c[0] == 0
    requires |blocks| == 5
    requires forall k :: 0 <= k < 5 ==> body[c[k]..c[k + 1]] == blocks[k]
    ensures Sections(body, ModuleLayout) == blocks
  {
    SectionsAtCuts(body, ModuleLayout, c, 0);
  }

  lemma SectionsOfLayout(d: Stmt, gs: seq<Stmt>, fs: seq<Stmt>, ts: seq<Stmt>, ret: seq<Stmt>, rest: seq<Stmt>)
    requires d.ExpressionStatement? && |ret| == 1 && ret[0].ReturnStatement?
    requires forall i :: 0 <= i < |gs| ==> KindOf(gs[i]) == KVariableDeclaration
    requires forall i :: 0 <= i < |fs| ==> KindOf(fs[i]) == KFunctionDeclaration
    requires forall i :: 0 <= i < |ts| ==> KindOf(ts[i]) == KVariableDeclaration
    requires fs == [] ==> ts == []
    requires rest != [] ==> !rest[0].ReturnStatement?
    ensures Sections([d] + gs + fs + ts + ret + rest, ModuleLayout) == [[d], gs, fs, ts, ret]
  {
    Pieces(d, gs, fs, ts, ret, rest);
    SectionsOfLaidOut([d] + gs + fs + ts + ret + rest, d, gs, fs, ts, ret, rest);
  }

  lemma SectionsOfLaidOut(body: seq<Stmt>, d: Stmt, gs: seq<Stmt>, fs: seq<Stmt>, ts: seq<Stmt>, ret: seq<Stmt>, rest: seq<Stmt>)
    requires LaidOut(body, d, gs, fs, ts, ret, rest)
    requires d.ExpressionStatement? && |ret| == 1 && ret[0].ReturnStatement?
    requires forall i :: 0 <= i < |gs| ==> KindOf(gs[i]) == KVariableDeclaration
    requires forall i :: 0 <= i < |fs| ==> KindOf(fs[i]) == KFunctionDeclaration
    requires forall i :: 0 <= i < |ts| ==> KindOf(ts[i]) == KVariableDeclaration
    requires fs == [] ==> ts == []
    requires rest != [] ==> !rest[0].ReturnStatement?
    ensures Sections(body, ModuleLayout) == [[d], gs, fs, ts, ret]
  {
    LayoutFits(body, d, gs, fs, ts, ret, rest);
    var c, blocks := LayoutCuts(gs, fs, ts), [[d], gs, fs, ts, ret];
    LayoutBlocks(body, d, gs, fs, ts, ret, rest, c, blocks);
    SectionsAreBlocks(body, c, blocks);
  }

  /** The stretches between the cuts are the five blocks of the layout. */
  lemma LayoutBlocks(body: seq<Stmt>, d: Stmt, gs: seq<Stmt>, fs: seq<Stmt>, ts: seq<Stmt>, ret: seq<Stmt>, rest: seq<Stmt>,
                     c: seq<nat>, blocks: seq<seq<Stmt>>)
    requires LaidOut(body, d, gs, fs, ts, ret, rest) && |ret| == 1
    requires c == LayoutCuts(gs, fs, ts) && blocks == [[d], gs, fs, ts, ret]
    ensures forall k :: 0 <= k < 5 ==> body[c[k]..c[k + 1]] == blocks[k]
  {
    forall k | 0 <= k < 5
      ensures body[c[k]..c[k + 1]] == blocks[k]
    {
      if k == 0 {
        assert body[0..1] == [d];
        assert c[0] == 0 && c[1] == 1 && blocks[0] == [d];
      } else if k == 1 {
        SliceIs(body, c[1], gs);
        assert c[2] == c[1] + |gs| && blocks[1] == gs;
      } else if k == 2 {
        SliceIs(body, c[2], fs);
        assert c[3] == c[2] + |fs| && blocks[2] == fs;
      } else if k == 3 {
        SliceIs(body, c[3], ts);
        assert c[4] == c[3] + |ts| && blocks[3] == ts;
      } else {
        SliceIs(body, c[4], ret);
        assert c[5] == c[4] + |ret| && blocks[4] == ret;
      }
    }
  }

  /** The statements a filter-ordered split leaves behind: none for an accepted module. */
  lemma SplitModuleConsumesBody(body: seq<Stmt>)
    requires SplitModule(body).Ok?
    ensures |Concat(Sections(body, ModuleLayout))| == |body|
  {
  }

  /**
   * As written, a module whose body continues after the export return is
   * still split successfully: the statements in `rest` (say, a further
   * function declaration) land in no section, so they are never
   * type-checked. The corrected split rejects the body.
   */
  lemma TrailingStatementsIgnored(d: Stmt, e: Option<Expr>, rest: seq<Stmt>)
    requires IsUseAsm(d) && rest != [] && !rest[0].ReturnStatement?
    ensures var body := [d, ReturnStatement(e)] + rest;
      && SplitModuleAsWritten(body) == Ok(ModuleSections([], [], [], e))
      && Concat(Sections(body, ModuleLayout)) == [d, ReturnStatement(e)]
      && SplitModule(body).Err?
  {
    var ret := [ReturnStatement(e)];
    SectionsOfLayout(d, [], [], [], ret, rest);
    assert [d] + [] + [] + [] + ret + rest == [d, ReturnStatement(e)] + rest;
    var s := Sections([d, ReturnStatement(e)] + rest, ModuleLayout);
    ConcatFive(s);
  }

  // ---------------------------------------------------------------------------
  // Parameter and return annotations (lib/validate.js:187-273)
  // ---------------------------------------------------------------------------

  /** A numeric literal whose value is 0, however it is written. */
  predicate IsZero(e: Expr) {
    e.Literal? && e.value == Num(0.0)
  }

  /** `x = x|0`: the right-hand side is `x | 0`. */
  predicate IsIntCoercion(x: string, e: Expr) {
    e.BinaryExpression? && e.binaryOp == "|" && e.left == Identifier(x) && IsZero(e.right)
  }

  /**
   * `paramType` (lib/validate.js:187-215): the annotation of parameter `x`
   * is the statement `x = +x` (Double) or `x = x|0` (Int); any other
   * statement fails.
   */
  function ParamType(x: string, s: Stmt): (r: Result<ValueType>)
    ensures r.Ok? ==> r.value == Int || r.value == Double
    ensures r == Ok(Double) <==>
      s.ExpressionStatement? && s.expression.AssignmentExpression? &&
      s.expression.left == Identifier(x) && s.expression.right == UnaryExpression("+", Identifier(x))
    ensures r == Ok(Int) <==>
      s.ExpressionStatement? && s.expression.AssignmentExpression? &&
      s.expression.left == Identifier(x) && IsIntCoercion(x, s.expression.right)
  {
    if !(s.ExpressionStatement? && s.expression.AssignmentExpression? && s.expression.left == Identifier(x)) then
      Err("invalid parameter annotation")
    else
      var right := s.expression.right;
      if right == UnaryExpression("+", Identifier(x)) then Ok(Double)
      else if IsIntCoercion(x, right) then Ok(Int)
      else Err("invalid parameter annotation type")
  }

  /** The annotation the coercion idiom writes for a parameter of type `t`. */
  function Annotation(x: string, t: ValueType): Stmt
    requires t == Int || t == Double
  {
    var right := if t == Int then BinaryExpression("|", Identifier(x), Literal(Num(0.0), "0")) else UnaryExpression("+", Identifier(x));
    ExpressionStatement(AssignmentExpression("=", Identifier(x), right))
  }

  /** Reading back an annotation gives the type it was written for. */
  lemma AnnotationRoundTrip(x: string, t: ValueType)
    requires t == Int || t == Double
    ensures ParamType(x, Annotation(x, t)) == Ok(t)
  {
  }

  /** An annotation of another parameter does not type `x`. */
  lemma AnnotationNamesItsParameter(x: string, y: string, t: ValueType)
    requires t == Int || t == Double
    requires x != y
    ensures ParamType(x, Annotation(y, t)).Err?
  {
  }

  /** `+e`: the Double return annotation. */
  predicate IsPlusAnnotation(e: Expr) {
    e.UnaryExpression? && e.unaryOp == "+"
  }

  /** `e|0`: the Signed return annotation. */
  predicate IsOrZeroAnnotation(e: Expr) {
    e.BinaryExpression? && e.binaryOp == "|" && IsZero(e.right)
  }

  /**
   * `returnType` (lib/validate.js:218-259): the last statement of a body
   * annotates the result. A statement other than a return, or a bare
   * return, gives Void; `return +e` and dotted numbers give Double;
   * `return e|0` and dotless numbers in [-2^31, 2^32) give Signed.
   */
  function ReturnType(s: Stmt): (r: Result<ValueType>)
    ensures !s.ReturnStatement? ==> r == Ok(Void)
    ensures s == ReturnStatement(None) ==> r == Ok(Void)
    ensures r.Ok? ==> r.value == Void || r.value == Double || r.value == Signed
    ensures r == Ok(Void) ==> !s.ReturnStatement? || s.argument.None?
    ensures s.ReturnStatement? && s.argument.Some? ==>
      var e := s.argument.value;
      && (r == Ok(Double) <==> IsPlusAnnotation(e) || (e.Literal? && e.value.Num? && HasDot(e.raw)))
      && (r == Ok(Signed) <==> IsOrZeroAnnotation(e) || (e.Literal? && NumberInRange(e.value, -0x8000_0000, TwoTo32) && !HasDot(e.raw)))
      && (r.Err? <==>
            !IsPlusAnnotation(e) && !IsOrZeroAnnotation(e) &&
            !(e.Literal? && e.value.Num? && (HasDot(e.raw) || NumberInRange(e.value, -0x8000_0000, TwoTo32))))
  {
    if !s.ReturnStatement? || s.argument.None? then Ok(Void)
    else
      var e := s.argument.value;
      if IsPlusAnnotation(e) then Ok(Double)
      else if IsOrZeroAnnotation(e) then Ok(Signed)
      else if e.Literal? && e.value.Num? && HasDot(e.raw) then Ok(Double)
      else if e.Literal? && NumberInRange(e.value, -0x8000_0000, TwoTo32) && !HasDot(e.raw) then Ok(Signed)
      else Err("invalid return type annotation")
  }

  /** The parameter types, one per parameter, read from the statement at the same position. */
  function ParamTypes(xs: seq<string>, ss: seq<Stmt>): Result<seq<ValueType>>
    requires |xs| <= |ss|
    decreases |xs|
  {
    if xs == [] then Ok([])
    else
      var t :- ParamType(xs[0], ss[0]);
      var ts :- ParamTypes(xs[1..], ss[1..]);
      Ok([t] + ts)
  }

  lemma {:induction false} ParamTypesPointwise(xs: seq<string>, ss: seq<Stmt>)
    requires |xs| <= |ss|
    ensures ParamTypes(xs, ss).Ok? <==> forall i :: 0 <= i < |xs| ==> ParamType(xs[i], ss[i]).Ok?
    ensures ParamTypes(xs, ss).Ok? ==>
      |ParamTypes(xs, ss).value| == |xs| &&
      forall i :: 0 <= i < |xs| ==> ParamTypes(xs, ss).value[i] == ParamType(xs[i], ss[i]).value
    decreases |xs|
  {
    if xs != [] {
      ParamTypesPointwise(xs[1..], ss[1..]);
      assert forall i :: 1 <= i < |xs| ==> xs[i] == xs[1..][i - 1] && ss[i] == ss[1..][i - 1];
    }
  }

  /**
   * `functionType` (lib/validate.js:262-273): with the empty statements
   * dropped, the first n statements annotate the n parameters and the last
   * statement annotates the result.
   */
  function FunctionType(decl: FunctionDecl): (r: Result<Arrow>)
    ensures |NonEmpty(decl.body)| < |decl.params| ==> r.Err?
  {
    Signature(decl.id, decl.params, NonEmpty(decl.body))
  }

  /** The signature that the annotations among `body`, the non-empty statements of function `f`, give it. */
  function Signature(f: string, params: seq<string>, body: seq<Stmt>): (r: Result<Arrow>)
    ensures |body| < |params| ==> r.Err?
  {
    if |body| < |params| then Err("not enough annotations for parameters to " + f)
    else
      var ps :- ParamTypes(params, body);
      var rt :- if body == [] then Ok(Void) else ReturnType(body[|body| - 1]);
      Ok(Arrow(ps, rt))
  }

  /**
   * The signature of a function is fully determined by its annotations: one
   * parameter type per parameter, each read from the statement at its
   * position, and the result read from the last statement (Void for an
   * empty body); it fails exactly when one of those readings fails.
   */
  lemma FunctionTypeSpec(decl: FunctionDecl, body: seq<Stmt>)
    requires body == NonEmpty(decl.body)
    ensures var n := |decl.params|;
      var r := FunctionType(decl);
      && (r.Ok? <==>
            && n <= |body|
            && (forall i :: 0 <= i < n ==> ParamType(decl.params[i], body[i]).Ok?)
            && (body != [] ==> ReturnType(body[|body| - 1]).Ok?))
      && (r.Ok? ==>
            && |r.value.params| == n
            && (forall i :: 0 <= i < n ==> ParamType(decl.params[i], body[i]) == Ok(r.value.params[i]))
            && (if body == [] then Ok(Void) else ReturnType(body[|body| - 1])) == Ok(r.value.result))
  {
    SignatureSpec(decl.id, decl.params, body);
  }

  lemma SignatureSpec(f: string, params: seq<string>, body: seq<Stmt>)
    ensures var n := |params|;
      var r := Signature(f, params, body);
      && (r.Ok? <==>
            && n <= |body|
            && (forall i :: 0 <= i < n ==> ParamType(params[i], body[i]).Ok?)
            && (body != [] ==> ReturnType(body[|body| - 1]).Ok?))
      && (r.Ok? ==>
            && |r.value.params| == n
            && (forall i :: 0 <= i < n ==> ParamType(params[i], body[i]) == Ok(r.value.params[i]))
            && (if body == [] then Ok(Void) else ReturnType(body[|body| - 1])) == Ok(r.value.result))
  {
    if |params| <= |body| {
      ParamTypesPointwise(params, body);
    }
  }

  // ---------------------------------------------------------------------------
  // Locals and globals (lib/validate.js:299-425, 463-480)
  // ---------------------------------------------------------------------------

  /** A numeric literal written with a dot. */
  predicate IsDottedNumber(e: Expr) {
    e.Literal? && e.value.Num? && HasDot(e.raw)
  }

  /** A literal whose value is an integer in [-2^31, 2^32). */
  predicate IsIntLiteral(e: Expr) {
    e.Literal? && IsInteger(e.value) && NumberInRange(e.value, -0x8000_0000, TwoTo32)
  }

  /**
   * `local` (lib/validate.js:463-480): a local's initialiser fixes its
   * type; a dotted number makes it Double, an integer in the 32-bit range
   * Int, and anything else (or no initialiser) fails.
   */
  function Local(init: Option<Expr>): (r: Result<ValueType>)
    ensures r.Ok? ==> init.Some? && init.value.Literal?
    ensures r == Ok(Double) <==> init.Some? && IsDottedNumber(init.value)
    ensures r == Ok(Int) <==> init.Some? && !IsDottedNumber(init.value) && IsIntLiteral(init.value)
  {
    if init.None? then Err("invalid declaration of local")
    else if IsDottedNumber(init.value) then Ok(Double)
    else if IsIntLiteral(init.value) then Ok(Int)
    else Err("invalid declaration of local")
  }

  /** The names recorded for the module parameters (`_roots`), each unset until bound. */
  datatype Roots = Roots(stdlib: Option<string>, foreign: Option<string>, heap: Option<string>)

  /** The expression is the identifier the given root is bound to. */
  predicate IsRoot(root: Option<string>, e: Expr) {
    root.Some? && e == Identifier(root.value)
  }

  /** `stdlib.Math.x` */
  predicate IsMathImport(roots: Roots, e: Expr) {
    && e.MemberExpression? && e.base.MemberExpression?
    && IsRoot(roots.stdlib, e.base.base) && e.base.property == Identifier("Math")
    && e.property.Identifier?
  }

  /** `new stdlib.V(heap, ...)` */
  predicate IsViewConstruction(roots: Roots, e: Expr) {
    && e.NewExpression? && e.callee.MemberExpression?
    && IsRoot(roots.stdlib, e.callee.base) && e.callee.property.Identifier?
    && |e.arguments| >= 1 && IsRoot(roots.heap, e.arguments[0])
  }

  /**
   * `global` (lib/validate.js:299-425): the binding a global's initialiser
   * gives it, trying the patterns in the source's order. Only number
   * literals make a mutable global.
   */
  function Global(roots: Roots, init: Option<Expr>): (r: Result<Binding>)
    ensures init.None? ==> r.Err?
    ensures r.Ok? ==> (r.value.mutable <==> init.value.Literal?)
    ensures r.Ok? && r.value.mutable ==> r.value.ty == Value(Double) || r.value.ty == Value(Int)
  {
    if init.None? then Err("global variable missing initializer expression")
    else
      var e := init.value;
      if IsDottedNumber(e) then Ok(Binding(true, Value(Double)))
      else if IsIntLiteral(e) then Ok(Binding(true, Value(Int)))
      else if IsMathImport(roots, e) then
        if e.property.name in StdlibMathTypes then Ok(Binding(false, StdlibMathTypes[e.property.name]))
        else Err("unknown library: Math." + e.property.name)
      else if e.MemberExpression? && IsRoot(roots.stdlib, e.base) then
        if e.property.Identifier? && e.property.name in StdlibTypes then Ok(Binding(false, StdlibTypes[e.property.name]))
        else Err("unknown library")
      else if e.MemberExpression? && IsRoot(roots.foreign, e.base) then
        Ok(Binding(false, Function))
      else if e.BinaryExpression? && e.binaryOp == "|" && e.left.MemberExpression? && IsRoot(roots.foreign, e.left.base) && IsZero(e.right) then
        Ok(Binding(false, Value(Int)))
      else if e.UnaryExpression? && e.unaryOp == "+" && e.argument.MemberExpression? && IsRoot(roots.foreign, e.argument.base) then
        Ok(Binding(false, Value(Double)))
      else if IsViewConstruction(roots, e) then
        if |e.arguments| != 1 then Err("heap view constructor expects 1 argument")
        else if e.callee.property.name !in HeapViewTypes then Err("unknown typed array type: " + e.callee.property.name)
        else Ok(Binding(false, HeapViewTypes[e.callee.property.name]))
      else Err("invalid global declaration")
  }

  /** `stdlib.Math.x` is the immutable library entry for `x`; an unknown `x` fails. */
  lemma GlobalMathImport(roots: Roots, e: Expr)
    requires IsMathImport(roots, e)
    ensures Global(roots, Some(e)).Ok? <==> e.property.name in StdlibMathTypes
    ensures Global(roots, Some(e)).Ok? ==> Global(roots, Some(e)).value == Binding(false, StdlibMathTypes[e.property.name])
  {
  }

  /** `stdlib.x` for anything but Math is Infinity or NaN, both Double; an unknown `x` fails. */
  lemma GlobalStdlibImport(roots: Roots, x: string, computed: bool)
    requires roots.stdlib.Some?
    ensures var r := Global(roots, Some(MemberExpression(Identifier(roots.stdlib.value), Identifier(x), computed)));
      && (r.Ok? <==> x in StdlibTypes)
      && (r.Ok? ==> r.value == Binding(false, Value(Double)))
  {
  }

  /** `foreign.x`, `foreign.x|0` and `+foreign.x` import a function, an Int and a Double. */
  lemma GlobalForeignImports(roots: Roots, f: string, x: Expr, computed: bool, zero: string)
    requires roots.foreign == Some(f) && roots.stdlib != Some(f)
    ensures var m := MemberExpression(Identifier(f), x, computed);
      && Global(roots, Some(m)) == Ok(Binding(false, Function))
      && Global(roots, Some(BinaryExpression("|", m, Literal(Num(0.0), zero)))) == Ok(Binding(false, Value(Int)))
      && Global(roots, Some(UnaryExpression("+", m))) == Ok(Binding(false, Value(Double)))
  {
  }

  /** `new stdlib.V(heap)` is the view V, when V is one of the eight view constructors; anything else fails. */
  lemma GlobalHeapView(roots: Roots, v: string, computed: bool, args: seq<Expr>)
    requires roots.stdlib.Some? && roots.heap.Some?
    requires |args| >= 1 && args[0] == Identifier(roots.heap.value)
    ensures var r := Global(roots, Some(NewExpression(MemberExpression(Identifier(roots.stdlib.value), Identifier(v), computed), args)));
      && (r.Ok? <==> |args| == 1 && v in HeapViewTypes)
      && (r.Ok? ==> r.value == Binding(false, HeapViewTypes[v]) && r.value.ty.View?)
  {
    if |args| == 1 && v in HeapViewTypes {
      HeapViewShapes(v);
    }
  }

  /**
   * A local and a mutable global read a literal the same way, except that a
   * global accepts the same literals only: both give Double for a dotted
   * number and Int for an integer in range.
   */
  lemma LocalAgreesWithGlobal(roots: Roots, e: Expr)
    requires e.Literal?
    ensures Local(Some(e)).Ok? <==> Global(roots, Some(e)).Ok?
    ensures Local(Some(e)).Ok? ==> Global(roots, Some(e)).value == Binding(true, Value(Local(Some(e)).value))
  {
  }

  // ---------------------------------------------------------------------------
  // Function tables (lib/validate.js:428-460)
  // ---------------------------------------------------------------------------

  /** The entries of a table literal, which must all be identifiers. */
  function EntryNames(es: seq<Expr>): (r: Result<seq<string>>)
    ensures r.Ok? <==> forall i :: 0 <= i < |es| ==> es[i].Identifier?
    ensures r.Ok? ==> |r.value| == |es|
  {
    if es == [] then Ok([])
    else if !es[0].Identifier? then Err("invalid function table entry")
    else
      var rest :- EntryNames(es[1..]);
      assert forall i :: 1 <= i < |es| ==> es[i] == es[1..][i - 1];
      Ok([es[0].name] + rest)
  }

  lemma {:induction false} EntryNamesAreNames(es: seq<Expr>)
    requires EntryNames(es).Ok?
    ensures forall i :: 0 <= i < |es| ==> EntryNames(es).value[i] == es[i].name
  {
    if es != [] {
      EntryNamesAreNames(es[1..]);
      assert forall i :: 1 <= i < |es| ==> es[i] == es[1..][i - 1];
    }
  }

  /** The signature of a table entry, looked up in the module scope: it must be a function. */
  function EntryType(globals: map<string, Binding>, f: string): (r: Result<Arrow>)
    ensures r.Ok? <==> f in globals && globals[f].ty.Fn?
    ensures r.Ok? ==> globals[f].ty == Fn(r.value)
  {
    if f !in globals then Err("unbound variable " + f)
    else if !globals[f].ty.Fn? then Err("non-function " + f + " in function table")
    else Ok(globals[f].ty.arrow)
  }

  function EntryTypes(globals: map<string, Binding>, fs: seq<string>): (r: Result<seq<Arrow>>)
    ensures r.Ok? ==> |r.value| == |fs|
  {
    if fs == [] then Ok([])
    else
      var a :- EntryType(globals, fs[0]);
      var rest :- EntryTypes(globals, fs[1..]);
      Ok([a] + rest)
  }

  lemma {:induction false} EntryTypesPointwise(globals: map<string, Binding>, fs: seq<string>)
    ensures EntryTypes(globals, fs).Ok? <==> forall i :: 0 <= i < |fs| ==> EntryType(globals, fs[i]).Ok?
    ensures EntryTypes(globals, fs).Ok? ==>
      forall i :: 0 <= i < |fs| ==> EntryTypes(globals, fs).value[i] == EntryType(globals, fs[i]).value
  {
    if fs != [] {
      EntryTypesPointwise(globals, fs[1..]);
      assert forall i :: 1 <= i < |fs| ==> fs[i] == fs[1..][i - 1];
    }
  }

  /** Every entry signature equals the first one. */
  predicate AllEqualFirst(fts: seq<Arrow>)
    requires |fts| > 0
  {
    forall i :: 1 <= i < |fts| ==> ArrowEquals(fts[0], Fn(fts[i]))
  }

  /**
   * `table` (lib/validate.js:428-460): an array literal of function names,
   * non-empty, of power-of-two length, all bound to functions of one
   * signature; the table records that signature and its length.
   */
  function TableType(globals: map<string, Binding>, init: Option<Expr>): (r: Result<Type>)
    ensures r.Ok? ==> r.value.Table?
  {
    if init.None? || !init.value.ArrayExpression? then Err("invalid function table")
    else
      var fs :- EntryNames(init.value.elements);
      if |fs| == 0 then Err("empty function table")
      else if !PowerOf2(|fs|) then Err("function table length must be a power of 2")
      else
        var fts :- EntryTypes(globals, fs);
        if !AllEqualFirst(fts) then Err("unexpected function type in function table")
        else Ok(Table(fts[0], |fs|))
  }

  /**
   * The entries of an accepted table: a non-empty array of identifiers, of a
   * length that passes the power-of-two test, all bound in the module scope
   * to functions of the first entry's signature.
   */
  predicate TableEntriesOk(globals: map<string, Binding>, es: seq<Expr>) {
    && |es| > 0 && PowerOf2(|es|)
    && es[0].Identifier? && es[0].name in globals && globals[es[0].name].ty.Fn?
    && (forall i :: 0 <= i < |es| ==> es[i].Identifier? && es[i].name in globals && globals[es[i].name].ty == globals[es[0].name].ty)
  }

  /**
   * A table initialiser is accepted exactly when it is an array literal whose
   * entries are as above; the table then has the first entry's signature and
   * the array's length, which (for any length an array can have) is a power
   * of two.
   */
  lemma TableTypeSpec(globals: map<string, Binding>, init: Option<Expr>)
    ensures TableType(globals, init).Ok? <==>
      init.Some? && init.value.ArrayExpression? && TableEntriesOk(globals, init.value.elements)
    ensures TableType(globals, init).Ok? ==>
      && init.Some? && init.value.ArrayExpression? && TableEntriesOk(globals, init.value.elements)
      && TableType(globals, init).value == Table(globals[init.value.elements[0].name].ty.arrow, |init.value.elements|)
      && (|init.value.elements| < TwoTo32 ==> IsPow2(|init.value.elements|))
  {
    if init.Some? && init.value.ArrayExpression? {
      var es := init.value.elements;
      if EntryNames(es).Ok? {
        var fs := EntryNames(es).value;
        EntryNamesAreNames(es);
        EntryTypesPointwise(globals, fs);
        if |fs| > 0 && PowerOf2(|fs|) && EntryTypes(globals, fs).Ok? {
          var fts := EntryTypes(globals, fs).value;
          assert forall i :: 0 <= i < |fs| ==> globals[fs[i]].ty == Fn(fts[i]);
          forall i | 1 <= i < |fts|
            ensures ArrowEquals(fts[0], Fn(fts[i])) <==> Fn(fts[i]) == Fn(fts[0])
          {
            ArrowEqualsIsStructural(fts[0], Fn(fts[i]));
          }
        }
        if |es| > 0 && |es| < TwoTo32 {
          PowerOf2IsPow2(|es|);
        }
      }
    }
  }

  // ---------------------------------------------------------------------------
  // Exports (lib/validate.js:520-588)
  // ---------------------------------------------------------------------------

  /** The exported signature of an internal name: it must be bound in the module scope to a function. */
  function ExportedArrow(globals: map<string, Binding>, f: string): (r: Result<Arrow>)
    ensures r.Ok? <==> f in globals && globals[f].ty.Fn?
    ensures r.Ok? ==> globals[f].ty == Fn(r.value)
  {
    if f !in globals then Err("unbound variable " + f)
    else if !globals[f].ty.Fn? then Err("expected exported function")
    else Ok(globals[f].ty.arrow)
  }

  /**
   * The (external, internal) names of one export entry: a string-literal or
   * identifier key, an identifier value, and the plain `init` kind.
   */
  function ExportEntry(p: Property): (r: Option<(string, string)>)
    ensures r.Some? ==> p.value == Identifier(r.value.1) && p.kind == "init"
    ensures r.Some? ==> p.key == Identifier(r.value.0) || (p.key.Literal? && p.key.value == Str(r.value.0))
  {
    if p.kind == "init" && p.value.Identifier? then
      if p.key.Literal? && p.key.value.Str? then Some((p.key.value.s, p.value.name))
      else if p.key.Identifier? then Some((p.key.name, p.value.name))
      else None
    else None
  }

  /** The export table after the entries `props`, in order, have been added to `table`; a later key overwrites an earlier one. */
  function AddExports(globals: map<string, Binding>, table: map<string, Export>, props: seq<Property>): Result<map<string, Export>>
    decreases |props|
  {
    if props == [] then Ok(table)
    else
      var entry := ExportEntry(props[0]);
      if entry.None? then Err("invalid export declaration")
      else
        var a :- ExportedArrow(globals, entry.value.1);
        AddExports(globals, table[entry.value.0 := Export(entry.value.1, a)], props[1..])
  }

  /** `exports` (lib/validate.js:520-588): a single function, or an object literal of exported functions. */
  function ExportsOf(globals: map<string, Binding>, expr: Option<Expr>): (r: Result<Exports>)
    ensures expr.Some? && expr.value.Identifier? ==>
      (r.Ok? <==> ExportedArrow(globals, expr.value.name).Ok?)
    ensures r.Ok? ==> expr.Some? && (expr.value.Identifier? <==> r.value.Single?)
  {
    if expr.Some? && expr.value.Identifier? then
      var a :- ExportedArrow(globals, expr.value.name);
      Ok(Single(Export(expr.value.name, a)))
    else if expr.Some? && expr.value.ObjectExpression? then
      var table :- AddExports(globals, map[], expr.value.properties);
      Ok(Multiple(table))
    else Err("invalid exports declaration")
  }

  /** Every exported name is a function of the module scope, exported with its signature. */
  predicate ExportsFunctions(globals: map<string, Binding>, table: map<string, Export>) {
    forall k :: k in table ==> table[k].name in globals && globals[table[k].name].ty == Fn(table[k].arrow)
  }

  /** The external name of an entry that has one. */
  function KeyOf(p: Property): string
    requires ExportEntry(p).Some?
  {
    ExportEntry(p).value.0
  }

  /** Adding entries succeeds exactly when every entry is well formed and names a function of the module scope. */
  lemma {:induction false} AddExportsOk(globals: map<string, Binding>, table: map<string, Export>, props: seq<Property>)
    ensures AddExports(globals, table, props).Ok? <==>
      forall i :: 0 <= i < |props| ==> ExportEntry(props[i]).Some? && ExportedArrow(globals, ExportEntry(props[i]).value.1).Ok?
    decreases |props|
  {
    if props != [] && ExportEntry(props[0]).Some? {
      var entry := ExportEntry(props[0]).value;
      if ExportedArrow(globals, entry.1).Ok? {
        var t' := table[entry.0 := Export(entry.1, ExportedArrow(globals, entry.1).value)];
        AddExportsOk(globals, t', props[1..]);
        assert forall i :: 1 <= i < |props| ==> props[i] == props[1..][i - 1];
      }
    }
  }

  /** Adding entries keeps every exported name a function of the module scope, with its signature. */
  lemma {:induction false} AddExportsKeepsFunctions(globals: map<string, Binding>, table: map<string, Export>, props: seq<Property>)
    requires AddExports(globals, table, props).Ok?
    requires ExportsFunctions(globals, table)
    ensures ExportsFunctions(globals, AddExports(globals, table, props).value)
    decreases |props|
  {
    if props != [] {
      var entry := ExportEntry(props[0]).value;
      var t' := table[entry.0 := Export(entry.1, ExportedArrow(globals, entry.1).value)];
      AddExportsKeepsFunctions(globals, t', props[1..]);
    }
  }

  /** The keys afterwards are the old keys together with the entries' external names. */
  lemma {:induction false} AddExportsKeys(globals: map<string, Binding>, table: map<string, Export>, props: seq<Property>)
    requires AddExports(globals, table, props).Ok?
    ensures forall i :: 0 <= i < |props| ==> ExportEntry(props[i]).Some?
    ensures forall k :: k in AddExports(globals, table, props).value <==>
      k in table || exists i :: 0 <= i < |props| && KeyOf(props[i]) == k
    decreases |props|
  {
    AddExportsOk(globals, table, props);
    if props != [] {
      var entry := ExportEntry(props[0]).value;
      var t' := table[entry.0 := Export(entry.1, ExportedArrow(globals, entry.1).value)];
      AddExportsKeys(globals, t', props[1..]);
      var m := AddExports(globals, table, props).value;
      assert m == AddExports(globals, t', props[1..]).value;
      forall k
        ensures k in m <==> k in table || exists i :: 0 <= i < |props| && KeyOf(props[i]) == k
      {
        if k in m && k !in table && k != entry.0 {
          var i :| 0 <= i < |props[1..]| && KeyOf(props[1..][i]) == k;
          assert KeyOf(props[i + 1]) == k;
        }
        if exists i :: 0 <= i < |props| && KeyOf(props[i]) == k {
          var i :| 0 <= i < |props| && KeyOf(props[i]) == k;
          if i > 0 {
            assert KeyOf(props[1..][i - 1]) == k;
          }
        }
      }
    }
  }

  /** A key maps to the last entry that mentions it. */
  lemma {:induction false} AddExportsLastWins(globals: map<string, Binding>, table: map<string, Export>, props: seq<Property>, i: nat)
    requires AddExports(globals, table, props).Ok?
    requires i < |props|
    requires ExportEntry(props[i]).Some?
    requires forall j :: i < j < |props| ==> ExportEntry(props[j]).Some? && KeyOf(props[j]) != KeyOf(props[i])
    ensures KeyOf(props[i]) in AddExports(globals, table, props).value
    ensures var x := AddExports(globals, table, props).value[KeyOf(props[i])];
      x.name == ExportEntry(props[i]).value.1 && ExportedArrow(globals, x.name) == Ok(x.arrow)
    decreases |props|
  {
    var entry := ExportEntry(props[0]).value;
    var t' := table[entry.0 := Export(entry.1, ExportedArrow(globals, entry.1).value)];
    if i == 0 {
      AddExportsUntouched(globals, t', props[1..], entry.0);
    } else {
      assert forall j :: i - 1 < j < |props[1..]| ==> props[1..][j] == props[j + 1];
      AddExportsLastWins(globals, t', props[1..], i - 1);
    }
  }

  /** A key no entry mentions keeps its value. */
  lemma {:induction false} AddExportsUntouched(globals: map<string, Binding>, table: map<string, Export>, props: seq<Property>, k: string)
    requires AddExports(globals, table, props).Ok?
    requires k in table
    requires forall j :: 0 <= j < |props| ==> ExportEntry(props[j]).Some? && KeyOf(props[j]) != k
    ensures k in AddExports(globals, table, props).value
    ensures AddExports(globals, table, props).value[k] == table[k]
    decreases |props|
  {
    if props != [] {
      var entry := ExportEntry(props[0]).value;
      var t' := table[entry.0 := Export(entry.1, ExportedArrow(globals, entry.1).value)];
      assert forall j :: 0 <= j < |props[1..]| ==> props[1..][j] == props[j + 1];
      AddExportsUntouched(globals, t', props[1..], k);
    }
  }

  /** The exports of an accepted module name only functions of the module scope. */
  lemma ExportsOfSpec(globals: map<string, Binding>, expr: Option<Expr>)
    requires ExportsOf(globals, expr).Ok?
    ensures var ex := ExportsOf(globals, expr).value;
      && (ex.Single? ==> ex.sole.name in globals && globals[ex.sole.name].ty == Fn(ex.sole.arrow))
      && (ex.Multiple? ==> ExportsFunctions(globals, ex.exports))
  {
    if !expr.value.Identifier? {
      AddExportsKeepsFunctions(globals, map[], expr.value.properties);
    }
  }
}
