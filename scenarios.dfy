// Concrete verdicts of the expression checker on the idioms the repository's
// own tests exercise (test/index.js): each lemma states both the accepted
// form and the rejected neighbour that differs from it in one place.
module Scenarios {
  import opened Failure
  import opened Ast
  import opened Types
  import opened Tables
  import opened Checker
  import opened Utilities

  /** A function scope with an Int32Array and a Float64Array view in the module scope and three Int locals. */
  const Scope: FunCtx := FunCtx(
    map["H32" := Binding(false, View(4, Intish)),
        "HF64" := Binding(false, View(8, Doublish))],
    map["x" := Int, "y" := Int, "i" := Int],
    Void)

  function Var(x: string): Expr { Identifier(x) }

  function Number(n: real, raw: string): Expr { Literal(Num(n), raw) }

  const Zero: Expr := Number(0.0, "0")

  /** `e|0`, the signed coercion. */
  function OrZero(e: Expr): Expr { BinaryExpression("|", e, Zero) }

  lemma BitwiseOrRow()
    ensures "|" in Binops && Binops["|"] == SignedBitwise
  {
  }

  /** `e|0` is Signed exactly when `e` is below Intish (the `|` row of lib/tables.js:53-86). */
  lemma OrZeroTyping(ctx: FunCtx, e: Expr, t: ValueType)
    requires !e.CallExpression? && Expression(ctx, e) == Ok(t)
    ensures Expression(ctx, OrZero(e)).Ok? <==> Subtype(t, Intish)
    ensures Expression(ctx, OrZero(e)).Ok? ==> Expression(ctx, OrZero(e)).value == Signed
  {
    OrZeroChecksRow(ctx, e, t);
    OrRowWithFixnum(t);
  }

  /** The `|` row applied to `t` and Fixnum: it accepts exactly the `t` below Intish, and gives Signed. */
  lemma OrRowWithFixnum(t: ValueType)
    ensures CheckArguments([t, Fixnum], Fn(Arrow([Intish, Intish], Signed)), "operator |").Ok? <==> Subtype(t, Intish)
    ensures CheckArguments([t, Fixnum], Fn(Arrow([Intish, Intish], Signed)), "operator |").Ok? ==>
      CheckArguments([t, Fixnum], Fn(Arrow([Intish, Intish], Signed)), "operator |").value == Signed
  {
    assert Subtype(Fixnum, Intish) by { SubtypeMatchesUpSet(Fixnum, Intish); }
    CheckArgumentsOnPair(t, Fixnum, Arrow([Intish, Intish], Signed), "operator |");
  }

  /** `e|0` is checked against the `|` row with argument types `t` and Fixnum. */
  lemma OrZeroChecksRow(ctx: FunCtx, e: Expr, t: ValueType)
    requires !e.CallExpression? && Expression(ctx, e) == Ok(t)
    ensures Expression(ctx, OrZero(e)) == CheckArguments([t, Fixnum], Fn(Arrow([Intish, Intish], Signed)), "operator |")
  {
    BitwiseOrRow();
    assert Expression(ctx, Zero) == Ok(Fixnum);
    BinaryTyping(ctx, "|", e, Zero);
  }

  /** An Int local is Int. */
  lemma LocalIsInt(x: string)
    requires x in Scope.locals
    ensures Expression(Scope, Var(x)) == Ok(Int)
  {
  }

  /** `(x|0)%(y|0)`. */
  const Remainder: Expr := BinaryExpression("%", OrZero(Var("x")), OrZero(Var("y")))

  lemma RemainderRow()
    ensures "%" in Binops && Binops["%"] == DivisionOp
  {
  }

  /** The integer form of `%` gives Intish (lib/tables.js:65-74). */
  lemma RemainderIsIntish()
    ensures Expression(Scope, Remainder) == Ok(Intish)
  {
    LocalIsInt("x");
    LocalIsInt("y");
    assert Subtype(Int, Intish) by { SubtypeMatchesUpSet(Int, Intish); }
    OrZeroTyping(Scope, Var("x"), Int);
    OrZeroTyping(Scope, Var("y"), Int);
    RemainderRow();
    BinaryTyping(Scope, "%", OrZero(Var("x")), OrZero(Var("y")));
    assert [Signed, Signed][0] == Signed && [Signed, Signed][1] == Signed;
    assert Matches(DivisionOp.alts[0], [Signed, Signed]);
    CheckArgumentsOnOverloaded([Signed, Signed], DivisionOp.alts, 0, "operator %");
  }

  /** An Intish value cannot be stored in an Int variable. */
  lemma IntishIntoIntFails(ctx: FunCtx, x: Expr, e: Expr)
    requires x.Identifier? && Expression(ctx, x) == Ok(Int) && Expression(ctx, e) == Ok(Intish)
    ensures Expression(ctx, AssignmentExpression("=", x, e)).Err?
  {
    AssignmentTyping(ctx, "=", x, e);
    assert !Subtype(Intish, Int) by { SubtypeMatchesUpSet(Intish, Int); }
  }

  /** The `|0` recoercion of an Intish value can be stored in an Int variable. */
  lemma RecoercedIntoInt(ctx: FunCtx, x: Expr, e: Expr)
    requires x.Identifier? && Expression(ctx, x) == Ok(Int)
    requires !e.CallExpression? && Expression(ctx, e) == Ok(Intish)
    ensures Expression(ctx, AssignmentExpression("=", x, OrZero(e))) == Ok(Signed)
  {
    OrZeroTyping(ctx, e, Intish);
    AssignmentTyping(ctx, "=", x, OrZero(e));
    assert Subtype(Signed, Int) by { SubtypeMatchesUpSet(Signed, Int); }
  }

  /** So assigning `(x|0)%(y|0)` to an Int local fails, and recoercing it with `|0` first passes (test/index.js:4-18). */
  lemma RemainderNeedsRecoercion()
    ensures Expression(Scope, AssignmentExpression("=", Var("x"), Remainder)).Err?
    ensures Expression(Scope, AssignmentExpression("=", Var("x"), OrZero(Remainder))) == Ok(Signed)
  {
    RemainderIsIntish();
    LocalIsInt("x");
    IntishIntoIntFails(Scope, Var("x"), Remainder);
    RecoercedIntoInt(Scope, Var("x"), Remainder);
  }

  /** `HF64[0]`: a load from a Float64 view at a constant index. */
  const DoubleLoad: Expr := MemberExpression(Var("HF64"), Zero, true)

  /** Unary `+` of a Doublish operand is Double: the third alternative of its row (lib/tables.js:90-94). */
  lemma PlusOfDoublish(ctx: FunCtx, e: Expr)
    requires !e.CallExpression? && Expression(ctx, e) == Ok(Doublish)
    ensures Expression(ctx, UnaryExpression("+", e)) == Ok(Double)
  {
    PlusRow();
    UnaryTyping(ctx, "+", e);
    DoublishMatchesPlus();
  }

  /** Doublish takes the third alternative of unary `+`. */
  lemma DoublishMatchesPlus()
    ensures CheckArguments([Doublish], Overloaded([Arrow([Signed], Double), Arrow([Unsigned], Double), Arrow([Doublish], Double)]), "unary expression") == Ok(Double)
  {
    var alts := [Arrow([Signed], Double), Arrow([Unsigned], Double), Arrow([Doublish], Double)];
    assert [Doublish][0] == Doublish;
    assert !Subtype(Doublish, Signed) by { SubtypeMatchesUpSet(Doublish, Signed); }
    assert !Subtype(Doublish, Unsigned) by { SubtypeMatchesUpSet(Doublish, Unsigned); }
    assert !Matches(alts[0], [Doublish]) && !Matches(alts[1], [Doublish]) && Matches(alts[2], [Doublish]);
    CheckArgumentsOnOverloaded([Doublish], alts, 2, "unary expression");
  }

  /** A load from a Float64 view is Doublish, and unary `+` makes it Double. */
  lemma DoubleLoadTyping()
    ensures Expression(Scope, DoubleLoad) == Ok(Doublish)
    ensures Expression(Scope, UnaryExpression("+", DoubleLoad)) == Ok(Double)
  {
    assert IsConstantIndex(Zero);
    assert LookupIn(Scope, "HF64") == Ok(View(8, Doublish));
    HeapAccessConstant(Scope, "HF64", Zero, true);
    PlusOfDoublish(Scope, DoubleLoad);
  }

  /**
   * `~~e` needs `e` below Double (lib/validate.js:896): a Float64 load is only
   * Doublish, so it must pass through unary `+` first (test/index.js:20-34).
   */
  lemma DoubleToSignedNeedsPlus()
    ensures Expression(Scope, UnaryExpression("~", UnaryExpression("~", DoubleLoad))).Err?
    ensures Expression(Scope, UnaryExpression("~", UnaryExpression("~", UnaryExpression("+", DoubleLoad)))) == Ok(Signed)
  {
    DoubleLoadTyping();
    DoubleToSigned(Scope, DoubleLoad);
    DoubleToSigned(Scope, UnaryExpression("+", DoubleLoad));
    assert !Subtype(Doublish, Double) by { SubtypeMatchesUpSet(Doublish, Double); }
  }

  /** `H32[i >> n]`. */
  function WordLoad(n: real, raw: string): Expr {
    MemberExpression(Var("H32"), BinaryExpression(">>", Var("i"), Number(n, raw)), true)
  }

  /** A shifted load from a 4-byte view must shift by exactly 2 (lib/validate.js:815-836; test/index.js:78-88). */
  lemma WordLoadShift()
    ensures Expression(Scope, WordLoad(2.0, "2")) == Ok(Intish)
    ensures Expression(Scope, WordLoad(1.0, "1")).Err?
    ensures Expression(Scope, OrZero(WordLoad(2.0, "2"))) == Ok(Signed)
  {
    assert !HasDot("2") && !HasDot("1");
    WordLoadShiftBy(2.0, "2");
    WordLoadShiftBy(1.0, "1");
    OrZeroTyping(Scope, WordLoad(2.0, "2"), Intish);
  }

  /** `H32[i >> n]` is Intish when `n` is 2 and refused otherwise. */
  lemma WordLoadShiftBy(n: real, raw: string)
    requires !HasDot(raw)
    ensures Expression(Scope, WordLoad(n, raw)).Ok? <==> n == 2.0
    ensures Expression(Scope, WordLoad(n, raw)).Ok? ==> Expression(Scope, WordLoad(n, raw)).value == Intish
  {
    LocalIsInt("i");
    assert Subtype(Int, Intish) by { SubtypeMatchesUpSet(Int, Intish); }
    assert Log2(4) == 2 by { Log2OfWidths(); }
    assert LookupIn(Scope, "H32") == Ok(View(4, Intish));
    HeapAccessShifted(Scope, "H32", Var("i"), n, raw);
  }

  const AbsAlternatives: seq<Arrow> := [Arrow([Signed], Unsigned), DoublishToDouble]

  lemma AbsRow()
    ensures "abs" in StdlibMathTypes && StdlibMathTypes["abs"] == Overloaded(AbsAlternatives)
    ensures AbsAlternatives[1..] == [DoublishToDouble]
  {
  }

  /** `abs` of a Signed or Fixnum argument takes the integer form, listed first (lib/tables.js:36-39). */
  lemma AbsOfSigned(t: ValueType)
    requires t == Signed || t == Fixnum
    ensures CheckArguments([t], StdlibMathTypes["abs"], "call") == Ok(Unsigned)
  {
    AbsRow();
    SignedMatchesAbs(t);
  }

  lemma SignedMatchesAbs(t: ValueType)
    requires t == Signed || t == Fixnum
    ensures CheckArguments([t], Overloaded(AbsAlternatives), "call") == Ok(Unsigned)
  {
    SubtypeMatchesUpSet(t, Signed);
    MatchesOne(AbsAlternatives[0], t);
    CheckArgumentsOnOverloaded([t], AbsAlternatives, 0, "call");
  }

  /** `abs` of a Double argument falls through to the floating form. */
  lemma AbsOfDouble()
    ensures CheckArguments([Double], StdlibMathTypes["abs"], "call") == Ok(Double)
  {
    AbsRow();
    DoubleMatchesAbs();
  }

  lemma DoubleMatchesAbs()
    ensures CheckArguments([Double], Overloaded(AbsAlternatives), "call") == Ok(Double)
  {
    SubtypeMatchesUpSet(Double, Signed);
    SubtypeMatchesUpSet(Double, Doublish);
    MatchesOne(AbsAlternatives[0], Double);
    MatchesOne(AbsAlternatives[1], Double);
    CheckArgumentsOnOverloaded([Double], AbsAlternatives, 1, "call");
  }

  /** `abs` of an Int argument (neither Signed nor Doublish) matches no alternative. */
  lemma AbsOfInt()
    ensures CheckArguments([Int], StdlibMathTypes["abs"], "call").Err?
  {
    AbsRow();
    IntMatchesNoAbs();
  }

  /** Neither alternative of `abs` takes an Int argument. */
  lemma IntMatchesNoAbs()
    ensures CheckArguments([Int], Overloaded(AbsAlternatives), "call").Err?
  {
    SubtypeMatchesUpSet(Int, Signed);
    SubtypeMatchesUpSet(Int, Doublish);
    MatchesOne(Arrow([Signed], Unsigned), Int);
    MatchesOne(DoublishToDouble, Int);
    CheckArgumentsFailsOnTwo([Int], Arrow([Signed], Unsigned), DoublishToDouble, "call");
  }
}
