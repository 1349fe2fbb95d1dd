// The static signature tables (lib/tables.js): built once, never changed.
module Tables {
  import opened Types

  /** The names under which the three module parameters are recorded, in parameter order. */
  const RootNames: seq<string> := ["stdlib", "foreign", "heap"]

  const HeapViewTypes: map<string, Type> := map[
    "Int8Array"    := View(1, Intish),
    "Uint8Array"   := View(1, Intish),
    "Int16Array"   := View(2, Intish),
    "Uint16Array"  := View(2, Intish),
    "Int32Array"   := View(4, Intish),
    "Uint32Array"  := View(4, Intish),
    "Float32Array" := View(4, Doublish),
    "Float64Array" := View(8, Doublish)
  ]

  const DoublishToDouble: Arrow := Arrow([Doublish], Double)

  const StdlibTypes: map<string, Type> := map[
    "Infinity" := Value(Double),
    "NaN"      := Value(Double)
  ]

  const StdlibMathTypes: map<string, Type> := map[
    "acos"    := Fn(DoublishToDouble),
    "asin"    := Fn(DoublishToDouble),
    "atan"    := Fn(DoublishToDouble),
    "cos"     := Fn(DoublishToDouble),
    "sin"     := Fn(DoublishToDouble),
    "tan"     := Fn(DoublishToDouble),
    "ceil"    := Fn(DoublishToDouble),
    "floor"   := Fn(DoublishToDouble),
    "exp"     := Fn(DoublishToDouble),
    "log"     := Fn(DoublishToDouble),
    "sqrt"    := Fn(DoublishToDouble),
    "abs"     := Overloaded([Arrow([Signed], Unsigned), DoublishToDouble]),
    "atan2"   := Fn(Arrow([Doublish, Doublish], Double)),
    "pow"     := Fn(Arrow([Doublish, Doublish], Double)),
    "imul"    := Fn(Arrow([Int, Int], Signed)),
    "E"       := Value(Double),
    "LN10"    := Value(Double),
    "LN2"     := Value(Double),
    "LOG2E"   := Value(Double),
    "LOG10E"  := Value(Double),
    "PI"      := Value(Double),
    "SQRT1_2" := Value(Double),
    "SQRT2"   := Value(Double)
  ]

  const SignedBitwise: Type := Fn(Arrow([Intish, Intish], Signed))

  const RelOp: Type := Overloaded([
    Arrow([Signed, Signed], Int),
    Arrow([Unsigned, Unsigned], Int),
    Arrow([Double, Double], Int)
  ])

  /** The integer alternatives of `/` and `%` give Intish; the floating one gives Double. */
  const DivisionOp: Type := Overloaded([
    Arrow([Signed, Signed], Intish),
    Arrow([Unsigned, Unsigned], Intish),
    Arrow([Doublish, Doublish], Double)
  ])

  const Binops: map<string, Type> := map[
    "+"   := Fn(Arrow([Double, Double], Double)),
    "-"   := Fn(Arrow([Doublish, Doublish], Double)),
    "*"   := Fn(Arrow([Doublish, Doublish], Double)),
    "/"   := DivisionOp,
    "%"   := DivisionOp,
    "|"   := SignedBitwise,
    "&"   := SignedBitwise,
    "^"   := SignedBitwise,
    "<<"  := SignedBitwise,
    ">>"  := SignedBitwise,
    ">>>" := Fn(Arrow([Intish, Intish], Unsigned)),
    "<"   := RelOp,
    "<="  := RelOp,
    ">"   := RelOp,
    ">="  := RelOp,
    "=="  := RelOp,
    "!="  := RelOp
  ]

  const Unops: map<string, Type> := map[
    "+" := Overloaded([Arrow([Signed], Double), Arrow([Unsigned], Double), Arrow([Doublish], Double)]),
    "-" := Overloaded([Arrow([Int], Intish), Arrow([Doublish], Double)]),
    "~" := Fn(Arrow([Intish], Signed)),
    "!" := Fn(Arrow([Int], Int))
  ]

  /** The integer element types of those views: the integer views, read as Intish. */
  predicate IsIntegerView(name: string) {
    name in {"Int8Array", "Uint8Array", "Int16Array", "Uint16Array", "Int32Array", "Uint32Array"}
  }

  const HeapViewNames: seq<string> := [
    "Int8Array", "Uint8Array", "Int16Array", "Uint16Array",
    "Int32Array", "Uint32Array", "Float32Array", "Float64Array"
  ]

  /** There are exactly eight view constructors, the eight distinct names above. */
  lemma HeapViewCount()
    ensures HeapViewTypes.Keys == set v | v in HeapViewNames
    ensures |HeapViewTypes| == |HeapViewNames| == 8
  {
    var names := HeapViewNames;
    assert forall i, j :: 0 <= i < j < |names| ==> names[i] != names[j] by {
      forall i, j | 0 <= i < j < |names|
        ensures names[i] != names[j]
      {
        assert |names[i]| != |names[j]| || names[i][0] != names[j][0] || names[i][3] != names[j][3] || names[i][4] != names[j][4] || names[i][5] != names[j][5];
      }
    }
    DistinctCard(names);
    assert HeapViewTypes.Keys == set v | v in names;
  }

  lemma {:induction false} DistinctCard(s: seq<string>)
    requires forall i, j :: 0 <= i < j < |s| ==> s[i] != s[j]
    ensures |set v | v in s| == |s|
  {
    if s != [] {
      var rest := s[1..];
      DistinctCard(rest);
      assert (set v | v in s) == {s[0]} + (set v | v in rest);
      assert s[0] !in rest;
    }
  }

  /**
   * Each view constructor is a View whose byte width is 1, 2, 4 or 8; the
   * integer views hold Intish elements and the two float views Doublish.
   */
  lemma HeapViewShapes(v: string)
    requires v in HeapViewTypes
    ensures HeapViewTypes[v].View?
    ensures HeapViewTypes[v].bytes in {1, 2, 4, 8}
    ensures HeapViewTypes[v].elem == Intish <==> IsIntegerView(v)
    ensures HeapViewTypes[v].elem == Doublish <==> v in {"Float32Array", "Float64Array"}
  {
  }

  /** Infinity, NaN and the Math constants, the library names that are not callable, are all Double (lib/tables.js:19-22, 43-50). */
  lemma LibraryValuesAreDouble(x: string)
    ensures x in StdlibTypes ==> StdlibTypes[x] == Value(Double)
    ensures x in StdlibMathTypes && !StdlibMathTypes[x].Fn? && !StdlibMathTypes[x].Overloaded? ==> StdlibMathTypes[x] == Value(Double)
  {
  }

  /** The signature `t` (plain, or every alternative of an overload) takes `n` operands. */
  predicate Takes(t: Type, n: nat) {
    || (t.Fn? && |t.arrow.params| == n)
    || (t.Overloaded? && |t.alts| > 0 && forall i :: 0 <= i < |t.alts| ==> |t.alts[i].params| == n)
  }

  /** Each binary operator's signature takes two operands and each unary one's one (lib/tables.js:61-101). */
  lemma OperatorArities(op: string)
    ensures op in Binops ==> Takes(Binops[op], 2)
    ensures op in Unops ==> Takes(Unops[op], 1)
  {
  }
}
