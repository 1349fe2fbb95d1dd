// The types of the validator (lib/types.js, together with the non-value kinds
// that lib/validate.js and lib/tables.js use).
module Types {

  /**
   * The leaves of the value-type lattice. `constant` of lib/types.js is
   * `Fixnum` (the type of in-range integer literals); `Doublish` is the
   * result-only type of unchecked floating-point operations.
   */
  datatype ValueType =
    | Extern | Intish | Boolish | Doublish | Unknown | Int | Bit | Double
    | Signed | Unsigned | Fixnum | Void

  /** The position of a type in the order of definition; every supertype is defined earlier. */
  function Rank(t: ValueType): nat {
    match t
    case Extern => 0
    case Intish => 1
    case Boolish => 2
    case Doublish => 3
    case Unknown => 4
    case Int => 5
    case Bit => 6
    case Double => 7
    case Signed => 8
    case Unsigned => 9
    case Fixnum => 10
    case Void => 11
  }

  /**
   * The immediate supertypes of each leaf, in declared order (lib/types.js:29-49).
   * The roots (declared with `null`) have none. Double also sits below Doublish.
   */
  function Supertypes(t: ValueType): (s: seq<ValueType>)
    ensures forall i :: 0 <= i < |s| ==> Rank(s[i]) < Rank(t)
  {
    match t
    case Extern => []
    case Intish => []
    case Boolish => []
    case Doublish => []
    case Unknown => [Intish]
    case Int => [Intish, Boolish]
    case Bit => [Boolish]
    case Double => [Extern, Doublish]
    case Signed => [Extern, Int]
    case Unsigned => [Extern, Int]
    case Fixnum => [Signed, Unsigned]
    case Void => []
  }

  /** `equals` on value types: identity (lib/types.js:14-16). */
  predicate Equals(a: ValueType, b: ValueType) {
    a == b
  }

  /** `subtype` (lib/types.js:18-23): equal, or some immediate supertype is a subtype. */
  predicate Subtype(a: ValueType, b: ValueType)
    decreases Rank(a)
  {
    Equals(a, b) || exists i :: 0 <= i < |Supertypes(a)| && Subtype(Supertypes(a)[i], b)
  }

  /** A path along supertype edges. */
  ghost predicate IsChain(p: seq<ValueType>) {
    |p| >= 1 && forall i :: 0 <= i < |p| - 1 ==> p[i + 1] in Supertypes(p[i])
  }

  // ---------------------------------------------------------------------------
  // Properties of the lattice
  // ---------------------------------------------------------------------------

  lemma {:induction false} SubtypeTransitive(a: ValueType, b: ValueType, c: ValueType)
    requires Subtype(a, b) && Subtype(b, c)
    ensures Subtype(a, c)
    decreases Rank(a)
  {
    if a != b {
      var d := SupertypeTowards(a, b);
      SubtypeTransitive(d, b, c);
    }
  }

  /** Subtyping only climbs the definition order, so the graph is acyclic and `subtype` terminates. */
  lemma {:induction false} SubtypeClimbsRank(a: ValueType, b: ValueType)
    requires Subtype(a, b)
    ensures Rank(b) <= Rank(a)
    ensures Rank(b) == Rank(a) ==> a == b
    decreases Rank(a)
  {
    if a != b {
      var d := SupertypeTowards(a, b);
      SubtypeClimbsRank(d, b);
    }
  }

  lemma SubtypeAntisymmetric(a: ValueType, b: ValueType)
    requires Subtype(a, b) && Subtype(b, a)
    ensures a == b
  {
    SubtypeClimbsRank(a, b);
    SubtypeClimbsRank(b, a);
  }

  /** `a` is a subtype of `b` exactly when `b` is reachable from `a` along supertype edges. */
  lemma SubtypeIffReachable(a: ValueType, b: ValueType)
    ensures Subtype(a, b) <==> exists p :: IsChain(p) && p[0] == a && p[|p| - 1] == b
  {
    if Subtype(a, b) {
      var p := ChainOf(a, b);
      assert IsChain(p) && p[0] == a && p[|p| - 1] == b;
    }
    if p :| IsChain(p) && p[0] == a && p[|p| - 1] == b {
      ChainIsSubtype(p);
    }
  }

  lemma {:induction false} ChainOf(a: ValueType, b: ValueType) returns (p: seq<ValueType>)
    requires Subtype(a, b)
    ensures IsChain(p) && p[0] == a && p[|p| - 1] == b
    decreases Rank(a)
  {
    if a == b {
      p := [a];
    } else {
      var c := SupertypeTowards(a, b);
      var q := ChainOf(c, b);
      ConsChain(a, q);
      p := [a] + q;
    }
  }

  /** A proper subtype reaches its supertype through one of its immediate supertypes. */
  lemma SupertypeTowards(a: ValueType, b: ValueType) returns (c: ValueType)
    requires Subtype(a, b) && a != b
    ensures c in Supertypes(a) && Subtype(c, b) && Rank(c) < Rank(a)
  {
    var i :| 0 <= i < |Supertypes(a)| && Subtype(Supertypes(a)[i], b);
    c := Supertypes(a)[i];
  }

  /** A chain extended downwards by one supertype edge is still a chain. */
  lemma ConsChain(a: ValueType, q: seq<ValueType>)
    requires IsChain(q) && q[0] in Supertypes(a)
    ensures IsChain([a] + q) && ([a] + q)[0] == a && ([a] + q)[|q|] == q[|q| - 1]
  {
    var p := [a] + q;
    forall k | 0 <= k < |p| - 1
      ensures p[k + 1] in Supertypes(p[k])
    {
      if k > 0 {
        assert p[k] == q[k - 1] && p[k + 1] == q[k];
      }
    }
  }

  lemma {:induction false} ChainIsSubtype(p: seq<ValueType>)
    requires IsChain(p)
    ensures Subtype(p[0], p[|p| - 1])
    decreases |p|
  {
    if |p| > 1 {
      var q := p[1..];
      assert IsChain(q) by {
        forall k | 0 <= k < |q| - 1
          ensures q[k + 1] in Supertypes(q[k])
        {
          assert q[k] == p[k + 1] && q[k + 1] == p[k + 2];
        }
      }
      ChainIsSubtype(q);
      var sups := Supertypes(p[0]);
      var i :| 0 <= i < |sups| && sups[i] == p[1];
      assert Subtype(sups[i], p[|p| - 1]);
    }
  }

  /** Every supertype of each leaf, written out by hand from the declarations. */
  function UpSet(t: ValueType): set<ValueType> {
    match t
    case Extern => {Extern}
    case Intish => {Intish}
    case Boolish => {Boolish}
    case Doublish => {Doublish}
    case Unknown => {Unknown, Intish}
    case Int => {Int, Intish, Boolish}
    case Bit => {Bit, Boolish}
    case Double => {Double, Extern, Doublish}
    case Signed => {Signed, Extern, Int, Intish, Boolish}
    case Unsigned => {Unsigned, Extern, Int, Intish, Boolish}
    case Fixnum => {Fixnum, Signed, Unsigned, Extern, Int, Intish, Boolish}
    case Void => {Void}
  }

  /**
   * The lattice as the declarations give it: Fixnum lies below Signed and
   * Unsigned, both below Int, Intish and Extern; Double lies below Extern and
   * Doublish but not below Int or Intish; Doublish is not below Double; Bit
   * lies only below Boolish; and subtyping is reflexive.
   */
  lemma {:induction false} SubtypeMatchesUpSet(a: ValueType, b: ValueType)
    ensures Subtype(a, b) <==> b in UpSet(a)
    decreases Rank(a)
  {
    var sups := Supertypes(a);
    forall i | 0 <= i < |sups|
      ensures Subtype(sups[i], b) <==> b in UpSet(sups[i])
    {
      SubtypeMatchesUpSet(sups[i], b);
    }
    UpSetUnfolds(a, b);
  }

  /** The hand-written sets are closed under one step up the supertype edges. */
  lemma UpSetUnfolds(a: ValueType, b: ValueType)
    ensures b in UpSet(a) <==> b == a || exists i :: 0 <= i < |Supertypes(a)| && b in UpSet(Supertypes(a)[i])
  {
    var sups := Supertypes(a);
    match a
    case Unknown => assert sups[0] == Intish;
    case Int => assert sups[0] == Intish && sups[1] == Boolish;
    case Bit => assert sups[0] == Boolish;
    case Double => assert sups[0] == Extern && sups[1] == Doublish;
    case Signed => assert sups[0] == Extern && sups[1] == Int;
    case Unsigned => assert sups[0] == Extern && sups[1] == Int;
    case Fixnum => assert sups[0] == Signed && sups[1] == Unsigned;
    case _ =>
  }

  // ---------------------------------------------------------------------------
  // Environment types
  // ---------------------------------------------------------------------------

  /** A function signature (`arrow`, lib/types.js:55-60). */
  datatype Arrow = Arrow(params: seq<ValueType>, result: ValueType)

  /**
   * Everything a name can be bound to: a value type, a function signature, an
   * overloaded library signature (ordered alternatives), a heap view (byte
   * width and element type), a function table (entry signature and length),
   * a module parameter, or an opaque foreign function.
   */
  datatype Type =
    | Value(vt: ValueType)
    | Fn(arrow: Arrow)
    | Overloaded(alts: seq<Arrow>)
    | View(bytes: nat, elem: ValueType)
    | Table(entry: Arrow, length: nat)
    | ModuleParameter
    | Function

  /** What the module scope records for a name: whether it is assignable, and its type. */
  datatype Binding = Binding(mutable: bool, ty: Type)

  /** `arrow.equals` (lib/types.js:62-67): same parameter count, pointwise-equal parameters, equal result. */
  predicate ArrowEquals(a: Arrow, other: Type) {
    && other.Fn?
    && |a.params| == |other.arrow.params|
    && (forall i :: 0 <= i < |a.params| ==> Equals(a.params[i], other.arrow.params[i]))
    && Equals(a.result, other.arrow.result)
  }

  /** Structural equality of arrows is equality of the signatures they denote. */
  lemma ArrowEqualsIsStructural(a: Arrow, other: Type)
    ensures ArrowEquals(a, other) <==> other == Fn(a)
  {
    if ArrowEquals(a, other) {
      assert a.params == other.arrow.params;
    }
  }
}
