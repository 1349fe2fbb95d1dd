// The helpers at the top of lib/validate.js: splitting a statement list into
// sections, the power-of-two test on table lengths, the integer logarithm of
// a view's byte width, and the flattening of additive chains.
module Utilities {
  import opened Ast

  // ---------------------------------------------------------------------------
  // split (lib/validate.js:35-49)
  // ---------------------------------------------------------------------------

  /** How many consecutive nodes of kind `k` start at position `i`. */
  function Run(nodes: seq<Stmt>, i: nat, k: StmtKind): (n: nat)
    requires i <= |nodes|
    ensures i + n <= |nodes|
    decreases |nodes| - i
  {
    if i < |nodes| && KindOf(nodes[i]) == k then 1 + Run(nodes, i + 1, k) else 0
  }

  /** A run is made of nodes of its kind, and it cannot be extended. */
  lemma {:induction false} RunIsMaximal(nodes: seq<Stmt>, i: nat, k: StmtKind)
    requires i <= |nodes|
    ensures forall j :: i <= j < i + Run(nodes, i, k) ==> KindOf(nodes[j]) == k
    ensures i + Run(nodes, i, k) < |nodes| ==> KindOf(nodes[i + Run(nodes, i, k)]) != k
    decreases |nodes| - i
  {
    if i < |nodes| && KindOf(nodes[i]) == k {
      RunIsMaximal(nodes, i + 1, k);
    }
  }

  /**
   * The sections `split` produces from position `i` on, for the filters from
   * `f` on: each filter in turn takes the maximal run of consecutive nodes of
   * its kind, starting where the previous one stopped.
   */
  function SectionsFrom(nodes: seq<Stmt>, filters: seq<StmtKind>, i: nat, f: nat): (r: seq<seq<Stmt>>)
    requires i <= |nodes| && f <= |filters|
    ensures |r| == |filters| - f
    decreases |filters| - f
  {
    if f == |filters| then []
    else
      var n := Run(nodes, i, filters[f]);
      [nodes[i..i + n]] + SectionsFrom(nodes, filters, i + n, f + 1)
  }

  function Sections(nodes: seq<Stmt>, filters: seq<StmtKind>): (r: seq<seq<Stmt>>)
    ensures |r| == |filters|
  {
    SectionsFrom(nodes, filters, 0, 0)
  }

  function Concat(ss: seq<seq<Stmt>>): seq<Stmt> {
    if ss == [] then [] else ss[0] + Concat(ss[1..])
  }

  /** Where section `k` of those produced from position `i` begins. */
  function Start(nodes: seq<Stmt>, filters: seq<StmtKind>, i: nat, f: nat, k: nat): (p: nat)
    requires i <= |nodes| && f <= |filters| && k <= |filters| - f
    ensures i <= p <= |nodes|
    decreases k
  {
    if k == 0 then i else
      var n := Run(nodes, i, filters[f]);
      Start(nodes, filters, i + n, f + 1, k - 1)
  }

  /** Section `k` is the run of its filter's kind at the point where section `k - 1` stopped. */
  lemma {:induction false} SectionIsRunFrom(nodes: seq<Stmt>, filters: seq<StmtKind>, i: nat, f: nat, k: nat, p: nat, kind: StmtKind)
    requires i <= |nodes| && f <= |filters| && k < |filters| - f
    requires p == Start(nodes, filters, i, f, k) && kind == filters[f + k]
    ensures SectionsFrom(nodes, filters, i, f)[k] == nodes[p..p + Run(nodes, p, kind)]
    decreases k
  {
    var n := Run(nodes, i, filters[f]);
    var y := nodes[p..p + Run(nodes, p, kind)];
    if k == 0 {
      assert p == i && kind == filters[f];
      SectionsFromStep(nodes, filters, i, f, 0, n, y);
    } else {
      StartStep(nodes, filters, i, f, k, n);
      SectionIsRunFrom(nodes, filters, i + n, f + 1, k - 1, p, kind);
      SectionsFromStep(nodes, filters, i, f, k, n, y);
    }
  }

  /** Where section `k` starts, seen from after the first run. */
  lemma StartStep(nodes: seq<Stmt>, filters: seq<StmtKind>, i: nat, f: nat, k: nat, n: nat)
    requires i <= |nodes| && f <= |filters| && 0 < k < |filters| - f
    requires n == Run(nodes, i, filters[f])
    ensures Start(nodes, filters, i, f, k) == Start(nodes, filters, i + n, f + 1, k - 1)
    ensures filters[f + k] == filters[(f + 1) + (k - 1)]
  {
  }

  /** Element `k` of the sections from `i`: the first run, or element `k - 1` of the sections after it. */
  lemma SectionsFromStep(nodes: seq<Stmt>, filters: seq<StmtKind>, i: nat, f: nat, k: nat, n: nat, y: seq<Stmt>)
    requires i <= |nodes| && f <= |filters| && k < |filters| - f
    requires n == Run(nodes, i, filters[f])
    requires k == 0 ==> y == nodes[i..i + n]
    requires k > 0 ==> SectionsFrom(nodes, filters, i + n, f + 1)[k - 1] == y
    ensures SectionsFrom(nodes, filters, i, f)[k] == y
  {
    SectionsFromUnfold(nodes, filters, i, f);
    ConsIndex(SectionsFrom(nodes, filters, i, f), SectionsFrom(nodes, filters, i + n, f + 1), nodes[i..i + n], k, y);
  }

  /** Element `k` of a sequence built as `[x] + tail`. */
  lemma ConsIndex(s: seq<seq<Stmt>>, tail: seq<seq<Stmt>>, x: seq<Stmt>, k: nat, y: seq<Stmt>)
    requires s == [x] + tail && k <= |tail|
    requires if k == 0 then x == y else tail[k - 1] == y
    ensures s[k] == y
  {
  }

  /**
   * Section `k` of what `split` returns is a slice of the input; every node in
   * it has filter `k`'s kind; and the run is maximal, since the node right
   * after it (if any) has another kind.
   */
  lemma SectionIsMaximalRun(nodes: seq<Stmt>, filters: seq<StmtKind>, k: nat)
    requires k < |filters|
    ensures var r := Sections(nodes, filters);
      var p := Start(nodes, filters, 0, 0, k);
      && p + |r[k]| <= |nodes|
      && r[k] == nodes[p..p + |r[k]|]
      && (forall j :: 0 <= j < |r[k]| ==> KindOf(r[k][j]) == filters[k])
      && (p + |r[k]| < |nodes| ==> KindOf(nodes[p + |r[k]|]) != filters[k])
  {
    var r := Sections(nodes, filters);
    var p := Start(nodes, filters, 0, 0, k);
    SectionIsRunFrom(nodes, filters, 0, 0, k, p, filters[k]);
    var n := Run(nodes, p, filters[k]);
    RunIsMaximal(nodes, p, filters[k]);
    assert |r[k]| == n;
    forall j | 0 <= j < |r[k]|
      ensures KindOf(r[k][j]) == filters[k]
    {
      assert r[k][j] == nodes[p + j];
    }
  }

  /** `split` takes nodes in their original order: the sections laid end to end are the input from `i` up to some point. */
  lemma {:induction false} SectionsFromArePrefix(nodes: seq<Stmt>, filters: seq<StmtKind>, i: nat, f: nat)
    requires i <= |nodes| && f <= |filters|
    ensures i + |Concat(SectionsFrom(nodes, filters, i, f))| <= |nodes|
    ensures Concat(SectionsFrom(nodes, filters, i, f)) == nodes[i..i + |Concat(SectionsFrom(nodes, filters, i, f))|]
    decreases |filters| - f
  {
    if f < |filters| {
      var n := Run(nodes, i, filters[f]);
      var r := SectionsFrom(nodes, filters, i, f);
      var tail := SectionsFrom(nodes, filters, i + n, f + 1);
      SectionsFromUnfold(nodes, filters, i, f);
      SectionsFromArePrefix(nodes, filters, i + n, f + 1);
      ConcatCons(r, nodes[i..i + n], tail);
      PrefixStep(nodes, i, n, Concat(r), Concat(tail));
    }
  }

  lemma ConcatCons(s: seq<seq<Stmt>>, x: seq<Stmt>, tail: seq<seq<Stmt>>)
    requires s == [x] + tail
    ensures Concat(s) == x + Concat(tail)
  {
    assert s[1..] == tail;
  }

  /** A slice at `i` followed by a slice of the input right after it is a slice at `i`. */
  lemma PrefixStep(nodes: seq<Stmt>, i: nat, n: nat, c: seq<Stmt>, rest: seq<Stmt>)
    requires i + n + |rest| <= |nodes|
    requires c == nodes[i..i + n] + rest && rest == nodes[i + n..i + n + |rest|]
    ensures i + |c| <= |nodes| && c == nodes[i..i + |c|]
  {
    assert nodes[i..i + n] + nodes[i + n..i + n + |rest|] == nodes[i..i + n + |rest|];
  }

  lemma SectionsArePrefix(nodes: seq<Stmt>, filters: seq<StmtKind>)
    ensures |Concat(Sections(nodes, filters))| <= |nodes|
    ensures Concat(Sections(nodes, filters)) == nodes[..|Concat(Sections(nodes, filters))|]
  {
    SectionsFromArePrefix(nodes, filters, 0, 0);
  }

  /** A stretch of `n` nodes of kind `k`, followed by a node of another kind or by the end, is the run at `i`. */
  lemma {:induction false} RunAt(nodes: seq<Stmt>, i: nat, n: nat, k: StmtKind)
    requires i + n <= |nodes|
    requires forall j :: i <= j < i + n ==> KindOf(nodes[j]) == k
    requires i + n < |nodes| ==> KindOf(nodes[i + n]) != k
    ensures Run(nodes, i, k) == n
    decreases n
  {
    if n > 0 {
      RunAt(nodes, i + 1, n - 1, k);
    }
  }

  /** Positions `cuts` cut the nodes into stretches, stretch `k` being of filter `k`'s kind and not followed by that kind. */
  predicate CutsFit(nodes: seq<Stmt>, filters: seq<StmtKind>, cuts: seq<nat>, f: nat)
  {
    && |cuts| == |filters| + 1 && f <= |filters|
    && (forall k :: f <= k < |filters| ==> cuts[k] <= cuts[k + 1])
    && (forall k :: f <= k <= |filters| ==> cuts[k] <= |nodes|)
    && (forall k, j :: f <= k < |filters| && cuts[k] <= j < cuts[k + 1] ==> KindOf(nodes[j]) == filters[k])
    && (forall k :: f <= k < |filters| && cuts[k + 1] < |nodes| ==> KindOf(nodes[cuts[k + 1]]) != filters[k])
  }

  /** With such cuts, the sections from `cuts[f]` on are exactly the stretches between consecutive cuts. */
  lemma SectionsAtCuts(nodes: seq<Stmt>, filters: seq<StmtKind>, cuts: seq<nat>, f: nat)
    requires CutsFit(nodes, filters, cuts, f)
    ensures |SectionsFrom(nodes, filters, cuts[f], f)| == |filters| - f
    ensures forall k :: f <= k < |filters| ==> SectionsFrom(nodes, filters, cuts[f], f)[k - f] == nodes[cuts[k]..cuts[k + 1]]
  {
    forall k | f <= k < |filters|
      ensures SectionsFrom(nodes, filters, cuts[f], f)[k - f] == nodes[cuts[k]..cuts[k + 1]]
    {
      SectionAtCut(nodes, filters, cuts, f, k);
    }
  }

  /** The section of filter `k` is the stretch between cuts `k` and `k + 1`. */
  lemma {:induction false} SectionAtCut(nodes: seq<Stmt>, filters: seq<StmtKind>, cuts: seq<nat>, f: nat, k: nat)
    requires CutsFit(nodes, filters, cuts, f) && f <= k < |filters|
    ensures SectionsFrom(nodes, filters, cuts[f], f)[k - f] == nodes[cuts[k]..cuts[k + 1]]
    decreases k - f
  {
    var r := SectionsFrom(nodes, filters, cuts[f], f);
    var tail := SectionsFrom(nodes, filters, cuts[f + 1], f + 1);
    FirstCut(nodes, filters, cuts, f);
    if k > f {
      CutsFitFurther(nodes, filters, cuts, f);
      SectionAtCut(nodes, filters, cuts, f + 1, k);
      assert k - (f + 1) == k - f - 1;
    }
    ConsIndex(r, tail, nodes[cuts[f]..cuts[f + 1]], k - f, nodes[cuts[k]..cuts[k + 1]]);
  }

  /** The first stretch between the cuts is the first section. */
  lemma FirstCut(nodes: seq<Stmt>, filters: seq<StmtKind>, cuts: seq<nat>, f: nat)
    requires CutsFit(nodes, filters, cuts, f) && f < |filters|
    ensures SectionsFrom(nodes, filters, cuts[f], f) == [nodes[cuts[f]..cuts[f + 1]]] + SectionsFrom(nodes, filters, cuts[f + 1], f + 1)
  {
    RunAt(nodes, cuts[f], cuts[f + 1] - cuts[f], filters[f]);
    SectionsFromUnfold(nodes, filters, cuts[f], f);
  }

  lemma CutsFitFurther(nodes: seq<Stmt>, filters: seq<StmtKind>, cuts: seq<nat>, f: nat)
    requires CutsFit(nodes, filters, cuts, f) && f < |filters|
    ensures CutsFit(nodes, filters, cuts, f + 1)
  {
  }

  lemma SectionsFromUnfold(nodes: seq<Stmt>, filters: seq<StmtKind>, i: nat, f: nat)
    requires i <= |nodes| && f < |filters|
    ensures var n := Run(nodes, i, filters[f]);
      SectionsFrom(nodes, filters, i, f) == [nodes[i..i + n]] + SectionsFrom(nodes, filters, i + n, f + 1)
  {
  }

  lemma Associative<T>(a: seq<T>, b: seq<T>, c: seq<T>)
    ensures a + (b + c) == (a + b) + c
  {
  }

  /** The inner loop of `split`: collect nodes of kind `k` from position `start` on. */
  method TakeRun(nodes: seq<Stmt>, start: nat, k: StmtKind) returns (iNode: nat, next: seq<Stmt>)
    requires start <= |nodes|
    ensures iNode == start + Run(nodes, start, k)
    ensures next == nodes[start..iNode]
  {
    next := [];
    iNode := start;
    while iNode < |nodes| && KindOf(nodes[iNode]) == k
      invariant start <= iNode <= |nodes|
      invariant next == nodes[start..iNode]
      invariant (iNode - start) + Run(nodes, iNode, k) == Run(nodes, start, k)
    {
      next := next + [nodes[iNode]];
      iNode := iNode + 1;
    }
  }

  lemma AppendStep(done: seq<seq<Stmt>>, next: seq<Stmt>, rest: seq<seq<Stmt>>, all: seq<seq<Stmt>>)
    requires done + ([next] + rest) == all
    ensures (done + [next]) + rest == all
  {
    Associative(done, [next], rest);
  }

  /**
   * `split` (lib/validate.js:35-49): `iNode` walks the input once; each filter
   * collects nodes while they have its kind.
   */
  method Split(nodes: seq<Stmt>, filters: seq<StmtKind>) returns (result: seq<seq<Stmt>>)
    ensures result == Sections(nodes, filters)
  {
    result := [];
    var iNode := 0;
    var iFilter := 0;
    while iFilter < |filters|
      invariant 0 <= iFilter <= |filters|
      invariant 0 <= iNode <= |nodes|
      invariant result + SectionsFrom(nodes, filters, iNode, iFilter) == Sections(nodes, filters)
    {
      var start := iNode;
      var next;
      iNode, next := TakeRun(nodes, start, filters[iFilter]);
      ghost var rest := SectionsFrom(nodes, filters, iNode, iFilter + 1);
      SectionsFromUnfold(nodes, filters, start, iFilter);
      assert SectionsFrom(nodes, filters, start, iFilter) == [next] + rest;
      AppendStep(result, next, rest, Sections(nodes, filters));
      result := result + [next];
      iFilter := iFilter + 1;
    }
    assert result + [] == result;
  }

  // ---------------------------------------------------------------------------
  // powerOf2 (lib/validate.js:25-27)
  // ---------------------------------------------------------------------------

  const TwoTo32: int := 0x1_0000_0000

  /** Bitwise and of two naturals, bit by bit from the least significant. */
  function BitAnd(a: nat, b: nat): nat {
    if a == 0 || b == 0 then 0
    else 2 * BitAnd(a / 2, b / 2) + (if a % 2 == 1 && b % 2 == 1 then 1 else 0)
  }

  /**
   * `powerOf2`: `(x & (x - 1)) === 0`. JavaScript's `&` works on the 32-bit
   * two's-complement images of its operands, so both are reduced modulo 2^32
   * (for `x = 0`, `x - 1` is the all-ones word and the test passes).
   */
  predicate PowerOf2(x: nat) {
    BitAnd(x % TwoTo32, (x - 1) % TwoTo32) == 0
  }

  /** The reference definition: 1, 2, 4, 8, … */
  predicate IsPow2(n: nat) {
    n == 1 || (n > 1 && n % 2 == 0 && IsPow2(n / 2))
  }

  function Pow2(k: nat): (p: nat)
    ensures p >= 1
  {
    if k == 0 then 1 else 2 * Pow2(k - 1)
  }

  lemma {:induction false} BitAndSelf(a: nat)
    ensures BitAnd(a, a) == a
  {
    if a != 0 {
      BitAndSelf(a / 2);
    }
  }

  /** For every length a table can have, the bit trick is exactly the power-of-two test. */
  lemma {:induction false} PowerOf2IsPow2(x: nat)
    requires 0 < x < TwoTo32
    ensures PowerOf2(x) <==> IsPow2(x)
  {
    assert x % TwoTo32 == x && (x - 1) % TwoTo32 == x - 1;
    BitAndPredecessor(x);
  }

  lemma {:induction false} BitAndPredecessor(x: nat)
    requires x > 0
    ensures BitAnd(x, x - 1) == 0 <==> IsPow2(x)
  {
    if x == 1 {
    } else if x % 2 == 0 {
      var y := x / 2;
      BitAndPredecessor(y);
      assert BitAnd(x, x - 1) == 2 * BitAnd(y, y - 1);
    } else {
      var y := x / 2;
      BitAndSelf(y);
      assert BitAnd(x, x - 1) == 2 * BitAnd(y, y);
    }
  }

  /** `powerOf2(0)` holds, which is why the table check tests emptiness first. */
  lemma PowerOf2Zero()
    ensures PowerOf2(0)
  {
    assert (0 - 1) % TwoTo32 == TwoTo32 - 1;
    assert BitAnd(0, TwoTo32 - 1) == 0;
  }

  // ---------------------------------------------------------------------------
  // log2 (lib/validate.js:20-22), on the widths it is applied to
  // ---------------------------------------------------------------------------

  /** The integer logarithm: the exponent k with 2^k == n for a power of two n. */
  function Log2(n: nat): nat {
    if n <= 1 then 0 else 1 + Log2(n / 2)
  }

  lemma {:induction false} Log2OfPow2(n: nat)
    requires IsPow2(n)
    ensures Pow2(Log2(n)) == n
  {
    if n != 1 {
      Log2OfPow2(n / 2);
    }
  }

  /** The shift each view width calls for. */
  lemma Log2OfWidths()
    ensures Log2(1) == 0 && Log2(2) == 1 && Log2(4) == 2 && Log2(8) == 3
  {
  }

  // ---------------------------------------------------------------------------
  // flattenAdditive (lib/validate.js:62-85)
  // ---------------------------------------------------------------------------

  predicate IsAdditive(e: Expr) {
    e.BinaryExpression? && (e.binaryOp == "+" || e.binaryOp == "-")
  }

  /** The operands of an additive chain, left to right: everything under `+`/`-` nodes that is not one. */
  function Leaves(e: Expr): (r: seq<Expr>)
    ensures |r| >= 1
    ensures forall i :: 0 <= i < |r| ==> !IsAdditive(r[i])
    ensures !IsAdditive(e) ==> r == [e]
  {
    if IsAdditive(e) then Leaves(e.left) + Leaves(e.right) else [e]
  }

  /** Flattening never grows the tree, so the leaves can be typed by recursion on size. */
  lemma {:induction false} LeavesSize(e: Expr)
    ensures SizeSeq(Leaves(e)) <= Size(e)
  {
    if IsAdditive(e) {
      LeavesSize(e.left);
      LeavesSize(e.right);
      SizeSeqConcat(Leaves(e.left), Leaves(e.right));
    } else {
      assert SizeSeq([e]) == Size(e) + SizeSeq([]);
    }
  }

  /** The first operand of an additive chain and the rest are each smaller than the chain. */
  lemma AdditiveOperandsSmaller(e: Expr)
    requires IsAdditive(e)
    ensures var ops := Leaves(e.left) + Leaves(e.right);
      Size(ops[0]) < Size(e) && SizeSeq(ops[1..]) < Size(e)
  {
    var ops := Leaves(e.left) + Leaves(e.right);
    LeavesSize(e.left);
    LeavesSize(e.right);
    SizeSeqConcat(Leaves(e.left), Leaves(e.right));
    assert SizeSeq(ops) == Size(ops[0]) + SizeSeq(ops[1..]);
    assert Size(e) == 1 + Size(e.left) + Size(e.right);
  }

  /** The leaves still to be produced by a work stack whose top is its last element. */
  function StackLeaves(todo: seq<Expr>): seq<Expr> {
    if todo == [] then [] else Leaves(todo[|todo| - 1]) + StackLeaves(todo[..|todo| - 1])
  }

  /** Popping the top of the stack emits the top's leaves before the rest. */
  lemma StackLeavesPop(rest: seq<Expr>, e: Expr)
    ensures StackLeaves(rest + [e]) == Leaves(e) + StackLeaves(rest)
    ensures SizeSeq(rest + [e]) == SizeSeq(rest) + Size(e)
  {
    assert (rest + [e])[..|rest|] == rest;
    SizeSeqConcat(rest, [e]);
    assert SizeSeq([e]) == Size(e) + SizeSeq([]);
  }

  /** Replacing an additive node by its operands keeps the leaves to come and shrinks the stack. */
  lemma StackLeavesExpand(rest: seq<Expr>, e: Expr)
    requires IsAdditive(e)
    ensures StackLeaves(rest + [e.right, e.left]) == Leaves(e) + StackLeaves(rest)
    ensures SizeSeq(rest + [e.right, e.left]) < SizeSeq(rest + [e])
  {
    var pushed := rest + [e.right, e.left];
    assert pushed == (rest + [e.right]) + [e.left];
    StackLeavesPop(rest + [e.right], e.left);
    StackLeavesPop(rest, e.right);
    StackLeavesPop(rest, e);
    assert Leaves(e) == Leaves(e.left) + Leaves(e.right);
    Associative(Leaves(e.left), Leaves(e.right), StackLeaves(rest));
    assert Size(e) == 1 + Size(e.left) + Size(e.right);
  }

  lemma FlattenStart(left: Expr, right: Expr)
    ensures [] + StackLeaves([right, left]) == Leaves(left) + Leaves(right)
  {
    StackLeavesPop([right], left);
    StackLeavesPop([], right);
    assert [right] == [] + [right];
  }

  lemma FlattenExpand(done: seq<Expr>, rest: seq<Expr>, e: Expr, all: seq<Expr>)
    requires done + StackLeaves(rest + [e]) == all
    requires IsAdditive(e)
    ensures done + StackLeaves(rest + [e.right, e.left]) == all
  {
    StackLeavesPop(rest, e);
    StackLeavesExpand(rest, e);
  }

  lemma FlattenEmit(done: seq<Expr>, rest: seq<Expr>, e: Expr, all: seq<Expr>)
    requires done + StackLeaves(rest + [e]) == all
    requires !IsAdditive(e)
    ensures (done + [e]) + StackLeaves(rest) == all
  {
    StackLeavesPop(rest, e);
  }

  /**
   * `flattenAdditive`: a work stack seeded with `[right, left]`; an additive
   * node is replaced by its two operands, anything else is emitted. The
   * result is the left operand's leaves followed by the right operand's.
   */
  method FlattenAdditive(left: Expr, right: Expr) returns (result: seq<Expr>)
    ensures result == Leaves(left) + Leaves(right)
    ensures |result| >= 2
  {
    result := [];
    var todo := [right, left];
    FlattenStart(left, right);
    while |todo| > 0
      invariant result + StackLeaves(todo) == Leaves(left) + Leaves(right)
      decreases SizeSeq(todo)
    {
      var e := todo[|todo| - 1];
      var rest := todo[..|todo| - 1];
      assert todo == rest + [e];
      StackLeavesPop(rest, e);
      if IsAdditive(e) {
        FlattenExpand(result, rest, e, Leaves(left) + Leaves(right));
        StackLeavesExpand(rest, e);
        todo := rest + [e.right, e.left];
      } else {
        FlattenEmit(result, rest, e, Leaves(left) + Leaves(right));
        result := result + [e];
        todo := rest;
      }
    }
    assert StackLeaves(todo) == [];
    assert result + [] == result;
  }
}
