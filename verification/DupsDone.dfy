/** What is left when expr_eliminate_dups of kconfig/expr.c is done: no operand that another one makes
    superfluous, and nothing twice. */
module KconfigDupsDone {
  import opened Common
  import opened KconfigExpr
  import opened KconfigTransform
  import opened KconfigEliminateEq
  import opened KconfigEquality
  import opened KconfigJoins
  import opened KconfigSpine
  import opened KconfigDups

  // ---------------------------------------------------------------- no operand is there twice

  /** No two operands of one chain are the same tree. */
  lemma NoOperandTwice(o: Op, e: Expr, q1: Path, q2: Path)
    requires EliminateDups(e).Is(o) && Leaf(o, EliminateDups(e), q1) && Leaf(o, EliminateDups(e), q2) && q1 != q2
    ensures At(o, EliminateDups(e), q1) != At(o, EliminateDups(e), q2)
  {
    EliminateDupsExact(e);
    CleanHasNoEqualOperands(o, EliminateDups(e), q1, q2);
    ExprEqReflexive(At(o, EliminateDups(e), q1));
  }

  /** Nor are they the same but for the order of their own operands. */
  lemma NoOperandSwapped(o: Op, e: Expr, q1: Path, q2: Path)
    requires EliminateDups(e).Is(o) && Leaf(o, EliminateDups(e), q1) && Leaf(o, EliminateDups(e), q2) && q1 != q2
    ensures var a, b := At(o, EliminateDups(e), q1), At(o, EliminateDups(e), q2);
      a.Bin? && ConstFree(a) ==> b != Bin(a.op, a.right, a.left)
  {
    EliminateDupsExact(e);
    CleanHasNoEqualOperands(o, EliminateDups(e), q1, q2);
    var a := At(o, EliminateDups(e), q1);
    if a.Bin? && ConstFree(a) { SwappedPartsEqual(a.op, a.left, a.right); }
  }

  // ---------------------------------------------------------------- no operand is contradicted

  /** No operand that is itself a chain contradicts the chain it stands in. */
  ghost predicate Quiet(e: Expr)
    decreases Size(e)
  {
    e.Bin? ==> forall q {:trigger Leaf(e.op, e, q)} :: Leaf(e.op, e, q) ==> QuietAt(e.op, e, q)
  }

  ghost predicate QuietAt(o: Op, e: Expr, q: Path)
    requires e.Is(o) && Leaf(o, e, q)
    decreases Size(e), 0
  {
    At(o, e, q).Bin? ==> !Contradicts(o, At(o, e, q), e) && Quiet(At(o, e, q))
  }

  /** The same for the operands below one slot, against what is in another. */
  ghost predicate QuietBelow(o: Op, e: Expr, p1: Path, p2: Path)
    requires e.Is(o) && OnSpine(o, e, p2)
  {
    forall q {:trigger Leaf(o, e, q)} :: Leaf(o, e, q) && p1 <= q && q != p2 && At(o, e, q).Bin? ==>
      !Contradicts(o, At(o, e, q), At(o, e, p2)) && Quiet(At(o, e, q))
  }

  lemma {:induction false} QuietSplit(o: Op, e: Expr, p1: Path, p2: Path)
    requires e.Is(o) && OnSpine(o, e, p1) && OnSpine(o, e, p2) && At(o, e, p1).Is(o)
    requires QuietBelow(o, e, p1 + [false], p2) && QuietBelow(o, e, p1 + [true], p2)
    ensures QuietBelow(o, e, p1, p2)
  {
    forall q | Leaf(o, e, q) && p1 <= q && q != p2 && At(o, e, q).Bin?
      ensures !Contradicts(o, At(o, e, q), At(o, e, p2)) && Quiet(At(o, e, q))
    {
      LeafBelow(o, e, p1, q);
      assert q[|p1|] || !q[|p1|];
    }
  }

  /** A second pass that rewrites nothing has found no contradiction. */
  lemma {:induction false} Dups2Quiet(o: Op, tree: Expr, p1: Path, p2: Path)
    requires tree.Is(o) && OnSpine(o, tree, p1) && OnSpine(o, tree, p2) && Dups2(o, tree, p1, p2).1 == 0
    ensures QuietBelow(o, tree, p1, p2)
    decreases Size(tree), Links(o, At(o, tree, p1)), 1
  {
    if At(o, tree, p1).Is(o) {
      BothSides(o, tree, p1);
      var (a, m) := Dups2(o, tree, p1 + [false], p2);
      OtherSide(o, tree, p1, p2, a);
      Dups2Exact(o, tree, p1 + [false], p2);
      assert a == tree;
      SidesAreShorter(o, tree, p1);
      Dups2Quiet(o, tree, p1 + [false], p2);
      Dups2Quiet(o, tree, p1 + [true], p2);
      QuietSplit(o, tree, p1, p2);
    } else {
      if At(o, tree, p2).Is(o) { Dups2SecondExact(o, tree, p1, p2); }
      OperandQuiet(o, tree, p1, p2);
    }
  }

  lemma SidesAreShorter(o: Op, e: Expr, p: Path)
    requires OnSpine(o, e, p) && At(o, e, p).Is(o)
    ensures OnSpine(o, e, p + [false]) && Links(o, At(o, e, p + [false])) < Links(o, At(o, e, p))
    ensures OnSpine(o, e, p + [true]) && Links(o, At(o, e, p + [true])) < Links(o, At(o, e, p))
  {
    BothSides(o, e, p);
  }

  lemma {:induction false} OperandQuiet(o: Op, tree: Expr, p1: Path, p2: Path)
    requires tree.Is(o) && Leaf(o, tree, p1) && OnSpine(o, tree, p2) && Dups2Operand(o, tree, p1, p2).1 == 0
    ensures QuietBelow(o, tree, p1, p2)
    decreases Size(tree), 0, 0
  {
    var e1 := At(o, tree, p1);
    if p1 != p2 && e1.Bin? {
      Dups2Exact(e1.op, e1, [], []);
      PutOperand(o, tree, p1, e1);
      Dups2Quiet(e1.op, e1, [], []);
    }
    forall q | Leaf(o, tree, q) && p1 <= q ensures q == p1 { LeavesDiverge(o, tree, p1, q); }
  }

  lemma {:induction false} RoundQuiet(e: Expr)
    requires Round(e).1 == 0
    ensures Quiet(e)
  {
    if e.Bin? {
      Dups1Exact(e.op, e, [], []);
      Dups2Quiet(e.op, e, [], []);
    }
  }

  /** Nothing contradicts the chain it stands in any more. */
  lemma {:induction false} EliminateDupsQuiet(e: Expr)
    ensures Quiet(EliminateDups(e))
    decreases Size(e)
  {
    RoundExact(e);
    var (r, n) := Round(e);
    if n == 0 { RoundQuiet(e); } else { EliminateDupsQuiet(EliminateYn(r)); }
  }

  // ---------------------------------------------------------------- what a contradiction is

  /** On the operands of chains without constants, extracting cancels the same as cancelling. */
  lemma {:induction false} ExtractIsCancel(o: Op, acc: Option<Expr>, e1: Expr, e2: Expr, n: nat)
    requires Pieces(o, e1, n) && Pieces(o, e2, n)
    ensures var (acc', r1, r2) := ExtractEq(o, acc, e1, e2);
      && (r1, r2) == Cancel(o, e1, e2) && Pieces(o, r1, n) && Pieces(o, r2, n)
      && (acc.Some? ==> acc'.Some?) && (acc'.None? ==> r1 == e1 && r2 == e2)
    decreases Size(e1) + Size(e2)
  {
    if e1.Is(o) {
      var (acc1, l, e2a) := ExtractEq(o, acc, e1.left, e2);
      ExtractIsCancel(o, acc, e1.left, e2, n);
      ExtractIsCancel(o, acc1, e1.right, e2a, n);
    } else if e2.Is(o) {
      var (acc1, e1a, l) := ExtractEq(o, acc, e1, e2.left);
      ExtractIsCancel(o, acc, e1, e2.left, n);
      ExtractIsCancel(o, acc1, e1a, e2.right, n);
    } else {
      ExtractOperands(o, acc, e1, e2, n);
    }
  }

  lemma {:induction false} ExtractOperands(o: Op, acc: Option<Expr>, e1: Expr, e2: Expr, n: nat)
    requires !e1.Is(o) && !e2.Is(o) && Pieces(o, e1, n) && Pieces(o, e2, n)
    ensures var (acc', r1, r2) := ExtractEq(o, acc, e1, e2);
      && (r1, r2) == Cancel(o, e1, e2) && Pieces(o, r1, n) && Pieces(o, r2, n)
      && (acc.Some? ==> acc'.Some?) && (acc'.None? ==> r1 == e1 && r2 == e2)
  {
  }

  lemma {:induction false} NegationConstFree(e: Expr)
    requires Normal(e) && ConstFree(e) && !Constant(e)
    ensures ConstFree(Transform(Not(e))) && !Constant(Transform(Not(e)))
    ensures e.Bin? ==> Transform(Not(e)).Is(e.op.Dual())
    decreases e
  {
    TransformFixesNormal(e);
    match e
    case Bin(o, l, r) =>
      NegationMovesInwards(o, l, r);
      NegationConstFree(l);
      NegationConstFree(r);
    case _ =>
  }

  /** One chain has all the operands of another, each at least as often. */
  ghost predicate HasAll(o: Op, e: Expr, part: Expr) {
    forall x :: ConstFree(x) && !Constant(x) ==> Count(o, part, x) <= Count(o, e, x)
  }

  lemma {:induction false} CancelledIsThere(o: Op, part: Expr, e: Expr, x: Expr)
    requires ConstFree(part) && !Constant(part) && ConstFree(e) && !Constant(e) && ConstFree(x) && !Constant(x)
    requires AllUnits(o, Cancel(o, part, e).0)
    ensures Count(o, part, x) <= Count(o, e, x)
  {
    var n := Size(part) + Size(e) + Size(x);
    PiecesWithin(o, part, n);
    PiecesWithin(o, e, n);
    CancelCounts(o, part, e, x, n);
    UnitsCountNothing(o, Cancel(o, part, e).0, x);
  }

  lemma {:induction false} LeftIsMissing(o: Op, part: Expr, e: Expr) returns (x: Expr)
    requires ConstFree(part) && !Constant(part) && ConstFree(e) && !Constant(e)
    requires !AllUnits(o, Cancel(o, part, e).0)
    ensures ConstFree(x) && !Constant(x) && Count(o, part, x) > Count(o, e, x)
  {
    var (r1, r2) := Cancel(o, part, e);
    var n := Size(part) + Size(e);
    PiecesWithin(o, part, n);
    PiecesWithin(o, e, n);
    CancelCounts(o, part, e, Var(Mod), n);
    x := SomeOperand(o, r1, n);
    CancelCounts(o, part, e, x, n);
    CancelLeavesApart(o, part, e);
    NothingInCommon(o, r1, r2, x, n);
  }

  lemma {:induction false} AllCancelledExactlyWhen(o: Op, part: Expr, e: Expr)
    requires ConstFree(part) && !Constant(part) && ConstFree(e) && !Constant(e)
    ensures AllUnits(o, Cancel(o, part, e).0) <==> HasAll(o, e, part)
  {
    if AllUnits(o, Cancel(o, part, e).0) {
      forall x | ConstFree(x) && !Constant(x) ensures Count(o, part, x) <= Count(o, e, x) {
        CancelledIsThere(o, part, e, x);
      }
    } else {
      var x := LeftIsMissing(o, part, e);
    }
  }

  /** Without constants, an operand contradicts a chain exactly when the chain has all the operands of its
      transformed negation. */
  lemma {:induction false} ContradictsExactlyWhen(o: Op, e1: Expr, e2: Expr)
    requires Normal(e1) && ConstFree(e1) && e1.Is(o.Dual()) && ConstFree(e2) && !Constant(e2)
    ensures Contradicts(o, e1, e2) <==> HasAll(o, e2, Transform(Not(e1)))
  {
    var x, n := Transform(Not(e1)), Size(Transform(Not(e1))) + Size(e2);
    NegationConstFree(e1);
    PiecesWithin(o, x, n);
    PiecesWithin(o, e2, n);
    ExtractIsCancel(o, None, x, e2, n);
    LeftOver(o, ExtractEq(o, None, x, e2).1, n);
    AllCancelledExactlyWhen(o, x, e2);
    ConstFreeStays(x);
  }

  // ---------------------------------------------------------------- the same chain twice

  function FirstLeaf(o: Op, e: Expr): (p: Path)
    ensures Leaf(o, e, p)
  {
    if e.Is(o) then
      var p := FirstLeaf(o, e.left);
      assert ([false] + p)[1..] == p;
      [false] + p
    else []
  }

  /** Another operand of the chain. */
  lemma {:induction false} AnotherLeaf(o: Op, e: Expr, q: Path) returns (p: Path)
    requires e.Is(o) && Leaf(o, e, q)
    ensures Leaf(o, e, p) && p != q
  {
    p := [!q[0]] + FirstLeaf(o, Child(e, !q[0]));
    assert p[1..] == FirstLeaf(o, Child(e, !q[0]));
  }

  /** Comparing the two operands leaves the chain as it is. */
  ghost predicate Inert(o: Op, tree: Expr, q1: Path, q2: Path)
    requires Leaf(o, tree, q1) && Leaf(o, tree, q2)
  {
    var x, y := At(o, tree, q1), At(o, tree, q2);
    q1 == q2 || (Clean(x) && (Join(o, x, y) == None || x == y == o.Unit()))
  }

  ghost predicate AllInert(o: Op, tree: Expr, p1: Path, p2: Path) {
    forall q1, q2 {:trigger Leaf(o, tree, q1), Leaf(o, tree, q2)} ::
      Leaf(o, tree, q1) && Leaf(o, tree, q2) && p1 <= q1 && p2 <= q2 ==> Inert(o, tree, q1, q2)
  }

  lemma {:induction false} InertPass(o: Op, tree: Expr, p1: Path, p2: Path)
    requires tree.Is(o) && OnSpine(o, tree, p1) && OnSpine(o, tree, p2) && AllInert(o, tree, p1, p2)
    ensures Dups1(o, tree, p1, p2).0 == tree
    decreases Size(tree), Links(o, At(o, tree, p1)) + Links(o, At(o, tree, p2)), 1
  {
    if At(o, tree, p1).Is(o) {
      BothSides(o, tree, p1);
      InertPass(o, tree, p1 + [false], p2);
      InertPass(o, tree, p1 + [true], p2);
    } else if At(o, tree, p2).Is(o) {
      BothSides(o, tree, p2);
      InertPass(o, tree, p1, p2 + [false]);
      InertPass(o, tree, p1, p2 + [true]);
    } else {
      assert Leaf(o, tree, p1) && Leaf(o, tree, p2) && p1 <= p1 && p2 <= p2;
      InertOperands(o, tree, p1, p2);
    }
  }

  lemma InertOperands(o: Op, tree: Expr, p1: Path, p2: Path)
    requires tree.Is(o) && Leaf(o, tree, p1) && Leaf(o, tree, p2) && Inert(o, tree, p1, p2)
    ensures Dups1Operands(o, tree, p1, p2).0 == tree
  {
    if p1 != p2 {
      var x := At(o, tree, p1);
      CleanTidied(o, tree, p1);
      PutOperand(o, tree, p1, x);
      if Join(o, x, At(o, tree, p2)).Some? { MergeUnits(o, tree, p1, p2); }
    }
  }

  lemma MergeUnits(o: Op, tree: Expr, p1: Path, p2: Path)
    requires Leaf(o, tree, p1) && Leaf(o, tree, p2) && p1 != p2
    requires At(o, tree, p1) == At(o, tree, p2) == o.Unit()
    ensures Merge(o, tree, p1, p2, o.Unit()) == tree
  {
    PutOperand(o, tree, p1, o.Unit());
    PutOperand(o, tree, p2, o.Unit());
  }

  /** A clean chain is not rewritten. */
  lemma {:induction false} CleanTidied(o: Op, tree: Expr, p: Path)
    requires tree.Is(o) && Leaf(o, tree, p) && Clean(At(o, tree, p))
    ensures Tidied1(o, tree, p) == (At(o, tree, p), 0)
    decreases Size(tree), 0, 0
  {
    var e := At(o, tree, p);
    if e.Bin? { CleanPass(e.op, e, [], []); }
  }

  lemma {:induction false} CleanPass(o: Op, tree: Expr, p1: Path, p2: Path)
    requires tree.Is(o) && OnSpine(o, tree, p1) && OnSpine(o, tree, p2) && CleanPairs(o, tree, p1, p2)
    ensures Dups1(o, tree, p1, p2) == (tree, 0)
    decreases Size(tree), Links(o, At(o, tree, p1)) + Links(o, At(o, tree, p2)), 2
  {
    if At(o, tree, p1).Is(o) {
      BothSides(o, tree, p1);
      CleanPass(o, tree, p1 + [false], p2);
      CleanPass(o, tree, p1 + [true], p2);
    } else if At(o, tree, p2).Is(o) {
      BothSides(o, tree, p2);
      CleanPass(o, tree, p1, p2 + [false]);
      CleanPass(o, tree, p1, p2 + [true]);
    } else if p1 != p2 {
      assert Leaf(o, tree, p1) && Leaf(o, tree, p2) && p1 <= p1 && p2 <= p2;
      CleanOperands(o, tree, p1, p2);
    }
  }

  lemma {:induction false} CleanOperands(o: Op, tree: Expr, p1: Path, p2: Path)
    requires tree.Is(o) && Leaf(o, tree, p1) && Leaf(o, tree, p2) && p1 != p2 && NotJoinable(o, tree, p1, p2)
    ensures Dups1Operands(o, tree, p1, p2) == (tree, 0)
    decreases Size(tree), 0, 1
  {
    CleanTidied(o, tree, p1);
    PutOperand(o, tree, p1, At(o, tree, p1));
  }
}
