/** Which expressions expr_eq of kconfig/expr.c calls equal: it compares the operands of two chains without
    regard to order and grouping. */
module KconfigEquality {
  import opened Common
  import opened KconfigExpr
  import opened KconfigTransform
  import opened KconfigEliminateEq

  predicate Constant(e: Expr) { e == Var(Yes) || e == Var(No) }

  // ---------------------------------------------------------------- every expression equals itself

  /** A chain all of whose operands are y or n. */
  predicate AllConstant(o: Op, e: Expr) {
    if e.Is(o) then AllConstant(o, e.left) && AllConstant(o, e.right) else Constant(e)
  }

  lemma ConstantEqual(a: Expr, b: Expr)
    requires Constant(a) || Constant(b)
    ensures ExprEq(a, b) <==> a == b
  {
  }

  /** Constants cancel nothing. */
  lemma {:induction false} CancelConstant(o: Op, c: Expr, e: Expr)
    requires AllConstant(o, c)
    ensures Cancel(o, c, e) == (c, e) && Cancel(o, e, c) == (e, c)
    decreases Size(c) + Size(e)
  {
    if c.Is(o) {
      CancelConstant(o, c.left, e);
      CancelConstant(o, c.right, e);
    }
    if e.Is(o) {
      CancelConstant(o, c, e.left);
      CancelConstant(o, c, e.right);
    }
    if !c.Is(o) && !e.Is(o) {
      ConstantEqual(c, e);
      ConstantEqual(e, c);
    }
  }

  /** The second chain may be taken apart first. */
  lemma {:induction false} CancelByColumns(o: Op, e1: Expr, e2: Expr)
    requires e2.Is(o)
    ensures var (e1a, l) := Cancel(o, e1, e2.left);
      var (e1b, r) := Cancel(o, e1a, e2.right);
      Cancel(o, e1, e2) == (e1b, Bin(o, l, r))
    decreases Size(e1)
  {
    if e1.Is(o) {
      var (l, e2a) := Cancel(o, e1.left, e2);
      CancelByColumns(o, e1.left, e2);
      CancelByColumns(o, e1.right, e2a);
    }
  }

  lemma {:induction false} CancelItself(o: Op, e: Expr)
    ensures var (a, b) := Cancel(o, e, e); a == b && AllConstant(o, a)
    decreases Size(e), if e.Is(o) then 0 else 2
  {
    if e.Is(o) {
      var k := Cancel(o, e.left, e.left).0;
      CancelItself(o, e.left);
      CancelItself(o, e.right);
      CancelByColumns(o, e.left, e);
      CancelConstant(o, k, e.right);
      CancelByColumns(o, e.right, Bin(o, k, e.right));
    } else if !Constant(e) {
      ExprEqReflexive(e);
    }
  }

  lemma {:induction false} AllConstantIsSymbol(o: Op, e: Expr)
    requires AllConstant(o, e)
    ensures Constant(EliminateYn(e))
  {
    if e.Is(o) {
      AllConstantIsSymbol(o, e.left);
      AllConstantIsSymbol(o, e.right);
    }
  }

  lemma {:induction false} ExprEqReflexive(e: Expr)
    ensures ExprEq(e, e)
    decreases Size(e), 1
  {
    match e
    case Not(a) => ExprEqReflexive(a);
    case Bin(o, _, _) =>
      CancelItself(o, e);
      AllConstantIsSymbol(o, Cancel(o, e, e).0);
    case _ =>
  }

  // ---------------------------------------------------------------- either way round

  function Swapped<A, B>(p: (A, B)): (B, A) { (p.1, p.0) }

  lemma {:induction false} CancelSwapped(o: Op, e1: Expr, e2: Expr)
    ensures Cancel(o, e2, e1) == Swapped(Cancel(o, e1, e2))
    decreases Size(e1) + Size(e2), if e1.Is(o) || e2.Is(o) then 0 else 2
  {
    if e2.Is(o) {
      var e1a := Cancel(o, e1, e2.left).0;
      CancelByColumns(o, e1, e2);
      CancelSwapped(o, e1, e2.left);
      CancelSwapped(o, e1a, e2.right);
    } else if e1.Is(o) {
      CancelSwapped(o, e1.left, e2);
      CancelSwapped(o, e1.right, Cancel(o, e1.left, e2).1);
    } else if !(e1 == e2 && Constant(e1)) {
      ExprEqSymmetric(e1, e2);
    }
  }

  lemma {:induction false} ExprEqSymmetric(e1: Expr, e2: Expr)
    ensures ExprEq(e1, e2) == ExprEq(e2, e1)
    decreases Size(e1) + Size(e2), 1
  {
    match (e1, e2)
    case (Not(a), Not(b)) => ExprEqSymmetric(a, b);
    case (Bin(o, _, _), Bin(o2, _, _)) => if o == o2 { CancelSwapped(o, e1, e2); }
    case _ =>
  }

  // ---------------------------------------------------------------- without constant operands

  /** No && or ||, below negations or not, has y or n as an operand. */
  predicate ConstFree(e: Expr) {
    match e
    case Not(a) => ConstFree(a)
    case Bin(_, l, r) => !Constant(l) && !Constant(r) && ConstFree(l) && ConstFree(r)
    case _ => true
  }

  /** How many operands of the chain are equal to `x`. */
  function Count(o: Op, e: Expr, x: Expr): nat {
    if e.Is(o) then Count(o, e.left, x) + Count(o, e.right, x) else if ExprEq(e, x) then 1 else 0
  }

  /** The operands of a chain from which some have been cancelled; `n` bounds their size. */
  predicate Pieces(o: Op, e: Expr, n: nat) {
    if e.Is(o) then Pieces(o, e.left, n) && Pieces(o, e.right, n)
    else ConstFree(e) && e != o.Zero() && Size(e) <= n
  }

  predicate AllUnits(o: Op, e: Expr) {
    if e.Is(o) then AllUnits(o, e.left) && AllUnits(o, e.right) else e == o.Unit()
  }

  predicate IsOperand(e: Expr, n: nat) { ConstFree(e) && !Constant(e) && Size(e) <= n }

  lemma {:induction false} PiecesWithin(o: Op, e: Expr, n: nat)
    requires ConstFree(e) && !Constant(e) && Size(e) <= n
    ensures Pieces(o, e, n)
  {
    if e.Is(o) {
      PiecesWithin(o, e.left, n);
      PiecesWithin(o, e.right, n);
    }
  }

  /** Cancelling takes equally many operands of each kind from both chains. */
  lemma {:induction false} CancelCounts(o: Op, e1: Expr, e2: Expr, x: Expr, n: nat)
    requires Pieces(o, e1, n) && Pieces(o, e2, n) && IsOperand(x, n)
    ensures var (r1, r2) := Cancel(o, e1, e2);
      && Pieces(o, r1, n) && Pieces(o, r2, n)
      && Count(o, e1, x) + Count(o, r2, x) == Count(o, e2, x) + Count(o, r1, x)
    decreases n, Size(e1) + Size(e2), if e1.Is(o) || e2.Is(o) then 0 else 1
  {
    if e1.Is(o) {
      CancelCounts(o, e1.left, e2, x, n);
      CancelCounts(o, e1.right, Cancel(o, e1.left, e2).1, x, n);
    } else if e2.Is(o) {
      CancelCounts(o, e1, e2.left, x, n);
      CancelCounts(o, Cancel(o, e1, e2.left).0, e2.right, x, n);
    } else if ExprEq(e1, e2) && e1 != e2 {
      ExprEqSymmetric(e1, e2);
      if ExprEq(e1, x) { ExprEqTransitive(e2, e1, x, n); }
      if ExprEq(e2, x) { ExprEqTransitive(e1, e2, x, n); }
    }
  }

  /** No operand of the one is equal to an operand of the other, constants aside. */
  predicate Apart(o: Op, a: Expr, b: Expr)
    decreases Size(a) + Size(b)
  {
    if a.Is(o) then Apart(o, a.left, b) && Apart(o, a.right, b)
    else if b.Is(o) then Apart(o, a, b.left) && Apart(o, a, b.right)
    else Constant(a) || !ExprEq(a, b)
  }

  /** Some operands have given way to the unit. */
  predicate Reduced(o: Op, e: Expr, r: Expr) {
    if e.Is(o) then r.Is(o) && Reduced(o, e.left, r.left) && Reduced(o, e.right, r.right)
    else r == e || r == o.Unit()
  }

  lemma {:induction false} ReducedItself(o: Op, e: Expr)
    ensures Reduced(o, e, e)
  {
    if e.Is(o) {
      ReducedItself(o, e.left);
      ReducedItself(o, e.right);
    }
  }

  lemma {:induction false} ReducedTwice(o: Op, a: Expr, b: Expr, c: Expr)
    requires Reduced(o, a, b) && Reduced(o, b, c)
    ensures Reduced(o, a, c)
  {
    if a.Is(o) {
      ReducedTwice(o, a.left, b.left, c.left);
      ReducedTwice(o, a.right, b.right, c.right);
    }
  }

  lemma {:induction false} StillApart(o: Op, a: Expr, b: Expr, b': Expr)
    requires Apart(o, a, b) && Reduced(o, b, b')
    ensures Apart(o, a, b')
    decreases Size(a) + Size(b)
  {
    if a.Is(o) {
      StillApart(o, a.left, b, b');
      StillApart(o, a.right, b, b');
    } else if b.Is(o) {
      StillApart(o, a, b.left, b'.left);
      StillApart(o, a, b.right, b'.right);
    } else {
      ConstantEqual(a, o.Unit());
    }
  }

  lemma {:induction false} CancelLeavesApart(o: Op, e1: Expr, e2: Expr)
    ensures var (r1, r2) := Cancel(o, e1, e2); Apart(o, r1, r2) && Reduced(o, e1, r1) && Reduced(o, e2, r2)
    decreases Size(e1) + Size(e2)
  {
    if e1.Is(o) {
      var (l, e2a) := Cancel(o, e1.left, e2);
      var (r, e2b) := Cancel(o, e1.right, e2a);
      CancelLeavesApart(o, e1.left, e2);
      CancelLeavesApart(o, e1.right, e2a);
      StillApart(o, l, e2a, e2b);
      ReducedTwice(o, e2, e2a, e2b);
    } else if e2.Is(o) {
      var (e1a, l) := Cancel(o, e1, e2.left);
      var (e1b, r) := Cancel(o, e1a, e2.right);
      CancelLeavesApart(o, e1, e2.left);
      CancelLeavesApart(o, e1a, e2.right);
      if e1b != e1a { CancelConstant(o, o.Unit(), e2.left); UnitApart(o, l); }
    } else {
      ReducedItself(o, e1);
      ReducedItself(o, e2);
    }
  }

  lemma {:induction false} UnitApart(o: Op, e: Expr)
    ensures Apart(o, o.Unit(), e)
  {
    if e.Is(o) {
      UnitApart(o, e.left);
      UnitApart(o, e.right);
    }
  }

  lemma {:induction false} ExprEqTransitive(a: Expr, b: Expr, c: Expr, n: nat)
    requires ConstFree(a) && ConstFree(b) && ConstFree(c)
    requires Size(a) <= n && Size(b) <= n && Size(c) <= n && ExprEq(a, b) && ExprEq(b, c)
    ensures ExprEq(a, c)
    decreases n, 0
  {
    match (a, b, c)
    case (Not(x), Not(y), Not(z)) => ExprEqTransitive(x, y, z, n - 1);
    case (Bin(o, _, _), Bin(_, _, _), Bin(_, _, _)) =>
      forall x | IsOperand(x, n - 1) ensures Count(o, a, x) == Count(o, c, x) {
        EqualCounts(o, a, b, x, n - 1);
        EqualCounts(o, b, c, x, n - 1);
      }
      CountsEqual(o, a, c, n - 1);
    case _ =>
  }

  lemma {:induction false} WithinBound(o: Op, e: Expr, n: nat)
    requires ConstFree(e) && e.Is(o) && Size(e) <= n + 1
    ensures Pieces(o, e, n)
  {
    PiecesWithin(o, e.left, n);
    PiecesWithin(o, e.right, n);
  }

  lemma {:induction false} ConstFreeStays(e: Expr)
    requires ConstFree(e)
    ensures EliminateYn(e) == e
  {
    match e
    case Bin(_, l, r) => ConstFreeStays(l); ConstFreeStays(r);
    case _ =>
  }

  /** What is left of a chain is the unit if everything has been cancelled, and a symbol only if that is left. */
  lemma {:induction false} LeftOver(o: Op, e: Expr, n: nat)
    requires Pieces(o, e, n)
    ensures EliminateYn(e) == o.Unit() <==> AllUnits(o, e)
    ensures EliminateYn(e) != o.Zero()
    ensures EliminateYn(e).Var? && !AllUnits(o, e) ==>
              IsOperand(EliminateYn(e), n) && Count(o, e, EliminateYn(e)) > 0
  {
    if e.Is(o) {
      LeftOver(o, e.left, n);
      LeftOver(o, e.right, n);
    } else {
      ConstFreeStays(e);
    }
  }

  lemma {:induction false} UnitsCountNothing(o: Op, e: Expr, x: Expr)
    requires AllUnits(o, e) && !Constant(x)
    ensures Count(o, e, x) == 0
  {
    if e.Is(o) {
      UnitsCountNothing(o, e.left, x);
      UnitsCountNothing(o, e.right, x);
    }
  }

  /** Chains that stand apart have no operand in common. */
  lemma {:induction false} NothingInCommon(o: Op, a: Expr, b: Expr, x: Expr, n: nat)
    requires Apart(o, a, b) && Pieces(o, a, n) && Pieces(o, b, n) && IsOperand(x, n)
    ensures Count(o, a, x) == 0 || Count(o, b, x) == 0
    decreases n, Size(a) + Size(b), 2
  {
    if a.Is(o) {
      NothingInCommon(o, a.left, b, x, n);
      NothingInCommon(o, a.right, b, x, n);
    } else if b.Is(o) {
      NothingInCommon(o, a, b.left, x, n);
      NothingInCommon(o, a, b.right, x, n);
    } else if ExprEq(a, x) && ExprEq(b, x) {
      ExprEqSymmetric(b, x);
      ExprEqTransitive(a, x, b, n);
    }
  }

  lemma {:induction false} SomeOperand(o: Op, e: Expr, n: nat) returns (x: Expr)
    requires Pieces(o, e, n) && !AllUnits(o, e)
    ensures IsOperand(x, n) && Count(o, e, x) > 0
  {
    if e.Is(o) {
      if AllUnits(o, e.left) { x := SomeOperand(o, e.right, n); } else { x := SomeOperand(o, e.left, n); }
    } else {
      x := e;
      ExprEqReflexive(e);
    }
  }

  lemma {:induction false} EqualCounts(o: Op, a: Expr, b: Expr, x: Expr, n: nat)
    requires ConstFree(a) && ConstFree(b) && a.Is(o) && b.Is(o) && Size(a) <= n + 1 && Size(b) <= n + 1
    requires ExprEq(a, b) && IsOperand(x, n)
    ensures Count(o, a, x) == Count(o, b, x)
    decreases n, 2 * n + 5
  {
    var (r1, r2) := Cancel(o, a, b);
    WithinBound(o, a, n);
    WithinBound(o, b, n);
    CancelCounts(o, a, b, x, n);
    CancelLeavesApart(o, a, b);
    LeftOver(o, r1, n);
    LeftOver(o, r2, n);
    if AllUnits(o, r1) {
      UnitsCountNothing(o, r1, x);
      UnitsCountNothing(o, r2, x);
    } else {
      CancelCounts(o, a, b, EliminateYn(r1), n);
      NothingInCommon(o, r1, r2, EliminateYn(r1), n);
    }
  }

  lemma {:induction false} CountsEqual(o: Op, a: Expr, b: Expr, n: nat)
    requires ConstFree(a) && ConstFree(b) && a.Is(o) && b.Is(o) && Size(a) <= n + 1 && Size(b) <= n + 1
    requires forall x :: IsOperand(x, n) ==> Count(o, a, x) == Count(o, b, x)
    ensures ExprEq(a, b)
    decreases n, 2 * n + 5
  {
    var (r1, r2) := Cancel(o, a, b);
    WithinBound(o, a, n);
    WithinBound(o, b, n);
    CancelLeavesApart(o, a, b);
    CancelCounts(o, a, b, Var(Mod), n);
    if !AllUnits(o, r1) {
      var x := SomeOperand(o, r1, n);
      CancelCounts(o, a, b, x, n);
      NothingInCommon(o, r1, r2, x, n);
    }
    if !AllUnits(o, r2) {
      var x := SomeOperand(o, r2, n);
      CancelCounts(o, a, b, x, n);
      NothingInCommon(o, r1, r2, x, n);
    }
    LeftOver(o, r1, n);
    LeftOver(o, r2, n);
  }

  /** Without constant operands, two chains are equal exactly when they are of the same connective and have
      every operand equally often, in whatever order and grouping. */
  lemma ExprEqExactlyWhen(o: Op, a: Expr, b: Expr)
    requires ConstFree(a) && ConstFree(b) && a.Is(o) && b.Is(o)
    ensures ExprEq(a, b) <==> forall x :: ConstFree(x) && !Constant(x) ==> Count(o, a, x) == Count(o, b, x)
  {
    if ExprEq(a, b) {
      forall x | ConstFree(x) && !Constant(x) ensures Count(o, a, x) == Count(o, b, x) {
        EqualCounts(o, a, b, x, Size(a) + Size(b) + Size(x));
      }
    } else if forall x :: ConstFree(x) && !Constant(x) ==> Count(o, a, x) == Count(o, b, x) {
      CountsEqual(o, a, b, Size(a) + Size(b));
    }
  }

  /** So the order of two parts of a chain makes no difference, whatever they are... */
  lemma SwappedPartsEqual(o: Op, a: Expr, b: Expr)
    requires ConstFree(Bin(o, a, b))
    ensures ExprEq(Bin(o, a, b), Bin(o, b, a))
  {
    ExprEqExactlyWhen(o, Bin(o, a, b), Bin(o, b, a));
  }

  /** ... and neither does grouping. */
  lemma RegroupedEqual(o: Op, a: Expr, b: Expr, c: Expr)
    requires ConstFree(Bin(o, a, Bin(o, b, c)))
    ensures ExprEq(Bin(o, Bin(o, a, b), c), Bin(o, a, Bin(o, b, c)))
  {
    ExprEqExactlyWhen(o, Bin(o, Bin(o, a, b), c), Bin(o, a, Bin(o, b, c)));
  }

  /** Two operands that are themselves no chains of the connective may change places with or without
      constants in them. */
  lemma {:induction false} SwappedOperandsEqual(o: Op, a: Expr, b: Expr)
    requires !a.Is(o) && !b.Is(o)
    ensures ExprEq(Bin(o, a, b), Bin(o, b, a))
  {
    var (a1, b1) := Cancel(o, a, b);
    var (a2, a3) := Cancel(o, a1, a);
    assert Cancel(o, a, Bin(o, b, a)) == (a2, Bin(o, b1, a3));
    var (b2, b3) := Cancel(o, b, b1);
    var (b4, a4) := Cancel(o, b2, a3);
    assert Cancel(o, b, Bin(o, b1, a3)) == (b4, Bin(o, b3, a4));
    BothCancelled(o, a, b);
    assert Cancel(o, Bin(o, a, b), Bin(o, b, a)) == (Bin(o, a2, b4), Bin(o, b3, a4));
    AllConstantIsSymbol(o, Bin(o, a2, b4));
    AllConstantIsSymbol(o, Bin(o, b3, a4));
  }

  lemma {:induction false} BothCancelled(o: Op, a: Expr, b: Expr)
    requires !a.Is(o) && !b.Is(o)
    ensures var (a1, b1) := Cancel(o, a, b);
      var (a2, a3) := Cancel(o, a1, a);
      var (b2, b3) := Cancel(o, b, b1);
      var (b4, a4) := Cancel(o, b2, a3);
      Constant(a2) && Constant(b4) && a4 == a2 && b3 == b4
  {
    CancelItself(o, a);
    CancelItself(o, b);
    ExprEqSymmetric(a, b);
    ConstantEqual(o.Unit(), a);
    ConstantEqual(b, o.Unit());
    ConstantEqual(o.Unit(), Cancel(o, a, a).0);
  }

  lemma CancelOperands(o: Op, x: Expr, y: Expr)
    requires !x.Is(o) && !y.Is(o) && !Constant(x)
    ensures Cancel(o, x, y) == if ExprEq(x, y) then (o.Unit(), o.Unit()) else (x, y)
  {
  }

  /** One operand against two. */
  lemma CancelOneOfTwo(o: Op, x: Expr, y: Expr, z: Expr)
    requires !x.Is(o) && !y.Is(o) && !z.Is(o) && !Constant(x)
    ensures Cancel(o, x, Bin(o, y, z)) ==
              if ExprEq(x, y) then (o.Unit(), Bin(o, o.Unit(), z))
              else if ExprEq(x, z) then (o.Unit(), Bin(o, y, o.Unit()))
              else (x, Bin(o, y, z))
  {
    CancelOperands(o, x, y);
    CancelOperands(o, x, z);
    CancelConstant(o, o.Unit(), z);
  }

  /** With constants in them, parts may not: V, V2 and V3 below are equal in turn, but the first is not equal
      to the third. */
  lemma {:induction false} ChainsWithConstants(a: Expr, b: Expr, va: Expr, vb: Expr)
    requires a.Var? && b.Var? && !Constant(a) && !Constant(b) && a != b
    requires va == Bin(And, a, Var(Yes)) && vb == Bin(And, b, Var(Yes))
    ensures ExprEq(Bin(Or, va, vb), Bin(Or, va, b)) && ExprEq(Bin(Or, va, b), Bin(Or, a, b))
    ensures !ExprEq(Bin(Or, va, vb), Bin(Or, a, b))
  {
    var v1, v2, v3, no := Bin(Or, va, vb), Bin(Or, va, b), Bin(Or, a, b), Var(No);
    ExprEqReflexive(va);
    assert EliminateYn(va) == a && EliminateYn(vb) == b;
    assert Cancel(And, va, vb) == (va, vb) by {
      CancelOneOfTwo(And, a, b, Var(Yes));
      CancelConstant(And, Var(Yes), vb);
    }
    assert EliminateEq(va, vb) == (a, b);
    assert Cancel(Or, v1, v2) == (Bin(Or, no, vb), Bin(Or, no, b)) by {
      CancelOneOfTwo(Or, va, va, b);
      CancelOneOfTwo(Or, vb, no, b);
    }
    assert EliminateYn(Bin(Or, no, vb)) == b && EliminateYn(Bin(Or, no, b)) == b;
    assert EliminateEq(v1, v2) == (b, b);
    assert Cancel(Or, v2, v3) == (Bin(Or, va, no), Bin(Or, a, no)) by {
      CancelOneOfTwo(Or, va, a, b);
      CancelOneOfTwo(Or, b, a, b);
    }
    assert EliminateYn(Bin(Or, va, no)) == a && EliminateYn(Bin(Or, a, no)) == a;
    assert EliminateEq(v2, v3) == (a, a);
    assert Cancel(Or, v1, v3) == (v1, v3) by {
      CancelOneOfTwo(Or, va, a, b);
      CancelOneOfTwo(Or, vb, a, b);
    }
    assert EliminateEq(v1, v3).0 == v3;
  }

  /** So which operands are paired depends on the order, and with it whether any are left. */
  lemma {:induction false} SwappedPartsUnequal(a: Symbol, b: Symbol)
    requires !a.Literal() && !b.Literal() && a != b
    ensures var va, vb := Bin(And, Var(a), Var(Yes)), Bin(And, Var(b), Var(Yes));
      var v1, v2, v3 := Bin(Or, va, vb), Bin(Or, va, Var(b)), Bin(Or, Var(a), Var(b));
      var parts := Bin(And, v2, v3);
      !ExprEq(Bin(And, v1, parts), Bin(And, parts, v1))
  {
    var yes, va, vb := Var(Yes), Bin(And, Var(a), Var(Yes)), Bin(And, Var(b), Var(Yes));
    ChainsWithConstants(Var(a), Var(b), va, vb);
    var v1, v2, v3 := Bin(Or, va, vb), Bin(Or, va, Var(b)), Bin(Or, Var(a), Var(b));
    UnpairedOperands(v1, v2, v3);
  }

  lemma {:induction false} UnpairedOperands(v1: Expr, v2: Expr, v3: Expr)
    requires v1.Is(Or) && v2.Is(Or) && v3.Is(Or) && ExprEq(v1, v2) && ExprEq(v2, v3) && !ExprEq(v1, v3)
    requires EliminateYn(v3) == v3
    ensures !ExprEq(Bin(And, v1, Bin(And, v2, v3)), Bin(And, Bin(And, v2, v3), v1))
  {
    var yes, parts := Var(Yes), Bin(And, v2, v3);
    var e1, e2 := Bin(And, v1, parts), Bin(And, parts, v1);
    ExprEqSymmetric(v1, v3);
    CancelOneOfTwo(And, v1, v2, v3);
    CancelConstant(And, yes, v1);
    var e2a := Bin(And, Bin(And, yes, v3), v1);
    assert Cancel(And, v1, e2) == (yes, e2a);
    CancelOneOfTwo(And, v2, yes, v3);
    var e2b := Bin(And, Bin(And, yes, yes), v1);
    assert Cancel(And, v2, e2a) == (yes, e2b);
    CancelOneOfTwo(And, v3, yes, yes);
    CancelOperands(And, v3, v1);
    assert Cancel(And, v3, e2b) == (v3, e2b);
    assert Cancel(And, parts, e2a) == (Bin(And, yes, v3), e2b);
    var rest := Bin(And, yes, Bin(And, yes, v3));
    assert Cancel(And, e1, e2) == (rest, e2b);
    assert EliminateYn(rest.right) == v3;
    assert EliminateEq(e1, e2).0 == EliminateYn(rest) == v3;
  }
}
