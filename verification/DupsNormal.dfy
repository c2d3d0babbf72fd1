/** What expr_eliminate_dups of kconfig/expr.c keeps besides values: the normal form of expr_transform,
    and, run again, everything. */
module KconfigDupsNormal {
  import opened Common
  import opened KconfigExpr
  import opened KconfigTransform
  import opened KconfigJoins
  import opened KconfigSpine
  import opened KconfigDups

  lemma {:induction false} AtNormal(o: Op, e: Expr, p: Path)
    requires OnSpine(o, e, p) && Normal(e)
    ensures Normal(At(o, e, p))
  {
    if p != [] { AtNormal(o, Child(e, p[0]), p[1..]); }
  }

  lemma {:induction false} PutNormal(o: Op, e: Expr, p: Path, x: Expr)
    requires OnSpine(o, e, p) && Normal(e) && Normal(x)
    ensures Normal(Put(o, e, p, x))
  {
    if p != [] { PutNormal(o, Child(e, p[0]), p[1..], x); }
  }

  lemma {:induction false} EliminateYnNormal(e: Expr)
    requires Normal(e)
    ensures Normal(EliminateYn(e))
  {
    match e
    case Bin(_, l, r) => EliminateYnNormal(l); EliminateYnNormal(r);
    case _ =>
  }

  /** A join of two tests of a boolean symbol never brings back a comparison with y, m or n. */
  lemma JoinNormal(o: Op, e1: Expr, e2: Expr)
    requires Normal(e1) && Normal(e2) && Join(o, e1, e2).Some?
    ensures Normal(Join(o, e1, e2).value)
  {
  }

  // ---------------------------------------------------------------- expr_eliminate_dups1

  lemma {:induction false} Dups1Normal(o: Op, tree: Expr, p1: Path, p2: Path)
    requires tree.Is(o) && OnSpine(o, tree, p1) && OnSpine(o, tree, p2) && Normal(tree)
    ensures Normal(Dups1(o, tree, p1, p2).0)
    decreases Size(tree), Links(o, At(o, tree, p1)) + Links(o, At(o, tree, p2)), 2
  {
    if At(o, tree, p1).Is(o) {
      Dups1FirstNormal(o, tree, p1, p2);
    } else if At(o, tree, p2).Is(o) {
      Dups1SecondNormal(o, tree, p1, p2);
    } else {
      Dups1OperandsNormal(o, tree, p1, p2);
    }
  }

  lemma {:induction false} Dups1FirstNormal(o: Op, tree: Expr, p1: Path, p2: Path)
    requires tree.Is(o) && OnSpine(o, tree, p1) && OnSpine(o, tree, p2) && At(o, tree, p1).Is(o) && Normal(tree)
    ensures Normal(Dups1First(o, tree, p1, p2).0)
    decreases Size(tree), Links(o, At(o, tree, p1)) + Links(o, At(o, tree, p2)), 1
  {
    BothSides(o, tree, p1);
    var (a, m) := Dups1(o, tree, p1 + [false], p2);
    OtherSide(o, tree, p1, p2, a);
    Dups1Normal(o, tree, p1 + [false], p2);
    Dups1Normal(o, a, p1 + [true], p2);
  }

  lemma {:induction false} Dups1SecondNormal(o: Op, tree: Expr, p1: Path, p2: Path)
    requires tree.Is(o) && OnSpine(o, tree, p1) && OnSpine(o, tree, p2) && At(o, tree, p2).Is(o) && Normal(tree)
    ensures Normal(Dups1Second(o, tree, p1, p2).0)
    decreases Size(tree), Links(o, At(o, tree, p1)) + Links(o, At(o, tree, p2)), 1
  {
    BothSides(o, tree, p2);
    var (a, m) := Dups1(o, tree, p1, p2 + [false]);
    OtherSide(o, tree, p2, p1, a);
    Dups1Normal(o, tree, p1, p2 + [false]);
    Dups1Normal(o, a, p1, p2 + [true]);
  }

  lemma {:induction false} Dups1OperandsNormal(o: Op, tree: Expr, p1: Path, p2: Path)
    requires tree.Is(o) && Leaf(o, tree, p1) && Leaf(o, tree, p2) && Normal(tree)
    ensures Normal(Dups1Operands(o, tree, p1, p2).0)
    decreases Size(tree), 0, 0
  {
    if p1 != p2 {
      var e1 := At(o, tree, p1);
      var (x, n) := Tidied1(o, tree, p1);
      AtNormal(o, tree, p1);
      if e1.Bin? { Dups1Normal(e1.op, e1, [], []); }
      PutOperand(o, tree, p1, x);
      PutElsewhere(o, tree, p1, x, p2);
      PutNormal(o, tree, p1, x);
      var t := Put(o, tree, p1, x);
      AtNormal(o, t, p2);
      var joined := Join(o, x, At(o, t, p2));
      if joined.Some? {
        JoinNormal(o, x, At(o, t, p2));
        MergeNormal(o, t, p1, p2, joined.value);
      }
    }
  }

  lemma {:induction false} MergeNormal(o: Op, e: Expr, p1: Path, p2: Path, x: Expr)
    requires Leaf(o, e, p1) && Leaf(o, e, p2) && p1 != p2 && Normal(e) && Normal(x)
    ensures Normal(Merge(o, e, p1, p2, x))
  {
    PutElsewhere(o, e, p1, o.Unit(), p2);
    PutNormal(o, e, p1, o.Unit());
    PutNormal(o, Put(o, e, p1, o.Unit()), p2, x);
  }

  // ---------------------------------------------------------------- expr_eliminate_dups2

  lemma {:induction false} Dups2Normal(o: Op, tree: Expr, p1: Path, p2: Path)
    requires tree.Is(o) && OnSpine(o, tree, p1) && OnSpine(o, tree, p2) && Normal(tree)
    ensures Normal(Dups2(o, tree, p1, p2).0)
    decreases Size(tree), Links(o, At(o, tree, p1)) + Links(o, At(o, tree, p2)), 1
  {
    if At(o, tree, p1).Is(o) {
      BothSides(o, tree, p1);
      var (a, m) := Dups2(o, tree, p1 + [false], p2);
      OtherSide(o, tree, p1, p2, a);
      Dups2Normal(o, tree, p1 + [false], p2);
      Dups2Normal(o, a, p1 + [true], p2);
    } else if At(o, tree, p2).Is(o) {
      var (a, m) := Dups2Second(o, tree, p1, p2);
      Dups2SecondNormal(o, tree, p1, p2);
      SameSpineAt(o, tree, a, p1);
      SameSpineAt(o, tree, a, p2);
      Dups2OperandNormal(o, a, p1, p2);
    } else {
      Dups2OperandNormal(o, tree, p1, p2);
    }
  }

  lemma {:induction false} Dups2SecondNormal(o: Op, tree: Expr, p1: Path, p2: Path)
    requires tree.Is(o) && OnSpine(o, tree, p1) && OnSpine(o, tree, p2) && At(o, tree, p2).Is(o) && Normal(tree)
    ensures Normal(Dups2Second(o, tree, p1, p2).0)
    decreases Size(tree), Links(o, At(o, tree, p1)) + Links(o, At(o, tree, p2)), 0
  {
    BothSides(o, tree, p2);
    var (a, m) := Dups2(o, tree, p1, p2 + [false]);
    OtherSide(o, tree, p2, p1, a);
    Dups2Normal(o, tree, p1, p2 + [false]);
    Dups2Normal(o, a, p1, p2 + [true]);
  }

  lemma {:induction false} Dups2OperandNormal(o: Op, tree: Expr, p1: Path, p2: Path)
    requires tree.Is(o) && Leaf(o, tree, p1) && OnSpine(o, tree, p2) && Normal(tree)
    ensures Normal(Dups2Operand(o, tree, p1, p2).0)
    decreases Size(tree), 0, 0
  {
    var e1 := At(o, tree, p1);
    if p1 != p2 && e1.Bin? {
      var (x, n) := Tidied2(o, tree, p1);
      AtNormal(o, tree, p1);
      if p1 != [] { Dups2Normal(e1.op, e1, [], []); }
      PutOperand(o, tree, p1, x);
      PutNormal(o, tree, p1, x);
      PutNormal(o, Put(o, tree, p1, x), p1, o.Zero());
    }
  }

  // ---------------------------------------------------------------- expr_eliminate_dups

  lemma {:induction false} RoundNormal(e: Expr)
    requires Normal(e)
    ensures Normal(Round(e).0)
  {
    if e.Bin? {
      Dups1Normal(e.op, e, [], []);
      Dups2Normal(e.op, Dups1(e.op, e, [], []).0, [], []);
    }
  }

  /** Removing duplicates keeps the normal form. */
  lemma {:induction false} EliminateDupsNormal(e: Expr)
    requires Normal(e)
    ensures Normal(EliminateDups(e))
    decreases Size(e)
  {
    RoundExact(e);
    RoundNormal(e);
    var (r, n) := Round(e);
    if n > 0 {
      EliminateYnNormal(r);
      EliminateDupsNormal(EliminateYn(r));
    }
  }

  /** Its result is a fixpoint: a second run changes nothing. */
  lemma {:induction false} EliminateDupsIdempotent(e: Expr)
    ensures EliminateDups(EliminateDups(e)) == EliminateDups(e)
    decreases Size(e)
  {
    RoundExact(e);
    var (r, n) := Round(e);
    if n > 0 { EliminateDupsIdempotent(EliminateYn(r)); }
  }
}
