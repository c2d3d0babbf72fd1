/** Removing duplicate operands (expr_eliminate_dups1, expr_eliminate_dups2 and expr_eliminate_dups
    of kconfig/expr.c). */
module KconfigDups {
  import opened Common
  import opened KconfigExpr
  import opened KconfigTransform
  import opened KconfigEliminateEq
  import opened KconfigJoins
  import opened KconfigSpine

  /** No two operands of one chain can be joined, nor two operands of any chain that is itself an
      operand. The inside of a negation is not looked at. */
  ghost predicate Clean(e: Expr)
    decreases Size(e)
  {
    e.Bin? ==> CleanPairs(e.op, e, [], [])
  }

  /** The same for the operand pairs below two slots of one chain. */
  ghost predicate CleanPairs(o: Op, e: Expr, p1: Path, p2: Path)
    requires e.Is(o)
    decreases Size(e), 0
  {
    forall q1, q2 {:trigger Leaf(o, e, q1), Leaf(o, e, q2)} ::
      Leaf(o, e, q1) && Leaf(o, e, q2) && q1 != q2 && p1 <= q1 && p2 <= q2 ==>
        NotJoinable(o, e, q1, q2)
  }

  ghost predicate NotJoinable(o: Op, e: Expr, q1: Path, q2: Path)
    requires e.Is(o) && Leaf(o, e, q1) && Leaf(o, e, q2)
    decreases Size(e), 0, 0
  {
    Join(o, At(o, e, q1), At(o, e, q2)) == None && Clean(At(o, e, q1))
  }

  /** A leaf below a slot that is itself a link of the chain lies below one of its two sides. */
  lemma {:induction false} LeafBelow(o: Op, e: Expr, p: Path, q: Path)
    requires OnSpine(o, e, p) && e.Is(o) && At(o, e, p).Is(o) && Leaf(o, e, q) && p <= q
    ensures |p| < |q| && p + [q[|p|]] <= q
  {
    assert p != q && q[..|p|] == p;
    assert q[..|p| + 1] == p + [q[|p|]];
  }

  lemma {:induction false} CleanPairsSplit(o: Op, e: Expr, p1: Path, p2: Path, first: bool)
    requires OnSpine(o, e, p1) && OnSpine(o, e, p2) && e.Is(o)
    requires if first then At(o, e, p1).Is(o) else At(o, e, p2).Is(o)
    requires forall d {:trigger [d]} :: if first then CleanPairs(o, e, p1 + [d], p2) else CleanPairs(o, e, p1, p2 + [d])
    ensures CleanPairs(o, e, p1, p2)
  {
    forall q1, q2 | Leaf(o, e, q1) && Leaf(o, e, q2) && q1 != q2 && p1 <= q1 && p2 <= q2
      ensures NotJoinable(o, e, q1, q2)
    {
      if first {
        LeafBelow(o, e, p1, q1);
        var d: bool := q1[|p1|];
        assert CleanPairs(o, e, p1 + [d], p2);
      } else {
        LeafBelow(o, e, p2, q2);
        var d: bool := q2[|p2|];
        assert CleanPairs(o, e, p1, p2 + [d]);
      }
    }
  }

  /** No two operands of a clean chain are equal by expr_eq. */
  lemma CleanHasNoEqualOperands(o: Op, e: Expr, q1: Path, q2: Path)
    requires Clean(e) && e.Is(o) && Leaf(o, e, q1) && Leaf(o, e, q2) && q1 != q2
    ensures !ExprEq(At(o, e, q1), At(o, e, q2))
  {
    assert NotJoinable(o, e, q1, q2);
  }

  lemma OnlyPair(o: Op, e: Expr, p1: Path, p2: Path)
    requires e.Is(o) && Leaf(o, e, p1) && Leaf(o, e, p2)
    ensures p1 == p2 || NotJoinable(o, e, p1, p2) ==> CleanPairs(o, e, p1, p2)
  {
    forall q1, q2 | Leaf(o, e, q1) && Leaf(o, e, q2) && q1 != q2 && p1 <= q1 && p2 <= q2
      ensures q1 == p1 && q2 == p2
    {
      LeavesDiverge(o, e, p1, q1);
      LeavesDiverge(o, e, p2, q2);
    }
  }

  /** Putting back a rewritten operand. */
  lemma PutOperand(o: Op, e: Expr, p: Path, x: Expr)
    requires Leaf(o, e, p) && !x.Is(o) && Size(x) <= Size(At(o, e, p))
    ensures var t := Put(o, e, p, x);
      && SameSpine(o, e, t) && Size(t) <= Size(e) && Leaf(o, t, p) && At(o, t, p) == x
      && (Equiv(At(o, e, p), x) ==> Equiv(e, t))
      && (Sharpens(At(o, e, p), x) ==> Sharpens(e, t))
      && (HasConstantOperand(x) ==> HasConstantOperand(t))
      && (x == At(o, e, p) ==> t == e)
  {
    var t := Put(o, e, p, x);
    PutKeepsSpine(o, e, p, x);
    PutKeepsConstant(o, e, p, x);
    forall env: Env | WellFormed(env)
      ensures Equiv(At(o, e, p), x) ==> Val(e, env) == Val(t, env)
      ensures Sharpens(At(o, e, p), x) && Val(e, env) != MOD ==> Val(t, env) == Val(e, env)
    {
      if Equiv(At(o, e, p), x) { PutSame(o, e, p, x, env); }
      if Sharpens(At(o, e, p), x) { PutSharper(o, e, p, x, env); }
    }
  }

  lemma {:induction false} PutKeepsConstant(o: Op, e: Expr, p: Path, x: Expr)
    requires OnSpine(o, e, p)
    ensures HasConstantOperand(x) ==> HasConstantOperand(Put(o, e, p, x))
    ensures x == At(o, e, p) ==> Put(o, e, p, x) == e
  {
    if p != [] { PutKeepsConstant(o, Child(e, p[0]), p[1..], x); }
  }

  /** Operand `p1` gives way to the unit and operand `p2` to the joined expression. */
  function Merge(o: Op, e: Expr, p1: Path, p2: Path, x: Expr): Expr
    requires Leaf(o, e, p1) && Leaf(o, e, p2) && p1 != p2
  {
    PutElsewhere(o, e, p1, o.Unit(), p2);
    Put(o, Put(o, e, p1, o.Unit()), p2, x)
  }

  lemma MergeExact(o: Op, e: Expr, p1: Path, p2: Path)
    requires Leaf(o, e, p1) && Leaf(o, e, p2) && p1 != p2
    requires Join(o, At(o, e, p1), At(o, e, p2)).Some?
    ensures var t := Merge(o, e, p1, p2, Join(o, At(o, e, p1), At(o, e, p2)).value);
      SameSpine(o, e, t) && Equiv(e, t) && Size(t) <= Size(e) && HasConstantOperand(t)
  {
    var x := Join(o, At(o, e, p1), At(o, e, p2)).value;
    var u := o.Unit();
    var mid := Put(o, e, p1, u);
    var t := Merge(o, e, p1, p2, x);
    if p1 == [] { LeavesDiverge(o, e, p1, p2); }
    PutElsewhere(o, e, p1, u, p2);
    PutKeepsSpine(o, e, p1, u);
    PutKeepsSpine(o, mid, p2, x);
    SameSpineTrans(o, e, mid, t);
    // The unit that replaced operand p1 is still there.
    PutElsewhere(o, mid, p2, x, p1);
    HasConstantAt(o, t, p1);
    forall env: Env | WellFormed(env) ensures Val(e, env) == Val(t, env) {
      JoinExact(o, At(o, e, p1), At(o, e, p2), env);
      PutMerged(o, e, p1, p2, x, env);
    }
  }

  // ---------------------------------------------------------------- expr_eliminate_dups1

  /** The chain after the comparison of the operands below slot `p1` with those below slot `p2`, and the
      number of rewrites. */
  function Dups1(o: Op, tree: Expr, p1: Path, p2: Path): (r: (Expr, nat))
    requires tree.Is(o) && OnSpine(o, tree, p1) && OnSpine(o, tree, p2)
    ensures SameSpine(o, tree, r.0) && Size(r.0) <= Size(tree)
    decreases Size(tree), Links(o, At(o, tree, p1)) + Links(o, At(o, tree, p2)), 2
  {
    if At(o, tree, p1).Is(o) then Dups1First(o, tree, p1, p2)
    else if At(o, tree, p2).Is(o) then Dups1Second(o, tree, p1, p2)
    else Dups1Operands(o, tree, p1, p2)
  }

  /** The first slot holds a link of the chain: its two sides, one after the other. */
  function Dups1First(o: Op, tree: Expr, p1: Path, p2: Path): (r: (Expr, nat))
    requires tree.Is(o) && OnSpine(o, tree, p1) && OnSpine(o, tree, p2) && At(o, tree, p1).Is(o)
    ensures SameSpine(o, tree, r.0) && Size(r.0) <= Size(tree)
    decreases Size(tree), Links(o, At(o, tree, p1)) + Links(o, At(o, tree, p2)), 1
  {
    BothSides(o, tree, p1);
    var (a, m) := Dups1(o, tree, p1 + [false], p2);
    OtherSide(o, tree, p1, p2, a);
    var (b, n) := Dups1(o, a, p1 + [true], p2);
    SameSpineTrans(o, tree, a, b);
    (b, m + n)
  }

  function Dups1Second(o: Op, tree: Expr, p1: Path, p2: Path): (r: (Expr, nat))
    requires tree.Is(o) && OnSpine(o, tree, p1) && OnSpine(o, tree, p2) && At(o, tree, p2).Is(o)
    ensures SameSpine(o, tree, r.0) && Size(r.0) <= Size(tree)
    decreases Size(tree), Links(o, At(o, tree, p1)) + Links(o, At(o, tree, p2)), 1
  {
    BothSides(o, tree, p2);
    var (a, m) := Dups1(o, tree, p1, p2 + [false]);
    OtherSide(o, tree, p2, p1, a);
    var (b, n) := Dups1(o, a, p1, p2 + [true]);
    SameSpineTrans(o, tree, a, b);
    (b, m + n)
  }

  lemma BothSides(o: Op, e: Expr, p: Path)
    requires OnSpine(o, e, p) && At(o, e, p).Is(o)
    ensures OnSpine(o, e, p + [false]) && At(o, e, p + [false]) == At(o, e, p).left
    ensures OnSpine(o, e, p + [true]) && At(o, e, p + [true]) == At(o, e, p).right
  {
    Descend(o, e, p, false);
    Descend(o, e, p, true);
  }

  lemma OtherSide(o: Op, e: Expr, p: Path, q: Path, a: Expr)
    requires e.Is(o) && OnSpine(o, e, p) && At(o, e, p).Is(o) && OnSpine(o, e, q) && SameSpine(o, e, a)
    ensures OnSpine(o, e, p + [true]) && a.Is(o) && OnSpine(o, a, p + [true]) && OnSpine(o, a, q)
    ensures Links(o, At(o, a, p + [true])) == Links(o, At(o, e, p + [true])) < Links(o, At(o, e, p))
    ensures Links(o, At(o, a, q)) == Links(o, At(o, e, q))
    ensures At(o, a, q).Is(o) == At(o, e, q).Is(o)
  {
    Descend(o, e, p, true);
    SameSpineAt(o, e, a, p + [true]);
    SameSpineAt(o, e, a, q);
  }

  /** An operand that is itself a chain, of the other connective, is compared within itself first. */
  function Tidied1(o: Op, tree: Expr, p1: Path): (r: (Expr, nat))
    requires tree.Is(o) && Leaf(o, tree, p1)
    ensures !r.0.Is(o) && Size(r.0) <= Size(At(o, tree, p1)) < Size(tree)
    decreases Size(tree), 0, 0
  {
    var e1 := At(o, tree, p1);
    if e1.Bin? then Dups1(e1.op, e1, [], []) else (e1, 0)
  }

  /** The slots address operands: tidy the first, then try to join the two. */
  function Dups1Operands(o: Op, tree: Expr, p1: Path, p2: Path): (r: (Expr, nat))
    requires tree.Is(o) && Leaf(o, tree, p1) && Leaf(o, tree, p2)
    ensures SameSpine(o, tree, r.0) && Size(r.0) <= Size(tree)
    decreases Size(tree), 0, 1
  {
    SameSpineRefl(o, tree);
    if p1 == p2 then (tree, 0)
    else
      var (x, n) := Tidied1(o, tree, p1);
      PutOperand(o, tree, p1, x);
      PutElsewhere(o, tree, p1, x, p2);
      var t := Put(o, tree, p1, x);
      var joined := Join(o, x, At(o, t, p2));
      if joined.None? then (t, n)
      else
        MergeExact(o, t, p1, p2);
        SameSpineTrans(o, tree, t, Merge(o, t, p1, p2, joined.value));
        (Merge(o, t, p1, p2, joined.value), n + 1)
  }

  /** What one pass achieves: the value is kept; if it rewrites nothing the operands it has compared
      cannot be joined, and if it rewrites something a constant operand stands in the chain. */
  ghost predicate Passed1(o: Op, tree: Expr, p1: Path, p2: Path, t: Expr, n: nat)
    requires tree.Is(o)
  {
    && Equiv(tree, t) && (n == 0 ==> t == tree && CleanPairs(o, tree, p1, p2))
    && (n > 0 ==> HasConstantOperand(t))
  }

  lemma {:induction false} Dups1Exact(o: Op, tree: Expr, p1: Path, p2: Path)
    requires tree.Is(o) && OnSpine(o, tree, p1) && OnSpine(o, tree, p2)
    ensures Passed1(o, tree, p1, p2, Dups1(o, tree, p1, p2).0, Dups1(o, tree, p1, p2).1)
    decreases Size(tree), Links(o, At(o, tree, p1)) + Links(o, At(o, tree, p2)), 2
  {
    if At(o, tree, p1).Is(o) {
      Dups1FirstExact(o, tree, p1, p2);
    } else if At(o, tree, p2).Is(o) {
      Dups1SecondExact(o, tree, p1, p2);
    } else {
      Dups1OperandsExact(o, tree, p1, p2);
    }
  }

  lemma {:induction false} Dups1FirstExact(o: Op, tree: Expr, p1: Path, p2: Path)
    requires tree.Is(o) && OnSpine(o, tree, p1) && OnSpine(o, tree, p2) && At(o, tree, p1).Is(o)
    ensures Passed1(o, tree, p1, p2, Dups1First(o, tree, p1, p2).0, Dups1First(o, tree, p1, p2).1)
    decreases Size(tree), Links(o, At(o, tree, p1)) + Links(o, At(o, tree, p2)), 1
  {
    BothSides(o, tree, p1);
    var (a, m) := Dups1(o, tree, p1 + [false], p2);
    OtherSide(o, tree, p1, p2, a);
    var (b, n) := Dups1(o, a, p1 + [true], p2);
    Dups1Exact(o, tree, p1 + [false], p2);
    Dups1Exact(o, a, p1 + [true], p2);
    if m + n == 0 {
      forall d: bool ensures CleanPairs(o, tree, p1 + [d], p2) { assert d || !d; }
      CleanPairsSplit(o, tree, p1, p2, true);
    }
  }

  lemma {:induction false} Dups1SecondExact(o: Op, tree: Expr, p1: Path, p2: Path)
    requires tree.Is(o) && OnSpine(o, tree, p1) && OnSpine(o, tree, p2) && At(o, tree, p2).Is(o)
    ensures Passed1(o, tree, p1, p2, Dups1Second(o, tree, p1, p2).0, Dups1Second(o, tree, p1, p2).1)
    decreases Size(tree), Links(o, At(o, tree, p1)) + Links(o, At(o, tree, p2)), 1
  {
    BothSides(o, tree, p2);
    var (a, m) := Dups1(o, tree, p1, p2 + [false]);
    OtherSide(o, tree, p2, p1, a);
    var (b, n) := Dups1(o, a, p1, p2 + [true]);
    Dups1Exact(o, tree, p1, p2 + [false]);
    Dups1Exact(o, a, p1, p2 + [true]);
    if m + n == 0 {
      forall d: bool ensures CleanPairs(o, tree, p1, p2 + [d]) { assert d || !d; }
      CleanPairsSplit(o, tree, p1, p2, false);
    }
  }

  lemma {:induction false} Dups1OperandsExact(o: Op, tree: Expr, p1: Path, p2: Path)
    requires tree.Is(o) && Leaf(o, tree, p1) && Leaf(o, tree, p2)
    ensures Passed1(o, tree, p1, p2, Dups1Operands(o, tree, p1, p2).0, Dups1Operands(o, tree, p1, p2).1)
    decreases Size(tree), 0, 0
  {
    OnlyPair(o, tree, p1, p2);
    if p1 != p2 {
      var e1 := At(o, tree, p1);
      var (x, n) := Tidied1(o, tree, p1);
      if e1.Bin? { Dups1Exact(e1.op, e1, [], []); }
      PutOperand(o, tree, p1, x);
      PutElsewhere(o, tree, p1, x, p2);
      var t := Put(o, tree, p1, x);
      if Join(o, x, At(o, t, p2)).Some? {
        MergeExact(o, t, p1, p2);
      } else if n == 0 {
        assert Clean(e1) && NotJoinable(o, tree, p1, p2);
      }
    }
  }

  // ---------------------------------------------------------------- expr_eliminate_dups2

  function Dups2(o: Op, tree: Expr, p1: Path, p2: Path): (r: (Expr, nat))
    requires tree.Is(o) && OnSpine(o, tree, p1) && OnSpine(o, tree, p2)
    ensures SameSpine(o, tree, r.0) && Size(r.0) <= Size(tree)
    decreases Size(tree), Links(o, At(o, tree, p1)) + Links(o, At(o, tree, p2)), 2
  {
    if At(o, tree, p1).Is(o) then Dups2First(o, tree, p1, p2)
    else
      var (a, m) := if At(o, tree, p2).Is(o) then Dups2Second(o, tree, p1, p2) else (tree, 0);
      if !At(o, tree, p2).Is(o) then SameSpineRefl(o, tree); Dups2Operand(o, tree, p1, p2)
      else
        // The source goes on here with the whole chain as the second operand.
        SameSpineAt(o, tree, a, p1);
        SameSpineAt(o, tree, a, p2);
        var (b, n) := Dups2Operand(o, a, p1, p2);
        SameSpineTrans(o, tree, a, b);
        (b, m + n)
  }

  function Dups2First(o: Op, tree: Expr, p1: Path, p2: Path): (r: (Expr, nat))
    requires tree.Is(o) && OnSpine(o, tree, p1) && OnSpine(o, tree, p2) && At(o, tree, p1).Is(o)
    ensures SameSpine(o, tree, r.0) && Size(r.0) <= Size(tree)
    decreases Size(tree), Links(o, At(o, tree, p1)) + Links(o, At(o, tree, p2)), 1
  {
    BothSides(o, tree, p1);
    var (a, m) := Dups2(o, tree, p1 + [false], p2);
    OtherSide(o, tree, p1, p2, a);
    var (b, n) := Dups2(o, a, p1 + [true], p2);
    SameSpineTrans(o, tree, a, b);
    (b, m + n)
  }

  function Dups2Second(o: Op, tree: Expr, p1: Path, p2: Path): (r: (Expr, nat))
    requires tree.Is(o) && OnSpine(o, tree, p1) && OnSpine(o, tree, p2) && At(o, tree, p2).Is(o)
    ensures SameSpine(o, tree, r.0) && Size(r.0) <= Size(tree)
    decreases Size(tree), Links(o, At(o, tree, p1)) + Links(o, At(o, tree, p2)), 1
  {
    BothSides(o, tree, p2);
    var (a, m) := Dups2(o, tree, p1, p2 + [false]);
    OtherSide(o, tree, p2, p1, a);
    var (b, n) := Dups2(o, a, p1, p2 + [true]);
    SameSpineTrans(o, tree, a, b);
    (b, m + n)
  }

  function Tidied2(o: Op, tree: Expr, p1: Path): (r: (Expr, nat))
    requires tree.Is(o) && Leaf(o, tree, p1)
    ensures !r.0.Is(o) && Size(r.0) <= Size(At(o, tree, p1)) < Size(tree)
    decreases Size(tree), 0, 0
  {
    var e1 := At(o, tree, p1);
    if e1.Bin? then Dups2(e1.op, e1, [], []) else (e1, 0)
  }

  /** An operand that is a chain of the other connective is tidied, and goes if it contradicts the
      second slot. */
  function Dups2Operand(o: Op, tree: Expr, p1: Path, p2: Path): (r: (Expr, nat))
    requires tree.Is(o) && Leaf(o, tree, p1) && OnSpine(o, tree, p2)
    ensures SameSpine(o, tree, r.0) && Size(r.0) <= Size(tree)
    decreases Size(tree), 0, 1
  {
    SameSpineRefl(o, tree);
    if p1 == p2 || !At(o, tree, p1).Bin? then (tree, 0)
    else
      var (x, n) := Tidied2(o, tree, p1);
      PutOperand(o, tree, p1, x);
      var t := Put(o, tree, p1, x);
      SameSpineAt(o, tree, t, p2);
      if !Contradicts(o, x, At(o, t, p2)) then (t, n)
      else
        PutZeroSharpens(o, t, p1, p2);
        SameSpineTrans(o, tree, t, Put(o, t, p1, o.Zero()));
        (Put(o, t, p1, o.Zero()), n + 1)
  }

  /** What the second pass achieves: the value stays where it is n or y. */
  ghost predicate Passed2(tree: Expr, t: Expr, n: nat) {
    Sharpens(tree, t) && (n == 0 ==> t == tree) && (n > 0 ==> HasConstantOperand(t))
  }

  lemma Passed2Twice(e: Expr, a: Expr, m: nat, b: Expr, n: nat)
    requires Passed2(e, a, m) && Passed2(a, b, n)
    ensures Passed2(e, b, m + n)
  {
    forall env: Env | WellFormed(env) && Val(e, env) != MOD ensures Val(b, env) == Val(e, env) {
      assert Val(a, env) == Val(e, env);
    }
  }

  lemma {:induction false} Dups2Exact(o: Op, tree: Expr, p1: Path, p2: Path)
    requires tree.Is(o) && OnSpine(o, tree, p1) && OnSpine(o, tree, p2)
    ensures Passed2(tree, Dups2(o, tree, p1, p2).0, Dups2(o, tree, p1, p2).1)
    decreases Size(tree), Links(o, At(o, tree, p1)) + Links(o, At(o, tree, p2)), 1
  {
    if At(o, tree, p1).Is(o) {
      BothSides(o, tree, p1);
      var (a, m) := Dups2(o, tree, p1 + [false], p2);
      OtherSide(o, tree, p1, p2, a);
      var (b, n) := Dups2(o, a, p1 + [true], p2);
      Dups2Exact(o, tree, p1 + [false], p2);
      Dups2Exact(o, a, p1 + [true], p2);
      Passed2Twice(tree, a, m, b, n);
    } else if At(o, tree, p2).Is(o) {
      var (a, m) := Dups2Second(o, tree, p1, p2);
      Dups2SecondExact(o, tree, p1, p2);
      SameSpineAt(o, tree, a, p1);
      SameSpineAt(o, tree, a, p2);
      var (b, n) := Dups2Operand(o, a, p1, p2);
      Dups2OperandExact(o, a, p1, p2);
      Passed2Twice(tree, a, m, b, n);
    } else {
      Dups2OperandExact(o, tree, p1, p2);
    }
  }

  lemma {:induction false} Dups2SecondExact(o: Op, tree: Expr, p1: Path, p2: Path)
    requires tree.Is(o) && OnSpine(o, tree, p1) && OnSpine(o, tree, p2) && At(o, tree, p2).Is(o)
    ensures Passed2(tree, Dups2Second(o, tree, p1, p2).0, Dups2Second(o, tree, p1, p2).1)
    decreases Size(tree), Links(o, At(o, tree, p1)) + Links(o, At(o, tree, p2)), 0
  {
    BothSides(o, tree, p2);
    var (a, m) := Dups2(o, tree, p1, p2 + [false]);
    OtherSide(o, tree, p2, p1, a);
    var (b, n) := Dups2(o, a, p1, p2 + [true]);
    Dups2Exact(o, tree, p1, p2 + [false]);
    Dups2Exact(o, a, p1, p2 + [true]);
    Passed2Twice(tree, a, m, b, n);
  }

  lemma {:induction false} Dups2OperandExact(o: Op, tree: Expr, p1: Path, p2: Path)
    requires tree.Is(o) && Leaf(o, tree, p1) && OnSpine(o, tree, p2)
    ensures Passed2(tree, Dups2Operand(o, tree, p1, p2).0, Dups2Operand(o, tree, p1, p2).1)
    decreases Size(tree), 0, 0
  {
    var e1 := At(o, tree, p1);
    if p1 != p2 && e1.Bin? {
      var (x, n) := Tidied2(o, tree, p1);
      if p1 != [] { Dups2Exact(e1.op, e1, [], []); }
      PutOperand(o, tree, p1, x);
      var t := Put(o, tree, p1, x);
      SameSpineAt(o, tree, t, p2);
      if Contradicts(o, x, At(o, t, p2)) {
        PutZeroSharpens(o, t, p1, p2);
        Passed2Twice(tree, t, n, Put(o, t, p1, o.Zero()), 1);
      }
    }
  }

  // ---------------------------------------------------------------- expr_eliminate_dups

  /** Both passes over the whole chain. */
  function Round(e: Expr): (Expr, nat) {
    if !e.Bin? then (e, 0)
    else
      var (a, m) := Dups1(e.op, e, [], []);
      var (b, n) := Dups2(e.op, a, [], []);
      (b, m + n)
  }

  lemma RoundExact(e: Expr)
    ensures var (r, n) := Round(e);
      && Sharpens(e, r) && Size(r) <= Size(e)
      && (n == 0 ==> r == e && Clean(e)) && (n > 0 ==> Size(EliminateYn(r)) < Size(e))
  {
    if e.Bin? {
      var (a, m) := Dups1(e.op, e, [], []);
      var (b, n) := Dups2(e.op, a, [], []);
      Dups1Exact(e.op, e, [], []);
      Dups2Exact(e.op, a, [], []);
      if n == 0 { assert b == a; }
      EliminateYnProgress(b);
      forall env: Env | WellFormed(env) && Val(e, env) != MOD ensures Val(b, env) == Val(e, env) {
        assert Val(a, env) == Val(e, env);
      }
    }
  }

  /** Rounds of the two passes until one round rewrites nothing. */
  function EliminateDups(e: Expr): Expr
    decreases Size(e)
  {
    RoundExact(e);
    var (r, n) := Round(e);
    if n == 0 then r else EliminateDups(EliminateYn(r))
  }

  /** Wherever the value is n or y it stays; in the result no two operands of a chain can be joined. */
  lemma {:induction false} EliminateDupsExact(e: Expr)
    ensures Sharpens(e, EliminateDups(e)) && Clean(EliminateDups(e)) && Size(EliminateDups(e)) <= Size(e)
    decreases Size(e)
  {
    RoundExact(e);
    var (r, n) := Round(e);
    if n > 0 {
      EliminateDupsExact(EliminateYn(r));
      SharpensEliminateYn(e, r);
      SharperStill(e, EliminateYn(r), EliminateDups(e));
    }
  }

  lemma SharperStill(e: Expr, a: Expr, b: Expr)
    requires Sharpens(e, a) && Sharpens(a, b)
    ensures Sharpens(e, b)
  {
    forall env: Env | WellFormed(env) && Val(e, env) != MOD ensures Val(b, env) == Val(e, env) {
      assert Val(a, env) == Val(e, env);
    }
  }

  lemma SharpensEliminateYn(e: Expr, r: Expr)
    requires Sharpens(e, r)
    ensures Sharpens(e, EliminateYn(r))
  {
    forall env: Env | WellFormed(env) && Val(e, env) != MOD
      ensures Val(EliminateYn(r), env) == Val(e, env)
    {
      EliminateYnExact(r, env);
    }
  }

  // ---------------------------------------------------------------- the contradiction rule

  /** (a || b) against !a && !b in an && chain, and its dual: every operand of the transformed
      negation of `e1` is found in `e2`. */
  predicate Contradicts(o: Op, e1: Expr, e2: Expr) {
    ExtractCommon(o, Transform(Not(e1)), e2).1 == o.Unit()
  }

  lemma Absorbed(o: Op, r: Tri, x: Tri, whole: Tri, part: Tri)
    requires whole == o.Apply(r, x) && part == x
    ensures o.Apply(whole, part) == whole
  {
  }

  lemma {:induction false} ContradictsBounds(o: Op, e1: Expr, e2: Expr, env: Env)
    requires WellFormed(env) && Contradicts(o, e1, e2)
    ensures o.Apply(Val(e2, env), 2 - Val(e1, env)) == Val(e2, env)
  {
    var (common, r1, r2) := ExtractCommon(o, Transform(Not(e1)), e2);
    var x := ValOr(Val(o.Unit(), env), common, env);
    TransformExact(Not(e1), env);
    ExtractCommonExact(o, Transform(Not(e1)), e2, env);
    UnitIsNeutral(o, x, env);
    Absorbed(o, Val(r2, env), x, Val(e2, env), Val(Not(e1), env));
  }

  /** Where both parts stand in one chain, replacing one by the deciding constant is right exactly
      when the chain's value is not m. */
  lemma ContradictionRuleExactness(o: Op, e: Expr, p1: Path, p2: Path, env: Env)
    requires Leaf(o, e, p1) && OnSpine(o, e, p2) && WellFormed(env)
    requires Contradicts(o, At(o, e, p1), At(o, e, p2))
    ensures Val(Put(o, e, p1, o.Zero()), env) == Val(e, env) <==> Val(e, env) != MOD
  {
    ContradictsBounds(o, At(o, e, p1), At(o, e, p2), env);
    SpineAbsorbs(o, e, p1, env);
    SpineAbsorbs(o, e, p2, env);
    PutZero(o, e, p1, env);
  }

  lemma PutZeroSharpens(o: Op, e: Expr, p1: Path, p2: Path)
    requires Leaf(o, e, p1) && OnSpine(o, e, p2) && p1 != []
    requires Contradicts(o, At(o, e, p1), At(o, e, p2))
    ensures var t := Put(o, e, p1, o.Zero());
      SameSpine(o, e, t) && Sharpens(e, t) && Size(t) <= Size(e) && HasConstantOperand(t)
  {
    PutKeepsSpine(o, e, p1, o.Zero());
    HasConstantAt(o, Put(o, e, p1, o.Zero()), p1);
    forall env: Env | WellFormed(env) && Val(e, env) != MOD
      ensures Val(Put(o, e, p1, o.Zero()), env) == Val(e, env)
    {
      ContradictionRuleExactness(o, e, p1, p2, env);
    }
  }

  /** With every symbol n or y and no literal m, the result of EliminateDups has the same value. */
  lemma SharpensIsExactInTwoValues(e: Expr, r: Expr, env: Env)
    requires Sharpens(e, r) && WellFormed(env) && TwoValued(env) && NoModLiteral(e)
    ensures Val(r, env) == Val(e, env)
  {
    TwoValuedIsDefinite(e, env);
  }

  /** Modules on and every tristate symbol at m. */
  function AllMod(): Env {
    Env((s: Symbol) => if s.HasType(Tristate) then MOD else NO,
        (s: Symbol) => match s case Const(text) => "''" + text case Sym(name, _) => name case _ => "",
        true)
  }

  lemma AllModIsWellFormed()
    ensures WellFormed(AllMod())
  {
    forall s: Symbol, t: Symbol | s.Const? && t.Const? && AllMod().str(s) == AllMod().str(t)
      ensures s == t
    {
      assert s.text == AllMod().str(s)[2..] && t.text == AllMod().str(t)[2..];
    }
  }

  lemma NegatedSymbol(a: Symbol)
    requires a.Sym?
    ensures Transform(Not(Var(a))) == Not(Var(a)) && ExprEq(Not(Var(a)), Not(Var(a)))
  {
    assert Transform(Var(a)) == Var(a);
    assert ExprEq(Var(a), Var(a));
  }

  /** !A && !B extracted from itself leaves y. */
  lemma NegatedPairExtracted(a: Symbol, b: Symbol)
    requires a.Sym? && b.Sym? && a != b
    ensures var e := Bin(And, Not(Var(a)), Not(Var(b)));
      Transform(e) == e && ExtractCommon(And, e, e).1 == Var(Yes)
  {
    var na, nb := Not(Var(a)), Not(Var(b));
    var e := Bin(And, na, nb);
    NegatedSymbol(a);
    NegatedSymbol(b);
    var (acc1, l, e') := ExtractEq(And, None, na, e);
    assert ExtractEq(And, None, na, na) == (Some(na), Var(Yes), Var(Yes));
    assert ExtractEq(And, Some(na), Var(Yes), nb) == (Some(na), Var(Yes), nb);
    assert (acc1, l, e') == (Some(na), Var(Yes), Bin(And, Var(Yes), nb));
    var (acc2, r, _) := ExtractEq(And, acc1, nb, e');
    assert ExtractEq(And, acc1, nb, Var(Yes)) == (acc1, nb, Var(Yes));
    assert ExtractEq(And, acc1, nb, nb) == (Some(Bin(And, na, nb)), Var(Yes), Var(Yes));
    assert r == Var(Yes) && acc2.Some?;
    assert ExtractEq(And, None, e, e).1 == Bin(And, l, r);
  }

  /** The rule does lose m: (A || B) && (!A && !B) with both at m is m, and is rewritten to n. */
  lemma ContradictionRuleLosesMod(a: Symbol, b: Symbol)
    requires a.HasType(Tristate) && b.HasType(Tristate) && a != b
    ensures var e1 := Bin(Or, Var(a), Var(b));
      var e2 := Bin(And, Not(Var(a)), Not(Var(b)));
      var e := Bin(And, e1, e2);
      && Contradicts(And, e1, e2) && WellFormed(AllMod())
      && Val(e, AllMod()) == MOD
      && Val(Put(And, e, [false], Var(No)), AllMod()) == NO
  {
    AllModIsWellFormed();
    NegatedPairExtracted(a, b);
    var e1 := Bin(Or, Var(a), Var(b));
    var e2 := Bin(And, Not(Var(a)), Not(Var(b)));
    assert Transform(e1) == e1;
    assert Transform(Not(e1)) == Transform(e2);
    assert Val(e1, AllMod()) == MOD;
    assert Val(Not(Var(a)), AllMod()) == MOD && Val(Not(Var(b)), AllMod()) == MOD;
    assert Val(e2, AllMod()) == MOD;
    PutZero(And, Bin(And, e1, e2), [false], AllMod());
  }
}
