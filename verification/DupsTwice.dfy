/** A condition that is handed down to an entry which states it again (expr_eliminate_dups of kconfig/expr.c on
    the conjunction of a chain with itself): it comes out no larger than it was. */
module KconfigDupsTwice {
  import opened Common
  import opened KconfigExpr
  import opened KconfigTransform
  import opened KconfigEliminateEq
  import opened KconfigEquality
  import opened KconfigJoins
  import opened KconfigSpine
  import opened KconfigDups
  import opened KconfigDupsDone

  /** No operand can be rewritten or joined with another one. */
  ghost predicate Unjoinable(o: Op, e: Expr) {
    forall q1, q2 {:trigger Leaf(o, e, q1), Leaf(o, e, q2)} :: Leaf(o, e, q1) && Leaf(o, e, q2) ==>
      Clean(At(o, e, q1)) && (q1 != q2 ==> Join(o, At(o, e, q1), At(o, e, q2)) == None)
  }

  lemma CleanIsUnjoinable(o: Op, e: Expr)
    requires Clean(e)
    ensures Unjoinable(o, e)
  {
    forall q1, q2 | Leaf(o, e, q1) && Leaf(o, e, q2)
      ensures Clean(At(o, e, q1)) && (q1 != q2 ==> Join(o, At(o, e, q1), At(o, e, q2)) == None)
    {
      if e.Is(o) {
        var p := AnotherLeaf(o, e, q1);
        assert NotJoinable(o, e, q1, p);
        assert q1 != q2 ==> NotJoinable(o, e, q1, q2);
      }
    }
  }

  lemma UnitJoins(o: Op, x: Expr)
    ensures Clean(o.Unit())
    ensures x != o.Unit() ==> Join(o, o.Unit(), x) == None && Join(o, x, o.Unit()) == None
  {
  }

  // Of the two copies the first loses its operands one after the other: `left` is what it has become.

  lemma {:induction false} ReducedAt(o: Op, e: Expr, left: Expr, q: Path)
    requires Reduced(o, e, left)
    ensures Leaf(o, e, q) <==> Leaf(o, left, q)
    ensures Leaf(o, e, q) ==> At(o, left, q) == At(o, e, q) || At(o, left, q) == o.Unit()
  {
    if e.Is(o) && q != [] { ReducedAt(o, Child(e, q[0]), Child(left, q[0]), q[1..]); }
  }

  lemma {:induction false} ReducedPut(o: Op, e: Expr, left: Expr, s: Path)
    requires Reduced(o, e, left) && Leaf(o, left, s)
    ensures Reduced(o, e, Put(o, left, s, o.Unit()))
  {
    if s != [] { ReducedPut(o, Child(e, s[0]), Child(left, s[0]), s[1..]); }
  }

  function Copy(o: Op, left: Expr, e: Expr, second: bool): Expr { if second then e else left }

  lemma InCopy(o: Op, left: Expr, e: Expr, d: bool, q: Path)
    ensures OnSpine(o, Bin(o, left, e), [d] + q) <==> OnSpine(o, Copy(o, left, e, d), q)
    ensures OnSpine(o, Copy(o, left, e, d), q) ==> At(o, Bin(o, left, e), [d] + q) == At(o, Copy(o, left, e, d), q)
    ensures Leaf(o, Bin(o, left, e), [d] + q) <==> Leaf(o, Copy(o, left, e, d), q)
  {
    assert ([d] + q)[1..] == q;
  }

  /** Two operands do nothing to each other, unless one is the twin of the other and still there. */
  lemma PairInert(o: Op, left: Expr, e: Expr, q1: Path, q2: Path)
    requires Unjoinable(o, e) && Reduced(o, e, left)
    requires Leaf(o, Bin(o, left, e), q1) && Leaf(o, Bin(o, left, e), q2)
    requires q1 != q2 && q1[1..] == q2[1..] ==> Leaf(o, left, q1[1..]) && At(o, left, q1[1..]) == o.Unit()
    ensures Inert(o, Bin(o, left, e), q1, q2)
  {
    assert q1 == [q1[0]] + q1[1..] && q2 == [q2[0]] + q2[1..];
    InCopy(o, left, e, q1[0], q1[1..]);
    InCopy(o, left, e, q2[0], q2[1..]);
    ReducedAt(o, e, left, q1[1..]);
    ReducedAt(o, e, left, q2[1..]);
    UnitJoins(o, At(o, Bin(o, left, e), q1));
    UnitJoins(o, At(o, Bin(o, left, e), q2));
  }

  /** The operand meets its twin, in the part below `t` of the second copy, and gives way. */
  lemma {:induction false} TwinPass(o: Op, left: Expr, e: Expr, s: Path, t: Path)
    requires Unjoinable(o, e) && Reduced(o, e, left) && Leaf(o, left, s) && OnSpine(o, e, t) && t <= s
    ensures OnSpine(o, Bin(o, left, e), [false] + s) && OnSpine(o, Bin(o, left, e), [true] + t)
    ensures Dups1(o, Bin(o, left, e), [false] + s, [true] + t).0 == Bin(o, Put(o, left, s, o.Unit()), e)
    decreases Links(o, At(o, e, t))
  {
    var tree, p1, p2 := Bin(o, left, e), [false] + s, [true] + t;
    InCopy(o, left, e, false, s);
    InCopy(o, left, e, true, t);
    ReducedAt(o, e, left, s);
    if At(o, e, t).Is(o) {
      TwinBelow(o, left, e, s, t);
    } else {
      LeavesDiverge(o, e, t, s);
      TwinsMeet(o, left, e, s);
    }
  }

  lemma TwinsMeet(o: Op, left: Expr, e: Expr, s: Path)
    requires Unjoinable(o, e) && Reduced(o, e, left) && Leaf(o, left, s) && Leaf(o, e, s)
    ensures Leaf(o, Bin(o, left, e), [false] + s) && Leaf(o, Bin(o, left, e), [true] + s)
    ensures Dups1Operands(o, Bin(o, left, e), [false] + s, [true] + s).0 == Bin(o, Put(o, left, s, o.Unit()), e)
  {
    var tree, p1, p2 := Bin(o, left, e), [false] + s, [true] + s;
    InCopy(o, left, e, false, s);
    InCopy(o, left, e, true, s);
    ReducedAt(o, e, left, s);
    var x := At(o, left, s);
    if x == o.Unit() {
      PairInert(o, left, e, p1, p2);
      InertOperands(o, tree, p1, p2);
      PutKeepsConstant(o, left, s, x);
    } else {
      CleanTidied(o, tree, p1);
      PutOperand(o, tree, p1, x);
      ExprEqReflexive(x);
      PutKeepsConstant(o, e, s, x);
      assert p1[1..] == s && p2[1..] == s;
    }
  }

  lemma {:induction false} TwinBelow(o: Op, left: Expr, e: Expr, s: Path, t: Path)
    requires Unjoinable(o, e) && Reduced(o, e, left) && Leaf(o, left, s) && OnSpine(o, e, t) && t <= s
    requires At(o, e, t).Is(o) && Leaf(o, e, s)
    ensures OnSpine(o, Bin(o, left, e), [false] + s) && OnSpine(o, Bin(o, left, e), [true] + t)
    ensures Dups1(o, Bin(o, left, e), [false] + s, [true] + t).0 == Bin(o, Put(o, left, s, o.Unit()), e)
    decreases Links(o, At(o, e, t)), 0
  {
    var tree, p1, p2 := Bin(o, left, e), [false] + s, [true] + t;
    InCopy(o, left, e, false, s);
    InCopy(o, left, e, true, t);
    LeafBelow(o, e, t, s);
    SidesAreShorter(o, e, t);
    assert p2 + [false] == [true] + (t + [false]) && p2 + [true] == [true] + (t + [true]);
    BothSides(o, tree, p2);
    if s[|t|] {
      Passing(o, left, e, s, t + [false]);
      TwinPass(o, left, e, s, t + [true]);
    } else {
      TwinPass(o, left, e, s, t + [false]);
      var left' := Put(o, left, s, o.Unit());
      ReducedPut(o, e, left, s);
      PutKeepsSpine(o, left, s, o.Unit());
      Passing(o, left', e, s, t + [true]);
    }
  }

  /** What stands below `t` of the second copy does nothing to an operand that is elsewhere or has gone. */
  lemma Passing(o: Op, left: Expr, e: Expr, s: Path, t: Path)
    requires Unjoinable(o, e) && Reduced(o, e, left) && Leaf(o, left, s) && OnSpine(o, e, t)
    requires At(o, left, s) == o.Unit() || !(t <= s)
    ensures OnSpine(o, Bin(o, left, e), [false] + s) && OnSpine(o, Bin(o, left, e), [true] + t)
    ensures Dups1(o, Bin(o, left, e), [false] + s, [true] + t).0 == Bin(o, left, e)
  {
    var tree, p1, p2 := Bin(o, left, e), [false] + s, [true] + t;
    InCopy(o, left, e, false, s);
    InCopy(o, left, e, true, t);
    forall q1, q2 | Leaf(o, tree, q1) && Leaf(o, tree, q2) && p1 <= q1 && p2 <= q2 ensures Inert(o, tree, q1, q2) {
      LeavesDiverge(o, tree, p1, q1);
      assert q1[1..] == s;
      assert t <= q2[1..];
      PairInert(o, left, e, q1, q2);
    }
    InertPass(o, tree, p1, p2);
  }

  /** One operand of the first copy against everything. */
  lemma LeftOperand(o: Op, left: Expr, e: Expr, s: Path)
    requires Unjoinable(o, e) && Reduced(o, e, left) && Leaf(o, left, s)
    ensures OnSpine(o, Bin(o, left, e), [false] + s)
    ensures Dups1(o, Bin(o, left, e), [false] + s, []).0 == Bin(o, Put(o, left, s, o.Unit()), e)
  {
    var tree, p1 := Bin(o, left, e), [false] + s;
    InCopy(o, left, e, false, s);
    forall q1, q2 | Leaf(o, tree, q1) && Leaf(o, tree, q2) && p1 <= q1 && [false] <= q2
      ensures Inert(o, tree, q1, q2)
    {
      LeavesDiverge(o, tree, p1, q1);
      if q1[1..] == q2[1..] { assert q1 == [false] + q1[1..] && q2 == [false] + q2[1..]; }
      PairInert(o, left, e, q1, q2);
    }
    assert [] + [false] == [false] && [] + [true] == [true] && [true] + [] == [true];
    BothSides(o, tree, []);
    InertPass(o, tree, p1, [false]);
    TwinPass(o, left, e, s, []);
  }

  /** The operands below `s` of the first copy have given way, and no others. */
  ghost predicate Emptied(o: Op, left: Expr, s: Path, left': Expr) {
    forall q {:trigger Leaf(o, left, q)} {:trigger Leaf(o, left', q)} ::
      && (Leaf(o, left, q) <==> Leaf(o, left', q))
      && (Leaf(o, left, q) ==> At(o, left', q) == if s <= q then o.Unit() else At(o, left, q))
  }

  lemma {:induction false} EmptiedOne(o: Op, e: Expr, left: Expr, s: Path)
    requires Reduced(o, e, left) && Leaf(o, left, s)
    ensures Reduced(o, e, Put(o, left, s, o.Unit())) && Emptied(o, left, s, Put(o, left, s, o.Unit()))
  {
    ReducedPut(o, e, left, s);
    PutKeepsSpine(o, left, s, o.Unit());
    var left' := Put(o, left, s, o.Unit());
    forall q
      ensures Leaf(o, left, q) <==> Leaf(o, left', q)
      ensures Leaf(o, left, q) ==> At(o, left', q) == if s <= q then o.Unit() else At(o, left, q)
    {
      ReducedAt(o, e, left, q);
      ReducedAt(o, e, left', q);
      if Leaf(o, left, q) {
        if s <= q { LeavesDiverge(o, left, s, q); } else { PutElsewhere(o, left, s, o.Unit(), q); }
      }
    }
  }

  lemma EmptiedBoth(o: Op, a: Expr, s: Path, b: Expr, c: Expr)
    requires OnSpine(o, a, s) && At(o, a, s).Is(o) && Emptied(o, a, s + [false], b) && Emptied(o, b, s + [true], c)
    ensures Emptied(o, a, s, c)
  {
    forall q
      ensures Leaf(o, a, q) <==> Leaf(o, c, q)
      ensures Leaf(o, a, q) ==> At(o, c, q) == if s <= q then o.Unit() else At(o, a, q)
    {
      if Leaf(o, a, q) {
        assert Leaf(o, b, q);
        if s <= q {
          LeafBelow(o, a, s, q);
          assert q[|s|] || !q[|s|];
        }
      }
      if Leaf(o, c, q) { assert Leaf(o, b, q); }
    }
  }

  /** All operands of the first copy, one after the other. */
  lemma {:induction false} LeftPass(o: Op, left: Expr, e: Expr, s: Path) returns (left': Expr)
    requires Unjoinable(o, e) && Reduced(o, e, left) && OnSpine(o, left, s)
    ensures OnSpine(o, Bin(o, left, e), [false] + s)
    ensures Dups1(o, Bin(o, left, e), [false] + s, []).0 == Bin(o, left', e)
    ensures Reduced(o, e, left') && Emptied(o, left, s, left')
    decreases Links(o, At(o, left, s))
  {
    var p1 := [false] + s;
    InCopy(o, left, e, false, s);
    if At(o, left, s).Is(o) {
      SidesAreShorter(o, left, s);
      assert p1 + [false] == [false] + (s + [false]) && p1 + [true] == [false] + (s + [true]);
      BothSides(o, Bin(o, left, e), p1);
      var mid := LeftPass(o, left, e, s + [false]);
      SameReduced(o, e, left, mid, s + [true]);
      left' := LeftPass(o, mid, e, s + [true]);
      EmptiedBoth(o, left, s, mid, left');
    } else {
      left' := Put(o, left, s, o.Unit());
      LeftOperand(o, left, e, s);
      EmptiedOne(o, e, left, s);
    }
  }

  lemma {:induction false} SameReduced(o: Op, e: Expr, a: Expr, b: Expr, s: Path)
    requires Reduced(o, e, a) && Reduced(o, e, b) && OnSpine(o, a, s)
    ensures OnSpine(o, b, s) && Links(o, At(o, b, s)) == Links(o, At(o, a, s))
  {
    ReducedLinks(o, e, a);
    ReducedLinks(o, e, b);
    if s != [] { SameReduced(o, Child(e, s[0]), Child(a, s[0]), Child(b, s[0]), s[1..]); }
  }

  lemma {:induction false} ReducedLinks(o: Op, e: Expr, a: Expr)
    requires Reduced(o, e, a)
    ensures Links(o, a) == Links(o, e)
  {
    if e.Is(o) {
      ReducedLinks(o, e.left, a.left);
      ReducedLinks(o, e.right, a.right);
    }
  }

  lemma {:induction false} EmptiedIsUnits(o: Op, e: Expr)
    requires forall q :: Leaf(o, e, q) ==> At(o, e, q) == o.Unit()
    ensures AllUnits(o, e)
  {
    if e.Is(o) {
      forall d: bool, q | Leaf(o, Child(e, d), q) ensures At(o, Child(e, d), q) == o.Unit() {
        assert ([d] + q)[1..] == q;
        assert Leaf(o, e, [d] + q);
      }
      EmptiedIsUnits(o, Child(e, false));
      EmptiedIsUnits(o, Child(e, true));
    } else {
      assert Leaf(o, e, []);
    }
  }

  /** When the first copy has been emptied, the second stays as it is. */
  lemma RightPass(o: Op, left: Expr, e: Expr)
    requires Unjoinable(o, e) && Reduced(o, e, left) && forall q :: Leaf(o, left, q) ==> At(o, left, q) == o.Unit()
    ensures OnSpine(o, Bin(o, left, e), [true]) && Dups1(o, Bin(o, left, e), [true], []).0 == Bin(o, left, e)
  {
    var tree := Bin(o, left, e);
    forall q1, q2 | Leaf(o, tree, q1) && Leaf(o, tree, q2) && [true] <= q1 && [] <= q2
      ensures Inert(o, tree, q1, q2)
    {
      if q1 != q2 && q1[1..] == q2[1..] {
        assert q1 == [true] + q1[1..] && q2 == [q2[0]] + q2[1..];
        InCopy(o, left, e, true, q1[1..]);
        ReducedAt(o, e, left, q1[1..]);
      }
      PairInert(o, left, e, q1, q2);
    }
    BothSides(o, tree, []);
    InertPass(o, tree, [true], []);
  }

  /** The first pass empties the first copy and leaves the second as it is. */
  lemma FirstPass(o: Op, e: Expr) returns (left: Expr)
    requires Clean(e)
    ensures AllUnits(o, left) && Dups1(o, Bin(o, e, e), [], []).0 == Bin(o, left, e)
  {
    CleanIsUnjoinable(o, e);
    ReducedItself(o, e);
    assert [] + [false] == [false] && [] + [true] == [true] && [false] + [] == [false];
    BothSides(o, Bin(o, e, e), []);
    left := LeftPass(o, e, e, []);
    forall q | Leaf(o, left, q) ensures At(o, left, q) == o.Unit() { assert Leaf(o, e, q) && [] <= q; }
    EmptiedIsUnits(o, left);
    RightPass(o, left, e);
  }

  // ---------------------------------------------------------------- the second pass

  /** An operand that is no chain stays. */
  lemma {:induction false} PlainOperand(o: Op, tree: Expr, p1: Path, p2: Path)
    requires tree.Is(o) && Leaf(o, tree, p1) && OnSpine(o, tree, p2) && !At(o, tree, p1).Bin?
    ensures Dups2(o, tree, p1, p2) == (tree, 0)
    decreases Links(o, At(o, tree, p2))
  {
    if At(o, tree, p2).Is(o) {
      SidesAreShorter(o, tree, p2);
      PlainOperand(o, tree, p1, p2 + [false]);
      PlainOperand(o, tree, p1, p2 + [true]);
    }
  }

  lemma {:induction false} UnitsPass(o: Op, tree: Expr, p1: Path, p2: Path)
    requires tree.Is(o) && OnSpine(o, tree, p1) && OnSpine(o, tree, p2) && AllUnits(o, At(o, tree, p1))
    ensures Dups2(o, tree, p1, p2) == (tree, 0)
    decreases Links(o, At(o, tree, p1))
  {
    if At(o, tree, p1).Is(o) {
      SidesAreShorter(o, tree, p1);
      BothSides(o, tree, p1);
      UnitsPass(o, tree, p1 + [false], p2);
      UnitsPass(o, tree, p1 + [true], p2);
    } else {
      PlainOperand(o, tree, p1, p2);
    }
  }

  /** Rewriting operands of the second copy leaves the first. */
  lemma {:induction false} KeepsLeft(o: Op, tree: Expr, p1: Path, p2: Path)
    requires tree.Is(o) && OnSpine(o, tree, p1) && OnSpine(o, tree, p2) && p1 != [] && p1[0]
    ensures Dups2(o, tree, p1, p2).0.Bin? && Dups2(o, tree, p1, p2).0.left == tree.left
    decreases Links(o, At(o, tree, p1)) + Links(o, At(o, tree, p2)), 1
  {
    if At(o, tree, p1).Is(o) {
      BothSides(o, tree, p1);
      var (a, m) := Dups2(o, tree, p1 + [false], p2);
      OtherSide(o, tree, p1, p2, a);
      SidesAreShorter(o, tree, p1);
      KeepsLeft(o, tree, p1 + [false], p2);
      KeepsLeft(o, a, p1 + [true], p2);
    } else if At(o, tree, p2).Is(o) {
      SecondKeepsLeft(o, tree, p1, p2);
      var b := Dups2Second(o, tree, p1, p2).0;
      SameSpineAt(o, tree, b, p1);
      SameSpineAt(o, tree, b, p2);
    }
  }

  lemma {:induction false} SecondKeepsLeft(o: Op, tree: Expr, p1: Path, p2: Path)
    requires tree.Is(o) && OnSpine(o, tree, p1) && OnSpine(o, tree, p2) && p1 != [] && p1[0] && At(o, tree, p2).Is(o)
    ensures Dups2Second(o, tree, p1, p2).0.Bin? && Dups2Second(o, tree, p1, p2).0.left == tree.left
    decreases Links(o, At(o, tree, p1)) + Links(o, At(o, tree, p2)), 0
  {
    BothSides(o, tree, p2);
    var (a, m) := Dups2(o, tree, p1, p2 + [false]);
    OtherSide(o, tree, p2, p1, a);
    SidesAreShorter(o, tree, p2);
    KeepsLeft(o, tree, p1, p2 + [false]);
    KeepsLeft(o, a, p1, p2 + [true]);
  }

  lemma {:induction false} UnitsVanish(o: Op, e: Expr)
    requires AllUnits(o, e)
    ensures EliminateYn(e) == o.Unit()
  {
    if e.Is(o) {
      UnitsVanish(o, e.left);
      UnitsVanish(o, e.right);
    }
  }

  /** The second pass changes the second copy only, if anything. */
  lemma SecondPass(o: Op, left: Expr, e: Expr)
    requires AllUnits(o, left)
    ensures Size(EliminateYn(Dups2(o, Bin(o, left, e), [], []).0)) <= Size(e)
  {
    var tree := Bin(o, left, e);
    assert [] + [false] == [false] && [] + [true] == [true];
    BothSides(o, tree, []);
    UnitsPass(o, tree, [false], []);
    KeepsLeft(o, tree, [true], []);
    UnitsVanish(o, left);
    assert Dups2(o, tree, [], []).0 == Dups2(o, tree, [true], []).0;
  }

  /** If no operands of a chain can be joined, two copies of it come out no larger than one. */
  lemma {:induction false} TwiceIsOnce(o: Op, e: Expr)
    requires Clean(e)
    ensures Size(EliminateDups(Bin(o, e, e))) <= Size(e)
  {
    var both := Bin(o, e, e);
    var left := FirstPass(o, e);
    SecondPass(o, left, e);
    RoundExact(both);
    var (r, n) := Round(both);
    if n == 0 {
      var q := FirstLeaf(o, e);
      InCopy(o, e, e, false, q);
      InCopy(o, e, e, true, q);
      ExprEqReflexive(At(o, e, q));
      CleanHasNoEqualOperands(o, both, [false] + q, [true] + q);
    } else {
      EliminateDupsExact(EliminateYn(r));
    }
  }

  /** So combining a simplified condition with itself never makes it larger. */
  lemma SimplifiedTwice(o: Op, e: Expr)
    ensures Size(EliminateDups(Bin(o, EliminateDups(e), EliminateDups(e)))) <= Size(EliminateDups(e)) <= Size(e)
  {
    EliminateDupsExact(e);
    TwiceIsOnce(o, EliminateDups(e));
  }
}
