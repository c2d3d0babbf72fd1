/** When menu_finalize of kconfig/menu.c makes an entry a child of the one before it, and what that
    means for when the two are visible. */
module KconfigMenuNesting {
  import opened Common
  import opened KconfigExpr
  import opened KconfigTransform
  import opened KconfigEliminateEq
  import opened KconfigEquality
  import opened KconfigCompare
  import opened KconfigSpine
  import opened KconfigDups
  import opened KconfigDupsDone
  import opened KconfigMenuEntry
  import opened KconfigMenuForest
  import opened KconfigMenuConditions
  import opened KconfigMenuNarrow

  /** e != n, simplified (menu.c:343-344 and 352-353). */
  function VisibleTest(e: Option<Expr>): Expr { EliminateDups(Transform(TransCompareOpt(e, false, No))) }

  /** menu.c:347-361: `basedep` is the test of the parent's prompt condition, `dep` the condition of the
      entry that follows. */
  predicate NestTest(sym: Symbol, basedep: Expr, dep: Option<Expr>) {
    ContainsOpt(dep, sym) && (Depends(dep.value, sym) || EliminateEq(VisibleTest(dep), basedep).1 == Var(Yes))
  }

  /** Comparing the expression with n is exact. */
  ghost predicate Comparable(e: Option<Expr>, env: Env) {
    e.Some? ==> PlainOperands(e.value) && (NotFree(e.value) || (TwoValued(env) && NoModLiteral(e.value)))
  }

  lemma VisibleTestExact(e: Option<Expr>, env: Env)
    requires WellFormed(env) && Comparable(e, env)
    ensures Val(VisibleTest(e), env) == if OptVal(e, env) != NO then YES else NO
  {
    var compared := TransCompareOpt(e, false, No);
    if e.Some? { TransCompareExact(e.value, false, No, env); }
    assert Val(compared, env) == if OptVal(e, env) != NO then YES else NO;
    TransformExact(compared, env);
    EliminateDupsExact(Transform(compared));
  }

  /** An entry that passes the test mentions the symbol; it is visible only where the symbol is set, or
      else only where the parent's prompt is. An entry whose condition depends on the symbol passes. */
  lemma NestTestMeans(sym: Symbol, base: Option<Expr>, dep: Option<Expr>, env: Env)
    requires WellFormed(env)
    ensures ContainsOpt(dep, sym) && Depends(dep.value, sym) ==> NestTest(sym, VisibleTest(base), dep)
    ensures NestTest(sym, VisibleTest(base), dep) && OptVal(dep, env) != NO ==>
              && ContainsOpt(dep, sym)
              && (Depends(dep.value, sym) && sym.BoolOrTri() ==> TriOf(sym, env) != NO)
              && (!Depends(dep.value, sym) && Comparable(base, env) && Comparable(dep, env) ==> OptVal(base, env) != NO)
  {
    if NestTest(sym, VisibleTest(base), dep) {
      if Depends(dep.value, sym) {
        if sym.BoolOrTri() { DependsMeansImplied(dep.value, sym, env); }
      } else if Comparable(base, env) && Comparable(dep, env) {
        CancelledToYesMeansImplied(VisibleTest(dep), VisibleTest(base), env);
        VisibleTestExact(dep, env);
        VisibleTestExact(base, env);
      }
    }
  }

  // ---------------------------------------------------------------- exactly which entries pass

  /** The operand is the symbol, or a test that it is not n. */
  predicate TestsIfSet(x: Expr, s: Symbol) {
    x in {Var(s), Comp(true, s, Yes), Comp(true, s, Mod), Comp(false, s, No)}
  }

  lemma {:induction false} SetTestIsDependence(e: Expr, s: Symbol, p: Path)
    requires Leaf(And, e, p) && TestsIfSet(At(And, e, p), s)
    ensures Depends(e, s)
  {
    if p != [] { SetTestIsDependence(Child(e, p[0]), s, p[1..]); }
  }

  lemma {:induction false} DependenceIsSetTest(e: Expr, s: Symbol) returns (p: Path)
    requires Depends(e, s)
    ensures Leaf(And, e, p) && TestsIfSet(At(And, e, p), s)
  {
    p := [];
    if e.Bin? {
      var d := !Depends(e.left, s);
      var q := DependenceIsSetTest(Child(e, d), s);
      p := [d] + q;
      assert p[1..] == q;
    }
  }

  /** An expression depends on a symbol exactly if one of its && operands tests that the symbol is set. */
  lemma DependsExactlyWhen(e: Expr, s: Symbol)
    ensures Depends(e, s) <==> exists p :: Leaf(And, e, p) && TestsIfSet(At(And, e, p), s)
  {
    if Depends(e, s) { var p := DependenceIsSetTest(e, s); }
    forall p | Leaf(And, e, p) && TestsIfSet(At(And, e, p), s) ensures Depends(e, s) { SetTestIsDependence(e, s, p); }
  }

  /** Against a chain, one operand either stays or gives way to the unit, and the chain only changes then. */
  lemma {:induction false} CancelOne(o: Op, e: Expr, x: Expr)
    requires !x.Is(o)
    ensures Cancel(o, e, x) == (e, x) || Cancel(o, e, x).1 == o.Unit()
    decreases Size(e)
  {
    if e.Is(o) {
      CancelOne(o, e.left, x);
      CancelOne(o, e.right, Cancel(o, e.left, x).1);
      CancelConstant(o, o.Unit(), e.right);
    }
  }

  /** It gives way where it stands among the operands. */
  lemma {:induction false} CancelWhereItStands(o: Op, e: Expr, p: Path)
    requires Leaf(o, e, p) && (Constant(At(o, e, p)) ==> At(o, e, p) == o.Unit())
    ensures Cancel(o, e, At(o, e, p)).1 == o.Unit()
  {
    var x := At(o, e, p);
    if p == [] {
      ExprEqReflexive(x);
    } else {
      CancelOne(o, e.left, x);
      CancelWhereItStands(o, Child(e, p[0]), p[1..]);
      CancelConstant(o, o.Unit(), e.right);
    }
  }

  /** If the test of the parent's prompt is one of the && operands of the entry's, and is not n, the entry
      passes as long as it mentions the symbol. */
  lemma OperandPasses(sym: Symbol, base: Option<Expr>, dep: Option<Expr>, p: Path)
    requires ContainsOpt(dep, sym) && VisibleTest(dep).Is(And) && Leaf(And, VisibleTest(dep), p)
    requires At(And, VisibleTest(dep), p) == VisibleTest(base) != Var(No)
    ensures NestTest(sym, VisibleTest(base), dep)
  {
    CancelWhereItStands(And, VisibleTest(dep), p);
  }

  /** One operand cannot cancel a whole chain. */
  lemma {:induction false} ChainOutlasts(o: Op, x: Expr, e: Expr, n: nat)
    requires !x.Is(o) && e.Is(o) && Pieces(o, x, n) && ConstFree(e) && Size(e) <= n
    ensures EliminateYn(Cancel(o, x, e).1) !in {o.Unit(), o.Zero()}
  {
    var (x1, l) := Cancel(o, x, e.left);
    CancelSwapped(o, e.left, x);
    CancelOne(o, e.left, x);
    PiecesWithin(o, e, n);
    CancelCounts(o, x, e, Var(Mod), n);
    LeftOver(o, Cancel(o, x, e).1, n);
    LeftOver(o, e.left, n);
    LeftOver(o, e.right, n);
    ConstFreeStays(e.left);
    ConstFreeStays(e.right);
    if x1 == o.Unit() { CancelConstant(o, o.Unit(), e.right); }
  }

  lemma {:induction false} ChainStays(e: Expr, b: Expr)
    requires ConstFree(e) && ConstFree(b) && b.Bin? && !e.Is(b.op)
    ensures EliminateYn(Cancel(b.op, e, b).1) != Var(Yes)
  {
    var n := Size(e) + Size(b);
    if Constant(e) {
      CancelConstant(b.op, e, b);
      ConstFreeStays(b);
    } else {
      PiecesWithin(b.op, e, n);
      ChainOutlasts(b.op, e, b, n);
    }
  }

  lemma {:induction false} CancelledInAnd(e: Expr, b: Expr)
    requires ConstFree(e) && ConstFree(b) && !Constant(b) && e.Is(And)
    ensures EliminateEq(e, b).1 == Var(Yes) <==> HasAll(And, e, b)
  {
    var n, a2 := Size(e) + Size(b), Cancel(And, e, b).1;
    AllCancelledExactlyWhen(And, b, e);
    CancelSwapped(And, e, b);
    PiecesWithin(And, e, n);
    PiecesWithin(And, b, n);
    CancelCounts(And, e, b, Var(Mod), n);
    LeftOver(And, a2, n);
    if !b.Is(And) { CancelOne(And, e, b); }
    if a2.Is(Or) {
      ChainStays(e, b);
      assert EliminateEq(e, b).1 == EliminateYn(Cancel(Or, e, b).1);
    } else {
      assert EliminateEq(e, b).1 == EliminateYn(a2);
    }
  }

  lemma {:induction false} CancelledInOr(e: Expr, b: Expr)
    requires ConstFree(e) && ConstFree(b) && !Constant(b) && e.Is(Or)
    ensures EliminateEq(e, b).1 != Var(Yes)
  {
    var n, a2 := Size(e) + Size(b), Cancel(Or, e, b).1;
    if b.Is(Or) {
      PiecesWithin(Or, e, n);
      PiecesWithin(Or, b, n);
      CancelCounts(Or, e, b, Var(Mod), n);
      LeftOver(Or, a2, n);
    } else {
      CancelOne(Or, e, b);
      ConstFreeStays(b);
      if b.Is(And) { ChainStays(e, b); }
    }
  }

  /** Cancelling leaves y of the second condition exactly if that is y, or all its && operands are among those
      of the first. */
  lemma {:induction false} CancelledToYesExactlyWhen(e: Expr, b: Expr)
    requires ConstFree(e) && ConstFree(b)
    ensures EliminateEq(e, b).1 == Var(Yes) <==>
              b == Var(Yes) || (b != Var(No) && e.Is(And) && HasAll(And, e, b))
  {
    ConstFreeStays(b);
    if Constant(b) {
      if e.Bin? { CancelConstant(e.op, b, e); }
    } else if e.Is(And) {
      CancelledInAnd(e, b);
    } else if e.Is(Or) {
      CancelledInOr(e, b);
    } else if b.Bin? {
      ChainStays(e, b);
    }
  }

  /** So, without constants among the operands: an entry that mentions the symbol passes exactly if it depends on
      it, or the parent's prompt is always visible, or the entry has all the operands of the prompt's test, and
      then it passes whatever else it has. */
  lemma NestTestExactlyWhen(sym: Symbol, base: Option<Expr>, dep: Option<Expr>)
    requires ConstFree(VisibleTest(base)) && ConstFree(VisibleTest(dep))
    ensures var b, e := VisibleTest(base), VisibleTest(dep);
      NestTest(sym, b, dep) <==>
        && ContainsOpt(dep, sym)
        && (Depends(dep.value, sym) || b == Var(Yes) || (b != Var(No) && e.Is(And) && HasAll(And, e, b)))
  {
    CancelledToYesExactlyWhen(VisibleTest(dep), VisibleTest(base));
  }

  // ---------------------------------------------------------------- the test for two entries

  /** `m`, following `a`, is to become a child of `a`. */
  ghost predicate Nests(fin: Infos, a: Menu, m: Menu) {
    a.sym.Some? &&
    NestTest(a.sym.value, VisibleTest(PromptCondition(a.prompt, Of(fin, a))), Passes(m.prompt, Of(fin, m)))
  }

  /** The condition under which the entry is shown: that of its prompt, or without one its own. */
  ghost predicate ShownIf(m: Menu, i: Info, e: Option<Expr>) {
    if m.prompt.None? then e == i.dep
    else m.prompt.value < |i.props| && e == i.props[m.prompt.value].visible
  }

  /** What is nested under a prompt is shown only where the symbol is set or the prompt is visible. */
  lemma NestedIsShownBelow(fin: Infos, a: Menu, m: Menu, above: Option<Expr>, below: Option<Expr>, env: Env)
    requires WellFormed(env) && Nests(fin, a, m) && a.sym.value.BoolOrTri() && a.prompt.Some?
    requires ShownIf(a, Of(fin, a), above) && Comparable(above, env)
    requires ShownIf(m, Of(fin, m), below) && Comparable(below, env)
    ensures OptVal(below, env) != NO ==> TriOf(a.sym.value, env) != NO || OptVal(above, env) != NO
  {
    NestTestMeans(a.sym.value, above, below, env);
  }

  /** The prompt's test is one of the && operands of the entry's. */
  ghost predicate HasOperand(e: Expr, x: Expr) { e.Is(And) && exists p :: Leaf(And, e, p) && At(And, e, p) == x }

  /** `m` mentions the symbol of `a`, and its condition has a test that the symbol is set, or the test of a's
      prompt, among its && operands. */
  ghost predicate Implied(fin: Infos, a: Menu, m: Menu) {
    && a.sym.Some?
    && var base, dep := VisibleTest(PromptCondition(a.prompt, Of(fin, a))), Passes(m.prompt, Of(fin, m));
       && ContainsOpt(dep, a.sym.value)
       && ((exists p :: Leaf(And, dep.value, p) && TestsIfSet(At(And, dep.value, p), a.sym.value))
         || base == Var(Yes) || (base != Var(No) && HasOperand(VisibleTest(dep), base)))
  }

  lemma ImpliedNests(fin: Infos, a: Menu, m: Menu)
    requires Implied(fin, a, m)
    ensures Nests(fin, a, m)
  {
    var sym := a.sym.value;
    var base, dep := PromptCondition(a.prompt, Of(fin, a)), Passes(m.prompt, Of(fin, m));
    DependsExactlyWhen(dep.value, sym);
    if !Depends(dep.value, sym) {
      if VisibleTest(base) == Var(Yes) {
        var e := VisibleTest(dep);
        if e.Bin? { CancelConstant(e.op, Var(Yes), e); }
      } else {
        var p :| Leaf(And, VisibleTest(dep), p) && At(And, VisibleTest(dep), p) == VisibleTest(base);
        OperandPasses(sym, base, dep, p);
      }
    }
  }

  /** An entry without a prompt takes in every entry that mentions its symbol. */
  lemma WithoutPromptAllNest(fin: Infos, a: Menu, m: Menu, below: Option<Expr>)
    requires a.sym.Some? && a.prompt.None? && ShownIf(m, Of(fin, m), below) && ContainsOpt(below, a.sym.value)
    ensures Implied(fin, a, m) && Nests(fin, a, m)
  {
    assert VisibleTest(None) == Var(Yes);
    ImpliedNests(fin, a, m);
  }
}
