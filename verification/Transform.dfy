/** Pushing negation inwards (expr_transform), removing constants (expr_eliminate_yn) and dropping
    redundant "!= n" tests (expr_trans_bool). */
module KconfigTransform {
  import opened KconfigExpr

  // ---------------------------------------------------------------- expr_eliminate_yn

  function EliminateYn(e: Expr): (r: Expr)
    ensures Size(r) <= Size(e)
  {
    match e
    case Bin(o, l0, r0) =>
      var l, r := EliminateYn(l0), EliminateYn(r0);
      if l == o.Zero() then l
      else if l == o.Unit() then r
      else if r == o.Zero() then r
      else if r == o.Unit() then l
      else Bin(o, l, r)
    case _ => e
  }

  lemma {:induction false} EliminateYnExact(e: Expr, env: Env)
    ensures Val(EliminateYn(e), env) == Val(e, env)
  {
    match e
    case Bin(_, l, r) => EliminateYnExact(l, env); EliminateYnExact(r, env);
    case _ =>
  }

  /** Some && or || outside negation has y or n as an operand. */
  predicate HasConstantOperand(e: Expr) {
    e.Bin? && (e.left in {Var(Yes), Var(No)} || e.right in {Var(Yes), Var(No)}
               || HasConstantOperand(e.left) || HasConstantOperand(e.right))
  }

  /** expr_eliminate_yn leaves no constant operand, changes nothing when there is none, and
      otherwise makes the tree strictly smaller. */
  lemma {:induction false} EliminateYnProgress(e: Expr)
    ensures !HasConstantOperand(EliminateYn(e))
    ensures HasConstantOperand(e) ==> Size(EliminateYn(e)) < Size(e)
    ensures !HasConstantOperand(e) ==> EliminateYn(e) == e
  {
    match e
    case Bin(_, l, r) => EliminateYnProgress(l); EliminateYnProgress(r);
    case _ =>
  }

  // ---------------------------------------------------------------- expr_transform

  /** The termination measure: a negation counts double, so moving it inwards makes progress. */
  function Weight(e: Expr): (n: nat)
    ensures n >= 1
  {
    match e
    case Var(_) => 1
    case Comp(_, _, _) => 2
    case Not(a) => 2 * Weight(a)
    case Bin(_, l, r) => 1 + Weight(l) + Weight(r)
  }

  lemma NegationMovesInwards(o: Op, l: Expr, r: Expr)
    ensures Weight(Bin(o.Dual(), Not(l), Not(r))) < 2 * Weight(Bin(o, l, r))
  {
    assert Weight(Not(l)) == 2 * Weight(l) && Weight(Not(r)) == 2 * Weight(r);
  }

  /** Comparisons of a boolean symbol with y, m or n become the symbol, its negation or a constant. */
  function TransformComp(equal: bool, lhs: Symbol, rhs: Symbol): Expr {
    if !lhs.HasType(Boolean) || !rhs.Literal() then Comp(equal, lhs, rhs)
    else if rhs == Mod then Var(if equal then No else Yes)
    else if equal == (rhs == Yes) then Var(lhs)
    else Not(Var(lhs))
  }

  predicate Normal(e: Expr) {
    match e
    case Var(_) => true
    case Comp(_, a, b) => !(a.HasType(Boolean) && b.Literal())
    case Not(a) => a.Var? && !a.sym.Literal()
    case Bin(_, l, r) => Normal(l) && Normal(r)
  }

  function Transform(e: Expr): (r: Expr)
    ensures Weight(r) <= Weight(e) && Normal(r)
    decreases Weight(e)
  {
    match e
    case Var(_) => e
    case Comp(q, a, b) => TransformComp(q, a, b)
    case Bin(o, l, r) => Bin(o, Transform(l), Transform(r))
    case Not(a0) =>
      var a := Transform(a0);
      match a
      case Not(x) => Transform(x)
      case Comp(q, l, r) => Comp(!q, l, r)
      case Bin(o, l, r) =>
        NegationMovesInwards(o, l, r);
        Transform(Bin(o.Dual(), Not(l), Not(r)))
      case Var(s) =>
        if s == Yes then Var(No) else if s == Mod then Var(Mod) else if s == No then Var(Yes) else Not(a)
  }

  lemma {:induction false} TransformExact(e: Expr, env: Env)
    requires WellFormed(env)
    ensures Val(Transform(e), env) == Val(e, env)
    decreases Weight(e)
  {
    match e
    case Var(_) =>
    case Comp(q, a, b) => if a.Sym? { assert env.tri(a) == TriOf(a, env); }
    case Bin(_, l, r) => TransformExact(l, env); TransformExact(r, env);
    case Not(a0) =>
      TransformExact(a0, env);
      match Transform(a0)
      case Not(x) => TransformExact(x, env);
      case Bin(o, l, r) =>
        NegationMovesInwards(o, l, r);
        TransformExact(Bin(o.Dual(), Not(l), Not(r)), env);
      case _ =>
  }

  lemma {:induction false} TransformFixesNormal(e: Expr)
    requires Normal(e)
    ensures Transform(e) == e
  {
    match e
    case Bin(_, l, r) => TransformFixesNormal(l); TransformFixesNormal(r);
    case _ =>
  }

  lemma TransformIdempotent(e: Expr)
    ensures Transform(Transform(e)) == Transform(e)
  {
    TransformFixesNormal(Transform(e));
  }

  lemma {:induction false} TransformKeepsNoMod(e: Expr)
    requires NoModLiteral(e)
    ensures NoModLiteral(Transform(e))
    decreases Weight(e)
  {
    match e
    case Var(_) =>
    case Comp(_, _, _) =>
    case Bin(_, l, r) => TransformKeepsNoMod(l); TransformKeepsNoMod(r);
    case Not(a0) =>
      TransformKeepsNoMod(a0);
      match Transform(a0)
      case Not(x) => TransformKeepsNoMod(x);
      case Bin(o, l, r) =>
        NegationMovesInwards(o, l, r);
        TransformKeepsNoMod(Bin(o.Dual(), Not(l), Not(r)));
      case _ =>
  }

  // ---------------------------------------------------------------- expr_trans_bool

  function TransBool(e: Expr): Expr {
    match e
    case Bin(o, l, r) => Bin(o, TransBool(l), TransBool(r))
    case Not(a) => Not(TransBool(a))
    case Comp(q, a, b) => if !q && a.HasType(Tristate) && b == No then Var(a) else e
    case Var(_) => e
  }

  /** On the normal form the rewrite keeps whether the value is n and never raises it. */
  lemma {:induction false} TransBoolKeepsVisible(e: Expr, env: Env)
    requires WellFormed(env) && Normal(e)
    ensures Val(TransBool(e), env) == NO <==> Val(e, env) == NO
    ensures Val(TransBool(e), env) <= Val(e, env)
  {
    match e
    case Bin(_, l, r) => TransBoolKeepsVisible(l, env); TransBoolKeepsVisible(r, env);
    case Comp(_, a, _) => if a.Sym? { assert env.tri(a) == TriOf(a, env); }
    case Not(_) =>
    case Var(_) =>
  }

  /** Below a negation it is the other way round: y stays y, no value falls, and a value is kept exactly
      if that below the negation is. */
  lemma TransBoolBelowNegation(a: Expr, env: Env)
    requires WellFormed(env) && Normal(a)
    ensures Val(TransBool(Not(a)), env) == YES <==> Val(Not(a), env) == YES
    ensures Val(TransBool(Not(a)), env) >= Val(Not(a), env)
    ensures Val(TransBool(Not(a)), env) == Val(Not(a), env) <==> Val(TransBool(a), env) == Val(a, env)
  {
    TransBoolKeepsVisible(a, env);
  }

  /** The test t != n, plain or below a negation, keeps its value exactly when t is not m. */
  lemma TransBoolOfTest(t: Symbol, negated: bool, env: Env)
    requires WellFormed(env) && t.HasType(Tristate)
    ensures var e := if negated then Not(Comp(false, t, No)) else Comp(false, t, No);
      Val(TransBool(e), env) == Val(e, env) <==> env.tri(t) != MOD
  {
    assert env.tri(t) == TriOf(t, env);
    assert TransBool(Comp(false, t, No)) == Var(t);
  }

  /** No test that a tristate symbol is not n. */
  predicate NoSetTests(e: Expr) {
    match e
    case Bin(_, l, r) => NoSetTests(l) && NoSetTests(r)
    case Not(a) => NoSetTests(a)
    case Comp(q, a, b) => !(!q && a.HasType(Tristate) && b == No)
    case Var(_) => true
  }

  /** It leaves none, and changes nothing where there is none. */
  lemma {:induction false} TransBoolDropsTests(e: Expr)
    ensures NoSetTests(TransBool(e))
    ensures NoSetTests(e) ==> TransBool(e) == e
  {
    match e
    case Bin(_, l, r) => TransBoolDropsTests(l); TransBoolDropsTests(r);
    case Not(a) => TransBoolDropsTests(a);
    case _ =>
  }

  /** With every symbol n or y it changes no value, normal form or not. */
  lemma {:induction false} TransBoolExact(e: Expr, env: Env)
    requires WellFormed(env) && TwoValued(env)
    ensures Val(TransBool(e), env) == Val(e, env)
  {
    match e
    case Bin(_, l, r) => TransBoolExact(l, env); TransBoolExact(r, env);
    case Not(a) => TransBoolExact(a, env);
    case Comp(_, a, _) => if a.Sym? { assert env.tri(a) == TriOf(a, env); }
    case Var(_) =>
  }
}
