/** Comparing whole expressions with y or n, and the symbol tests used to nest menu entries
    (expr_trans_compare, expr_contains_symbol, expr_depends_symbol of kconfig/expr.c). */
module KconfigCompare {
  import opened Common
  import opened KconfigExpr

  function Negate(negate: bool, e: Expr): Expr { if negate then Not(e) else e }

  /** expr_trans_compare against `lit`, which is y or n: an expression for e = lit, or e != lit. */
  function TransCompare(e: Expr, equal: bool, lit: Symbol): Expr
    requires lit == Yes || lit == No
  {
    match e
    case Var(s) => Comp(equal, s, lit)
    case Comp(_, _, _) => Negate(equal != (lit == Yes), e)
    case Not(a) => TransCompare(a, !equal, lit)
    case Bin(o, l, r) =>
      var a, b := TransCompare(l, true, lit), TransCompare(r, true, lit);
      Negate(!equal, Bin(if lit == Yes then o else o.Dual(), a, b))
  }

  /** The same on a possibly absent expression. */
  function TransCompareOpt(e: Option<Expr>, equal: bool, lit: Symbol): Expr
    requires lit == Yes || lit == No
  {
    match e
    case None => Negate(!equal, Var(lit))
    case Some(x) => TransCompare(x, equal, lit)
  }

  predicate NotFree(e: Expr) {
    match e
    case Not(_) => false
    case Bin(_, l, r) => NotFree(l) && NotFree(r)
    case _ => true
  }

  /** Every symbol standing alone shows its tristate value as its text. */
  predicate PlainOperands(e: Expr) {
    match e
    case Var(s) => s.BoolOrTri() || s.Literal()
    case Comp(_, _, _) => true
    case Not(a) => PlainOperands(a)
    case Bin(_, l, r) => PlainOperands(l) && PlainOperands(r)
  }

  /** In all three values for expressions without negation, in two values for all expressions: the
      result is y exactly when the comparison holds, and never m. */
  lemma {:induction false} TransCompareExact(e: Expr, equal: bool, lit: Symbol, env: Env)
    requires lit == Yes || lit == No
    requires WellFormed(env) && PlainOperands(e)
    requires NotFree(e) || (TwoValued(env) && NoModLiteral(e))
    ensures Val(TransCompare(e, equal, lit), env) == if (Val(e, env) == TriOf(lit, env)) == equal then YES else NO
  {
    match e
    case Var(s) => SymbolText(s, env);
    case Comp(_, _, _) =>
    case Not(a) =>
      TransCompareExact(a, !equal, lit, env);
      TwoValuedIsDefinite(a, env);
    case Bin(_, l, r) =>
      TransCompareExact(l, true, lit, env);
      TransCompareExact(r, true, lit, env);
  }

  predicate ComparedRight(e: Expr, equal: bool, lit: Symbol, env: Env)
    requires lit == Yes || lit == No
  {
    Val(TransCompare(e, equal, lit), env) == if (Val(e, env) == TriOf(lit, env)) == equal then YES else NO
  }

  /** The Not case turns !a = y into a != y and so on: right exactly when the operand is not m. */
  lemma NegationComparedExactlyWhen(a: Expr, equal: bool, lit: Symbol, env: Env)
    requires lit == Yes || lit == No
    requires WellFormed(env) && PlainOperands(a) && NotFree(a)
    ensures ComparedRight(Not(a), equal, lit, env) <==> Val(a, env) != MOD
  {
    TransCompareExact(a, !equal, lit, env);
  }

  /** !A with A at m is m, yet !A = y becomes A != y, which is y. */
  lemma NegationComparesModWrongly(a: Symbol, env: Env)
    requires WellFormed(env) && a.HasType(Tristate) && env.tri(a) == MOD
    ensures Val(Not(Var(a)), env) != YES && Val(TransCompare(Not(Var(a)), true, Yes), env) == YES
  {
    SymbolText(a, env);
  }

  predicate Contains(e: Expr, s: Symbol) {
    match e
    case Var(x) => x == s
    case Comp(_, a, b) => a == s || b == s
    case Not(a) => Contains(a, s)
    case Bin(_, l, r) => Contains(l, s) || Contains(r, s)
  }

  predicate ContainsOpt(e: Option<Expr>, s: Symbol) { e.Some? && Contains(e.value, s) }

  predicate Depends(e: Expr, s: Symbol) {
    match e
    case Var(x) => x == s
    case Comp(q, a, b) => a == s && (if q then b == Yes || b == Mod else b == No)
    case Not(_) => false
    case Bin(o, l, r) => o == And && (Depends(l, s) || Depends(r, s))
  }

  /** expr_contains_symbol finds every symbol the value can depend on: changing a symbol it does
      not find changes nothing. */
  lemma {:induction false} NotContainedIsIrrelevant(e: Expr, s: Symbol, env: Env, env': Env)
    requires !Contains(e, s) && env.modules == env'.modules
    requires forall x: Symbol :: x != s ==> TriOf(x, env) == TriOf(x, env') && StrOf(x, env) == StrOf(x, env')
    ensures Val(e, env) == Val(e, env')
  {
    match e
    case Not(a) => NotContainedIsIrrelevant(a, s, env, env');
    case Bin(_, l, r) => NotContainedIsIrrelevant(l, s, env, env'); NotContainedIsIrrelevant(r, s, env, env');
    case _ =>
  }

  /** expr_depends_symbol is right to nest without a further check: the expression is n whenever the
      symbol is, and it also contains the symbol. */
  lemma {:induction false} DependsMeansImplied(e: Expr, s: Symbol, env: Env)
    requires WellFormed(env) && Depends(e, s) && s.BoolOrTri()
    ensures TriOf(s, env) == NO ==> Val(e, env) == NO
    ensures Contains(e, s)
  {
    match e
    case Var(_) =>
    case Comp(_, _, _) => SymbolText(s, env);
    case Bin(_, l, r) => if Depends(l, s) { DependsMeansImplied(l, s, env); } else { DependsMeansImplied(r, s, env); }
  }
}
