/** Merging two operands of one chain (expr_join_or and expr_join_and of kconfig/expr.c). */
module KconfigJoins {
  import opened Common
  import opened KconfigExpr
  import opened KconfigEliminateEq

  /** The symbol an operand tests; only the first operand may negate a comparison. */
  function TestedSymbol(e: Expr, first: bool): Option<Symbol> {
    match e
    case Var(s) => Some(s)
    case Comp(_, a, _) => Some(a)
    case Not(Var(s)) => Some(s)
    case Not(Comp(_, a, _)) => if first then Some(a) else None
    case _ => None
  }

  /** `a` and `b` are the literals `x` and `y`, in either order. */
  predicate Pair(a: Symbol, b: Symbol, x: Symbol, y: Symbol) {
    (a == x && b == y) || (a == y && b == x)
  }

  /** One operand is the plain symbol, the other compares it (with the given sense) with `lit`. */
  predicate VarAndTest(e1: Expr, e2: Expr, equal: bool, lit: Symbol) {
    || (e1.Var? && e2.Comp? && e2.equal == equal && e2.rhs == lit)
    || (e2.Var? && e1.Comp? && e1.equal == equal && e1.rhs == lit)
  }

  function JoinOr(e1: Expr, e2: Expr): Option<Expr> {
    if ExprEq(e1, e2) then Some(e1) else JoinTestsOr(e1, e2)
  }

  /** The operands are different tests of one symbol. */
  function JoinTestsOr(e1: Expr, e2: Expr): Option<Expr> {
    var s1, s2 := TestedSymbol(e1, true), TestedSymbol(e2, false);
    if s1.None? || s2.None? || s1 != s2 || !s1.value.BoolOrTri() then None else
    var sym := s1.value;
    if sym.typ == Tristate && e1.Comp? && e2.Comp? && e1.equal && e2.equal then
      if Pair(e1.rhs, e2.rhs, Yes, Mod) then Some(Comp(false, sym, No))
      else if Pair(e1.rhs, e2.rhs, Yes, No) then Some(Comp(false, sym, Mod))
      else if Pair(e1.rhs, e2.rhs, Mod, No) then Some(Comp(false, sym, Yes))
      else None
    else if sym.typ == Boolean && ((e1 == Not(Var(sym)) && e2.Var?) || (e2 == Not(Var(sym)) && e1.Var?)) then
      Some(Var(Yes))
    else None
  }

  function JoinAnd(e1: Expr, e2: Expr): Option<Expr> {
    if ExprEq(e1, e2) then Some(e1) else JoinTestsAnd(e1, e2)
  }

  function JoinTestsAnd(e1: Expr, e2: Expr): Option<Expr> {
    var s1, s2 := TestedSymbol(e1, true), TestedSymbol(e2, false);
    if s1.None? || s2.None? || s1 != s2 || !s1.value.BoolOrTri() then None else
    var sym := s1.value;
    if VarAndTest(e1, e2, true, Yes) then Some(Comp(true, sym, Yes))
    else if VarAndTest(e1, e2, false, No) then Some(Var(sym))
    else if VarAndTest(e1, e2, false, Mod) then Some(Comp(true, sym, Yes))
    else if sym.typ == Tristate && e1.Comp? && e2.Comp? then
      // (a='b') && (a!='c') is n when b and c are the same constant, otherwise just a='b'.
      if e1.equal && !e2.equal && e1.rhs.IsConst() && e2.rhs.IsConst() then
        Some(if e1.rhs != e2.rhs then Comp(true, sym, e1.rhs) else Var(No))
      else if !e1.equal && e2.equal && e1.rhs.IsConst() && e2.rhs.IsConst() then
        Some(if e1.rhs != e2.rhs then Comp(true, sym, e2.rhs) else Var(No))
      else if !e1.equal && !e2.equal && Pair(e1.rhs, e2.rhs, Yes, No) then Some(Comp(true, sym, Mod))
      else if !e1.equal && !e2.equal && Pair(e1.rhs, e2.rhs, Yes, Mod) then Some(Comp(true, sym, No))
      else if !e1.equal && !e2.equal && Pair(e1.rhs, e2.rhs, Mod, No) then Some(Comp(true, sym, Yes))
      else None
    else None
  }

  function Join(o: Op, e1: Expr, e2: Expr): (r: Option<Expr>)
    ensures r.Some? ==> Size(r.value) <= Size(e1) && (r.value == e1 || !r.value.Bin?)
  {
    if o == Or then JoinOr(e1, e2) else JoinAnd(e1, e2)
  }

  // ---------------------------------------------------------------- what is joined

  /** An && or || of two comparisons of one tristate symbol with constants is always joined, unless it is an &&
      of two equalities, or an || that has an inequality. */
  lemma ComparisonsJoin(s: Symbol, a: Symbol, b: Symbol)
    requires s.HasType(Tristate) && a.Literal() && b.Literal()
    ensures JoinOr(Comp(true, s, a), Comp(true, s, b)).Some?
    ensures JoinAnd(Comp(false, s, a), Comp(false, s, b)).Some?
    ensures JoinAnd(Comp(true, s, a), Comp(false, s, b)).Some? && JoinAnd(Comp(false, s, a), Comp(true, s, b)).Some?
  {
  }

  /** A symbol with a test that it is set, either way round, and a boolean symbol with its negation. */
  lemma SymbolAndTestJoin(s: Symbol, test: Expr)
    requires s.BoolOrTri() && test in {Comp(true, s, Yes), Comp(false, s, No), Comp(false, s, Mod)}
    ensures JoinAnd(Var(s), test).Some? && JoinAnd(test, Var(s)).Some?
    ensures s.typ == Boolean ==> JoinOr(Var(s), Not(Var(s))).Some? && JoinOr(Not(Var(s)), Var(s)).Some?
  {
  }

  // ---------------------------------------------------------------- what it means

  /** The four texts that matter: the constants' are pairwise different, and a symbol that is
      boolean or tristate shows its own value. */
  lemma ConstantTexts(a: Symbol, b: Symbol, env: Env)
    requires WellFormed(env) && a.IsConst() && b.IsConst()
    ensures StrOf(a, env) == StrOf(b, env) <==> a == b
  {
    if a.Const? && !b.Const? { assert env.str(a) != TriText(TriOf(b, env)); }
    if b.Const? && !a.Const? { assert env.str(b) != TriText(TriOf(a, env)); }
  }

  lemma JoinOrExact(e1: Expr, e2: Expr, env: Env)
    requires WellFormed(env) && JoinOr(e1, e2).Some?
    ensures Val(JoinOr(e1, e2).value, env) == Max(Val(e1, env), Val(e2, env))
  {
    if ExprEq(e1, e2) {
      ExprEqSound(e1, e2, env);
    } else {
      SymbolText(TestedSymbol(e1, true).value, env);
    }
  }

  lemma JoinAndExact(e1: Expr, e2: Expr, env: Env)
    requires WellFormed(env) && JoinAnd(e1, e2).Some?
    ensures Val(JoinAnd(e1, e2).value, env) == Min(Val(e1, env), Val(e2, env))
  {
    if ExprEq(e1, e2) {
      ExprEqSound(e1, e2, env);
    } else {
      SymbolText(TestedSymbol(e1, true).value, env);
      if e1.Comp? && e2.Comp? && e1.rhs.IsConst() && e2.rhs.IsConst() {
        ConstantTexts(e1.rhs, e2.rhs, env);
      }
    }
  }

  /** Every join computes the connective of its two operands, in all three values. */
  lemma JoinExact(o: Op, e1: Expr, e2: Expr, env: Env)
    requires WellFormed(env) && Join(o, e1, e2).Some?
    ensures Val(Join(o, e1, e2).value, env) == o.Apply(Val(e1, env), Val(e2, env))
  {
    if o == Or { JoinOrExact(e1, e2, env); } else { JoinAndExact(e1, e2, env); }
  }
}
