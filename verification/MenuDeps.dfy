/** menu_check_dep of kconfig/menu.c: in the conditions written in a Kconfig file the literal m stands
    for m && MODULES. What that means, and when it makes conditions definite. */
module KconfigMenuDeps {
  import opened KconfigExpr

  function CheckDep(e: Expr, modules: Symbol): Expr {
    match e
    case Not(a) => Not(CheckDep(a, modules))
    case Bin(o, l, r) => Bin(o, CheckDep(l, modules), CheckDep(r, modules))
    case Var(s) => if s == Mod then Bin(And, e, Var(modules)) else e
    case _ => e
  }

  /** The value of an expression when the literal m, standing alone, has the value `m`. */
  function ValReading(e: Expr, env: Env, m: Tri): Tri {
    match e
    case Var(s) => if s == Mod then m else TriOf(s, env)
    case Not(a) => 2 - ValReading(a, env, m)
    case Bin(o, l, r) => o.Apply(ValReading(l, env, m), ValReading(r, env, m))
    case Comp(_, _, _) => Val(e, env)
  }

  /** The rewritten condition reads every m as the lesser of m and MODULES. */
  lemma {:induction false} CheckDepExact(e: Expr, modules: Symbol, env: Env)
    ensures Val(CheckDep(e, modules), env) == ValReading(e, env, Min(MOD, TriOf(modules, env)))
  {
    match e
    case Not(a) => CheckDepExact(a, modules, env);
    case Bin(_, l, r) => CheckDepExact(l, modules, env); CheckDepExact(r, modules, env);
    case _ =>
  }

  lemma {:induction false} ReadingMod(e: Expr, env: Env)
    ensures ValReading(e, env, MOD) == Val(e, env)
  {
    match e
    case Not(a) => ReadingMod(a, env);
    case Bin(_, l, r) => ReadingMod(l, env); ReadingMod(r, env);
    case _ =>
  }

  /** With modules the rewriting changes nothing. */
  lemma CheckDepKeepsValueWithModules(e: Expr, modules: Symbol, env: Env)
    requires TriOf(modules, env) != NO
    ensures Val(CheckDep(e, modules), env) == Val(e, env)
  {
    CheckDepExact(e, modules, env);
    ReadingMod(e, env);
  }

  /** Without modules, and with every symbol n or y, a rewritten condition is n or y. */
  lemma {:induction false} CheckDepIsDefinite(e: Expr, modules: Symbol, env: Env)
    requires TwoValued(env) && TriOf(modules, env) == NO
    ensures Val(CheckDep(e, modules), env) != MOD
  {
    match e
    case Not(a) => CheckDepIsDefinite(a, modules, env);
    case Bin(_, l, r) => CheckDepIsDefinite(l, modules, env); CheckDepIsDefinite(r, modules, env);
    case _ =>
  }

  /** The literal m only occurs as in m && MODULES: so in every rewritten condition and their conjunctions. */
  predicate Checked(e: Expr, modules: Symbol) {
    match e
    case Var(s) => s != Mod
    case Comp(_, _, _) => true
    case Not(a) => Checked(a, modules)
    case Bin(o, l, r) =>
      (o == And && l == Var(Mod) && r == Var(modules)) || (Checked(l, modules) && Checked(r, modules))
  }

  lemma {:induction false} CheckDepIsChecked(e: Expr, modules: Symbol)
    ensures Checked(CheckDep(e, modules), modules)
  {
    match e
    case Not(a) => CheckDepIsChecked(a, modules);
    case Bin(_, l, r) => CheckDepIsChecked(l, modules); CheckDepIsChecked(r, modules);
    case _ =>
  }

  lemma {:induction false} CheckedIsDefinite(e: Expr, modules: Symbol, env: Env)
    requires Checked(e, modules) && TwoValued(env) && TriOf(modules, env) == NO
    ensures Val(e, env) != MOD
  {
    match e
    case Not(a) => CheckedIsDefinite(a, modules, env);
    case Bin(o, l, r) =>
      if !(o == And && l == Var(Mod) && r == Var(modules)) {
        CheckedIsDefinite(l, modules, env);
        CheckedIsDefinite(r, modules, env);
      }
    case _ =>
  }
}
