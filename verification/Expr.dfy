/** Symbols, dependency expressions and their three-valued meaning
    (kconfig/expr.h, and expr_calc_value of kconfig/expr.c). */
module KconfigExpr {
  import opened Common

  /** no, mod and yes are the numbers 0, 1 and 2, as in the source's enumeration. */
  type Tri = x: int | 0 <= x <= 2
  const NO: Tri := 0
  const MOD: Tri := 1
  const YES: Tri := 2

  function Min(a: Tri, b: Tri): Tri { if a < b then a else b }
  function Max(a: Tri, b: Tri): Tri { if a > b then a else b }

  datatype SymType = Unknown | Boolean | Tristate | Int | Hex | Str | Other

  /** A symbol's identity. `Yes`, `Mod` and `No` are the three built-in constants, `Const` is a
      quoted constant, `Sym` any other named symbol. */
  datatype Symbol = Yes | Mod | No | Const(text: string) | Sym(name: string, typ: SymType) {
    predicate HasType(t: SymType) { Sym? && typ == t }
    predicate BoolOrTri() { HasType(Boolean) || HasType(Tristate) }
    predicate Literal() { Yes? || Mod? || No? }
    predicate IsConst() { Literal() || Const? }
  }

  datatype Op = Or | And {
    function Dual(): Op { if this == Or then And else Or }
    // The operand that leaves a chain of this connective unchanged, and the one that decides it.
    function Unit(): Expr { if this == Or then Var(No) else Var(Yes) }
    function Zero(): Expr { if this == Or then Var(Yes) else Var(No) }
    function Apply(a: Tri, b: Tri): Tri { if this == Or then Max(a, b) else Min(a, b) }
  }

  datatype Expr =
    | Var(sym: Symbol)
    | Comp(equal: bool, lhs: Symbol, rhs: Symbol)
    | Not(arg: Expr)
    | Bin(op: Op, left: Expr, right: Expr)
  {
    predicate Is(o: Op) { Bin? && op == o }
  }

  function Size(e: Expr): (n: nat)
    ensures n >= 1
  {
    match e
    case Var(_) => 1
    case Comp(_, _, _) => 1
    case Not(a) => 1 + Size(a)
    case Bin(_, l, r) => 1 + Size(l) + Size(r)
  }

  // ---------------------------------------------------------------- environments

  /** The values the symbols have been given. */
  datatype Env = Env(tri: Symbol -> Tri, str: Symbol -> string, modules: bool)

  function TriOf(s: Symbol, env: Env): Tri {
    match s
    case Yes => YES
    case Mod => MOD
    case No => NO
    case _ => env.tri(s)
  }

  function TriText(t: Tri): (r: string)
    ensures |r| == 1
    ensures r[0] == if t == NO then 'n' else if t == MOD then 'm' else 'y'
  {
    if t == NO then "n" else if t == MOD then "m" else "y"
  }

  function StrOf(s: Symbol, env: Env): string {
    match s
    case Yes => TriText(YES)
    case Mod => TriText(MOD)
    case No => TriText(NO)
    case Const(_) => env.str(s)
    case Sym(_, t) =>
      if t == Boolean || t == Tristate then
        // A tristate at m reads as n while modules are disabled.
        TriText(if env.tri(s) == MOD && !env.modules then NO else env.tri(s))
      else
        env.str(s)
  }

  ghost predicate WellFormed(env: Env) {
    && (forall s: Symbol {:trigger env.tri(s)} ::
          && (s.HasType(Boolean) ==> env.tri(s) != MOD)
          && (s.HasType(Tristate) && env.tri(s) == MOD ==> env.modules)
          && (!s.BoolOrTri() ==> env.tri(s) == NO))
    && (forall s: Symbol, t: Tri {:trigger env.str(s), TriText(t)} :: s.Const? ==> env.str(s) != TriText(t))
    && (forall s: Symbol, t: Symbol {:trigger env.str(s), env.str(t)} ::
          s.Const? && t.Const? && env.str(s) == env.str(t) ==> s == t)
  }

  /** Every symbol is n or y. */
  ghost predicate TwoValued(env: Env) {
    forall s: Symbol {:trigger env.tri(s)} :: env.tri(s) != MOD
  }

  function Val(e: Expr, env: Env): Tri {
    match e
    case Var(s) => TriOf(s, env)
    case Comp(q, a, b) => if (StrOf(a, env) == StrOf(b, env)) == q then YES else NO
    case Not(a) => 2 - Val(a, env)
    case Bin(o, l, r) => o.Apply(Val(l, env), Val(r, env))
  }

  /** A boolean or tristate symbol and the three constants show their value as their text. */
  lemma SymbolText(s: Symbol, env: Env)
    requires WellFormed(env) && (s.BoolOrTri() || s.Literal())
    ensures StrOf(s, env) == TriText(TriOf(s, env))
  {
    if s.Sym? { assert env.tri(s) == TriOf(s, env); }
  }

  /** An absent expression counts as y. */
  function OptVal(e: Option<Expr>, env: Env): Tri {
    match e
    case None => YES
    case Some(x) => Val(x, env)
  }

  function AllocAnd(a: Option<Expr>, b: Option<Expr>): (r: Option<Expr>)
    ensures forall env :: OptVal(r, env) == Min(OptVal(a, env), OptVal(b, env))
  {
    if a.None? then b else if b.None? then a else Some(Bin(And, a.value, b.value))
  }

  // ---------------------------------------------------------------- comparing meanings

  /** Same value in every well-formed environment. */
  ghost predicate Equiv(a: Expr, b: Expr) {
    forall env: Env {:trigger Val(b, env)} {:trigger Val(a, env)} :: WellFormed(env) ==> Val(a, env) == Val(b, env)
  }

  /** `b` agrees with `a` wherever `a` has a definite value, n or y; where `a` is m, `b` may be
      anything. */
  ghost predicate Sharpens(a: Expr, b: Expr) {
    forall env: Env {:trigger Val(b, env)} {:trigger Val(a, env)} :: WellFormed(env) && Val(a, env) != MOD ==>
      Val(b, env) == Val(a, env)
  }

  predicate NoModLiteral(e: Expr) {
    match e
    case Var(s) => s != Mod
    case Comp(_, _, _) => true
    case Not(a) => NoModLiteral(a)
    case Bin(_, l, r) => NoModLiteral(l) && NoModLiteral(r)
  }

  /** Without the literal m and with every symbol n or y, no expression is m. */
  lemma {:induction false} TwoValuedIsDefinite(e: Expr, env: Env)
    requires TwoValued(env) && NoModLiteral(e)
    ensures Val(e, env) != MOD
  {
    match e
    case Var(_) =>
    case Comp(_, _, _) =>
    case Not(a) => TwoValuedIsDefinite(a, env);
    case Bin(_, l, r) => TwoValuedIsDefinite(l, env); TwoValuedIsDefinite(r, env);
  }
}
