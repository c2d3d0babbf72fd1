/** Cancelling common operands of two && / || chains, and the equality test built on it
    (__expr_eliminate_eq, expr_eliminate_eq, expr_eq and expr_extract_eq of kconfig/expr.c). */
module KconfigEliminateEq {
  import opened Common
  import opened KconfigExpr
  import opened KconfigTransform

  // The three functions call each other. Sizes never grow; at equal size the rank falls, because
  // a cancellation started by EliminateEq splits a chain before it compares operands again.

  /** __expr_eliminate_eq: compare every operand of `e1`'s chain with every operand of `e2`'s and
      replace both members of an equal pair by the connective's unit. */
  function Cancel(o: Op, e1: Expr, e2: Expr): (r: (Expr, Expr))
    ensures Size(r.0) <= Size(e1) && Size(r.1) <= Size(e2)
    ensures e1.Is(o) ==> r.0.Is(o)
    ensures e2.Is(o) ==> r.1.Is(o)
    decreases Size(e1) + Size(e2), if e1.Is(o) || e2.Is(o) then 0 else 3
  {
    if e1.Is(o) then
      var (l, e2a) := Cancel(o, e1.left, e2);
      var (r, e2b) := Cancel(o, e1.right, e2a);
      (Bin(o, l, r), e2b)
    else if e2.Is(o) then
      var (e1a, l) := Cancel(o, e1, e2.left);
      var (e1b, r) := Cancel(o, e1a, e2.right);
      (e1b, Bin(o, l, r))
    else if e1 == e2 && (e1 == Var(Yes) || e1 == Var(No)) then
      (e1, e2)
    else if !ExprEq(e1, e2) then
      (e1, e2)
    else
      (o.Unit(), o.Unit())
  }

  /** expr_eliminate_eq on two present expressions. */
  function EliminateEq(e1: Expr, e2: Expr): (r: (Expr, Expr))
    ensures Size(r.0) <= Size(e1) && Size(r.1) <= Size(e2)
    decreases Size(e1) + Size(e2), 1
  {
    var (a1, a2) := if e1.Bin? then Cancel(e1.op, e1, e2) else (e1, e2);
    var (b1, b2) := if a2.Bin? && !a1.Is(a2.op) then Cancel(a2.op, a1, a2) else (a1, a2);
    (EliminateYn(b1), EliminateYn(b2))
  }

  /** expr_eq. */
  predicate ExprEq(e1: Expr, e2: Expr)
    decreases Size(e1) + Size(e2), 2
  {
    match (e1, e2)
    case (Comp(_, _, _), Comp(_, _, _)) => e1 == e2
    case (Var(_), Var(_)) => e1 == e2
    case (Not(a), Not(b)) => ExprEq(a, b)
    case (Bin(o1, _, _), Bin(o2, _, _)) =>
      o1 == o2 &&
      var (r1, r2) := EliminateEq(e1, e2);
      r1.Var? && r1 == r2
    case _ => false
  }

  // ---------------------------------------------------------------- soundness

  lemma Regroup(o: Op, a: Tri, y: Tri, b: Tri, z: Tri)
    ensures o.Apply(o.Apply(a, y), o.Apply(b, z)) == o.Apply(o.Apply(a, b), o.Apply(y, z))
  {
  }

  lemma Chain(o: Op, a: Tri, z: Tri, y: Tri)
    ensures o.Apply(o.Apply(a, z), y) == o.Apply(a, o.Apply(y, z)) == o.Apply(a, o.Apply(z, y))
  {
  }

  /** What was cancelled has one common value `x`, which both chains combine with the rest. */
  lemma {:induction false} CancelSound(o: Op, e1: Expr, e2: Expr, env: Env) returns (x: Tri)
    ensures Val(e1, env) == o.Apply(Val(Cancel(o, e1, e2).0, env), x)
    ensures Val(e2, env) == o.Apply(Val(Cancel(o, e1, e2).1, env), x)
    decreases Size(e1) + Size(e2), if e1.Is(o) || e2.Is(o) then 0 else 4
  {
    x := if o == Or then NO else YES;
    if e1.Is(o) {
      var (l, e2a) := Cancel(o, e1.left, e2);
      var (r, e2b) := Cancel(o, e1.right, e2a);
      var y := CancelSound(o, e1.left, e2, env);
      var z := CancelSound(o, e1.right, e2a, env);
      x := o.Apply(y, z);
      Regroup(o, Val(l, env), y, Val(r, env), z);
      Chain(o, Val(e2b, env), z, y);
    } else if e2.Is(o) {
      var (e1a, l) := Cancel(o, e1, e2.left);
      var (e1b, r) := Cancel(o, e1a, e2.right);
      var y := CancelSound(o, e1, e2.left, env);
      var z := CancelSound(o, e1a, e2.right, env);
      x := o.Apply(y, z);
      Regroup(o, Val(l, env), y, Val(r, env), z);
      Chain(o, Val(e1b, env), z, y);
    } else if e1 == e2 && (e1 == Var(Yes) || e1 == Var(No)) {
    } else if ExprEq(e1, e2) {
      ExprEqSound(e1, e2, env);
      x := Val(e1, env);
    }
  }

  lemma {:induction false} CancelReflectsOrder(o: Op, e1: Expr, e2: Expr, env: Env)
    requires e1.Is(o) || e2.Is(o)
    ensures var (r1, r2) := Cancel(o, e1, e2);
      && (Val(r1, env) <= Val(r2, env) ==> Val(e1, env) <= Val(e2, env))
      && (Val(r2, env) <= Val(r1, env) ==> Val(e2, env) <= Val(e1, env))
    decreases Size(e1) + Size(e2), 1
  {
    var x := CancelSound(o, e1, e2, env);
  }

  /** The order of the two results is reflected by the two inputs, both ways round. */
  lemma {:induction false} EliminateEqReflectsOrder(e1: Expr, e2: Expr, env: Env)
    ensures var (r1, r2) := EliminateEq(e1, e2);
      && (Val(r1, env) <= Val(r2, env) ==> Val(e1, env) <= Val(e2, env))
      && (Val(r2, env) <= Val(r1, env) ==> Val(e2, env) <= Val(e1, env))
    decreases Size(e1) + Size(e2), 2
  {
    var (a1, a2) := if e1.Bin? then Cancel(e1.op, e1, e2) else (e1, e2);
    var (b1, b2) := if a2.Bin? && !a1.Is(a2.op) then Cancel(a2.op, a1, a2) else (a1, a2);
    if e1.Bin? { CancelReflectsOrder(e1.op, e1, e2, env); }
    if a2.Bin? && !a1.Is(a2.op) { CancelReflectsOrder(a2.op, a1, a2, env); }
    EliminateYnExact(b1, env);
    EliminateYnExact(b2, env);
  }

  lemma {:induction false} ExprEqSound(e1: Expr, e2: Expr, env: Env)
    requires ExprEq(e1, e2)
    ensures Val(e1, env) == Val(e2, env)
    decreases Size(e1) + Size(e2), 3
  {
    match (e1, e2)
    case (Not(a), Not(b)) => ExprEqSound(a, b, env);
    case (Bin(_, _, _), Bin(_, _, _)) => EliminateEqReflectsOrder(e1, e2, env);
    case _ =>
  }

  /** When cancelling `dep` against a copy of `basedep` leaves y of the latter, every environment
      has dep <= basedep: the test menu_finalize nests entries by. */
  lemma CancelledToYesMeansImplied(dep: Expr, basedep: Expr, env: Env)
    requires EliminateEq(dep, basedep).1 == Var(Yes)
    ensures Val(dep, env) <= Val(basedep, env)
  {
    EliminateEqReflectsOrder(dep, basedep, env);
  }

  // ---------------------------------------------------------------- expr_extract_eq

  /** expr_extract_eq: like Cancel, but the operands common to both are also collected in `acc`,
      and equal constants are extracted too. */
  function ExtractEq(o: Op, acc: Option<Expr>, e1: Expr, e2: Expr): (r: (Option<Expr>, Expr, Expr))
    ensures Size(r.1) <= Size(e1) && Size(r.2) <= Size(e2)
    decreases Size(e1) + Size(e2)
  {
    if e1.Is(o) then
      var (acc1, l, e2a) := ExtractEq(o, acc, e1.left, e2);
      var (acc2, r, e2b) := ExtractEq(o, acc1, e1.right, e2a);
      (acc2, Bin(o, l, r), e2b)
    else if e2.Is(o) then
      var (acc1, e1a, l) := ExtractEq(o, acc, e1, e2.left);
      var (acc2, e1b, r) := ExtractEq(o, acc1, e1a, e2.right);
      (acc2, e1b, Bin(o, l, r))
    else if ExprEq(e1, e2) then
      (Some(if acc.Some? then Bin(o, acc.value, e1) else e1), o.Unit(), o.Unit())
    else
      (acc, e1, e2)
  }

  /** expr_extract_eq_and and expr_extract_eq_or. */
  function ExtractCommon(o: Op, e1: Expr, e2: Expr): (Option<Expr>, Expr, Expr) {
    var (common, r1, r2) := ExtractEq(o, None, e1, e2);
    if common.Some? then (common, EliminateYn(r1), EliminateYn(r2)) else (common, r1, r2)
  }

  function ValOr(d: Tri, e: Option<Expr>, env: Env): Tri {
    if e.Some? then Val(e.value, env) else d
  }

  lemma {:induction false} ExtractEqSound(o: Op, acc: Option<Expr>, e1: Expr, e2: Expr, env: Env) returns (x: Tri)
    ensures var (acc', r1, r2) := ExtractEq(o, acc, e1, e2);
      && Val(e1, env) == o.Apply(Val(r1, env), x)
      && Val(e2, env) == o.Apply(Val(r2, env), x)
      && ValOr(Val(o.Unit(), env), acc', env) == o.Apply(ValOr(Val(o.Unit(), env), acc, env), x)
    decreases Size(e1) + Size(e2)
  {
    x := if o == Or then NO else YES;
    if e1.Is(o) {
      var (acc1, l, e2a) := ExtractEq(o, acc, e1.left, e2);
      var (acc2, r, e2b) := ExtractEq(o, acc1, e1.right, e2a);
      var y := ExtractEqSound(o, acc, e1.left, e2, env);
      var z := ExtractEqSound(o, acc1, e1.right, e2a, env);
      x := o.Apply(y, z);
      Regroup(o, Val(l, env), y, Val(r, env), z);
      Chain(o, Val(e2b, env), z, y);
      Chain(o, ValOr(Val(o.Unit(), env), acc, env), y, z);
    } else if e2.Is(o) {
      var (acc1, e1a, l) := ExtractEq(o, acc, e1, e2.left);
      var (acc2, e1b, r) := ExtractEq(o, acc1, e1a, e2.right);
      var y := ExtractEqSound(o, acc, e1, e2.left, env);
      var z := ExtractEqSound(o, acc1, e1a, e2.right, env);
      x := o.Apply(y, z);
      Regroup(o, Val(l, env), y, Val(r, env), z);
      Chain(o, Val(e1b, env), z, y);
      Chain(o, ValOr(Val(o.Unit(), env), acc, env), y, z);
    } else if ExprEq(e1, e2) {
      ExprEqSound(e1, e2, env);
      x := Val(e1, env);
    }
  }

  lemma UnitIsNeutral(o: Op, x: Tri, env: Env)
    ensures o.Apply(Val(o.Unit(), env), x) == x
  {
  }

  /** Extraction is exact: the common part, recombined with each remainder, gives back each input. */
  lemma {:induction false} ExtractCommonExact(o: Op, e1: Expr, e2: Expr, env: Env)
    ensures var (common, r1, r2) := ExtractCommon(o, e1, e2);
      var x := ValOr(Val(o.Unit(), env), common, env);
      && Val(e1, env) == o.Apply(Val(r1, env), x)
      && Val(e2, env) == o.Apply(Val(r2, env), x)
  {
    var (common, r1, r2) := ExtractEq(o, None, e1, e2);
    var x := ExtractEqSound(o, None, e1, e2, env);
    UnitIsNeutral(o, x, env);
    assert ValOr(Val(o.Unit(), env), None, env) == Val(o.Unit(), env);
    EliminateYnExact(r1, env);
    EliminateYnExact(r2, env);
  }
}
