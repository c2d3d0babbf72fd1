/** The dependencies that menu_finalize of kconfig/menu.c gathers at the symbols: the direct ones, from the
    conditions of their definitions, and the reverse ones, from whatever selects them. */
module KconfigDependencies {
  import opened Common
  import opened KconfigExpr
  import opened KconfigCompare
  import opened KconfigProperty

  /** One operand, for the symbol whose dependency it goes into. */
  datatype Record = Direct(sym: Symbol, cond: Expr) | Reverse(sym: Symbol, cond: Expr)

  /** expr_alloc_or. */
  function AllocOr(a: Option<Expr>, b: Option<Expr>): Option<Expr> {
    if a.None? then b else if b.None? then a else Some(Bin(Or, a.value, b.value))
  }

  predicate Concerns(r: Record, s: Symbol, direct: bool) { r.sym == s && r.Direct? == direct }

  /** What has been gathered for a symbol, in the order in which it came. */
  function Gathered(log: seq<Record>, s: Symbol, direct: bool): Option<Expr> {
    if log == [] then None
    else
      var before, last := Gathered(log[..|log| - 1], s, direct), log[|log| - 1];
      if Concerns(last, s, direct) then AllocOr(before, Some(last.cond)) else before
  }

  /** It mentions what its operands mention. */
  lemma {:induction false} GatheredContains(log: seq<Record>, s: Symbol, direct: bool, t: Symbol)
    ensures ContainsOpt(Gathered(log, s, direct), t) <==>
              exists r <- log :: Concerns(r, s, direct) && Contains(r.cond, t)
    ensures Gathered(log, s, direct).Some? <==> exists r <- log :: Concerns(r, s, direct)
  {
    if log != [] {
      var before, last := log[..|log| - 1], log[|log| - 1];
      GatheredContains(before, s, direct, t);
      assert log == before + [last];
      assert last in log;
    }
  }

  /** Its value is the greatest of theirs; without any it is absent. */
  lemma {:induction false} GatheredValue(log: seq<Record>, s: Symbol, direct: bool, env: Env)
    ensures forall r <- log :: Concerns(r, s, direct) ==>
              var e := Gathered(log, s, direct); e.Some? && Val(r.cond, env) <= Val(e.value, env)
    ensures Gathered(log, s, direct).Some? ==>
              exists r <- log :: Concerns(r, s, direct) && Val(r.cond, env) == Val(Gathered(log, s, direct).value, env)
  {
    if log != [] {
      var before, last := log[..|log| - 1], log[|log| - 1];
      GatheredValue(before, s, direct, env);
      assert log == before + [last];
      assert last in log;
    }
  }

  function Lookup(m: map<Symbol, Expr>, s: Symbol): Option<Expr> { if s in m then Some(m[s]) else None }

  /** A symbol's own condition, as one record or, when it has none, none. */
  function DirectOf(sym: Symbol, dep: Option<Expr>): seq<Record> {
    if dep.Some? then [Direct(sym, dep.value)] else []
  }

  /** The owner && the property's condition goes to the symbol that the property selects. */
  function SelectOf(owner: Option<Symbol>, p: Property): seq<Record> {
    if owner.Some? && p.kind == SelectProp && p.value.Some? && p.value.value.Var? then
      [Reverse(p.value.value.sym, AllocAnd(Some(Var(owner.value)), p.visible).value)]
    else []
  }

  function SelectsOf(owner: Option<Symbol>, props: seq<Property>): seq<Record> {
    if props == [] then [] else SelectsOf(owner, props[..|props| - 1]) + SelectOf(owner, props[|props| - 1])
  }

  /** dir_dep and rev_dep of all symbols. */
  class Dependencies {
    var dirDep: map<Symbol, Expr>
    var revDep: map<Symbol, Expr>
    ghost var log: seq<Record>

    ghost predicate Valid()
      reads `dirDep, `revDep, `log
    {
      forall s :: Lookup(dirDep, s) == Gathered(log, s, true) && Lookup(revDep, s) == Gathered(log, s, false)
    }

    constructor ()
      ensures Valid() && log == []
    {
      dirDep, revDep, log := map[], map[], [];
    }

    method AddDirect(sym: Symbol, dep: Option<Expr>)
      requires Valid()
      modifies `dirDep, `revDep, `log
      ensures Valid() && log == old(log) + DirectOf(sym, dep)
    {
      if dep.Some? {
        dirDep := dirDep[sym := AllocOr(Lookup(dirDep, sym), dep).value];
        log := log + [Direct(sym, dep.value)];
        assert log[..|log| - 1] == old(log);
      }
    }

    method AddSelect(owner: Option<Symbol>, p: Property)
      requires Valid()
      modifies `dirDep, `revDep, `log
      ensures Valid() && log == old(log) + SelectOf(owner, p)
    {
      if owner.Some? && p.kind == SelectProp && p.value.Some? && p.value.value.Var? {
        var target := p.value.value.sym;
        var cond := AllocAnd(Some(Var(owner.value)), p.visible);
        revDep := revDep[target := AllocOr(Lookup(revDep, target), cond).value];
        log := log + [Reverse(target, cond.value)];
        assert log[..|log| - 1] == old(log);
      }
    }
  }
}
