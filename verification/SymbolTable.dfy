/** The evaluator as it runs, writing the fields of the symbols (sym_calc_value, sym_calc_visibility
    and sym_set_tristate_value of kconfig/symbol.c). It ends on every configuration and does what the
    evaluator's functions say. */
module KconfigSymbolTable {
  import opened Common
  import opened KconfigExpr
  import opened KconfigSymbolValue
  import E = KconfigEvaluator

  class SymbolTable {
    const defs: Symbol -> SymDef
    const text: Symbol -> string
    const modules: bool
    // The boolean and tristate symbols there are.
    ghost const all: set<Symbol>
    // The values the user has set, and the state of every symbol seen so far.
    var user: map<Symbol, Tri>
    var states: E.States

    constructor (c: Config, ghost all: set<Symbol>)
      ensures Conf() == c && this.all == all && states == map[]
    {
      defs, text, modules, user := c.defs, c.text, c.modules, c.user;
      this.all, states := all, map[];
    }

    function Conf(): Config
      reads this`user
    {
      Config(defs, user, text, modules)
    }

    ghost predicate Valid()
      reads this`user
    {
      E.Closed(Conf(), all)
    }

    function State(s: Symbol): SymState
      reads this`states
    {
      E.StateOf(states, s)
    }

    /** expr_calc_value. */
    method CalcExpr(e: Expr) returns (r: Tri)
      requires Valid() && E.Within(e, all)
      modifies this`states
      ensures (r, states) == E.CalcExpr(Conf(), all, e, old(states))
      decreases all - E.ValidIn(states), 1, e
    {
      match e
      case Var(s) =>
        CalcValue(s);
        r := E.CurrTri(states, s);
      case Comp(q, a, b) =>
        CalcValue(a);
        CalcValue(b);
        r := E.Compare(Conf(), states, q, a, b);
      case Not(a) =>
        r := CalcExpr(a);
        r := 2 - r;
      case Bin(o, l, r0) =>
        var x := CalcExpr(l);
        var y := CalcExpr(r0);
        r := o.Apply(x, y);
    }

    method CalcOpt(e: Option<Expr>, absent: Tri) returns (r: Tri)
      requires Valid() && E.WithinOpt(e, all)
      modifies this`states
      ensures (r, states) == E.CalcOpt(Conf(), all, e, absent, old(states))
      decreases all - E.ValidIn(states), 2
    {
      if e.Some? { r := CalcExpr(e.value); } else { r := absent; }
    }

    /** The loop over the prompts in sym_calc_visibility. */
    method CalcPrompts(ps: seq<Option<Expr>>) returns (tri: Tri)
      requires Valid() && E.PromptsWithin(ps, all)
      modifies this`states
      ensures (tri, states) == E.CalcPrompts(Conf(), all, ps, old(states))
      decreases all - E.ValidIn(states), 3
    {
      tri := NO;
      var i := 0;
      while i < |ps|
        invariant i <= |ps| && (tri, states) == E.CalcPrompts(Conf(), all, ps[..i], old(states))
      {
        assert ps[..i + 1][..i] == ps[..i] && ps[..i + 1][i] == ps[i];
        var t := CalcOpt(ps[i], YES);
        tri := Max(tri, t);
        i := i + 1;
      }
      assert ps[..i] == ps;
    }

    /** sym_calc_visibility. */
    method CalcVisibility(s: Symbol)
      requires Valid() && s in all
      modifies this`states
      ensures states == E.CalcVisibility(Conf(), all, s, old(states))
      decreases all - E.ValidIn(states), 4
    {
      var tri := CalcPrompts(defs(s).prompts);
      states := E.Write(states, s, State(s).(visible := Promote(tri, ActsBoolean(s, modules))));
      var _ := CalcOpt(defs(s).dirDep, YES);
      tri := CalcOpt(defs(s).revDep, NO);
      states := E.Write(states, s, State(s).(selected := Promote(tri, ActsBoolean(s, modules))));
    }

    /** The loop of sym_get_default_prop, and the value of the property it finds. */
    method CalcDefault(ds: seq<Default>) returns (r: Tri)
      requires Valid() && E.DefaultsWithin(ds, all)
      modifies this`states
      ensures (r, states) == E.CalcDefault(Conf(), all, ds, old(states))
      decreases all - E.ValidIn(states), 3
    {
      var i := 0;
      while i < |ds|
        invariant i <= |ds| && E.ValidIn(old(states)) <= E.ValidIn(states)
        invariant E.CalcDefault(Conf(), all, ds, old(states)) == E.CalcDefault(Conf(), all, ds[i..], states)
      {
        assert ds[i..][0] == ds[i] && ds[i..][1..] == ds[i + 1..];
        var cond := CalcOpt(ds[i].visible, YES);
        if cond != NO {
          var v := CalcExpr(ds[i].value);
          return Min(v, cond);
        }
        i := i + 1;
      }
      r := NO;
    }

    method CalcUnselected(s: Symbol) returns (newval: Tri)
      requires Valid() && s in all
      modifies this`states
      ensures (newval, states) == E.CalcUnselected(Conf(), all, s, old(states))
      decreases all - E.ValidIn(states), 4
    {
      if State(s).visible != NO && s in user {
        newval := Min(user[s], State(s).visible);
      } else {
        newval := CalcDefault(defs(s).defaults);
      }
    }

    /** sym_calc_value. */
    method CalcValue(s: Symbol)
      requires Valid() && (s.BoolOrTri() ==> s in all)
      modifies this`states
      ensures states == E.CalcValue(Conf(), all, s, old(states))
      decreases all - E.ValidIn(states), 0
    {
      if !s.BoolOrTri() || State(s).valid {
        return;
      }
      states := E.Write(states, s, State(s).(valid := true));
      assert s !in E.ValidIn(old(states));
      CalcVisibility(s);
      // What a recursive call sees from here on.
      states := E.Write(states, s, State(s).(curr := NO));
      var newval := CalcUnselected(s);
      states := E.Write(states, s, State(s).(curr := Promote(Max(newval, State(s).selected), ActsBoolean(s, modules))));
    }

    /** One symbol after another. */
    method CalcAll(order: seq<Symbol>) returns (vals: seq<Tri>)
      requires Valid() && forall s <- order :: s in all
      modifies this`states
      ensures (vals, states) == E.CalcAll(Conf(), all, order, old(states))
    {
      vals := [];
      var i := 0;
      while i < |order|
        invariant i <= |order| && (vals, states) == E.CalcAll(Conf(), all, order[..i], old(states))
      {
        assert order[..i + 1][..i] == order[..i] && order[..i + 1][i] == order[i];
        CalcValue(order[i]);
        vals := vals + [E.CurrTri(states, order[i])];
        i := i + 1;
      }
      assert order[..i] == order;
    }

    /** sym_set_tristate_value. On right states, a different value is accepted exactly if the symbol can be
        changed at all and recomputation would yield that value. */
    method SetTristate(s: Symbol, v: Tri, ghost rank: Symbol -> nat) returns (ok: bool)
      requires State(s).valid
      modifies this
      ensures ok <==> old(State(s)).curr == v || WithinRange(old(State(s)), v, ActsBoolean(s, modules))
      ensures var c, st := old(Conf()), old(states);
        Ranked(c, rank) && s.BoolOrTri() && E.AllRight(c, rank, st) && E.StateOf(st, s).curr != v ==>
          (ok <==> CanBecome(c, rank, s, v))
      ensures user == if ok then old(user)[s := v] else old(user)
      ensures ok && old(State(s)).curr != v ==> E.ValidIn(states) == {}
      ensures !ok || old(State(s)).curr == v ==> states == old(states)
    {
      var oldval := State(s).curr;
      if Ranked(Conf(), rank) && s.BoolOrTri() && E.AllRight(Conf(), rank, states) {
        assert E.Right(Conf(), rank, states, s);
        AcceptedExactlyWhen(Conf(), rank, s, oldval, v);
      }
      if oldval != v && !WithinRange(State(s), v, ActsBoolean(s, modules)) {
        return false;
      }
      user := user[s := v];
      if oldval != v {
        states := map t <- states :: states[t].(valid := false);
      }
      return true;
    }

    /** Setting a different value and computing again gives exactly the value that was set. */
    method SetAndRecalc(s: Symbol, v: Tri, ghost rank: Symbol -> nat) returns (ok: bool)
      requires Valid() && s in all && s.BoolOrTri() && State(s).valid && State(s).curr != v
      requires Ranked(Conf(), rank) && E.AllRight(Conf(), rank, states)
      modifies this
      ensures ok <==> CanBecome(old(Conf()), rank, s, v)
      ensures Ranked(Conf(), rank) && E.AllRight(Conf(), rank, states)
      ensures State(s).curr == if ok then v else old(State(s)).curr
    {
      ghost var c, st := Conf(), states;
      assert E.Right(c, rank, st, s);
      ok := SetTristate(s, v, rank);
      if ok {
        assert Conf() == c.(user := c.user[s := v]);
        E.SetThenCalc(c, all, rank, s, v, st, states);
        CalcValue(s);
      }
    }
  }
}
