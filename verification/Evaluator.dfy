/** The memoising symbol evaluator (sym_calc_value and sym_calc_visibility of kconfig/symbol.c) as a
    function of the states of the symbols. SYMBOL_VALID, set before anything else is computed, ends
    the recursion on every configuration; without a cycle among the dependencies the values are right. */
module KconfigEvaluator {
  import opened Common
  import opened KconfigExpr
  import opened KconfigSymbolValue

  type States = map<Symbol, SymState>

  function StateOf(st: States, s: Symbol): SymState {
    if s in st then st[s] else SymState(false, NO, NO, NO)
  }

  function ValidIn(st: States): set<Symbol> { set s <- st | st[s].valid }

  /** Writing the fields of a symbol; a symbol is never made invalid. */
  function Write(st: States, s: Symbol, x: SymState): (st': States)
    requires StateOf(st, s).valid ==> x.valid
    ensures ValidIn(st) <= ValidIn(st') && (x.valid ==> s in ValidIn(st'))
  {
    st[s := x]
  }

  // ---------------------------------------------------------------- a finite world

  predicate Within(e: Expr, all: set<Symbol>) {
    match e
    case Var(s) => s.BoolOrTri() ==> s in all
    case Comp(_, a, b) => (a.BoolOrTri() ==> a in all) && (b.BoolOrTri() ==> b in all)
    case Not(a) => Within(a, all)
    case Bin(_, l, r) => Within(l, all) && Within(r, all)
  }

  predicate WithinOpt(e: Option<Expr>, all: set<Symbol>) { e.Some? ==> Within(e.value, all) }

  predicate PromptsWithin(ps: seq<Option<Expr>>, all: set<Symbol>) { forall p <- ps :: WithinOpt(p, all) }

  predicate DefaultsWithin(ds: seq<Default>, all: set<Symbol>) {
    forall d <- ds :: WithinOpt(d.visible, all) && Within(d.value, all)
  }

  predicate DefWithin(d: SymDef, all: set<Symbol>) {
    PromptsWithin(d.prompts, all) && DefaultsWithin(d.defaults, all) && WithinOpt(d.dirDep, all) &&
      WithinOpt(d.revDep, all)
  }

  /** The definitions of these symbols mention no boolean or tristate symbol besides them. */
  predicate Closed(c: Config, all: set<Symbol>) { forall s <- all :: DefWithin(c.defs(s), all) }

  // ---------------------------------------------------------------- the evaluator

  function CurrTri(st: States, s: Symbol): Tri {
    match s
    case Yes => YES
    case Mod => MOD
    case _ => if s.BoolOrTri() then StateOf(st, s).curr else NO
  }

  /** sym_get_string_value. */
  function CurrText(c: Config, st: States, s: Symbol): string {
    if s.BoolOrTri() then TriText(if CurrTri(st, s) == MOD && !c.modules then NO else CurrTri(st, s))
    else if s.Literal() then TriText(CurrTri(st, s))
    else c.text(s)
  }

  function Compare(c: Config, st: States, q: bool, a: Symbol, b: Symbol): Tri {
    if (CurrText(c, st, a) == CurrText(c, st, b)) == q then YES else NO
  }

  /** expr_calc_value: the values of symbols are computed on demand. */
  function CalcExpr(c: Config, all: set<Symbol>, e: Expr, st: States): (r: (Tri, States))
    requires Closed(c, all) && Within(e, all)
    ensures ValidIn(st) <= ValidIn(r.1)
    decreases all - ValidIn(st), 1, e
  {
    match e
    case Var(s) =>
      var st1 := CalcValue(c, all, s, st);
      (CurrTri(st1, s), st1)
    case Comp(q, a, b) =>
      var st1 := CalcValue(c, all, a, st);
      var st2 := CalcValue(c, all, b, st1);
      (Compare(c, st2, q, a, b), st2)
    case Not(a) =>
      var (x, st1) := CalcExpr(c, all, a, st);
      (2 - x, st1)
    case Bin(o, l, r) =>
      var (x, st1) := CalcExpr(c, all, l, st);
      var (y, st2) := CalcExpr(c, all, r, st1);
      (o.Apply(x, y), st2)
  }

  function CalcOpt(c: Config, all: set<Symbol>, e: Option<Expr>, absent: Tri, st: States): (r: (Tri, States))
    requires Closed(c, all) && WithinOpt(e, all)
    ensures ValidIn(st) <= ValidIn(r.1)
    decreases all - ValidIn(st), 2
  {
    if e.Some? then CalcExpr(c, all, e.value, st) else (absent, st)
  }

  function CalcPrompts(c: Config, all: set<Symbol>, ps: seq<Option<Expr>>, st: States): (r: (Tri, States))
    requires Closed(c, all) && PromptsWithin(ps, all)
    ensures ValidIn(st) <= ValidIn(r.1)
    decreases all - ValidIn(st), 3, |ps|
  {
    if ps == [] then (NO, st)
    else
      var n := |ps| - 1;
      var (t, st1) := CalcPrompts(c, all, ps[..n], st);
      var (x, st2) := CalcOpt(c, all, ps[n], YES, st1);
      (Max(t, x), st2)
  }

  /** The direct dependency is evaluated too, for a warning only. */
  function CalcReverse(c: Config, all: set<Symbol>, d: SymDef, st: States): (r: (Tri, States))
    requires Closed(c, all) && DefWithin(d, all)
    ensures ValidIn(st) <= ValidIn(r.1)
    decreases all - ValidIn(st), 3, 0
  {
    var (_, st1) := CalcOpt(c, all, d.dirDep, YES, st);
    CalcOpt(c, all, d.revDep, NO, st1)
  }

  /** sym_calc_visibility. */
  function CalcVisibility(c: Config, all: set<Symbol>, s: Symbol, st: States): (st': States)
    requires Closed(c, all) && s in all
    ensures ValidIn(st) <= ValidIn(st')
    decreases all - ValidIn(st), 4
  {
    var (t, st1) := CalcPrompts(c, all, c.defs(s).prompts, st);
    var st2 := Write(st1, s, StateOf(st1, s).(visible := Promote(t, ActsBoolean(s, c.modules))));
    var (u, st3) := CalcReverse(c, all, c.defs(s), st2);
    Write(st3, s, StateOf(st3, s).(selected := Promote(u, ActsBoolean(s, c.modules))))
  }

  /** The first default whose condition holds (sym_get_default_prop). */
  function CalcDefault(c: Config, all: set<Symbol>, ds: seq<Default>, st: States): (r: (Tri, States))
    requires Closed(c, all) && DefaultsWithin(ds, all)
    ensures ValidIn(st) <= ValidIn(r.1)
    decreases all - ValidIn(st), 3, |ds|
  {
    if ds == [] then (NO, st)
    else
      var (cond, st1) := CalcOpt(c, all, ds[0].visible, YES, st);
      if cond == NO then CalcDefault(c, all, ds[1..], st1)
      else
        var (v, st2) := CalcExpr(c, all, ds[0].value, st1);
        (Min(v, cond), st2)
  }

  /** The user's value where it counts, else the default. */
  function CalcUnselected(c: Config, all: set<Symbol>, s: Symbol, st: States): (r: (Tri, States))
    requires Closed(c, all) && s in all
    ensures ValidIn(st) <= ValidIn(r.1)
    decreases all - ValidIn(st), 4
  {
    if StateOf(st, s).visible != NO && s in c.user then (Min(c.user[s], StateOf(st, s).visible), st)
    else CalcDefault(c, all, c.defs(s).defaults, st)
  }

  /** sym_calc_value of a symbol that has just been marked valid. What a recursive call sees of it is
      first the old value and then n. */
  function CalcFresh(c: Config, all: set<Symbol>, s: Symbol, st: States): (st': States)
    requires Closed(c, all) && s in all
    ensures ValidIn(st) <= ValidIn(st')
    decreases all - ValidIn(st), 5
  {
    var st1 := CalcVisibility(c, all, s, st);
    var st2 := Write(st1, s, StateOf(st1, s).(curr := NO));
    var (v, st3) := CalcUnselected(c, all, s, st2);
    Write(st3, s, StateOf(st3, s).(curr := Promote(Max(v, StateOf(st3, s).selected), ActsBoolean(s, c.modules))))
  }

  /** sym_calc_value. */
  function CalcValue(c: Config, all: set<Symbol>, s: Symbol, st: States): (st': States)
    requires Closed(c, all) && (s.BoolOrTri() ==> s in all)
    ensures ValidIn(st) <= ValidIn(st') && (s.BoolOrTri() ==> s in ValidIn(st'))
    decreases all - ValidIn(st), 0
  {
    if !s.BoolOrTri() || StateOf(st, s).valid then st
    else
      var marked := Write(st, s, StateOf(st, s).(valid := true));
      assert s !in ValidIn(st);
      CalcFresh(c, all, s, marked)
  }

  /** One symbol after another. */
  function CalcAll(c: Config, all: set<Symbol>, order: seq<Symbol>, st: States): (r: (seq<Tri>, States))
    requires Closed(c, all) && forall s <- order :: s in all
    ensures |r.0| == |order|
  {
    if order == [] then ([], st)
    else
      var n := |order| - 1;
      var (vals, st1) := CalcAll(c, all, order[..n], st);
      var st2 := CalcValue(c, all, order[n], st1);
      (vals + [CurrTri(st2, order[n])], st2)
  }

  // ---------------------------------------------------------------- right on acyclic configurations

  /** The memoised values of one symbol are the right ones. */
  ghost predicate Right(c: Config, rank: Symbol -> nat, st: States, s: Symbol) {
    StateOf(st, s) == SymState(true, Value(c, rank, s), Visible(c, s, EnvOf(c, rank)), Selected(c, s, EnvOf(c, rank)))
  }

  /** Every valid symbol of rank below `k` is right. Symbols still being computed have rank `k` or more. */
  ghost predicate RightBelow(c: Config, rank: Symbol -> nat, st: States, k: nat) {
    forall s: Symbol {:trigger StateOf(st, s)} :: s.BoolOrTri() && rank(s) < k && StateOf(st, s).valid ==>
      Right(c, rank, st, s)
  }

  ghost predicate AllRight(c: Config, rank: Symbol -> nat, st: States) {
    forall s: Symbol {:trigger StateOf(st, s)} :: s.BoolOrTri() && StateOf(st, s).valid ==> Right(c, rank, st, s)
  }

  /** Apart from the symbols in `x` no symbol of rank `k` or more has changed. */
  ghost predicate OnlyBelow(rank: Symbol -> nat, k: nat, x: set<Symbol>, st: States, st': States) {
    forall s: Symbol {:trigger StateOf(st', s)} :: s.BoolOrTri() && rank(s) >= k && s !in x ==>
      StateOf(st', s) == StateOf(st, s)
  }

  lemma NothingValid(c: Config, rank: Symbol -> nat, st: States)
    requires ValidIn(st) == {}
    ensures AllRight(c, rank, st)
  {
    assert forall s :: StateOf(st, s).valid ==> s in ValidIn(st);
  }

  lemma WriteKeeps(c: Config, rank: Symbol -> nat, k: nat, st: States, s: Symbol, x: SymState)
    requires RightBelow(c, rank, st, k) && rank(s) >= k && (StateOf(st, s).valid ==> x.valid)
    ensures var st' := Write(st, s, x);
      RightBelow(c, rank, st', k) && OnlyBelow(rank, k, {s}, st, st') && StateOf(st', s) == x
  {
    assert forall t :: t != s ==> StateOf(Write(st, s, x), t) == StateOf(st, t);
  }

  lemma {:induction false} ExprRight(c: Config, all: set<Symbol>, rank: Symbol -> nat, e: Expr, k: nat, st: States)
    requires Closed(c, all) && Within(e, all)
    requires Ranked(c, rank) && Below(e, rank, k) && RightBelow(c, rank, st, k)
    ensures var (r, st') := CalcExpr(c, all, e, st);
      RightBelow(c, rank, st', k) && OnlyBelow(rank, k, {}, st, st') && r == Val(e, EnvOf(c, rank))
    decreases k, 1, e
  {
    match e
    case Var(s) =>
      ValueRight(c, all, rank, s, k, st);
    case Comp(q, a, b) =>
      OperandsRight(c, all, rank, a, b, k, st);
    case Not(a) =>
      ExprRight(c, all, rank, a, k, st);
    case Bin(_, l, r) =>
      ExprRight(c, all, rank, l, k, st);
      ExprRight(c, all, rank, r, k, CalcExpr(c, all, l, st).1);
  }

  /** The two symbols of a comparison, the first of which stays right while the second is computed. */
  lemma {:induction false} OperandsRight(c: Config, all: set<Symbol>, rank: Symbol -> nat, a: Symbol, b: Symbol,
                                         k: nat, st: States)
    requires Closed(c, all) && (a.BoolOrTri() ==> a in all && rank(a) < k)
    requires (b.BoolOrTri() ==> b in all && rank(b) < k)
    requires Ranked(c, rank) && RightBelow(c, rank, st, k)
    ensures var st' := CalcValue(c, all, b, CalcValue(c, all, a, st));
      && RightBelow(c, rank, st', k) && OnlyBelow(rank, k, {}, st, st')
      && CurrText(c, st', a) == StrOf(a, EnvOf(c, rank)) && CurrText(c, st', b) == StrOf(b, EnvOf(c, rank))
    decreases k, 0, 1
  {
    ValueRight(c, all, rank, a, k, st);
    var st1 := CalcValue(c, all, a, st);
    ValueRight(c, all, rank, b, k, st1);
    TextRight(c, rank, CalcValue(c, all, b, st1), k, a);
    TextRight(c, rank, CalcValue(c, all, b, st1), k, b);
  }

  lemma TextRight(c: Config, rank: Symbol -> nat, st: States, k: nat, s: Symbol)
    requires RightBelow(c, rank, st, k) && (s.BoolOrTri() ==> rank(s) < k && s in ValidIn(st))
    ensures CurrText(c, st, s) == StrOf(s, EnvOf(c, rank)) && CurrTri(st, s) == TriOf(s, EnvOf(c, rank))
  {
    if s.BoolOrTri() { assert StateOf(st, s).valid; }
  }

  lemma {:induction false} OptRight(c: Config, all: set<Symbol>, rank: Symbol -> nat, e: Option<Expr>, absent: Tri,
                                    k: nat, st: States)
    requires Closed(c, all) && WithinOpt(e, all)
    requires Ranked(c, rank) && BelowOpt(e, rank, k) && RightBelow(c, rank, st, k)
    ensures var (r, st') := CalcOpt(c, all, e, absent, st);
      && RightBelow(c, rank, st', k) && OnlyBelow(rank, k, {}, st, st')
      && r == if e.Some? then Val(e.value, EnvOf(c, rank)) else absent
    decreases k, 2
  {
    if e.Some? { ExprRight(c, all, rank, e.value, k, st); }
  }

  lemma {:induction false} PromptsRight(c: Config, all: set<Symbol>, rank: Symbol -> nat, ps: seq<Option<Expr>>,
                                        k: nat, st: States)
    requires Closed(c, all) && PromptsWithin(ps, all)
    requires Ranked(c, rank) && (forall p <- ps :: BelowOpt(p, rank, k)) && RightBelow(c, rank, st, k)
    ensures var (r, st') := CalcPrompts(c, all, ps, st);
      RightBelow(c, rank, st', k) && OnlyBelow(rank, k, {}, st, st') && r == AnyPrompt(ps, EnvOf(c, rank))
    decreases k, 3, |ps|
  {
    if ps != [] {
      var n := |ps| - 1;
      PromptsRight(c, all, rank, ps[..n], k, st);
      OptRight(c, all, rank, ps[n], YES, k, CalcPrompts(c, all, ps[..n], st).1);
    }
  }

  lemma {:induction false} ReverseRight(c: Config, all: set<Symbol>, rank: Symbol -> nat, d: SymDef, k: nat, st: States)
    requires Closed(c, all) && DefWithin(d, all)
    requires Ranked(c, rank) && DefBelow(d, rank, k) && RightBelow(c, rank, st, k)
    ensures var (r, st') := CalcReverse(c, all, d, st);
      && RightBelow(c, rank, st', k) && OnlyBelow(rank, k, {}, st, st')
      && r == if d.revDep.Some? then Val(d.revDep.value, EnvOf(c, rank)) else NO
    decreases k, 3, 0
  {
    OptRight(c, all, rank, d.dirDep, YES, k, st);
    OptRight(c, all, rank, d.revDep, NO, k, CalcOpt(c, all, d.dirDep, YES, st).1);
  }

  lemma {:induction false} VisibilityRight(c: Config, all: set<Symbol>, rank: Symbol -> nat, s: Symbol, st: States)
    requires Closed(c, all) && s in all && s.BoolOrTri()
    requires Ranked(c, rank) && RightBelow(c, rank, st, rank(s))
    ensures var st' := CalcVisibility(c, all, s, st);
      && RightBelow(c, rank, st', rank(s)) && OnlyBelow(rank, rank(s), {s}, st, st')
      && StateOf(st', s).visible == Visible(c, s, EnvOf(c, rank)) &&
        StateOf(st', s).selected == Selected(c, s, EnvOf(c, rank))
      && StateOf(st', s).valid == StateOf(st, s).valid
    decreases rank(s), 4
  {
    var k, d := rank(s), c.defs(s);
    assert DefBelow(d, rank, k);
    PromptsRight(c, all, rank, d.prompts, k, st);
    var (t, st1) := CalcPrompts(c, all, d.prompts, st);
    var x := StateOf(st1, s).(visible := Promote(t, ActsBoolean(s, c.modules)));
    WriteKeeps(c, rank, k, st1, s, x);
    var st2 := Write(st1, s, x);
    ReverseRight(c, all, rank, d, k, st2);
    var (u, st3) := CalcReverse(c, all, d, st2);
    WriteKeeps(c, rank, k, st3, s, StateOf(st3, s).(selected := Promote(u, ActsBoolean(s, c.modules))));
  }

  lemma {:induction false} DefaultRight(c: Config, all: set<Symbol>, rank: Symbol -> nat, ds: seq<Default>, k: nat,
                                        st: States)
    requires Closed(c, all) && DefaultsWithin(ds, all)
    requires Ranked(c, rank) && (forall d <- ds :: BelowOpt(d.visible, rank, k) && Below(d.value, rank, k))
    requires RightBelow(c, rank, st, k)
    ensures var (r, st') := CalcDefault(c, all, ds, st);
      RightBelow(c, rank, st', k) && OnlyBelow(rank, k, {}, st, st') && r == FirstDefault(ds, EnvOf(c, rank))
    decreases k, 3, |ds|
  {
    if ds != [] {
      assert ds[0] in ds;
      OptRight(c, all, rank, ds[0].visible, YES, k, st);
      var (cond, st1) := CalcOpt(c, all, ds[0].visible, YES, st);
      if cond == NO {
        DefaultRight(c, all, rank, ds[1..], k, st1);
      } else {
        ExprRight(c, all, rank, ds[0].value, k, st1);
      }
    }
  }

  lemma {:induction false} UnselectedRight(c: Config, all: set<Symbol>, rank: Symbol -> nat, s: Symbol, st: States)
    requires Closed(c, all) && s in all && s.BoolOrTri()
    requires Ranked(c, rank) && RightBelow(c, rank, st, rank(s))
    requires StateOf(st, s).visible == Visible(c, s, EnvOf(c, rank))
    ensures var (r, st') := CalcUnselected(c, all, s, st);
      RightBelow(c, rank, st', rank(s)) && OnlyBelow(rank, rank(s), {}, st, st') &&
        r == Unselected(c, s, EnvOf(c, rank))
    decreases rank(s), 4
  {
    assert DefBelow(c.defs(s), rank, rank(s));
    DefaultRight(c, all, rank, c.defs(s).defaults, rank(s), st);
  }

  lemma {:induction false} FreshRight(c: Config, all: set<Symbol>, rank: Symbol -> nat, s: Symbol, st: States)
    requires Closed(c, all) && s in all && s.BoolOrTri() && StateOf(st, s).valid
    requires Ranked(c, rank) && RightBelow(c, rank, st, rank(s))
    ensures var st' := CalcFresh(c, all, s, st);
      RightBelow(c, rank, st', rank(s)) && OnlyBelow(rank, rank(s), {s}, st, st') && Right(c, rank, st', s)
    decreases rank(s), 5
  {
    var k := rank(s);
    VisibilityRight(c, all, rank, s, st);
    var st1 := CalcVisibility(c, all, s, st);
    WriteKeeps(c, rank, k, st1, s, StateOf(st1, s).(curr := NO));
    var st2 := Write(st1, s, StateOf(st1, s).(curr := NO));
    UnselectedRight(c, all, rank, s, st2);
    var (v, st3) := CalcUnselected(c, all, s, st2);
    WriteKeeps(c, rank, k, st3, s, StateOf(st3, s).(curr := Promote(Max(v, StateOf(st3, s).selected),
      ActsBoolean(s, c.modules))));
    ValueSolves(c, rank, s);
  }

  /** sym_calc_value leaves the right value on the symbol and a wrong one on none. */
  lemma {:induction false} ValueRight(c: Config, all: set<Symbol>, rank: Symbol -> nat, s: Symbol, k: nat, st: States)
    requires Closed(c, all) && (s.BoolOrTri() ==> s in all && rank(s) < k)
    requires Ranked(c, rank) && RightBelow(c, rank, st, k)
    ensures var st' := CalcValue(c, all, s, st);
      RightBelow(c, rank, st', k) && OnlyBelow(rank, k, {}, st, st') && (s.BoolOrTri() ==> Right(c, rank, st', s))
    decreases if s.BoolOrTri() then rank(s) + 1 else 0, 0, 0
  {
    if s.BoolOrTri() && !StateOf(st, s).valid {
      var x := StateOf(st, s).(valid := true);
      WriteKeeps(c, rank, rank(s), st, s, x);
      FreshRight(c, all, rank, s, Write(st, s, x));
    }
  }

  lemma OneValueRight(c: Config, all: set<Symbol>, rank: Symbol -> nat, s: Symbol, st: States)
    requires Closed(c, all) && s in all && s.BoolOrTri()
    requires Ranked(c, rank) && AllRight(c, rank, st)
    ensures var st' := CalcValue(c, all, s, st);
      AllRight(c, rank, st') && Right(c, rank, st', s) && CurrTri(st', s) == Value(c, rank, s)
  {
    ValueRight(c, all, rank, s, rank(s) + 1, st);
  }

  /** The value `vals[i]` answers the i-th query. */
  ghost predicate Answers(c: Config, rank: Symbol -> nat, order: seq<Symbol>, vals: seq<Tri>) {
    |vals| == |order| && forall i :: 0 <= i < |order| ==> vals[i] == Value(c, rank, order[i])
  }

  lemma OneMoreAnswer(c: Config, rank: Symbol -> nat, order: seq<Symbol>, vals: seq<Tri>, v: Tri)
    requires order != [] && Answers(c, rank, order[..|order| - 1], vals) && v == Value(c, rank, order[|order| - 1])
    ensures Answers(c, rank, order, vals + [v])
  {
    assert forall i :: 0 <= i < |order| - 1 ==> order[..|order| - 1][i] == order[i];
  }

  /** Queries in any order, repeated or not, all answer the recursive value. */
  lemma {:induction false} AllValuesRight(c: Config, all: set<Symbol>, rank: Symbol -> nat, order: seq<Symbol>,
                                          st: States)
    requires Closed(c, all) && (forall s <- order :: s in all && s.BoolOrTri())
    requires Ranked(c, rank) && AllRight(c, rank, st)
    ensures AllRight(c, rank, CalcAll(c, all, order, st).1) && Answers(c, rank, order, CalcAll(c, all, order, st).0)
    decreases |order|
  {
    if order != [] {
      var n := |order| - 1;
      AllValuesRight(c, all, rank, order[..n], st);
      var (vals, st1) := CalcAll(c, all, order[..n], st);
      OneValueRight(c, all, rank, order[n], st1);
      OneMoreAnswer(c, rank, order, vals, CurrTri(CalcValue(c, all, order[n], st1), order[n]));
    }
  }

  /** A value in range that the user has just set, with all that was computed before invalid, is what
      the next computation gives. */
  lemma SetThenCalc(c: Config, all: set<Symbol>, rank: Symbol -> nat, s: Symbol, v: Tri, st: States, st1: States)
    requires Closed(c, all) && s in all && s.BoolOrTri() && Ranked(c, rank)
    requires Right(c, rank, st, s) && WithinRange(StateOf(st, s), v, ActsBoolean(s, c.modules)) && ValidIn(st1) == {}
    ensures var c' := c.(user := c.user[s := v]);
      && Closed(c', all) && Ranked(c', rank)
      && AllRight(c', rank, CalcValue(c', all, s, st1)) && StateOf(CalcValue(c', all, s, st1), s).curr == v
  {
    var c' := c.(user := c.user[s := v]);
    SetThenValue(c, rank, s, v);
    RangeUnchanged(c, rank, s, v);
    NothingValid(c', rank, st1);
    OneValueRight(c', all, rank, s, st1);
  }
}
