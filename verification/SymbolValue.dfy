/** What the values of boolean and tristate symbols must be (sym_calc_value, sym_calc_visibility,
    sym_tristate_within_range of kconfig/symbol.c): the equations, and their one solution. */
module KconfigSymbolValue {
  import opened Common
  import opened KconfigExpr

  datatype Default = Default(visible: Option<Expr>, value: Expr)

  /** What a symbol's properties say: prompt conditions, defaults in order, its direct and its
      reverse (select) dependencies. */
  datatype SymDef = SymDef(prompts: seq<Option<Expr>>, defaults: seq<Default>, dirDep: Option<Expr>,
    revDep: Option<Expr>)

  /** Everything the values follow from. */
  datatype Config = Config(defs: Symbol -> SymDef, user: map<Symbol, Tri>, text: Symbol -> string, modules: bool)

  // ---------------------------------------------------------------- the defining equations

  predicate ActsBoolean(s: Symbol, modules: bool) { !s.HasType(Tristate) || !modules }

  /** m becomes y where only n and y make sense. */
  function Promote(t: Tri, boolean: bool): Tri { if t == MOD && boolean then YES else t }

  function AnyPrompt(ps: seq<Option<Expr>>, env: Env): Tri {
    if ps == [] then NO else Max(AnyPrompt(ps[..|ps| - 1], env), OptVal(ps[|ps| - 1], env))
  }

  function FirstDefault(ds: seq<Default>, env: Env): Tri {
    if ds == [] then NO
    else if OptVal(ds[0].visible, env) != NO then Min(Val(ds[0].value, env), OptVal(ds[0].visible, env))
    else FirstDefault(ds[1..], env)
  }

  function Visible(c: Config, s: Symbol, env: Env): Tri {
    Promote(AnyPrompt(c.defs(s).prompts, env), ActsBoolean(s, c.modules))
  }

  function Selected(c: Config, s: Symbol, env: Env): Tri {
    if c.defs(s).revDep.None? then NO else Promote(Val(c.defs(s).revDep.value, env), ActsBoolean(s, c.modules))
  }

  function Unselected(c: Config, s: Symbol, env: Env): Tri {
    if Visible(c, s, env) != NO && s in c.user then Min(c.user[s], Visible(c, s, env))
    else FirstDefault(c.defs(s).defaults, env)
  }

  /** The value a symbol must have, given the values of the others. */
  function Demanded(c: Config, s: Symbol, env: Env): Tri {
    Promote(Max(Unselected(c, s, env), Selected(c, s, env)), ActsBoolean(s, c.modules))
  }

  // ---------------------------------------------------------------- acyclic configurations

  predicate Below(e: Expr, rank: Symbol -> nat, k: nat) {
    match e
    case Var(s) => s.BoolOrTri() ==> rank(s) < k
    case Comp(_, a, b) => (a.BoolOrTri() ==> rank(a) < k) && (b.BoolOrTri() ==> rank(b) < k)
    case Not(a) => Below(a, rank, k)
    case Bin(_, l, r) => Below(l, rank, k) && Below(r, rank, k)
  }

  predicate BelowOpt(e: Option<Expr>, rank: Symbol -> nat, k: nat) { e.Some? ==> Below(e.value, rank, k) }

  predicate DefBelow(d: SymDef, rank: Symbol -> nat, k: nat) {
    && (forall i :: 0 <= i < |d.prompts| ==> BelowOpt(d.prompts[i], rank, k))
    && (forall i :: 0 <= i < |d.defaults| ==>
          BelowOpt(d.defaults[i].visible, rank, k) && Below(d.defaults[i].value, rank, k))
    && BelowOpt(d.dirDep, rank, k) && BelowOpt(d.revDep, rank, k)
  }

  /** The rank falls along every dependency of a boolean or tristate symbol. */
  ghost predicate Ranked(c: Config, rank: Symbol -> nat) {
    forall s: Symbol {:trigger c.defs(s)} :: s.BoolOrTri() ==> DefBelow(c.defs(s), rank, rank(s))
  }

  /** The value by plain recursion along the dependencies. */
  ghost function Value(c: Config, rank: Symbol -> nat, s: Symbol): Tri
    decreases rank(s)
  {
    var below := (t: Symbol) => if t.BoolOrTri() && rank(t) < rank(s) then Value(c, rank, t) else NO;
    Demanded(c, s, Env(below, c.text, c.modules))
  }

  ghost function EnvOf(c: Config, rank: Symbol -> nat): Env {
    Env((t: Symbol) => if t.BoolOrTri() then Value(c, rank, t) else NO, c.text, c.modules)
  }

  ghost predicate AgreeBelow(env: Env, env': Env, rank: Symbol -> nat, k: nat) {
    && env.modules == env'.modules
    && (forall t: Symbol {:trigger env.tri(t)} {:trigger env'.tri(t)} :: t.BoolOrTri() ==> rank(t) < k ==>
      env.tri(t) == env'.tri(t))
    && (forall t: Symbol {:trigger env.tri(t)} {:trigger env'.tri(t)} :: !t.BoolOrTri() ==> env.tri(t) == env'.tri(t))
    && (forall t: Symbol {:trigger env.str(t)} {:trigger env'.str(t)} :: env.str(t) == env'.str(t))
  }

  lemma {:induction false} ValDependsBelow(e: Expr, rank: Symbol -> nat, k: nat, env: Env, env': Env)
    requires Below(e, rank, k) && AgreeBelow(env, env', rank, k)
    ensures Val(e, env) == Val(e, env')
  {
    match e
    case Not(a) => ValDependsBelow(a, rank, k, env, env');
    case Bin(_, l, r) => ValDependsBelow(l, rank, k, env, env'); ValDependsBelow(r, rank, k, env, env');
    case _ =>
  }

  lemma {:induction false} AnyPromptDependsBelow(ps: seq<Option<Expr>>, rank: Symbol -> nat, k: nat, env: Env,
                                                 env': Env)
    requires (forall i :: 0 <= i < |ps| ==> BelowOpt(ps[i], rank, k)) && AgreeBelow(env, env', rank, k)
    ensures AnyPrompt(ps, env) == AnyPrompt(ps, env')
  {
    if ps != [] {
      AnyPromptDependsBelow(ps[..|ps| - 1], rank, k, env, env');
      var p := ps[|ps| - 1];
      if p.Some? { ValDependsBelow(p.value, rank, k, env, env'); }
    }
  }

  lemma {:induction false} FirstDefaultDependsBelow(ds: seq<Default>, rank: Symbol -> nat, k: nat, env: Env, env': Env)
    requires forall i :: 0 <= i < |ds| ==> BelowOpt(ds[i].visible, rank, k) && Below(ds[i].value, rank, k)
    requires AgreeBelow(env, env', rank, k)
    ensures FirstDefault(ds, env) == FirstDefault(ds, env')
  {
    if ds != [] {
      if ds[0].visible.Some? { ValDependsBelow(ds[0].visible.value, rank, k, env, env'); }
      ValDependsBelow(ds[0].value, rank, k, env, env');
      FirstDefaultDependsBelow(ds[1..], rank, k, env, env');
    }
  }

  /** What is demanded of a symbol depends only on symbols of lower rank. */
  lemma DemandedDependsBelow(c: Config, s: Symbol, rank: Symbol -> nat, k: nat, env: Env, env': Env)
    requires DefBelow(c.defs(s), rank, k) && AgreeBelow(env, env', rank, k)
    ensures Demanded(c, s, env) == Demanded(c, s, env') && Visible(c, s, env) == Visible(c, s, env')
    ensures Selected(c, s, env) == Selected(c, s, env')
  {
    var d := c.defs(s);
    AnyPromptDependsBelow(d.prompts, rank, k, env, env');
    FirstDefaultDependsBelow(d.defaults, rank, k, env, env');
    if d.revDep.Some? { ValDependsBelow(d.revDep.value, rank, k, env, env'); }
  }

  /** The recursive values solve the equations... */
  lemma ValueSolves(c: Config, rank: Symbol -> nat, s: Symbol)
    requires Ranked(c, rank) && s.BoolOrTri()
    ensures Value(c, rank, s) == Demanded(c, s, EnvOf(c, rank))
  {
    var below := (t: Symbol) => if t.BoolOrTri() && rank(t) < rank(s) then Value(c, rank, t) else NO;
    var env := Env(below, c.text, c.modules);
    assert AgreeBelow(env, EnvOf(c, rank), rank, rank(s));
    DemandedDependsBelow(c, s, rank, rank(s), env, EnvOf(c, rank));
  }

  /** An assignment of values to all symbols in which every symbol has the value demanded of it. */
  ghost predicate Solves(c: Config, env: Env) {
    && env.modules == c.modules
    && (forall t: Symbol {:trigger env.str(t)} :: env.str(t) == c.text(t))
    && (forall t: Symbol {:trigger env.tri(t)} :: env.tri(t) == if t.BoolOrTri() then Demanded(c, t, env) else NO)
  }

  lemma ValuesSolve(c: Config, rank: Symbol -> nat)
    requires Ranked(c, rank)
    ensures Solves(c, EnvOf(c, rank))
  {
    forall t: Symbol | t.BoolOrTri() ensures EnvOf(c, rank).tri(t) == Demanded(c, t, EnvOf(c, rank)) {
      ValueSolves(c, rank, t);
    }
  }

  /** ... and are their only solution. */
  lemma {:induction false} ValueIsOnlySolution(c: Config, rank: Symbol -> nat, env: Env, s: Symbol)
    requires Ranked(c, rank) && s.BoolOrTri() && Solves(c, env)
    ensures env.tri(s) == Value(c, rank, s)
    decreases rank(s)
  {
    forall t: Symbol | t.BoolOrTri() && rank(t) < rank(s)
      ensures env.tri(t) == Value(c, rank, t)
    {
      ValueIsOnlySolution(c, rank, env, t);
    }
    assert AgreeBelow(env, EnvOf(c, rank), rank, rank(s));
    DemandedDependsBelow(c, s, rank, rank(s), env, EnvOf(c, rank));
    ValueSolves(c, rank, s);
  }

  /** The values form a well-formed environment for the expression engine: m appears only on
      tristate symbols, and only with modules on. */
  lemma ValuesAreWellFormed(c: Config, rank: Symbol -> nat)
    requires Ranked(c, rank)
    requires forall s: Symbol, t: Tri {:trigger c.text(s), TriText(t)} :: s.Const? ==> c.text(s) != TriText(t)
    requires forall s: Symbol, t: Symbol {:trigger c.text(s), c.text(t)} ::
               s.Const? && t.Const? && c.text(s) == c.text(t) ==> s == t
    ensures WellFormed(EnvOf(c, rank))
  {
    var env := EnvOf(c, rank);
    forall s: Symbol
      ensures s.HasType(Boolean) ==> env.tri(s) != MOD
      ensures s.HasType(Tristate) && env.tri(s) == MOD ==> env.modules
    {
      if s.BoolOrTri() { ValueSolves(c, rank, s); }
    }
    assert forall s: Symbol :: env.str(s) == c.text(s);
  }

  // ---------------------------------------------------------------- what the values are

  /** A symbol is never below what selects it. */
  lemma SelectionIsMet(c: Config, env: Env, s: Symbol)
    requires Solves(c, env) && s.BoolOrTri()
    ensures c.defs(s).revDep.Some? ==> Val(c.defs(s).revDep.value, env) <= env.tri(s)
  {
  }

  /** `t` is the greatest value of the conditions, n if there are none. */
  predicate IsGreatest(t: Tri, conds: seq<Option<Expr>>, env: Env) {
    (forall e <- conds :: OptVal(e, env) <= t) && (t == NO || exists e <- conds :: OptVal(e, env) == t)
  }

  /** The i-th default is the first whose condition is not n. */
  predicate ComesFirst(i: nat, ds: seq<Default>, env: Env)
    requires i < |ds|
  {
    OptVal(ds[i].visible, env) != NO && forall j :: 0 <= j < i ==> OptVal(ds[j].visible, env) == NO
  }

  function ValueOf(d: Default, env: Env): Tri { Min(Val(d.value, env), OptVal(d.visible, env)) }

  /** `d` is the value of the first default whose condition is not n, and n if there is none. */
  predicate IsDefault(d: Tri, ds: seq<Default>, env: Env) {
    || (d == NO && forall i :: 0 <= i < |ds| ==> OptVal(ds[i].visible, env) == NO)
    || exists i :: 0 <= i < |ds| && ComesFirst(i, ds, env) && d == ValueOf(ds[i], env)
  }

  lemma {:induction false} AnyPromptIsGreatest(ps: seq<Option<Expr>>, env: Env)
    ensures IsGreatest(AnyPrompt(ps, env), ps, env)
  {
    if ps != [] {
      AnyPromptIsGreatest(ps[..|ps| - 1], env);
      assert ps == ps[..|ps| - 1] + [ps[|ps| - 1]];
    }
  }

  lemma {:induction false} FirstDefaultIsDefault(ds: seq<Default>, env: Env)
    ensures IsDefault(FirstDefault(ds, env), ds, env)
  {
    if ds != [] && OptVal(ds[0].visible, env) == NO {
      var rest := ds[1..];
      FirstDefaultIsDefault(rest, env);
      if i :| 0 <= i < |rest| && ComesFirst(i, rest, env) {
        assert ds[i + 1] == rest[i] && forall j :: 0 < j < i + 1 ==> ds[j] == rest[j - 1];
        assert ComesFirst(i + 1, ds, env);
        OneComesFirst(rest, i, env);
      }
    } else if ds != [] {
      assert ComesFirst(0, ds, env);
    }
  }

  lemma {:induction false} OneComesFirst(ds: seq<Default>, i: nat, env: Env)
    requires i < |ds| && ComesFirst(i, ds, env)
    ensures FirstDefault(ds, env) == ValueOf(ds[i], env)
  {
    if i > 0 {
      assert forall j :: 0 <= j < |ds[1..]| ==> ds[1..][j] == ds[j + 1];
      OneComesFirst(ds[1..], i - 1, env);
    }
  }

  lemma {:induction false} NoneComesFirst(ds: seq<Default>, env: Env)
    requires forall i :: 0 <= i < |ds| ==> OptVal(ds[i].visible, env) == NO
    ensures FirstDefault(ds, env) == NO
  {
    if ds != [] { NoneComesFirst(ds[1..], env); }
  }

  lemma DefaultIsUnique(d: Tri, ds: seq<Default>, env: Env)
    requires IsDefault(d, ds, env)
    ensures d == FirstDefault(ds, env)
  {
    if forall i :: 0 <= i < |ds| ==> OptVal(ds[i].visible, env) == NO {
      NoneComesFirst(ds, env);
    } else {
      var i :| 0 <= i < |ds| && ComesFirst(i, ds, env) && d == ValueOf(ds[i], env);
      OneComesFirst(ds, i, env);
    }
  }

  /** The value of a symbol from the value of its most visible prompt, that of its default, and that of what
      selects it: where it is visible and the user has set it, that counts up to its visibility, and otherwise
      the default; what selects it raises it; and m becomes y where the symbol cannot be m. */
  function Combined(c: Config, s: Symbol, prompt: Tri, default: Tri, select: Tri): Tri {
    var twoValued := s.HasType(Boolean) || !c.modules;
    var visible := if prompt == MOD && twoValued then YES else prompt;
    var own := if visible == NO || s !in c.user then default
      else if c.user[s] < visible then c.user[s] else visible;
    var value := if own < select then select else own;
    if value == MOD && twoValued then YES else value
  }

  /** That is what every solution has. */
  lemma ValueInWords(c: Config, env: Env, s: Symbol) returns (prompt: Tri, default: Tri)
    requires Solves(c, env) && s.BoolOrTri()
    ensures IsGreatest(prompt, c.defs(s).prompts, env) && IsDefault(default, c.defs(s).defaults, env)
    ensures var revDep := c.defs(s).revDep;
      env.tri(s) == Combined(c, s, prompt, default, if revDep.Some? then Val(revDep.value, env) else NO)
  {
    prompt, default := AnyPrompt(c.defs(s).prompts, env), FirstDefault(c.defs(s).defaults, env);
    AnyPromptIsGreatest(c.defs(s).prompts, env);
    FirstDefaultIsDefault(c.defs(s).defaults, env);
  }

  // ---------------------------------------------------------------- setting a value

  /** The fields of struct symbol that the evaluator writes. */
  datatype SymState = SymState(valid: bool, curr: Tri, visible: Tri, selected: Tri)

  /** sym_tristate_within_range. */
  predicate WithinRange(st: SymState, v: Tri, boolean: bool) {
    && st.visible != NO
    && !(boolean && v == MOD)
    && st.visible > st.selected
    && st.selected <= v <= st.visible
  }

  /** The user's value for a symbol has no influence on the symbols it depends on. */
  lemma {:induction false} UserValueIrrelevantBelow(c: Config, rank: Symbol -> nat, s: Symbol, v: Tri, t: Symbol)
    requires Ranked(c, rank) && t.BoolOrTri() && rank(t) < rank(s)
    ensures Value(c.(user := c.user[s := v]), rank, t) == Value(c, rank, t)
    decreases rank(t)
  {
    var c' := c.(user := c.user[s := v]);
    assert Ranked(c', rank);
    forall u: Symbol | u.BoolOrTri() && rank(u) < rank(t)
      ensures Value(c', rank, u) == Value(c, rank, u)
    {
      UserValueIrrelevantBelow(c, rank, s, v, u);
    }
    assert AgreeBelow(EnvOf(c, rank), EnvOf(c', rank), rank, rank(t));
    DemandedDependsBelow(c, t, rank, rank(t), EnvOf(c, rank), EnvOf(c', rank));
    ValueSolves(c, rank, t);
    ValueSolves(c', rank, t);
  }

  /** A changed user value leaves the symbol's visibility and its selection alone. */
  lemma RangeUnchanged(c: Config, rank: Symbol -> nat, s: Symbol, v: Tri)
    requires Ranked(c, rank) && s.BoolOrTri()
    ensures var c' := c.(user := c.user[s := v]);
      && Ranked(c', rank)
      && Visible(c', s, EnvOf(c', rank)) == Visible(c, s, EnvOf(c, rank))
      && Selected(c', s, EnvOf(c', rank)) == Selected(c, s, EnvOf(c, rank))
      && FirstDefault(c'.defs(s).defaults, EnvOf(c', rank)) == FirstDefault(c.defs(s).defaults, EnvOf(c, rank))
      && Value(c', rank, s) == Demanded(c', s, EnvOf(c', rank))
  {
    var c' := c.(user := c.user[s := v]);
    assert Ranked(c', rank);
    forall u: Symbol | u.BoolOrTri() && rank(u) < rank(s)
      ensures Value(c', rank, u) == Value(c, rank, u)
    {
      UserValueIrrelevantBelow(c, rank, s, v, u);
    }
    assert AgreeBelow(EnvOf(c, rank), EnvOf(c', rank), rank, rank(s));
    DemandedDependsBelow(c, s, rank, rank(s), EnvOf(c, rank), EnvOf(c', rank));
    FirstDefaultDependsBelow(c.defs(s).defaults, rank, rank(s), EnvOf(c, rank), EnvOf(c', rank));
    ValueSolves(c', rank, s);
  }

  /** A value in range that the user sets is the value the symbol gets. */
  lemma SetThenValue(c: Config, rank: Symbol -> nat, s: Symbol, v: Tri)
    requires Ranked(c, rank) && s.BoolOrTri()
    requires WithinRange(SymState(true, Value(c, rank, s), Visible(c, s, EnvOf(c, rank)),
              Selected(c, s, EnvOf(c, rank))),
                         v, ActsBoolean(s, c.modules))
    ensures Value(c.(user := c.user[s := v]), rank, s) == v
  {
    RangeUnchanged(c, rank, s, v);
  }

  /** The symbol can be changed at all, and if the user sets this value recomputation yields it. */
  ghost predicate CanBecome(c: Config, rank: Symbol -> nat, s: Symbol, v: Tri) {
    && Visible(c, s, EnvOf(c, rank)) > Selected(c, s, EnvOf(c, rank))
    && Value(c.(user := c.user[s := v]), rank, s) == v
  }

  /** Exactly these values are in range. */
  lemma AcceptedExactlyWhen(c: Config, rank: Symbol -> nat, s: Symbol, curr: Tri, v: Tri)
    requires Ranked(c, rank) && s.BoolOrTri()
    ensures var visible, selected := Visible(c, s, EnvOf(c, rank)), Selected(c, s, EnvOf(c, rank));
      WithinRange(SymState(true, curr, visible, selected), v, ActsBoolean(s, c.modules)) <==> CanBecome(c, rank, s, v)
  {
    RangeUnchanged(c, rank, s, v);
  }

  /** Setting the value a symbol already shows succeeds without a range check and without a
      recomputation. It survives the next recomputation exactly when the symbol is invisible or the
      value is within its visibility or is the selected one; a default above the prompt's
      visibility is lost. */
  lemma SettingShownValueKeptExactlyWhen(c: Config, rank: Symbol -> nat, s: Symbol)
    requires Ranked(c, rank) && s.BoolOrTri()
    ensures var v := Value(c, rank, s);
      var visible, selected := Visible(c, s, EnvOf(c, rank)), Selected(c, s, EnvOf(c, rank));
      Value(c.(user := c.user[s := v]), rank, s) == v <==> visible == NO || v <= visible || v == selected
  {
    RangeUnchanged(c, rank, s, Value(c, rank, s));
    ValueSolves(c, rank, s);
  }

  /** With modules on: a tristate symbol with a prompt `if m` and no value from the user, but the default y. */
  function DefaultAbovePrompt(s: Symbol): Config {
    Config((t: Symbol) => if t == s then SymDef([Some(Var(Mod))], [Default(None, Var(Yes))], None, None)
        else SymDef([], [], None, None),
      map[], (t: Symbol) => "", true)
  }

  /** There the user sees y, sets y, which succeeds, and has m after the next recomputation. */
  lemma ShownValueIsLost(s: Symbol)
    requires s.HasType(Tristate)
    ensures var c, rank := DefaultAbovePrompt(s), (t: Symbol) => 0;
      Ranked(c, rank) && Value(c, rank, s) == YES && Value(c.(user := map[s := YES]), rank, s) == MOD
  {
    var c, rank := DefaultAbovePrompt(s), (t: Symbol) => 0;
    var env, ps := EnvOf(c, rank), c.defs(s).prompts;
    ValueSolves(c, rank, s);
    assert ps[..0] == [] && AnyPrompt(ps, env) == MOD;
    assert c.user[s := YES] == map[s := YES];
    SettingShownValueKeptExactlyWhen(c, rank, s);
    RangeUnchanged(c, rank, s, YES);
  }
}
