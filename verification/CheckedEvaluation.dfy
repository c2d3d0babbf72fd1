/** The recursion check and the evaluator together: if sym_check_deps has nothing to report, the values of
    sym_calc_value are the ones the definitions demand, whatever is asked for first. */
module KconfigCheckedEvaluation {
  import opened Common
  import opened KconfigExpr
  import opened KconfigCompare
  import opened KconfigProperty
  import D = KconfigDepCheck
  import opened KconfigSymbolValue
  import E = KconfigEvaluator
  import opened KconfigSymbolTable

  function PromptsOf(ps: seq<Property>): seq<Option<Expr>> {
    if ps == [] then []
    else (if ps[0].kind == TextProp then [ps[0].visible] else []) + PromptsOf(ps[1..])
  }

  function DefaultsOf(ps: seq<Property>): seq<Default> {
    if ps == [] then []
    else
      var p := ps[0];
      (if p.kind == DefaultProp && p.value.Some? then [Default(p.visible, p.value.value)] else []) +
        DefaultsOf(ps[1..])
  }

  /** The evaluator's view of the checked graph, with the direct dependencies. */
  function EvalDefs(defs: Symbol -> D.Node, dirDep: Symbol -> Option<Expr>): Symbol -> SymDef {
    (s: Symbol) => SymDef(PromptsOf(defs(s).props), DefaultsOf(defs(s).props), dirDep(s), defs(s).revDep)
  }

  /** The check does not look at direct dependencies, but whatever they mention, except n, one of the
      symbol's properties mentions too. */
  ghost predicate Covered(defs: Symbol -> D.Node, dirDep: Symbol -> Option<Expr>) {
    forall s, t :: ContainsOpt(dirDep(s), t) && t != No ==> D.Edge(defs, s, t)
  }

  // ---------------------------------------------------------------- without a cycle there is a rank

  ghost predicate WalksTo(defs: Symbol -> D.Node, s: Symbol, t: Symbol) {
    exists p :: |p| >= 2 && p[0] == s && p[|p| - 1] == t && D.Walk(defs, p)
  }

  ghost function Reach(defs: Symbol -> D.Node, all: set<Symbol>, s: Symbol): set<Symbol> {
    set t <- all | WalksTo(defs, s, t)
  }

  ghost function RankOf(defs: Symbol -> D.Node, all: set<Symbol>): Symbol -> nat {
    (s: Symbol) => |Reach(defs, all, s)|
  }

  lemma StepThenWalk(defs: Symbol -> D.Node, s: Symbol, t: Symbol, u: Symbol)
    requires D.Edge(defs, s, t) && WalksTo(defs, t, u)
    ensures WalksTo(defs, s, u)
  {
    var p :| |p| >= 2 && p[0] == t && p[|p| - 1] == u && D.Walk(defs, p);
    var q := [s] + p;
    forall i | 0 <= i < |q| - 1 ensures D.Edge(defs, q[i], q[i + 1]) {
      if i > 0 { assert D.Edge(defs, p[i - 1], p[i - 1 + 1]); }
    }
    assert |q| >= 2 && q[0] == s && q[|q| - 1] == u;
  }

  /** Without a cycle, the number of symbols that can be reached falls along every edge. */
  lemma AcyclicRanks(defs: Symbol -> D.Node, all: set<Symbol>, s: Symbol, t: Symbol)
    requires !D.HasCycle(defs, all) && s in all && t in all && D.Edge(defs, s, t)
    ensures RankOf(defs, all)(t) < RankOf(defs, all)(s)
  {
    var from, to := Reach(defs, all, s), Reach(defs, all, t);
    var p := [s, t];
    assert D.Walk(defs, p) && |p| >= 2;
    assert t in from;
    assert t !in to;
    forall u | u in to ensures u in from { StepThenWalk(defs, s, t, u); }
    ProperSubset(to, from, t);
  }

  lemma ProperSubset(a: set<Symbol>, b: set<Symbol>, x: Symbol)
    requires a <= b && x in b && x !in a
    ensures |a| < |b|
  {
    var rest := b - a;
    assert x in rest && b == a + rest && a !! rest;
    assert |b| == |a| + |rest|;
  }

  lemma {:induction false} ContainedBelow(e: Expr, rank: Symbol -> nat, k: nat)
    requires forall t :: Contains(e, t) && t.BoolOrTri() ==> rank(t) < k
    ensures Below(e, rank, k)
  {
    match e
    case Var(s) => assert Contains(e, s);
    case Comp(_, a, b) => assert Contains(e, a) && Contains(e, b);
    case Not(a) =>
      assert forall t :: Contains(a, t) ==> Contains(e, t);
      ContainedBelow(a, rank, k);
    case Bin(_, l, r) =>
      assert forall t :: Contains(l, t) || Contains(r, t) ==> Contains(e, t);
      ContainedBelow(l, rank, k);
      ContainedBelow(r, rank, k);
  }

  lemma {:induction false} ContainedWithin(e: Expr, all: set<Symbol>)
    requires forall t :: Contains(e, t) && t.BoolOrTri() ==> t in all
    ensures E.Within(e, all)
  {
    match e
    case Var(s) => assert Contains(e, s);
    case Comp(_, a, b) => assert Contains(e, a) && Contains(e, b);
    case Not(a) =>
      assert forall t :: Contains(a, t) ==> Contains(e, t);
      ContainedWithin(a, all);
    case Bin(_, l, r) =>
      assert forall t :: Contains(l, t) || Contains(r, t) ==> Contains(e, t);
      ContainedWithin(l, all);
      ContainedWithin(r, all);
  }

  /** Every prompt and default of the evaluator comes from a property that the check looks at. */
  lemma {:induction false} PromptIsProp(ps: seq<Property>, p: Option<Expr>)
    requires p in PromptsOf(ps)
    ensures exists i :: 0 <= i < |ps| && ps[i].kind == TextProp && ps[i].visible == p
  {
    if p in PromptsOf(ps[1..]) {
      PromptIsProp(ps[1..], p);
      var i :| 0 <= i < |ps[1..]| && ps[1..][i].kind == TextProp && ps[1..][i].visible == p;
      assert ps[i + 1] == ps[1..][i];
    } else {
      assert ps[0].kind == TextProp && ps[0].visible == p;
    }
  }

  lemma {:induction false} DefaultIsProp(ps: seq<Property>, d: Default)
    requires d in DefaultsOf(ps)
    ensures exists i :: 0 <= i < |ps| && ps[i] == Property(DefaultProp, d.visible, Some(d.value))
  {
    if d in DefaultsOf(ps[1..]) {
      DefaultIsProp(ps[1..], d);
      var i :| 0 <= i < |ps[1..]| && ps[1..][i] == Property(DefaultProp, d.visible, Some(d.value));
      assert ps[i + 1] == ps[1..][i];
    } else {
      assert ps[0] == Property(DefaultProp, d.visible, Some(d.value));
    }
  }

  /** What the evaluator meets when it computes `s`. */
  ghost predicate Mentions(d: SymDef, t: Symbol) {
    || (exists p <- d.prompts :: ContainsOpt(p, t))
    || (exists x <- d.defaults :: ContainsOpt(x.visible, t) || Contains(x.value, t))
    || ContainsOpt(d.dirDep, t) || ContainsOpt(d.revDep, t)
  }

  lemma MentionIsEdge(defs: Symbol -> D.Node, dirDep: Symbol -> Option<Expr>, s: Symbol, t: Symbol)
    requires Covered(defs, dirDep) && Mentions(EvalDefs(defs, dirDep)(s), t) && t != No
    ensures D.Edge(defs, s, t)
  {
    var d, ps := EvalDefs(defs, dirDep)(s), defs(s).props;
    if p :| p in d.prompts && ContainsOpt(p, t) {
      PromptIsProp(ps, p);
      var i :| 0 <= i < |ps| && ps[i].kind == TextProp && ps[i].visible == p;
      assert D.PropEdge(ps[i], t);
    } else if x :| x in d.defaults && (ContainsOpt(x.visible, t) || Contains(x.value, t)) {
      DefaultIsProp(ps, x);
      var i :| 0 <= i < |ps| && ps[i] == Property(DefaultProp, x.visible, Some(x.value));
      assert D.PropEdge(ps[i], t);
    }
  }

  lemma {:induction false} TextIsPrompt(ps: seq<Property>, p: Property)
    requires p in ps && p.kind == TextProp
    ensures p.visible in PromptsOf(ps)
  {
    if p != ps[0] { TextIsPrompt(ps[1..], p); }
  }

  lemma {:induction false} ValueIsDefault(ps: seq<Property>, p: Property)
    requires p in ps && p.kind == DefaultProp && p.value.Some?
    ensures Default(p.visible, p.value.value) in DefaultsOf(ps)
  {
    if p != ps[0] { ValueIsDefault(ps[1..], p); }
  }

  /** The evaluator does not read the property: it stands for a definition, or has nothing to do with the value. */
  predicate Unread(p: Property) {
    p.kind == SymbolProp || p.kind == OtherProp || (p.kind == DefaultProp && p.value.None?)
  }

  /** And the check follows nothing else but the conditions of properties that the evaluator does not read. */
  lemma EdgeIsMention(defs: Symbol -> D.Node, dirDep: Symbol -> Option<Expr>, s: Symbol, t: Symbol)
    requires D.Edge(defs, s, t)
    ensures Mentions(EvalDefs(defs, dirDep)(s), t) ||
      exists p <- defs(s).props :: Unread(p) && ContainsOpt(p.visible, t)
  {
    if !ContainsOpt(defs(s).revDep, t) {
      var ps := defs(s).props;
      var i :| 0 <= i < |ps| && D.PropEdge(ps[i], t);
      assert ps[i] in ps;
      if ps[i].kind == TextProp {
        TextIsPrompt(ps, ps[i]);
      } else if ps[i].kind == DefaultProp && ps[i].value.Some? {
        ValueIsDefault(ps, ps[i]);
      } else {
        assert Unread(ps[i]);
      }
    }
  }

  lemma MentionedBelow(d: SymDef, rank: Symbol -> nat, k: nat)
    requires forall t :: Mentions(d, t) && t.BoolOrTri() ==> rank(t) < k
    ensures DefBelow(d, rank, k)
  {
    forall i | 0 <= i < |d.prompts| ensures BelowOpt(d.prompts[i], rank, k) {
      assert d.prompts[i] in d.prompts;
      if d.prompts[i].Some? { ContainedBelow(d.prompts[i].value, rank, k); }
    }
    forall i | 0 <= i < |d.defaults|
      ensures BelowOpt(d.defaults[i].visible, rank, k) && Below(d.defaults[i].value, rank, k)
    {
      assert d.defaults[i] in d.defaults;
      if d.defaults[i].visible.Some? { ContainedBelow(d.defaults[i].visible.value, rank, k); }
      ContainedBelow(d.defaults[i].value, rank, k);
    }
    if d.dirDep.Some? { ContainedBelow(d.dirDep.value, rank, k); }
    if d.revDep.Some? { ContainedBelow(d.revDep.value, rank, k); }
  }

  lemma MentionedWithin(d: SymDef, all: set<Symbol>)
    requires forall t :: Mentions(d, t) && t.BoolOrTri() ==> t in all
    ensures E.DefWithin(d, all)
  {
    forall p <- d.prompts ensures E.WithinOpt(p, all) { if p.Some? { ContainedWithin(p.value, all); } }
    forall x <- d.defaults ensures E.WithinOpt(x.visible, all) && E.Within(x.value, all) {
      if x.visible.Some? { ContainedWithin(x.visible.value, all); }
      ContainedWithin(x.value, all);
    }
    if d.dirDep.Some? { ContainedWithin(d.dirDep.value, all); }
    if d.revDep.Some? { ContainedWithin(d.revDep.value, all); }
  }

  // ---------------------------------------------------------------- check, then evaluate

  /** `all` holds the listed symbols and whatever the check follows from them; only listed symbols have a
      definition. */
  ghost predicate World(defs: Symbol -> D.Node, dirDep: Symbol -> Option<Expr>, listed: seq<Symbol>, all: set<Symbol>) {
    && (forall s <- listed :: s in all)
    && (forall s, t :: s in all && D.Edge(defs, s, t) ==> s in listed && t in all)
    && (forall s: Symbol :: s.BoolOrTri() && s !in all ==> EvalDefs(defs, dirDep)(s) == SymDef([], [], None, None))
  }

  function Valued(all: set<Symbol>): set<Symbol> { set s <- all | s.BoolOrTri() }

  lemma WorldIsClosed(defs: Symbol -> D.Node, dirDep: Symbol -> Option<Expr>, listed: seq<Symbol>, all: set<Symbol>,
                      c: Config)
    requires World(defs, dirDep, listed, all) && Covered(defs, dirDep) && c.defs == EvalDefs(defs, dirDep)
    ensures E.Closed(c, Valued(all))
  {
    forall s <- Valued(all) ensures E.DefWithin(c.defs(s), Valued(all)) {
      forall t | Mentions(c.defs(s), t) && t != No ensures t in all { MentionIsEdge(defs, dirDep, s, t); }
      MentionedWithin(c.defs(s), Valued(all));
    }
  }

  lemma WorldIsRanked(defs: Symbol -> D.Node, dirDep: Symbol -> Option<Expr>, listed: seq<Symbol>, all: set<Symbol>,
                      c: Config)
    requires World(defs, dirDep, listed, all) && Covered(defs, dirDep) && c.defs == EvalDefs(defs, dirDep)
    requires !D.HasCycle(defs, all)
    ensures Ranked(c, RankOf(defs, all))
  {
    var rank := RankOf(defs, all);
    forall s: Symbol | s.BoolOrTri() ensures DefBelow(c.defs(s), rank, rank(s)) {
      if s in all {
        forall t | Mentions(c.defs(s), t) && t != No ensures rank(t) < rank(s) {
          MentionIsEdge(defs, dirDep, s, t);
          AcyclicRanks(defs, all, s, t);
        }
        MentionedBelow(c.defs(s), rank, rank(s));
      }
    }
  }

  /** The check is silent exactly if there is no cycle. If it is, there is one assignment of values that
      satisfies every definition, and queries in any order answer with it. */
  method CheckAndEvaluate(defs: Symbol -> D.Node, dirDep: Symbol -> Option<Expr>, c: Config, listed: seq<Symbol>,
                          queries: seq<Symbol>,
                          ghost all: set<Symbol>) returns (ok: bool, vals: seq<Tri>)
    requires c.defs == EvalDefs(defs, dirDep) && World(defs, dirDep, listed, all) && Covered(defs, dirDep)
    requires forall s <- queries :: s in all && s.BoolOrTri()
    ensures ok <==> !D.HasCycle(defs, all)
    ensures E.Closed(c, Valued(all)) && vals == E.CalcAll(c, Valued(all), queries, map[]).0
    ensures ok ==> Settles(c, queries, vals)
  {
    var reported, _, _ := D.CheckAll(defs, listed, all);
    ok := !reported;
    WorldIsClosed(defs, dirDep, listed, all, c);
    var table := new SymbolTable(c, Valued(all));
    vals := table.CalcAll(queries);
    if ok {
      WorldIsRanked(defs, dirDep, listed, all, c);
      AnswersSolve(c, Valued(all), RankOf(defs, all), queries);
    }
  }

  /** The definitions have a solution, and the answers are those of every solution. */
  ghost predicate Settles(c: Config, queries: seq<Symbol>, vals: seq<Tri>) {
    && |vals| == |queries| && (exists env :: Solves(c, env))
    && forall env, i :: 0 <= i < |queries| && Solves(c, env) ==> vals[i] == env.tri(queries[i])
  }

  lemma AnswersSolve(c: Config, all: set<Symbol>, rank: Symbol -> nat, queries: seq<Symbol>)
    requires E.Closed(c, all) && Ranked(c, rank) && forall s <- queries :: s in all && s.BoolOrTri()
    ensures Settles(c, queries, E.CalcAll(c, all, queries, map[]).0)
  {
    E.NothingValid(c, rank, map[]);
    E.AllValuesRight(c, all, rank, queries, map[]);
    ValuesSolve(c, rank);
    forall env, i | 0 <= i < |queries| && Solves(c, env) ensures Value(c, rank, queries[i]) == env.tri(queries[i]) {
      assert queries[i] in queries;
      ValueIsOnlySolution(c, rank, env, queries[i]);
    }
  }
}
