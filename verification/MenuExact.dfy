/** What the finished conditions of a menu are worth (menu_finalize of kconfig/menu.c), from the conditions
    at the start alone: exact wherever the conjunction on the way down is n or y, and without modules
    everywhere. */
module KconfigMenuExact {
  import opened Common
  import opened KconfigExpr
  import opened KconfigProperty
  import opened KconfigMenuDeps
  import opened KconfigMenuEntry
  import opened KconfigMenuForest
  import opened KconfigMenuConditions
  import opened KconfigMenuNarrow

  /** Each property's condition is that of its entry and its own; if flattened to two values, it is n where
      that is n, and only there. */
  ghost predicate PropsExact(dep: Tri, flattened: bool, before: seq<Property>, after: seq<Property>, env: Env) {
    |after| == |before| &&
    forall j :: 0 <= j < |before| ==>
      var wanted, got := Min(dep, OptVal(before[j].visible, env)), OptVal(after[j].visible, env);
      Shows(wanted, got) && (!flattened ==> Agrees(wanted, got))
  }

  /** The value handed down: what is wanted of the prompt, or, where that has been flattened, what it is. */
  ghost function HandedDown(prompt: Option<nat>, before: Info, after: Info, dep: Tri, flattened: bool, env: Env): Tri {
    if prompt.None? || prompt.value >= |before.props| || prompt.value >= |after.props| then dep
    else if flattened then OptVal(after.props[prompt.value].visible, env)
    else Min(dep, OptVal(before.props[prompt.value].visible, env))
  }

  /** Reference: an entry's condition is what is handed down to it and its own `depends`; a property's is
      its entry's and its own. */
  ghost predicate Exact(inherited: Tri, f: Forest, snap: Infos, fin: Infos, env: Env)
    decreases f
  {
    f.Cons? ==>
      var before, after, flattened := Of(snap, f.node), Of(fin, f.node), Flattened(f.node.sym, env);
      var dep := Min(inherited, OptVal(before.dep, env));
      && Agrees(dep, OptVal(after.dep, env)) && PropsExact(dep, flattened, before.props, after.props, env)
      && Exact(HandedDown(f.node.prompt, before, after, dep, flattened, env), f.kids, snap, fin, env)
      && Exact(inherited, f.rest, snap, fin, env)
  }

  /** What is definite stays so, whatever an indefinite condition above has become. */
  lemma AgreesBelow(wanted: Tri, got: Tri, own: Tri, now: Tri)
    requires Agrees(wanted, got)
    ensures Agrees(Min(got, own), now) ==> Agrees(Min(wanted, own), now)
    ensures Shows(Min(got, own), now) ==> Shows(Min(wanted, own), now)
  {
  }

  lemma EntryIsExact(passed: Option<Expr>, wanted: Tri, sym: Option<Symbol>, before: Info, env: Env)
    requires WellFormed(env) && NormalOpt(passed) && Agrees(wanted, OptVal(passed, env))
    ensures var after, dep := Narrowed(passed, sym, before), Min(wanted, OptVal(before.dep, env));
      Agrees(dep, OptVal(after.dep, env)) && PropsExact(dep, Flattened(sym, env), before.props, after.props, env)
  {
    var after, dep := Narrowed(passed, sym, before), Min(wanted, OptVal(before.dep, env));
    ConjoinedExact(passed, before.dep, env);
    ConjoinedNormal(passed, before.dep);
    AgreesBelow(wanted, OptVal(passed, env), OptVal(before.dep, env), OptVal(after.dep, env));
    forall j | 0 <= j < |before.props|
      ensures var now := OptVal(after.props[j].visible, env);
        var all := Min(dep, OptVal(before.props[j].visible, env));
        Shows(all, now) && (!Flattened(sym, env) ==> Agrees(all, now))
    {
      PropExact(sym, after.dep, before.props[j], env);
      AgreesBelow(dep, OptVal(after.dep, env), OptVal(before.props[j].visible, env),
        OptVal(after.props[j].visible, env));
    }
  }

  /** Wherever the conjunction of all conditions on the way down to an entry is n or y, the entry's finished
      condition is just that, and its properties' conditions likewise; where a condition on the way is m the
      code may put n. Conditions of symbols that are no tristates may turn y into m there, but not into n. */
  lemma {:induction false} PropagationIsExact(passed: Option<Expr>, inherited: Tri, f: Forest, snap: Infos, fin: Infos,
                                              env: Env)
    requires AllNarrowed(passed, f, snap, fin) && NormalOpt(passed)
    requires WellFormed(env) && Agrees(inherited, OptVal(passed, env))
    ensures Exact(inherited, f, snap, fin, env)
    decreases f
  {
    if f.Cons? {
      var m, before, after := f.node, Of(snap, f.node), Of(fin, f.node);
      var dep := Min(inherited, OptVal(before.dep, env));
      EntryIsExact(passed, inherited, m.sym, before, env);
      NarrowedNormal(passed, m.sym, before, m.prompt);
      PropagationIsExact(Passes(m.prompt, after), HandedDown(m.prompt, before, after, dep, Flattened(m.sym, env), env),
        f.kids, snap, fin, env);
      PropagationIsExact(passed, inherited, f.rest, snap, fin, env);
    }
  }

  // ---------------------------------------------------------------- without modules

  /** The entries' conditions are as the parser leaves them, and no `visible if` has a bare m. */
  ghost predicate AsWritten(f: Forest, snap: Infos, modules: Symbol) {
    forall m <- Nodes(f) :: Of(snap, m) == Written(m.sym, m.lines, modules) && NoBareModAbove(m.lines, modules)
  }

  lemma OptIsDefinite(e: Option<Expr>, modules: Symbol, env: Env)
    requires IsChecked(e, modules) && TwoValued(env) && TriOf(modules, env) == NO
    ensures OptVal(e, env) != MOD
  {
    if e.Some? { CheckedIsDefinite(e.value, modules, env); }
  }

  lemma WrittenIsDefinite(m: Menu, snap: Infos, modules: Symbol, env: Env)
    requires Of(snap, m) == Written(m.sym, m.lines, modules) && NoBareModAbove(m.lines, modules)
    requires TwoValued(env) && TriOf(modules, env) == NO
    ensures OptVal(Of(snap, m).dep, env) != MOD
    ensures forall j :: 0 <= j < |Of(snap, m).props| ==> OptVal(Of(snap, m).props[j].visible, env) != MOD
  {
    var i := Of(snap, m);
    WrittenIsChecked(m.sym, m.lines, modules);
    OptIsDefinite(i.dep, modules, env);
    forall j | 0 <= j < |i.props| ensures OptVal(i.props[j].visible, env) != MOD {
      assert i.props[j] in i.props;
      OptIsDefinite(i.props[j].visible, modules, env);
    }
  }

  /** Reference as in Exact, with equality throughout. */
  ghost predicate ExactThroughout(inherited: Tri, f: Forest, snap: Infos, fin: Infos, env: Env)
    decreases f
  {
    f.Cons? ==>
      var before, after := Of(snap, f.node), Of(fin, f.node);
      var dep := Min(inherited, OptVal(before.dep, env));
      && OptVal(after.dep, env) == dep && |after.props| == |before.props|
      && (forall j :: 0 <= j < |before.props| ==>
            OptVal(after.props[j].visible, env) == Min(dep, OptVal(before.props[j].visible, env)))
      && ExactThroughout(HandedDown(f.node.prompt, before, after, dep, false, env), f.kids, snap, fin, env)
      && ExactThroughout(inherited, f.rest, snap, fin, env)
  }

  /** Without modules nothing is lost on the way down: menu_finalize leaves every entry and every property of a
      menu as it has been read with exactly the conjunction. */
  lemma {:induction false} ExactWithoutModules(inherited: Tri, f: Forest, snap: Infos, fin: Infos, modules: Symbol,
                                               env: Env)
    requires Exact(inherited, f, snap, fin, env) && inherited != MOD && AsWritten(f, snap, modules)
    requires TwoValued(env) && TriOf(modules, env) == NO
    ensures ExactThroughout(inherited, f, snap, fin, env)
    decreases f
  {
    if f.Cons? {
      var m, before, after := f.node, Of(snap, f.node), Of(fin, f.node);
      var dep := Min(inherited, OptVal(before.dep, env));
      assert m in Nodes(f) && Nodes(f.kids) <= Nodes(f) && Nodes(f.rest) <= Nodes(f);
      WrittenIsDefinite(m, snap, modules, env);
      ExactWithoutModules(HandedDown(m.prompt, before, after, dep, false, env), f.kids, snap, fin, modules, env);
      ExactWithoutModules(inherited, f.rest, snap, fin, modules, env);
    }
  }
}
