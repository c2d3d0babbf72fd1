/** What the values of a configured menu are, in terms of the menu alone: of the conditions, defaults and selects
    that its entries have when menu_finalize of kconfig/menu.c is done with them. */
module KconfigMenuMeaning {
  import opened Common
  import opened KconfigExpr
  import opened KconfigProperty
  import opened KconfigMenuForest
  import opened KconfigDependencies
  import opened KconfigMenuNarrow
  import opened KconfigSymbolValue
  import opened KconfigCheckedEvaluation
  import opened KconfigMenuGraph
  import D = KconfigDepCheck

  // ---------------------------------------------------------------- selects

  /** Entry `m` selects `s` by the property `p`. */
  ghost predicate Selects(m: Menu, p: Property, s: Symbol, fin: Infos) {
    m.sym.Some? && p in Of(fin, m).props && p.kind == SelectProp && p.value == Some(Var(s))
  }

  /** How strongly it does: as far as its own symbol is set and its condition holds. */
  function Strength(m: Menu, p: Property, env: Env): Tri
    requires m.sym.Some?
  {
    var owner, cond := TriOf(m.sym.value, env), OptVal(p.visible, env);
    if owner < cond then owner else cond
  }

  lemma {:induction false} SelectRecorded(owner: Option<Symbol>, props: seq<Property>, p: Property, s: Symbol, env: Env)
    returns (r: Record)
    requires owner.Some? && p in props && p.kind == SelectProp && p.value == Some(Var(s))
    ensures r in SelectsOf(owner, props) && Concerns(r, s, false)
    ensures Val(r.cond, env) == Min(TriOf(owner.value, env), OptVal(p.visible, env))
  {
    var before, last := props[..|props| - 1], props[|props| - 1];
    if p == last {
      r := SelectOf(owner, last)[0];
    } else {
      r := SelectRecorded(owner, before, p, s, env);
    }
  }

  lemma {:induction false} RecordedSelect(owner: Option<Symbol>, props: seq<Property>, r: Record, s: Symbol, env: Env)
    returns (p: Property)
    requires r in SelectsOf(owner, props) && Concerns(r, s, false)
    ensures owner.Some? && p in props && p.kind == SelectProp && p.value == Some(Var(s))
    ensures Val(r.cond, env) == Min(TriOf(owner.value, env), OptVal(p.visible, env))
  {
    var before, last := props[..|props| - 1], props[|props| - 1];
    if r in SelectOf(owner, last) {
      p := last;
    } else {
      p := RecordedSelect(owner, before, r, s, env);
    }
  }

  lemma {:induction false} OwnSelectsRecorded(f: Forest, fin: Infos, m: Menu, r: Record)
    requires m in Nodes(f) && r in SelectsOf(m.sym, Of(fin, m).props)
    ensures r in AllSelects(f, fin)
  {
    if m in Nodes(f.kids) {
      OwnSelectsRecorded(f.kids, fin, m, r);
    } else if m in Nodes(f.rest) {
      OwnSelectsRecorded(f.rest, fin, m, r);
    } else {
      assert r in OwnSelects(f.node, fin);
    }
  }

  lemma {:induction false} RecordedByOne(f: Forest, fin: Infos, r: Record) returns (m: Menu)
    requires r in AllSelects(f, fin)
    ensures m in Nodes(f) && r in SelectsOf(m.sym, Of(fin, m).props)
  {
    if r in AllSelects(f.kids, fin) {
      m := RecordedByOne(f.kids, fin, r);
    } else if r in AllSelects(f.rest, fin) {
      m := RecordedByOne(f.rest, fin, r);
    } else {
      m := f.node;
      assert r in OwnSelects(f.node, fin);
    }
  }

  /** What has been gathered from a menu: its conditions, and only those. */
  ghost predicate GatheredFrom(k: Forest, fin: Infos, log: seq<Record>) {
    multiset(log) == AllDirects(k, fin) + AllSelects(k, fin)
  }

  lemma SelectIsGathered(k: Forest, fin: Infos, log: seq<Record>, m: Menu, p: Property, s: Symbol, env: Env)
    requires GatheredFrom(k, fin, log) && m in Nodes(k) && Selects(m, p, s, fin)
    ensures Gathered(log, s, false).Some? && Strength(m, p, env) <= Val(Gathered(log, s, false).value, env)
  {
    var r := SelectRecorded(m.sym, Of(fin, m).props, p, s, env);
    OwnSelectsRecorded(k, fin, m, r);
    assert r in multiset(log);
    GatheredValue(log, s, false, env);
  }

  lemma GatheredIsSelect(k: Forest, fin: Infos, log: seq<Record>, s: Symbol, env: Env) returns (m: Menu, p: Property)
    requires GatheredFrom(k, fin, log) && Gathered(log, s, false).Some?
    ensures m in Nodes(k) && Selects(m, p, s, fin) && Val(Gathered(log, s, false).value, env) == Strength(m, p, env)
  {
    GatheredValue(log, s, false, env);
    var r :| r in log && Concerns(r, s, false) && Val(r.cond, env) == Val(Gathered(log, s, false).value, env);
    assert r in multiset(log);
    if r in AllDirects(k, fin) { DirectSource(k, fin, r); }
    m := RecordedByOne(k, fin, r);
    p := RecordedSelect(m.sym, Of(fin, m).props, r, s, env);
  }

  /** The strength of the strongest select, n if nothing selects the symbol. */
  ghost predicate IsSelection(t: Tri, k: Forest, fin: Infos, s: Symbol, env: Env) {
    && (forall m <- Nodes(k), p :: Selects(m, p, s, fin) ==> Strength(m, p, env) <= t)
    && (t == NO || exists m <- Nodes(k), p :: Selects(m, p, s, fin) && Strength(m, p, env) == t)
  }

  lemma SelectionOfMenu(k: Forest, fin: Infos, log: seq<Record>, s: Symbol, env: Env)
    requires GatheredFrom(k, fin, log)
    ensures var e := Gathered(log, s, false); IsSelection(if e.Some? then Val(e.value, env) else NO, k, fin, s, env)
  {
    forall m, p | m in Nodes(k) && Selects(m, p, s, fin)
      ensures Gathered(log, s, false).Some? && Strength(m, p, env) <= Val(Gathered(log, s, false).value, env)
    {
      SelectIsGathered(k, fin, log, m, p, s, env);
    }
    if Gathered(log, s, false).Some? { var m, p := GatheredIsSelect(k, fin, log, s, env); }
  }

  // ---------------------------------------------------------------- direct dependencies

  /** The entries that declare no others. */
  ghost function Leaves(f: Forest): set<Menu> {
    match f
    case Nil => {}
    case Cons(m, k, r) => (if k.Nil? then {m} else {}) + Leaves(k) + Leaves(r)
  }

  lemma {:induction false} DirectsOfLeaves(f: Forest, fin: Infos, r: Record)
    ensures r in AllDirects(f, fin) <==>
              exists m <- Leaves(f) :: m.sym == Some(r.sym) && Of(fin, m).dep == Some(r.cond) && r.Direct?
  {
    if f.Cons? {
      DirectsOfLeaves(f.kids, fin, r);
      DirectsOfLeaves(f.rest, fin, r);
    }
  }

  /** Entry `m` declares no others, defines `s`, and has a condition. */
  ghost predicate Conditions(m: Menu, k: Forest, s: Symbol, fin: Infos) {
    m in Leaves(k) && m.sym == Some(s) && Of(fin, m).dep.Some?
  }

  /** The direct dependency of a symbol is there exactly if one of those entries has a condition, and then its
      value is the greatest of theirs. */
  lemma DirectOfMenu(k: Forest, fin: Infos, log: seq<Record>, s: Symbol, env: Env)
    requires GatheredFrom(k, fin, log)
    ensures var e := Gathered(log, s, true);
      && (e.Some? <==> exists m <- Leaves(k) :: Conditions(m, k, s, fin))
      && (forall m <- Leaves(k) :: Conditions(m, k, s, fin) ==> OptVal(Of(fin, m).dep, env) <= OptVal(e, env))
      && (e.Some? ==> exists m <- Leaves(k) ::
            Conditions(m, k, s, fin) && OptVal(Of(fin, m).dep, env) == OptVal(e, env))
  {
    GatheredValue(log, s, true, env);
    forall m | m in Leaves(k) && Conditions(m, k, s, fin)
      ensures Gathered(log, s, true).Some? && OptVal(Of(fin, m).dep, env) <= OptVal(Gathered(log, s, true), env)
    {
      var r := Direct(s, Of(fin, m).dep.value);
      DirectsOfLeaves(k, fin, r);
      assert r in multiset(log);
    }
    if Gathered(log, s, true).Some? { var m := GatheredIsDirect(k, fin, log, s, env); }
  }

  lemma GatheredIsDirect(k: Forest, fin: Infos, log: seq<Record>, s: Symbol, env: Env) returns (m: Menu)
    requires GatheredFrom(k, fin, log) && Gathered(log, s, true).Some?
    ensures m in Leaves(k) && Conditions(m, k, s, fin)
    ensures OptVal(Of(fin, m).dep, env) == OptVal(Gathered(log, s, true), env)
  {
    GatheredValue(log, s, true, env);
    var r :| r in log && Concerns(r, s, true) && Val(r.cond, env) == Val(Gathered(log, s, true).value, env);
    assert r in multiset(log);
    if r in AllSelects(k, fin) { SelectSource(k, fin, r); }
    DirectsOfLeaves(k, fin, r);
    m :| m in Leaves(k) && m.sym == Some(r.sym) && Of(fin, m).dep == Some(r.cond);
  }

  // ---------------------------------------------------------------- prompts

  /** Entry `m` defines `s` and has the property `p`. */
  ghost predicate Has(m: Menu, p: Property, s: Symbol, fin: Infos) { m.sym == Some(s) && p in Of(fin, m).props }

  lemma {:induction false} PropOfSome(entries: seq<Entry>, s: Symbol, p: Property) returns (i: nat)
    requires p in PropsFor(entries, s)
    ensures i < |entries| && entries[i].sym == Some(s) && p in entries[i].props
  {
    i := |entries| - 1;
    if p in PropsFor(entries[..i], s) { i := PropOfSome(entries[..i], s, p); }
  }

  lemma PropsOfMenu(k: Forest, fin: Infos, s: Symbol, p: Property)
    ensures p in PropsFor(EntriesOf(Preorder(k), fin), s) <==> exists m <- Nodes(k) :: Has(m, p, s, fin)
  {
    NodesAreEntries(k);
    if p in PropsFor(EntriesOf(Preorder(k), fin), s) {
      var i := PropOfSome(EntriesOf(Preorder(k), fin), s, p);
      assert Has(Preorder(k)[i], p, s, fin);
    }
    forall m | m in Nodes(k) && Has(m, p, s, fin) ensures p in PropsFor(EntriesOf(Preorder(k), fin), s) {
      PropOfMenu(k, fin, m, s, p);
    }
  }

  lemma {:induction false} PromptsAreTexts(ps: seq<Property>, e: Option<Expr>)
    ensures e in PromptsOf(ps) <==> exists p <- ps :: p.kind == TextProp && p.visible == e
  {
    if e in PromptsOf(ps) { PromptIsProp(ps, e); }
    if p :| p in ps && p.kind == TextProp && p.visible == e { TextIsPrompt(ps, p); }
  }

  /** The value of the most visible prompt, n if the symbol has none. */
  ghost predicate IsVisibility(t: Tri, k: Forest, fin: Infos, s: Symbol, env: Env) {
    && (forall m <- Nodes(k), p :: Has(m, p, s, fin) && p.kind == TextProp ==> OptVal(p.visible, env) <= t)
    && (t == NO || exists m <- Nodes(k), p :: Has(m, p, s, fin) && p.kind == TextProp && OptVal(p.visible, env) == t)
  }

  lemma VisibilityOfMenu(t: Tri, k: Forest, fin: Infos, s: Symbol, env: Env)
    requires IsGreatest(t, PromptsOf(PropsFor(EntriesOf(Preorder(k), fin), s)), env)
    ensures IsVisibility(t, k, fin, s, env)
  {
    var ps := PropsFor(EntriesOf(Preorder(k), fin), s);
    forall m, p | m in Nodes(k) && Has(m, p, s, fin) && p.kind == TextProp ensures OptVal(p.visible, env) <= t {
      PropOfMenu(k, fin, m, s, p);
      PromptsAreTexts(ps, p.visible);
    }
    if t != NO {
      var e :| e in PromptsOf(ps) && OptVal(e, env) == t;
      PromptsAreTexts(ps, e);
      var p :| p in ps && p.kind == TextProp && p.visible == e;
      PropsOfMenu(k, fin, s, p);
    }
  }

  // ---------------------------------------------------------------- defaults

  /** A default whose condition is not n. */
  ghost predicate Active(p: Property, env: Env) {
    p.kind == DefaultProp && p.value.Some? && OptVal(p.visible, env) != NO
  }

  /** The a-th property of the i-th entry is such a default of `s`. */
  ghost predicate ActiveAt(entries: seq<Entry>, s: Symbol, i: int, a: int, env: Env) {
    0 <= i < |entries| && entries[i].sym == Some(s) && 0 <= a < |entries[i].props| && Active(entries[i].props[a], env)
  }

  /** The value of the first of them, in the order of the entries and of the properties of each. */
  ghost predicate IsFirstActive(d: Tri, entries: seq<Entry>, s: Symbol, env: Env) {
    || (d == NO && forall i, a :: !ActiveAt(entries, s, i, a, env))
    || exists i, a ::
         && ActiveAt(entries, s, i, a, env) && IsFirst(entries, s, i, a, env)
         && d == Min(Val(entries[i].props[a].value.value, env), OptVal(entries[i].props[a].visible, env))
  }

  ghost predicate IsFirst(entries: seq<Entry>, s: Symbol, i: int, a: int, env: Env) {
    forall j, b :: ActiveAt(entries, s, j, b, env) ==> i < j || (i == j && a <= b)
  }

  ghost predicate NoneActive(ps: seq<Property>, env: Env) { forall p <- ps :: !Active(p, env) }

  lemma {:induction false} FirstOfProps(ps: seq<Property>, env: Env) returns (a: nat)
    ensures a <= |ps| && NoneActive(ps[..a], env)
    ensures a < |ps| ==> Active(ps[a], env)
    ensures FirstDefault(DefaultsOf(ps), env) ==
              if a == |ps| then NO else Min(Val(ps[a].value.value, env), OptVal(ps[a].visible, env))
  {
    if ps == [] || Active(ps[0], env) {
      a := 0;
    } else {
      a := FirstOfProps(ps[1..], env);
      assert ps[..a + 1] == [ps[0]] + ps[1..][..a];
      SkipFirst(ps, env);
      a := a + 1;
    }
  }

  lemma SkipFirst(ps: seq<Property>, env: Env)
    requires ps != [] && !Active(ps[0], env)
    ensures FirstDefault(DefaultsOf(ps), env) == FirstDefault(DefaultsOf(ps[1..]), env)
  {
    var rest := DefaultsOf(ps[1..]);
    if ps[0].kind == DefaultProp && ps[0].value.Some? {
      assert DefaultsOf(ps)[1..] == rest;
    } else {
      assert DefaultsOf(ps) == rest;
    }
  }

  lemma {:induction false} FirstOfBoth(a: seq<Property>, b: seq<Property>, env: Env)
    ensures FirstDefault(DefaultsOf(a + b), env) ==
              FirstDefault(DefaultsOf(if NoneActive(a, env) then b else a), env)
  {
    if a == [] {
      assert a + b == b;
    } else {
      assert (a + b)[1..] == a[1..] + b;
      assert a == [a[0]] + a[1..];
      if !Active(a[0], env) {
        SkipFirst(a + b, env);
        SkipFirst(a, env);
        FirstOfBoth(a[1..], b, env);
      } else {
        assert a[0] in a && (a + b)[0] == a[0];
      }
    }
  }

  /** Where the first active default of a symbol stands; the index is that behind the last entry if there is none. */
  lemma {:induction false} FirstOfEntries(entries: seq<Entry>, s: Symbol, env: Env) returns (i: nat, a: nat)
    ensures i <= |entries| && (i == |entries| <==> NoneActive(PropsFor(entries, s), env))
    ensures i == |entries| ==> forall j, b :: !ActiveAt(entries, s, j, b, env)
    ensures i < |entries| ==> ActiveAt(entries, s, i, a, env) && IsFirst(entries, s, i, a, env)
    ensures FirstDefault(DefaultsOf(PropsFor(entries, s)), env) ==
              if i == |entries| then NO
              else Min(Val(entries[i].props[a].value.value, env), OptVal(entries[i].props[a].visible, env))
  {
    i, a := 0, 0;
    if entries != [] {
      var before, last := entries[..|entries| - 1], entries[|entries| - 1];
      var own := if last.sym == Some(s) then last.props else [];
      i, a := FirstOfEntries(before, s, env);
      FirstOfBoth(PropsFor(before, s), own, env);
      assert forall j, b :: j < |before| ==> ActiveAt(entries, s, j, b, env) == ActiveAt(before, s, j, b, env);
      if i == |before| {
        a := FirstOfProps(own, env);
        FirstOfLast(entries, s, own, a, env);
        if a == |own| { i := i + 1; }
      }
    }
  }

  lemma FirstOfLast(entries: seq<Entry>, s: Symbol, own: seq<Property>, a: nat, env: Env)
    requires entries != []
    requires var last := entries[|entries| - 1]; own == if last.sym == Some(s) then last.props else []
    requires a <= |own| && NoneActive(own[..a], env) && (a < |own| ==> Active(own[a], env))
    requires forall j, b :: j < |entries| - 1 ==> !ActiveAt(entries, s, j, b, env)
    ensures NoneActive(own, env) <==> a == |own|
    ensures if a == |own| then forall j, b :: !ActiveAt(entries, s, j, b, env)
            else ActiveAt(entries, s, |entries| - 1, a, env) && IsFirst(entries, s, |entries| - 1, a, env)
  {
    assert own[..|own|] == own;
    forall b | 0 <= b < a ensures !Active(own[b], env) { assert own[b] in own[..a]; }
    assert forall j, b :: ActiveAt(entries, s, j, b, env) ==> j == |entries| - 1 && a <= b < |own|;
  }

  // ---------------------------------------------------------------- values

  lemma DefaultOfMenu(d: Tri, entries: seq<Entry>, s: Symbol, env: Env)
    requires IsDefault(d, DefaultsOf(PropsFor(entries, s)), env)
    ensures IsFirstActive(d, entries, s, env)
  {
    DefaultIsUnique(d, DefaultsOf(PropsFor(entries, s)), env);
    var i, a := FirstOfEntries(entries, s, env);
  }

  /** The value `v` of `s` in words: it comes from the most visible prompt of the symbol, the first default whose
      condition is not n, in the order of the menu, and the strongest select. */
  ghost predicate Meant(k: Forest, fin: Infos, c: Config, env: Env, s: Symbol, v: Tri) {
    exists prompt, default, select :: MeantBy(k, fin, c, env, s, prompt, default, select, v)
  }

  ghost predicate MeantBy(k: Forest, fin: Infos, c: Config, env: Env, s: Symbol, prompt: Tri, default: Tri,
                          select: Tri, v: Tri)
  {
    && IsVisibility(prompt, k, fin, s, env) && IsFirstActive(default, EntriesOf(Preorder(k), fin), s, env)
    && IsSelection(select, k, fin, s, env) && v == Combined(c, s, prompt, default, select)
  }

  /** The definitions that come out of a menu mean just that. */
  lemma ValueOfMenu(k: Forest, fin: Infos, log: seq<Record>, defs: Symbol -> D.Node, c: Config, env: Env, s: Symbol)
    requires GatheredFrom(k, fin, log) && Defines(defs, c, log, EntriesOf(Preorder(k), fin))
    requires Solves(c, env) && s.BoolOrTri()
    ensures Meant(k, fin, c, env, s, env.tri(s))
  {
    var prompt, default := ValueInWords(c, env, s);
    var e := Gathered(log, s, false);
    var select := if e.Some? then Val(e.value, env) else NO;
    SelectionOfMenu(k, fin, log, s, env);
    VisibilityOfMenu(prompt, k, fin, s, env);
    DefaultOfMenu(default, EntriesOf(Preorder(k), fin), s, env);
    assert MeantBy(k, fin, c, env, s, prompt, default, select, env.tri(s));
  }

  /** The entry's symbol is y, and so is the condition of the property. */
  ghost predicate InForce(m: Menu, p: Property, env: Env) {
    m.sym.Some? && TriOf(m.sym.value, env) == YES && OptVal(p.visible, env) == YES
  }

  ghost predicate SelectsMet(k: Forest, fin: Infos, env: Env, s: Symbol, v: Tri) {
    forall m <- Nodes(k), p :: Selects(m, p, s, fin) && InForce(m, p, env) ==> v == YES
  }

  /** What an entry that is y selects under a condition that is y is y. */
  lemma SelectsHold(k: Forest, fin: Infos, c: Config, env: Env, s: Symbol, v: Tri)
    requires Meant(k, fin, c, env, s, v)
    ensures SelectsMet(k, fin, env, s, v)
  {
    var prompt, default, select :| MeantBy(k, fin, c, env, s, prompt, default, select, v);
    forall m, p | m in Nodes(k) && Selects(m, p, s, fin) && InForce(m, p, env) ensures v == YES {
      assert Strength(m, p, env) <= select;
    }
  }

  /** Every answer is what the menu means, and what an entry selects is selected. */
  ghost predicate AllMeant(k: Forest, fin: Infos, c: Config, queries: seq<Symbol>, vals: seq<Tri>) {
    |vals| == |queries| &&
    forall env, i :: 0 <= i < |queries| && Solves(c, env) ==>
      Meant(k, fin, c, env, queries[i], vals[i]) && SelectsMet(k, fin, env, queries[i], vals[i])
  }

  lemma AnswersMeant(k: Forest, fin: Infos, log: seq<Record>, defs: Symbol -> D.Node, c: Config, queries: seq<Symbol>,
                     vals: seq<Tri>)
    requires GatheredFrom(k, fin, log) && Defines(defs, c, log, EntriesOf(Preorder(k), fin))
    requires Settles(c, queries, vals) && forall s <- queries :: s.BoolOrTri()
    ensures AllMeant(k, fin, c, queries, vals)
  {
    forall env, i | 0 <= i < |queries| && Solves(c, env)
      ensures Meant(k, fin, c, env, queries[i], vals[i]) && SelectsMet(k, fin, env, queries[i], vals[i])
    {
      assert queries[i] in queries;
      ValueOfMenu(k, fin, log, defs, c, env, queries[i]);
      SelectsHold(k, fin, c, env, queries[i], vals[i]);
    }
  }
}
