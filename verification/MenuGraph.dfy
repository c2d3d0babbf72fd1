/** The symbols of a finished menu (menu_finalize of kconfig/menu.c): their properties and dependencies, and the
    graph in which conf_parse (kconfig/zconf.y) looks for recursion. */
module KconfigMenuGraph {
  import opened Common
  import opened KconfigExpr
  import opened KconfigCompare
  import opened KconfigProperty
  import opened KconfigMenuEntry
  import opened KconfigMenuForest
  import opened KconfigMenuConditions
  import opened KconfigDependencies
  import opened KconfigMenuNarrow
  import D = KconfigDepCheck
  import opened KconfigSymbolValue
  import opened KconfigCheckedEvaluation

  // ---------------------------------------------------------------- the symbols' properties

  datatype Entry = Entry(sym: Option<Symbol>, props: seq<Property>)

  /** The list of a symbol's properties: those of its definitions, one after another. */
  function PropsFor(entries: seq<Entry>, s: Symbol): seq<Property> {
    if entries == [] then []
    else
      var last := entries[|entries| - 1];
      PropsFor(entries[..|entries| - 1], s) + if last.sym == Some(s) then last.props else []
  }

  /** A menu as the list of its entries with their finished properties. */
  ghost function EntriesOf(menus: seq<Menu>, fin: Infos): seq<Entry> {
    seq(|menus|, i requires 0 <= i < |menus| => Entry(menus[i].sym, Of(fin, menus[i]).props))
  }

  method ReadEntries(menus: seq<Menu>, ghost fin: Infos) returns (entries: seq<Entry>)
    requires Holds(Entries(menus), fin)
    ensures entries == EntriesOf(menus, fin)
  {
    entries := [];
    var i := 0;
    while i < |menus|
      invariant i == |entries| <= |menus|
      invariant forall j :: 0 <= j < i ==> entries[j] == Entry(menus[j].sym, Of(fin, menus[j]).props)
    {
      assert menus[i] in Entries(menus) && InfoOf(menus[i]) == Of(fin, menus[i]);
      entries := entries + [Entry(menus[i].sym, menus[i].props)];
      i := i + 1;
    }
  }

  lemma {:induction false} PropOfEntry(entries: seq<Entry>, s: Symbol, i: nat)
    requires i < |entries| && entries[i].sym == Some(s)
    ensures forall p <- entries[i].props :: p in PropsFor(entries, s)
  {
    if i < |entries| - 1 { PropOfEntry(entries[..|entries| - 1], s, i); }
  }

  lemma {:induction false} EntryOfProp(entries: seq<Entry>, s: Symbol)
    requires PropsFor(entries, s) != []
    ensures exists e <- entries :: e.sym == Some(s)
  {
    var before, last := entries[..|entries| - 1], entries[|entries| - 1];
    if last.sym != Some(s) {
      EntryOfProp(before, s);
      var e :| e in before && e.sym == Some(s);
      assert e in entries;
    } else {
      assert last in entries;
    }
  }

  /** The checked graph of a finished menu. */
  function DefsOf(entries: seq<Entry>, revDep: map<Symbol, Expr>): Symbol -> D.Node {
    (s: Symbol) => D.Node(Lookup(revDep, s), PropsFor(entries, s))
  }

  function DirDepOf(dirDep: map<Symbol, Expr>): Symbol -> Option<Expr> { (s: Symbol) => Lookup(dirDep, s) }

  // ---------------------------------------------------------------- where the dependencies come from

  lemma {:induction false} DirectSource(f: Forest, fin: Infos, r: Record)
    requires r in AllDirects(f, fin)
    ensures exists m <- Nodes(f) :: m.sym == Some(r.sym) && Of(fin, m).dep == Some(r.cond) && r.Direct?
  {
    if f.Cons? {
      if r in AllDirects(f.kids, fin) { DirectSource(f.kids, fin, r); }
      else if r in AllDirects(f.rest, fin) { DirectSource(f.rest, fin, r); }
      else { assert r in OwnDirect(f.node, fin) && f.node in Nodes(f); }
    }
  }

  lemma {:induction false} SelectsSource(owner: Option<Symbol>, props: seq<Property>, r: Record)
    requires r in SelectsOf(owner, props)
    ensures r.Reverse? && exists p <- props :: p.kind == SelectProp && p.value == Some(Var(r.sym))
  {
    var last := props[|props| - 1];
    if r in SelectOf(owner, last) {
      assert last in props;
    } else {
      SelectsSource(owner, props[..|props| - 1], r);
    }
  }

  /** Some property of the entry selects the symbol. */
  ghost predicate SelectedBy(m: Menu, infos: Infos, t: Symbol) {
    exists p <- Of(infos, m).props :: p.kind == SelectProp && p.value == Some(Var(t))
  }

  lemma {:induction false} SelectSource(f: Forest, fin: Infos, r: Record)
    requires r in AllSelects(f, fin)
    ensures r.Reverse? && exists m <- Nodes(f) :: SelectedBy(m, fin, r.sym)
  {
    if f.Cons? {
      if r in AllSelects(f.kids, fin) { SelectSource(f.kids, fin, r); }
      else if r in AllSelects(f.rest, fin) { SelectSource(f.rest, fin, r); }
      else {
        SelectsSource(f.node.sym, Of(fin, f.node).props, r);
        assert SelectedBy(f.node, fin, r.sym) && f.node in Nodes(f);
      }
    }
  }

  /** Every entry has been narrowed by something. */
  lemma {:induction false} NarrowedAt(passed: Option<Expr>, f: Forest, snap: Infos, fin: Infos, m: Menu)
    returns (own: Option<Expr>)
    requires AllNarrowed(passed, f, snap, fin) && m in Nodes(f)
    ensures Of(fin, m) == Narrowed(own, m.sym, Of(snap, m))
    decreases f
  {
    own := passed;
    if m in Nodes(f.kids) {
      own := NarrowedAt(Passes(f.node.prompt, Of(fin, f.node)), f.kids, snap, fin, m);
    } else if m in Nodes(f.rest) {
      own := NarrowedAt(passed, f.rest, snap, fin, m);
    }
  }

  // ---------------------------------------------------------------- what the check sees of them

  /** The entries as they have been read. */
  ghost predicate AsRead(k: Forest, snap: Infos, modules: Symbol) {
    forall m <- Nodes(k) :: Of(snap, m) == Written(m.sym, m.lines, modules)
  }

  /** All that a finished menu has to do with the dependencies that have been gathered from it. */
  ghost predicate Finish(passed: Option<Expr>, k: Forest, snap: Infos, fin: Infos, log: seq<Record>,
                         entries: seq<Entry>)
  {
    && AllNarrowed(passed, k, snap, fin) && multiset(log) == AllDirects(k, fin) + AllSelects(k, fin)
    && entries == EntriesOf(Preorder(k), fin)
  }

  lemma {:induction false} PropOfMenu(k: Forest, fin: Infos, m: Menu, s: Symbol, p: Property)
    requires m in Nodes(k) && m.sym == Some(s) && p in Of(fin, m).props
    ensures p in PropsFor(EntriesOf(Preorder(k), fin), s)
  {
    NodesAreEntries(k);
    var menus := Preorder(k);
    var i :| 0 <= i < |menus| && menus[i] == m;
    PropOfEntry(EntriesOf(menus, fin), s, i);
  }

  /** Whatever a direct dependency mentions, but n, the condition of a definition mentions too. */
  lemma {:induction false} DirectIsEdge(passed: Option<Expr>, k: Forest, snap: Infos, fin: Infos, log: seq<Record>,
                                        entries: seq<Entry>, modules: Symbol, s: Symbol, t: Symbol)
    requires Finish(passed, k, snap, fin, log, entries) && AsRead(k, snap, modules)
    requires ContainsOpt(Gathered(log, s, true), t) && t != No
    ensures exists p <- PropsFor(entries, s) :: D.PropEdge(p, t)
  {
    GatheredContains(log, s, true, t);
    var r :| r in log && Concerns(r, s, true) && Contains(r.cond, t);
    assert r in multiset(log);
    if r in AllSelects(k, fin) { SelectSource(k, fin, r); }
    DirectSource(k, fin, r);
    var m :| m in Nodes(k) && m.sym == Some(s) && Of(fin, m).dep == Some(r.cond);
    var own := NarrowedAt(passed, k, snap, fin, m);
    HasDefinition(s, m.lines, modules);
    DefinitionMentions(own, s, Of(snap, m), t);
    var p :| p in Of(fin, m).props && p.kind == SymbolProp && ContainsOpt(p.visible, t);
    PropOfMenu(k, fin, m, s, p);
    assert D.PropEdge(p, t);
  }

  lemma {:induction false} PropsEdge(defs: Symbol -> D.Node, s: Symbol, t: Symbol, p: Property)
    requires p in defs(s).props && D.PropEdge(p, t)
    ensures D.Edge(defs, s, t)
  {
    var i :| 0 <= i < |defs(s).props| && defs(s).props[i] == p;
    assert D.PropEdge(defs(s).props[i], t);
  }

  lemma MenuIsCovered(passed: Option<Expr>, k: Forest, snap: Infos, fin: Infos, deps: Dependencies, entries: seq<Entry>,
                      modules: Symbol)
    requires Finish(passed, k, snap, fin, deps.log, entries) && AsRead(k, snap, modules) && deps.Valid()
    ensures Covered(DefsOf(entries, deps.revDep), DirDepOf(deps.dirDep))
  {
    var defs, dirDep := DefsOf(entries, deps.revDep), DirDepOf(deps.dirDep);
    forall s, t | ContainsOpt(dirDep(s), t) && t != No ensures D.Edge(defs, s, t) {
      assert dirDep(s) == Gathered(deps.log, s, true);
      DirectIsEdge(passed, k, snap, fin, deps.log, entries, modules, s, t);
      var p :| p in PropsFor(entries, s) && D.PropEdge(p, t);
      PropsEdge(defs, s, t, p);
    }
  }

  // ---------------------------------------------------------------- the symbols

  /** The table of symbols has all that are defined and all that are selected. */
  ghost predicate AllListed(k: Forest, infos: Infos, listed: seq<Symbol>) {
    forall m <- Nodes(k) ::
      && (m.sym.Some? ==> m.sym.value in listed)
      && (forall p <- Of(infos, m).props :: p.kind == SelectProp && p.value.Some? && p.value.value.Var? ==>
            p.value.value.sym in listed)
  }

  function SymbolsIn(e: Expr): set<Symbol> {
    match e
    case Var(s) => {s}
    case Comp(_, a, b) => {a, b}
    case Not(a) => SymbolsIn(a)
    case Bin(_, l, r) => SymbolsIn(l) + SymbolsIn(r)
  }

  lemma {:induction false} ContainedIn(e: Expr, t: Symbol)
    ensures Contains(e, t) <==> t in SymbolsIn(e)
  {
    match e
    case Not(a) => ContainedIn(a, t);
    case Bin(_, l, r) => ContainedIn(l, t); ContainedIn(r, t);
    case _ =>
  }

  function SymbolsInOpt(e: Option<Expr>): set<Symbol> { if e.Some? then SymbolsIn(e.value) else {} }

  function SymbolsInProps(ps: seq<Property>): set<Symbol> {
    if ps == [] then {}
    else
      var last := ps[|ps| - 1];
      SymbolsInProps(ps[..|ps| - 1]) + SymbolsInOpt(last.visible) + SymbolsInOpt(last.value)
  }

  lemma {:induction false} PropMentions(ps: seq<Property>, i: nat, t: Symbol)
    requires i < |ps| && D.PropEdge(ps[i], t)
    ensures t in SymbolsInProps(ps)
  {
    if i < |ps| - 1 {
      PropMentions(ps[..|ps| - 1], i, t);
    } else {
      var p := ps[i];
      if p.visible.Some? { ContainedIn(p.visible.value, t); }
      if p.value.Some? { ContainedIn(p.value.value, t); }
    }
  }

  /** The listed symbols and those that their definitions mention. */
  ghost function Known(defs: Symbol -> D.Node, listed: seq<Symbol>): set<Symbol> {
    (set s <- listed) + set s <- listed, t <- SymbolsInOpt(defs(s).revDep) + SymbolsInProps(defs(s).props) :: t
  }

  lemma EdgeIsKnown(defs: Symbol -> D.Node, listed: seq<Symbol>, s: Symbol, t: Symbol)
    requires s in listed && D.Edge(defs, s, t)
    ensures t in Known(defs, listed)
  {
    var n := defs(s);
    if ContainsOpt(n.revDep, t) {
      ContainedIn(n.revDep.value, t);
    } else {
      var i :| 0 <= i < |n.props| && D.PropEdge(n.props[i], t);
      PropMentions(n.props, i, t);
    }
    assert t in SymbolsInOpt(n.revDep) + SymbolsInProps(n.props);
  }

  lemma SelectsStay(passed: Option<Expr>, k: Forest, snap: Infos, fin: Infos, m: Menu, listed: seq<Symbol>)
    requires AllNarrowed(passed, k, snap, fin) && m in Nodes(k) && AllListed(k, snap, listed)
    ensures forall p <- Of(fin, m).props :: p.kind == SelectProp && p.value.Some? && p.value.value.Var? ==>
              p.value.value.sym in listed
  {
    var own := NarrowedAt(passed, k, snap, fin, m);
    forall p <- Of(fin, m).props | p.kind == SelectProp && p.value.Some? && p.value.value.Var?
      ensures p.value.value.sym in listed
    {
      var i :| 0 <= i < |Of(fin, m).props| && Of(fin, m).props[i] == p;
      assert Of(snap, m).props[i] in Of(snap, m).props;
    }
  }

  lemma {:induction false} DeclaredIsListed(k: Forest, snap: Infos, fin: Infos, listed: seq<Symbol>, s: Symbol)
    requires AllListed(k, snap, listed) && PropsFor(EntriesOf(Preorder(k), fin), s) != []
    ensures s in listed
  {
    var entries := EntriesOf(Preorder(k), fin);
    EntryOfProp(entries, s);
    var e :| e in entries && e.sym == Some(s);
    var i :| 0 <= i < |entries| && entries[i] == e;
    PreorderIndex(k, i);
  }

  lemma {:induction false} GatheredIsListed(passed: Option<Expr>, k: Forest, snap: Infos, fin: Infos, log: seq<Record>,
                                            listed: seq<Symbol>, s: Symbol, direct: bool)
    requires AllNarrowed(passed, k, snap, fin) && multiset(log) == AllDirects(k, fin) + AllSelects(k, fin)
    requires AllListed(k, snap, listed) && Gathered(log, s, direct).Some?
    ensures s in listed
  {
    GatheredContains(log, s, direct, s);
    var r :| r in log && Concerns(r, s, direct);
    assert r in multiset(log);
    if r in AllDirects(k, fin) {
      DirectSource(k, fin, r);
    } else {
      SelectSource(k, fin, r);
      var m :| m in Nodes(k) && SelectedBy(m, fin, r.sym);
      SelectsStay(passed, k, snap, fin, m, listed);
    }
  }

  /** A symbol that is not listed has no definition of any kind. */
  lemma UnlistedIsUndefined(passed: Option<Expr>, k: Forest, snap: Infos, fin: Infos, deps: Dependencies,
                            entries: seq<Entry>, listed: seq<Symbol>, s: Symbol)
    requires Finish(passed, k, snap, fin, deps.log, entries) && AllListed(k, snap, listed) && deps.Valid()
    requires s !in listed
    ensures DefsOf(entries, deps.revDep)(s) == D.Node(None, []) && DirDepOf(deps.dirDep)(s) == None
  {
    assert Lookup(deps.dirDep, s) == Gathered(deps.log, s, true);
    assert Lookup(deps.revDep, s) == Gathered(deps.log, s, false);
    if PropsFor(entries, s) != [] { DeclaredIsListed(k, snap, fin, listed, s); }
    if Gathered(deps.log, s, true).Some? { GatheredIsListed(passed, k, snap, fin, deps.log, listed, s, true); }
    if Gathered(deps.log, s, false).Some? { GatheredIsListed(passed, k, snap, fin, deps.log, listed, s, false); }
  }

  lemma MenuIsWorld(passed: Option<Expr>, k: Forest, snap: Infos, fin: Infos, deps: Dependencies, entries: seq<Entry>,
                    listed: seq<Symbol>)
    requires Finish(passed, k, snap, fin, deps.log, entries) && AllListed(k, snap, listed) && deps.Valid()
    ensures var defs := DefsOf(entries, deps.revDep); World(defs, DirDepOf(deps.dirDep), listed, Known(defs, listed))
  {
    var defs, dirDep := DefsOf(entries, deps.revDep), DirDepOf(deps.dirDep);
    forall s | s !in listed ensures defs(s) == D.Node(None, []) && dirDep(s) == None {
      UnlistedIsUndefined(passed, k, snap, fin, deps, entries, listed, s);
    }
    ListedAreWorld(defs, dirDep, listed);
  }

  lemma ListedAreWorld(defs: Symbol -> D.Node, dirDep: Symbol -> Option<Expr>, listed: seq<Symbol>)
    requires forall s :: s !in listed ==> defs(s) == D.Node(None, []) && dirDep(s) == None
    ensures World(defs, dirDep, listed, Known(defs, listed))
  {
    forall s, t | s in Known(defs, listed) && D.Edge(defs, s, t) ensures s in listed && t in Known(defs, listed) {
      assert s in listed by { assert defs(s) == D.Node(None, []) ==> !D.Edge(defs, s, t); }
      EdgeIsKnown(defs, listed, s, t);
    }
  }

  // ---------------------------------------------------------------- conf_parse, then the values

  /** The graph that is checked, and the definitions that are evaluated, are those of the finished menu. */
  ghost predicate Defines(defs: Symbol -> D.Node, c: Config, log: seq<Record>, entries: seq<Entry>) {
    forall s ::
      var props := PropsFor(entries, s);
      && defs(s) == D.Node(Gathered(log, s, false), props)
      && c.defs(s) == SymDef(PromptsOf(props), DefaultsOf(props), Gathered(log, s, true), Gathered(log, s, false))
  }

  lemma MenuDefines(deps: Dependencies, entries: seq<Entry>, c: Config)
    requires deps.Valid() && c.defs == EvalDefs(DefsOf(entries, deps.revDep), DirDepOf(deps.dirDep))
    ensures Defines(DefsOf(entries, deps.revDep), c, deps.log, entries)
  {
  }
}
