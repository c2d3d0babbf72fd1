/** Conditions passed down the menu tree (menu_finalize of kconfig/menu.c): one level at a time, and
    what comes of it for a whole tree; with it, the dependencies that are gathered on the way. */
module KconfigMenuNarrow {
  import opened Common
  import opened KconfigExpr
  import opened KconfigProperty
  import opened KconfigMenuEntry
  import opened KconfigMenuForest
  import opened KconfigMenuConditions
  import opened KconfigDependencies

  function InfoOf(m: Menu): Info
    reads m`dep, m`props
  {
    Info(m.dep, m.props)
  }

  /** The conditions of entries at some time. */
  type Infos = map<Menu, Info>

  ghost function Of(infos: Infos, m: Menu): Info { if m in infos then infos[m] else Info(None, []) }

  ghost predicate Holds(s: set<Menu>, infos: Infos)
    reads s`dep, s`props
  {
    forall m <- s :: InfoOf(m) == Of(infos, m)
  }

  ghost function Tops(f: Forest): set<Menu> {
    match f
    case Nil => {}
    case Cons(m, _, r) => {m} + Tops(r)
  }

  ghost function Below(f: Forest): set<Menu> {
    match f
    case Nil => {}
    case Cons(_, k, r) => Nodes(k) + Below(r)
  }

  lemma {:induction false} PartsCover(f: Forest)
    ensures Nodes(f) == Tops(f) + Below(f) && (Distinct(f) ==> Tops(f) !! Below(f))
  {
    if f.Cons? { PartsCover(f.rest); }
  }

  lemma {:induction false} AppendParts(f: Forest, g: Forest)
    ensures Tops(Append(f, g)) == Tops(f) + Tops(g) && Below(Append(f, g)) == Below(f) + Below(g)
  {
    if f.Cons? { AppendParts(f.rest, g); }
  }

  lemma {:induction false} AppendNil(f: Forest)
    ensures Append(f, Nil) == f
  {
    if f.Cons? { AppendNil(f.rest); }
  }

  // ---------------------------------------------------------------- the finished conditions

  /** Every entry has what its parent passes, and-ed with its own: `fin` are the finished conditions,
      `snap` those at the start. */
  ghost predicate AllNarrowed(passed: Option<Expr>, f: Forest, snap: Infos, fin: Infos)
    decreases f
  {
    f.Cons? ==>
      && Of(fin, f.node) == Narrowed(passed, f.node.sym, Of(snap, f.node))
      && AllNarrowed(Passes(f.node.prompt, Of(fin, f.node)), f.kids, snap, fin)
      && AllNarrowed(passed, f.rest, snap, fin)
  }

  /** The finished conditions follow from those at the start. */
  ghost function FinalOf(passed: Option<Expr>, f: Forest, snap: Infos, m: Menu): Info
    requires m in Nodes(f)
    decreases f
  {
    var own := Narrowed(passed, f.node.sym, Of(snap, f.node));
    if m == f.node then own
    else if m in Nodes(f.kids) then FinalOf(Passes(f.node.prompt, own), f.kids, snap, m)
    else FinalOf(passed, f.rest, snap, m)
  }

  lemma {:induction false} FinalIsNarrowed(passed: Option<Expr>, f: Forest, snap: Infos, fin: Infos)
    requires Distinct(f) && forall m <- Nodes(f) :: Of(fin, m) == FinalOf(passed, f, snap, m)
    ensures AllNarrowed(passed, f, snap, fin)
    decreases f
  {
    if f.Cons? {
      var own := Narrowed(passed, f.node.sym, Of(snap, f.node));
      assert Of(fin, f.node) == own;
      forall m <- Nodes(f.kids) ensures Of(fin, m) == FinalOf(Passes(f.node.prompt, own), f.kids, snap, m) {
        assert m in Nodes(f);
      }
      forall m <- Nodes(f.rest) ensures Of(fin, m) == FinalOf(passed, f.rest, snap, m) { assert m in Nodes(f); }
      FinalIsNarrowed(Passes(f.node.prompt, own), f.kids, snap, fin);
      FinalIsNarrowed(passed, f.rest, snap, fin);
    }
  }

  // ---------------------------------------------------------------- what is gathered

  type Records = multiset<Record>

  ghost function OwnSelects(m: Menu, fin: Infos): Records { multiset(SelectsOf(m.sym, Of(fin, m).props)) }

  ghost function TopSelects(f: Forest, fin: Infos): Records {
    if f.Nil? then multiset{} else OwnSelects(f.node, fin) + TopSelects(f.rest, fin)
  }

  ghost function AllSelects(f: Forest, fin: Infos): Records {
    if f.Nil? then multiset{} else OwnSelects(f.node, fin) + AllSelects(f.kids, fin) + AllSelects(f.rest, fin)
  }

  ghost function BelowSelects(f: Forest, fin: Infos): Records {
    if f.Nil? then multiset{} else AllSelects(f.kids, fin) + BelowSelects(f.rest, fin)
  }

  ghost function OwnDirect(m: Menu, fin: Infos): Records {
    if m.sym.Some? then multiset(DirectOf(m.sym.value, Of(fin, m).dep)) else multiset{}
  }

  /** Only entries that declare no others add to the direct dependency of their symbol. */
  ghost function AllDirects(f: Forest, fin: Infos): Records {
    if f.Nil? then multiset{}
    else
      (if f.kids.Nil? then OwnDirect(f.node, fin) else multiset{}) + AllDirects(f.kids, fin) +
        AllDirects(f.rest, fin)
  }

  /** What menu_finalize gathers when it is called for each entry of the top level. */
  ghost function Finds(f: Forest, fin: Infos): Records { AllDirects(f, fin) + BelowSelects(f, fin) }

  lemma {:induction false} SelectsSplit(f: Forest, fin: Infos)
    ensures AllSelects(f, fin) == TopSelects(f, fin) + BelowSelects(f, fin)
  {
    if f.Cons? { SelectsSplit(f.rest, fin); }
  }

  lemma {:induction false} FindsNone(fin: Infos)
    ensures Finds(Nil, fin) == multiset{} && AllDirects(Nil, fin) == multiset{} && AllSelects(Nil, fin) == multiset{}
  {
  }

  lemma TwoPairs(a: Records, b: Records, c: Records, d: Records)
    ensures (a + b) + (c + d) == (a + c) + (b + d)
  {
  }

  lemma {:induction false} FindsFirst(f: Forest, fin: Infos)
    requires f.Cons?
    ensures Finds(f, fin) ==
              (if f.kids.Nil? then OwnDirect(f.node, fin) else AllDirects(f.kids, fin) + AllSelects(f.kids, fin)) +
                Finds(f.rest, fin)
  {
    FindsNone(fin);
    var own := if f.kids.Nil? then OwnDirect(f.node, fin) else multiset{};
    TwoPairs(own + AllDirects(f.kids, fin), AllDirects(f.rest, fin), AllSelects(f.kids, fin),
      BelowSelects(f.rest, fin));
  }

  lemma LogMore(log: seq<Record>, more: seq<Record>, rest: seq<Record>)
    ensures (log + more) + rest == log + (more + rest)
  {
  }

  /** What the first loop over a chain adds, in order. */
  ghost function TopLog(f: Forest, fin: Infos): seq<Record> {
    if f.Nil? then [] else SelectsOf(f.node.sym, Of(fin, f.node).props) + TopLog(f.rest, fin)
  }

  // ---------------------------------------------------------------- one level

  /** One property; what it selects gets its reverse dependency (menu.c:326-337). */
  method NarrowProp(m: Menu, i: nat, deps: Dependencies)
    requires deps.Valid() && i < |m.props|
    modifies m`props, deps`dirDep, deps`revDep, deps`log
    ensures m.props == old(m.props)[i := NarrowedProp(m.sym, m.dep, old(m.props)[i])]
    ensures deps.Valid() && deps.log == old(deps.log) + SelectOf(m.sym, m.props[i])
  {
    var p := NarrowedProp(m.sym, m.dep, m.props[i]);
    m.props := m.props[i := p];
    deps.AddSelect(m.sym, p);
  }

  lemma OneMoreProp(sym: Option<Symbol>, props: seq<Property>, i: nat)
    requires i < |props|
    ensures SelectsOf(sym, props[..i + 1]) == SelectsOf(sym, props[..i]) + SelectOf(sym, props[i])
  {
    assert props[..i + 1][..i] == props[..i];
  }

  /** One property after another (menu.c:319-337). */
  method NarrowProps(m: Menu, deps: Dependencies)
    requires deps.Valid()
    modifies m`props, deps`dirDep, deps`revDep, deps`log
    ensures deps.Valid() && deps.log == old(deps.log) + SelectsOf(m.sym, m.props)
    ensures m.props == NarrowedProps(m.sym, m.dep, old(m.props))
  {
    ghost var before, log := m.props, deps.log;
    ghost var after := NarrowedProps(m.sym, m.dep, m.props);
    var i := 0;
    while i < |m.props|
      invariant i <= |m.props| == |after| == |before|
      invariant forall j :: 0 <= j < i ==> m.props[j] == after[j]
      invariant forall j :: i <= j < |before| ==> m.props[j] == before[j]
      invariant deps.Valid() && deps.log == log + SelectsOf(m.sym, after[..i])
    {
      NarrowProp(m, i, deps);
      OneMoreProp(m.sym, after, i);
      i := i + 1;
    }
    assert m.props == after && after[..i] == after;
  }

  /** menu.c:314-338 for one entry. */
  method Narrow(m: Menu, passed: Option<Expr>, deps: Dependencies)
    requires deps.Valid()
    modifies m`dep, m`props, deps`dirDep, deps`revDep, deps`log
    ensures InfoOf(m) == Narrowed(passed, m.sym, old(InfoOf(m)))
    ensures deps.Valid() && deps.log == old(deps.log) + SelectsOf(m.sym, m.props)
  {
    m.dep := Conjoined(passed, m.dep);
    NarrowProps(m, deps);
  }

  /** One round of the first loop over the children; the others stay as they are. */
  method NarrowNext(menu: Menu, passed: Option<Expr>, deps: Dependencies, ghost done: set<Menu>, ghost rest: set<Menu>,
                    ghost snap: Infos, ghost fin: Infos)
    requires deps.Valid() && menu !in done && menu !in rest && Holds(done, fin) && Holds(rest, snap)
    requires InfoOf(menu) == Of(snap, menu) && Of(fin, menu) == Narrowed(passed, menu.sym, Of(snap, menu))
    modifies menu`dep, menu`props, deps`dirDep, deps`revDep, deps`log
    ensures Holds(done + {menu}, fin) && Holds(rest, snap)
    ensures deps.Valid() && deps.log == old(deps.log) + SelectsOf(menu.sym, Of(fin, menu).props)
  {
    Narrow(menu, passed, deps);
  }

  /** What the loop keeps. */
  ghost predicate NarrowedUpTo(menu: Menu?, parent: Menu, passed: Option<Expr>, done: set<Menu>, cur: Forest,
                               snap: Infos, fin: Infos)
    reads Nodes(cur)`next, Nodes(cur)`list, Nodes(cur)`parent, (done + Tops(cur))`dep, (done + Tops(cur))`props
  {
    && Seg(menu, parent, cur, null) && Distinct(cur) && done !! Tops(cur) && AllNarrowed(passed, cur, snap, fin)
    && Holds(done, fin) && Holds(Tops(cur), snap)
  }

  method NarrowRound(menu: Menu, ghost parent: Menu, passed: Option<Expr>, deps: Dependencies, ghost done: set<Menu>,
                     ghost cur: Forest, ghost snap: Infos, ghost fin: Infos)
    requires deps.Valid() && NarrowedUpTo(menu, parent, passed, done, cur, snap, fin)
    modifies menu`dep, menu`props, deps`dirDep, deps`revDep, deps`log
    ensures cur.Cons? && cur.node == menu && NarrowedUpTo(menu.next, parent, passed, done + {menu}, cur.rest, snap, fin)
    ensures deps.Valid() && deps.log == old(deps.log) + SelectsOf(menu.sym, Of(fin, menu).props)
  {
    PartsCover(cur.rest);
    assert allocated(Nodes(cur.rest));
    NarrowNext(menu, passed, deps, done, Tops(cur.rest), snap, fin);
  }

  /** The first loop over the children (menu.c:314-338). */
  method NarrowChildren(parent: Menu, deps: Dependencies, ghost k: Forest, ghost snap: Infos, ghost fin: Infos)
    requires Seg(parent.list, parent, k, null) && Distinct(k) && parent !in Nodes(k)
    requires AllNarrowed(Passes(parent.prompt, InfoOf(parent)), k, snap, fin)
    requires Holds(Tops(k), snap) && deps.Valid()
    modifies Tops(k)`dep, Tops(k)`props, deps`dirDep, deps`revDep, deps`log
    ensures Holds(Tops(k), fin) && deps.Valid() && deps.log == old(deps.log) + TopLog(k, fin)
  {
    var parentdep := Passes(parent.prompt, InfoOf(parent));
    ghost var start := deps.log;
    var menu := parent.list;
    ghost var done: set<Menu>, cur := {}, k;
    while menu != null
      invariant NarrowedUpTo(menu, parent, parentdep, done, cur, snap, fin) && done + Tops(cur) == Tops(k)
      invariant deps.Valid() && deps.log + TopLog(cur, fin) == start + TopLog(k, fin)
      decreases cur
    {
      ghost var log := deps.log;
      NarrowRound(menu, parent, parentdep, deps, done, cur, snap, fin);
      LogMore(log, SelectsOf(menu.sym, Of(fin, menu).props), TopLog(cur.rest, fin));
      done, menu, cur := done + {menu}, menu.next, cur.rest;
    }
  }
}
