/** menu_finalize of kconfig/menu.c on the linked entries: conditions are passed down the menu tree, entries
    that depend on the entry before them become its children, children of entries without a prompt move up. */
module KconfigMenuFinalize {
  import opened Common
  import opened KconfigExpr
  import opened KconfigMenuEntry
  import opened KconfigMenuForest
  import opened KconfigMenuConditions
  import opened KconfigDependencies
  import opened KconfigMenuNarrow
  import opened KconfigMenuNesting
  import opened KconfigMenuShape
  import opened KconfigMenuFinished
  import opened KconfigMenuHoist

  /** For each entry of a chain: the finished conditions of what is below it are those of `fin`. */
  ghost predicate Planned(f: Forest, snap: Infos, fin: Infos) {
    f.Cons? ==> AllNarrowed(Passes(f.node.prompt, Of(fin, f.node)), f.kids, snap, fin) && Planned(f.rest, snap, fin)
  }

  lemma {:induction false} NarrowedIsPlanned(passed: Option<Expr>, f: Forest, snap: Infos, fin: Infos)
    requires AllNarrowed(passed, f, snap, fin)
    ensures Planned(f, snap, fin)
  {
    if f.Cons? { NarrowedIsPlanned(passed, f.rest, snap, fin); }
  }

  lemma {:induction false} PlannedEnd(d: Forest, f: Forest, snap: Infos, fin: Infos)
    requires Planned(Append(d, f), snap, fin)
    ensures Planned(f, snap, fin)
  {
    if d.Cons? { PlannedEnd(d.rest, f, snap, fin); }
  }

  /** The entries of the chain `f` have their finished conditions, what is below them those of the start. */
  ghost predicate Ready(f: Forest, snap: Infos, fin: Infos)
    reads (Tops(f) + Below(f))`dep, (Tops(f) + Below(f))`props
  {
    Holds(Tops(f), fin) && Holds(Below(f), snap)
  }

  /** Of the entries `all` only what is below the chain `rest` does not have its finished conditions yet. */
  ghost predicate DoneBut(all: set<Menu>, rest: Forest, snap: Infos, fin: Infos)
    reads (all + Below(rest))`dep, (all + Below(rest))`props
  {
    Holds(all - Below(rest), fin) && Holds(Below(rest), snap)
  }

  /** What a chain that has been reached and its end have to do with each other. */
  lemma {:induction false} ChainEnd(f: Forest, snap: Infos, fin: Infos)
    requires f.Cons? && Distinct(f) && Planned(f, snap, fin)
    ensures var g := Finalized(f, fin);
      && Nodes(g) == Nodes(f) && Distinct(g) && Planned(g.rest, snap, fin)
      && Below(g.rest) <= Below(f) && Tops(g.rest) <= Tops(f) && Tops(g.rest) !! Below(f)
  {
    var g := Finalized(f, fin);
    var c := FinalizedRest(f, fin);
    FinalizedSame(f, fin);
    SameEntries(f, g);
    PlannedEnd(Cons(f.node, f.kids, c), g.rest, snap, fin);
    AppendParts(Cons(f.node, f.kids, c), g.rest);
    PartsCover(f);
  }

  // ---------------------------------------------------------------- the recursion

  method Finalize(parent: Menu, deps: Dependencies, ghost gp: Menu?, ghost f: Forest, ghost snap: Infos,
                  ghost fin: Infos)
    requires f.Cons? && f.node == parent && Seg(parent, gp, f, null) && Distinct(f)
    requires Planned(f, snap, fin) && Ready(f, snap, fin) && deps.Valid()
    modifies Nodes(f), deps`dirDep, deps`revDep, deps`log
    ensures Seg(parent, gp, Finalized(f, fin), null) && DoneBut(Nodes(f), Finalized(f, fin).rest, snap, fin)
    ensures deps.Valid() && deps.log == old(deps.log) + FinalLog(f, fin)
    decreases Count(f), 1
  {
    PartsCover(f);
    if parent.list != null {
      FinalizeChildren(parent, deps, gp, f, snap, fin);
    } else if parent.sym.Some? {
      NestSiblings(parent, deps, gp, f, snap, fin);
    }
  }

  /** The branch for an entry with children (menu.c:290-340), and the hoisting. */
  method FinalizeChildren(parent: Menu, deps: Dependencies, ghost gp: Menu?, ghost f: Forest, ghost snap: Infos,
                          ghost fin: Infos)
    requires f.Cons? && f.node == parent && f.kids.Cons? && Seg(parent, gp, f, null) && Distinct(f)
    requires Planned(f, snap, fin) && Ready(f, snap, fin) && deps.Valid()
    modifies Nodes(f.kids), deps`dirDep, deps`revDep, deps`log
    ensures Seg(parent, gp, Finalized(f, fin), null) && DoneBut(Nodes(f), Finalized(f, fin).rest, snap, fin)
    ensures deps.Valid() && deps.log == old(deps.log) + FinalLog(f, fin)
    decreases Count(f), 0
  {
    PartsCover(f);
    PartsCover(f.rest);
    PartsCover(f.kids);
    ghost var others := {parent} + Tops(f.rest);
    assert Nodes(f) - Below(f.rest) == others + Nodes(f.kids);
    assert allocated(others) && allocated(Nodes(f.rest)) && allocated(Below(f.rest));
    AllBelow(parent, deps, f.kids, snap, fin);
  }

  /** All that concerns the children alone. */
  method AllBelow(parent: Menu, deps: Dependencies, ghost k: Forest, ghost snap: Infos, ghost fin: Infos)
    requires Seg(parent.list, parent, k, null) && Distinct(k) && parent !in Nodes(k)
    requires AllNarrowed(Passes(parent.prompt, InfoOf(parent)), k, snap, fin) && Holds(Nodes(k), snap) && deps.Valid()
    modifies Nodes(k), deps`dirDep, deps`revDep, deps`log
    ensures parent.list == old(parent.list) && Seg(parent.list, parent, Hoisted(Each(k, fin), fin), null)
    ensures Holds(Nodes(k), fin) && deps.Valid() && deps.log == old(deps.log) + (TopLog(k, fin) + EachLog(k, fin))
    decreases Count(k), 6
  {
    NarrowAndFinalize(parent, deps, k, snap, fin);
    EachSame(k, fin);
    SameEntries(k, Each(k, fin));
    assert allocated(Nodes(k));
    Hoist(parent, Each(k, fin), fin);
  }

  /** The two loops over the children. */
  method NarrowAndFinalize(parent: Menu, deps: Dependencies, ghost k: Forest, ghost snap: Infos, ghost fin: Infos)
    requires Seg(parent.list, parent, k, null) && Distinct(k) && parent !in Nodes(k)
    requires AllNarrowed(Passes(parent.prompt, InfoOf(parent)), k, snap, fin) && Holds(Nodes(k), snap) && deps.Valid()
    modifies Nodes(k), deps`dirDep, deps`revDep, deps`log
    ensures parent.list == old(parent.list) && Seg(parent.list, parent, Each(k, fin), null) && Holds(Nodes(k), fin)
    ensures deps.Valid() && deps.log == old(deps.log) + (TopLog(k, fin) + EachLog(k, fin))
    decreases Count(k), 5
  {
    PartsCover(k);
    ghost var log := deps.log;
    assert allocated(Below(k)) && allocated(Tops(k)) && allocated(Nodes(k));
    NarrowChildren(parent, deps, k, snap, fin);
    NarrowedIsPlanned(Passes(parent.prompt, InfoOf(parent)), k, snap, fin);
    FinalizeEach(parent, deps, k, snap, fin);
    LogMore(log, TopLog(k, fin), EachLog(k, fin));
  }

  /** The call for the entry that a loop over a chain has reached; what the loop has dealt with stays as it is. */
  method FinalizeInChain(menu: Menu, deps: Dependencies, ghost first: Menu?, ghost p: Menu?, ghost q: Menu?,
                         ghost done: Forest, ghost cur: Forest, ghost all: set<Menu>, ghost snap: Infos,
                         ghost fin: Infos)
    requires Partly(first, p, q, done, menu, cur, all) && cur.Cons?
    requires Planned(cur, snap, fin) && DoneBut(all, cur, snap, fin) && deps.Valid()
    modifies Nodes(cur), deps`dirDep, deps`revDep, deps`log
    ensures var g := Finalized(cur, fin);
      && Seg(first, p, done, menu) && Seg(menu, q, g, null) && Distinct(g) && Nodes(g) == Nodes(cur)
      && Planned(g.rest, snap, fin) && DoneBut(all, g.rest, snap, fin)
    ensures deps.Valid() && deps.log == old(deps.log) + FinalLog(cur, fin)
    decreases Count(cur), 2
  {
    PartsCover(cur);
    ChainEnd(cur, snap, fin);
    assert allocated(Nodes(done)) && allocated(all) && allocated(all - Below(cur));
    Finalize(menu, deps, q, cur, snap, fin);
  }

  method FinalizeChild(parent: Menu, deps: Dependencies, menu: Menu, ghost done: Forest, ghost cur: Forest,
                       ghost all: set<Menu>, ghost snap: Infos, ghost fin: Infos)
    requires Partly(parent.list, parent, parent, done, menu, cur, all) && cur.Cons? && parent !in all
    requires Planned(cur, snap, fin) && DoneBut(all, cur, snap, fin) && deps.Valid()
    modifies Nodes(cur), deps`dirDep, deps`revDep, deps`log
    ensures parent.list == old(parent.list)
    ensures var g := Finalized(cur, fin);
      && Partly(parent.list, parent, parent, Append(done, One(g)), menu.next, g.rest, all)
      && Planned(g.rest, snap, fin) && DoneBut(all, g.rest, snap, fin)
    ensures deps.Valid() && deps.log == old(deps.log) + FinalLog(cur, fin)
    decreases Count(cur), 3
  {
    FinalizeInChain(menu, deps, parent.list, parent, parent, done, cur, all, snap, fin);
    OneMore(parent.list, parent, parent, done, Finalized(cur, fin), all);
  }

  /** The second loop over the children (menu.c:339-340). */
  method FinalizeEach(parent: Menu, deps: Dependencies, ghost k: Forest, ghost snap: Infos, ghost fin: Infos)
    requires Seg(parent.list, parent, k, null) && Distinct(k) && parent !in Nodes(k)
    requires Planned(k, snap, fin) && Ready(k, snap, fin) && deps.Valid()
    modifies Nodes(k), deps`dirDep, deps`revDep, deps`log
    ensures parent.list == old(parent.list) && Seg(parent.list, parent, Each(k, fin), null) && Holds(Nodes(k), fin)
    ensures deps.Valid() && deps.log == old(deps.log) + EachLog(k, fin)
    decreases Count(k), 4
  {
    ghost var all, log, done, cur := Nodes(k), deps.log, Nil, k;
    PartsCover(k);
    var menu := parent.list;
    while menu != null
      invariant Partly(parent.list, parent, parent, done, menu, cur, all)
      invariant Append(done, Each(cur, fin)) == Each(k, fin) && Count(cur) <= Count(k)
      invariant Planned(cur, snap, fin) && DoneBut(all, cur, snap, fin)
      invariant deps.Valid() && deps.log + EachLog(cur, fin) == log + EachLog(k, fin)
      decreases Count(cur)
    {
      ghost var g, before := Finalized(cur, fin), deps.log;
      ChainEnd(cur, snap, fin);
      FinalizeChild(parent, deps, menu, done, cur, all, snap, fin);
      OneInFront(done, g, Each(g.rest, fin));
      LogMore(before, FinalLog(cur, fin), EachLog(g.rest, fin));
      done, cur, menu := Append(done, One(g)), g.rest, menu.next;
    }
    AppendNil(done);
  }

  // ---------------------------------------------------------------- nesting

  /** A sibling is finalized and gets its new parent. */
  method NestOne(parent: Menu, deps: Dependencies, ghost gp: Menu?, menu: Menu, ghost done: Forest, ghost cur: Forest,
                 ghost all: set<Menu>, ghost snap: Infos, ghost fin: Infos)
    requires Partly(parent.next, parent, gp, done, menu, cur, all) && cur.Cons? && parent !in all
    requires Planned(cur, snap, fin) && DoneBut(all, cur, snap, fin) && deps.Valid()
    modifies Nodes(cur), deps`dirDep, deps`revDep, deps`log
    ensures parent.next == old(parent.next) && parent.list == old(parent.list) && parent.parent == old(parent.parent)
    ensures var g := Finalized(cur, fin);
      && Partly(parent.next, parent, gp, Append(done, One(g)), menu.next, g.rest, all)
      && Planned(g.rest, snap, fin) && DoneBut(all, g.rest, snap, fin)
    ensures deps.Valid() && deps.log == old(deps.log) + FinalLog(cur, fin)
    decreases Count(cur), 3
  {
    FinalizeInChain(menu, deps, parent.next, parent, gp, done, cur, all, snap, fin);
    ghost var g := Finalized(cur, fin);
    assert allocated(all) && allocated(all - Below(g.rest)) && allocated(Below(g.rest));
    SetParent(parent, gp, menu, done, g, all);
  }

  method SetParent(parent: Menu, ghost gp: Menu?, menu: Menu, ghost done: Forest, ghost g: Forest, ghost all: set<Menu>)
    requires Partly(parent.next, parent, gp, done, menu, g, all) && g.Cons?
    modifies menu`parent
    ensures Partly(parent.next, parent, gp, Append(done, One(g)), menu.next, g.rest, all)
  {
    assert allocated(Nodes(done));
    menu.parent := parent;
    OneMore(parent.next, parent, gp, done, g, all);
  }

  lemma {:induction false} NestedMore(a: Menu, done: Forest, cur: Forest, log: seq<Record>, fin: Infos)
    requires cur.Cons? && Nests(fin, a, cur.node)
    ensures var g := Finalized(cur, fin);
      && Append(Append(done, One(g)), Nested(a, g.rest, fin).0) == Append(done, Nested(a, cur, fin).0)
      && Nested(a, g.rest, fin).1 == Nested(a, cur, fin).1
      && Append(done, One(g)).Cons? && Last(Append(done, One(g))) == cur.node
      && (log + FinalLog(cur, fin)) + NestedLog(a, g.rest, fin) == log + NestedLog(a, cur, fin)
  {
    var g := Finalized(cur, fin);
    OneInFront(done, g, Nested(a, g.rest, fin).0);
    LastOfAppend(done, One(g));
    LogMore(log, FinalLog(cur, fin), NestedLog(a, g.rest, fin));
  }

  /** The loop over the siblings; `last` is the last of those to be nested (menu.c:345-366). */
  method NestLoop(parent: Menu, deps: Dependencies, ghost gp: Menu?, ghost r: Forest, ghost snap: Infos,
                  ghost fin: Infos)
    returns (menu: Menu?, last: Menu?)
    requires parent.sym.Some? && parent !in Nodes(r) && Seg(parent.next, gp, r, null) && Distinct(r)
    requires Planned(r, snap, fin) && Ready(r, snap, fin) && InfoOf(parent) == Of(fin, parent) && deps.Valid()
    modifies Nodes(r), deps`dirDep, deps`revDep, deps`log
    ensures parent.next == old(parent.next) && parent.list == old(parent.list) && parent.parent == old(parent.parent)
    ensures var (k, rest) := Nested(parent, r, fin);
      && Partly(parent.next, parent, gp, k, menu, rest, Nodes(r)) && DoneBut(Nodes(r), rest, snap, fin)
      && (if k.Nil? then last == null else last == Last(k))
    ensures deps.Valid() && deps.log == old(deps.log) + NestedLog(parent, r, fin)
    decreases Count(r), 4
  {
    var sym, basedep := parent.sym.value, VisibleTest(PromptCondition(parent.prompt, InfoOf(parent)));
    ghost var all, log, done, cur := Nodes(r), deps.log, Nil, r;
    PartsCover(r);
    menu, last := parent.next, null;
    while menu != null
      invariant Partly(parent.next, parent, gp, done, menu, cur, all) && Count(cur) <= Count(r)
      invariant Append(done, Nested(parent, cur, fin).0) == Nested(parent, r, fin).0
      invariant Nested(parent, cur, fin).1 == Nested(parent, r, fin).1
      invariant Planned(cur, snap, fin) && DoneBut(all, cur, snap, fin)
      invariant deps.Valid() && deps.log + NestedLog(parent, cur, fin) == log + NestedLog(parent, r, fin)
      invariant if done.Nil? then last == null else last == Last(done)
      decreases Count(cur)
    {
      PartsCover(cur);
      assert menu in Tops(cur) && InfoOf(menu) == Of(fin, menu);
      if !NestTest(sym, basedep, Passes(menu.prompt, InfoOf(menu))) { break; }
      ghost var g, before := Finalized(cur, fin), deps.log;
      ChainEnd(cur, snap, fin);
      NestOne(parent, deps, gp, menu, done, cur, all, snap, fin);
      NestedMore(parent, done, cur, before, fin);
      done, cur, last, menu := Append(done, One(g)), g.rest, menu, menu.next;
    }
    AppendNil(done);
    assert (done, cur) == Nested(parent, r, fin);
  }

  /** The nested entries, up to `last`, become the children of the entry before them (menu.c:367-371). */
  method Adopt(parent: Menu, ghost gp: Menu?, last: Menu?, menu: Menu?, ghost done: Forest, ghost cur: Forest)
    requires Seg(parent.next, parent, done, menu) && Seg(menu, gp, cur, null) && parent.parent == gp
    requires parent.list == null && (if done.Nil? then last == null else last == Last(done))
    requires Apart(done, cur) && parent !in Nodes(done) && parent !in Nodes(cur)
    modifies parent`list, parent`next, Nodes(done)`next
    ensures Seg(parent, gp, Cons(parent, done, cur), null)
  {
    if last != null {
      ghost var before, kids := SplitLast(parent.next, parent, done, menu);
      parent.list := parent.next;
      parent.next := last.next;
      last.next := null;
      AppendSeg(parent.list, parent, before, last, Cons(last, kids, Nil), null);
    }
  }

  /** The branch for an entry without children (menu.c:341-374), and the hoisting. */
  method NestSiblings(parent: Menu, deps: Dependencies, ghost gp: Menu?, ghost f: Forest, ghost snap: Infos,
                      ghost fin: Infos)
    requires f.Cons? && f.node == parent && f.kids.Nil? && parent.sym.Some? && Seg(parent, gp, f, null) && Distinct(f)
    requires Planned(f, snap, fin) && Ready(f, snap, fin) && deps.Valid()
    modifies Nodes(f), deps`dirDep, deps`revDep, deps`log
    ensures Seg(parent, gp, Finalized(f, fin), null) && DoneBut(Nodes(f), Finalized(f, fin).rest, snap, fin)
    ensures deps.Valid() && deps.log == old(deps.log) + FinalLog(f, fin)
    decreases Count(f), 0
  {
    ghost var (k, r) := Nested(parent, f.rest, fin);
    ghost var log := deps.log;
    var menu, last := NestRest(parent, deps, gp, f, snap, fin);
    AdoptAndRecord(parent, deps, gp, last, menu, k, r, Nodes(f), snap, fin);
    LogMore(log, NestedLog(parent, f.rest, fin), DirectOf(parent.sym.value, Of(fin, parent).dep));
    HoistNested(parent, gp, k, r, Nodes(f), snap, fin);
  }

  /** The loop leaves the parent as it is. */
  method NestRest(parent: Menu, deps: Dependencies, ghost gp: Menu?, ghost f: Forest, ghost snap: Infos,
                  ghost fin: Infos)
    returns (menu: Menu?, last: Menu?)
    requires f.Cons? && f.node == parent && f.kids.Nil? && parent.sym.Some? && Seg(parent, gp, f, null) && Distinct(f)
    requires Planned(f, snap, fin) && Ready(f, snap, fin) && deps.Valid()
    modifies Nodes(f.rest), deps`dirDep, deps`revDep, deps`log
    ensures parent.parent == gp && parent.list == null
    ensures var (k, r) := Nested(parent, f.rest, fin);
      && Partly(parent.next, parent, gp, k, menu, r, Nodes(f) - {parent}) && DoneBut(Nodes(f), r, snap, fin)
      && (if k.Nil? then last == null else last == Last(k))
    ensures deps.Valid() && deps.log == old(deps.log) + NestedLog(parent, f.rest, fin)
    decreases Count(f.rest), 5
  {
    LeafFirst(f);
    menu, last := NestLoop(parent, deps, gp, f.rest, snap, fin);
    DoneWithParent(f, Nested(parent, f.rest, fin).1, snap, fin);
  }

  lemma {:induction false} LeafFirst(f: Forest)
    requires f.Cons? && f.kids.Nil? && Distinct(f)
    ensures Nodes(f) - {f.node} == Nodes(f.rest) && f.node !in Nodes(f.rest)
    ensures Tops(f) == {f.node} + Tops(f.rest) && Below(f) == Below(f.rest)
  {
  }

  lemma {:induction false} DoneWithParent(f: Forest, r: Forest, snap: Infos, fin: Infos)
    requires f.Cons? && f.kids.Nil? && Distinct(f) && Nodes(r) <= Nodes(f.rest)
    requires InfoOf(f.node) == Of(fin, f.node) && DoneBut(Nodes(f.rest), r, snap, fin)
    ensures DoneBut(Nodes(f), r, snap, fin)
  {
    PartsCover(r);
    assert Nodes(f) - Below(r) == {f.node} + (Nodes(f.rest) - Below(r));
  }

  /** The nested entries are adopted, and the direct dependency is recorded (menu.c:367-373). */
  method AdoptAndRecord(parent: Menu, deps: Dependencies, ghost gp: Menu?, last: Menu?, menu: Menu?, ghost k: Forest,
                        ghost r: Forest, ghost all: set<Menu>, ghost snap: Infos, ghost fin: Infos)
    requires Partly(parent.next, parent, gp, k, menu, r, all - {parent}) && parent.parent == gp
    requires parent.list == null && (if k.Nil? then last == null else last == Last(k))
    requires parent in all
    requires parent.sym.Some? && DoneBut(all, r, snap, fin) && deps.Valid()
    modifies parent`list, parent`next, Nodes(k)`next, deps`dirDep, deps`revDep, deps`log
    ensures Seg(parent, gp, Cons(parent, k, r), null) && DoneBut(all, r, snap, fin)
    ensures deps.Valid() && deps.log == old(deps.log) + DirectOf(parent.sym.value, Of(fin, parent).dep)
  {
    PartsCover(r);
    assert allocated(all) && allocated(all - Below(r)) && allocated(Below(r)) && allocated(Nodes(Cons(parent, k, r)));
    assert InfoOf(parent) == Of(fin, parent);
    Adopt(parent, gp, last, menu, k, r);
    deps.AddDirect(parent.sym.value, parent.dep);
  }

  method HoistNested(parent: Menu, ghost gp: Menu?, ghost k: Forest, ghost r: Forest, ghost all: set<Menu>,
                     ghost snap: Infos, ghost fin: Infos)
    requires Seg(parent, gp, Cons(parent, k, r), null) && Distinct(Cons(parent, k, r)) && Nodes(k) <= all
    requires DoneBut(all, r, snap, fin)
    modifies Nodes(k)`next, Nodes(k)`list, Nodes(k)`parent
    ensures Seg(parent, gp, Cons(parent, Hoisted(k, fin), r), null) && DoneBut(all, r, snap, fin)
  {
    PartsCover(r);
    assert allocated(all) && allocated(all - Below(r)) && allocated(Nodes(r)) && allocated(Below(r));
    Hoist(parent, k, fin);
  }

  // ---------------------------------------------------------------- the whole menu

  /** The conditions that a menu will have when it is finished. */
  ghost function Finals(root: Menu, rootInfo: Info, k: Forest, snap: Infos): Infos {
    map m | m in {root} + Nodes(k) ::
      if m in Nodes(k) then FinalOf(Passes(root.prompt, rootInfo), k, snap, m) else rootInfo
  }

  /** menu_finalize(&rootmenu): the order of the entries is kept, every condition is passed down, every
      entry stands where it belongs and none outside where it would belong, no entry without a prompt is
      left with children, and the dependencies of all symbols are gathered, each once. */
  method FinalizeRoot(root: Menu, deps: Dependencies, ghost k: Forest, ghost snap: Infos)
    returns (ghost k': Forest, ghost fin: Infos)
    requires Seg(root, null, Cons(root, k, Nil), null) && Distinct(Cons(root, k, Nil)) && AtHome(root, k) && k.Cons?
    requires Holds(Nodes(k), snap) && deps.Valid() && deps.log == []
    modifies Nodes(Cons(root, k, Nil)), deps`dirDep, deps`revDep, deps`log
    ensures Seg(root, null, Cons(root, k', Nil), null) && k' == Hoisted(Each(k, fin), fin)
    ensures Preorder(k') == Preorder(k) && Distinct(Cons(root, k', Nil))
    ensures InfoOf(root) == old(InfoOf(root)) && Holds({root} + Nodes(k), fin)
    ensures AllNarrowed(Passes(root.prompt, InfoOf(root)), k, snap, fin)
    ensures Finished(fin, {root}, k') && NestedEnough(fin, k', null)
    ensures deps.Valid() && multiset(deps.log) == AllDirects(k, fin) + AllSelects(k, fin)
  {
    ghost var f := Cons(root, k, Nil);
    fin := Finals(root, InfoOf(root), k, snap);
    k' := Hoisted(Each(k, fin), fin);
    FinalIsNarrowed(Passes(root.prompt, InfoOf(root)), k, snap, fin);
    WholeMenu(root, k);
    Finalize(root, deps, null, f, snap, fin);
    MenuIsFinished(root, k, fin);
    KidsLogCounts(k, fin);
  }

  lemma {:induction false} MenuIsFinished(root: Menu, k: Forest, fin: Infos)
    requires Distinct(Cons(root, k, Nil)) && AtHome(root, k)
    ensures var k' := Hoisted(Each(k, fin), fin);
      && Preorder(k') == Preorder(k) && Distinct(Cons(root, k', Nil))
      && Finished(fin, {root}, k') && NestedEnough(fin, k', null)
  {
    var e := Each(k, fin);
    EachSame(k, fin);
    HoistedSame(e, fin);
    SameEntries(k, Hoisted(e, fin));
    HomeDeclared(root, k);
    EachFinished(fin, root, k);
    HomeOwned(fin, root, e);
    HoistedFinished(fin, {root}, e);
    HoistedNestedEnough(fin, e, null);
  }

  lemma {:induction false} WholeMenu(root: Menu, k: Forest)
    ensures var f := Cons(root, k, Nil); Nodes(f) == {root} + Nodes(k) && Tops(f) == {root} && Below(f) == Nodes(k)
  {
    assert Nodes(Nil) == {} && Tops(Nil) == {} && Below(Nil) == {};
  }
}
