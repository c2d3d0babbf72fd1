/** From the menu as it has been read to the values of its symbols: menu_finalize, the recursion check of
    conf_parse (kconfig/zconf.y), and the evaluator (kconfig/symbol.c), one after the other. */
module KconfigConfigure {
  import opened Common
  import opened KconfigExpr
  import opened KconfigMenuEntry
  import opened KconfigMenuForest
  import opened KconfigMenuConditions
  import opened KconfigDependencies
  import opened KconfigMenuNarrow
  import opened KconfigMenuFinished
  import opened KconfigMenuFinalize
  import W = KconfigMenuWalk
  import D = KconfigDepCheck
  import opened KconfigSymbolValue
  import opened KconfigCheckedEvaluation
  import opened KconfigMenuGraph
  import opened KconfigMenuMeaning

  /** menu_finalize, and what the symbols have then. */
  method FinalizeAndRead(root: Menu, ghost k: Forest, ghost snap: Infos)
    returns (deps: Dependencies, entries: seq<Entry>, ghost fin: Infos)
    requires Seg(root, null, Cons(root, k, Nil), null) && Distinct(Cons(root, k, Nil)) && AtHome(root, k) && k.Cons?
    requires Holds(Nodes(k), snap)
    modifies Nodes(Cons(root, k, Nil))
    ensures Finish(Passes(root.prompt, InfoOf(root)), k, snap, fin, deps.log, entries)
    ensures InfoOf(root) == old(InfoOf(root)) && deps.Valid()
  {
    assert allocated(Nodes(Cons(root, k, Nil))) && allocated(Nodes(k));
    deps := new Dependencies();
    ghost var k';
    k', fin := FinalizeRoot(root, deps, k, snap);
    var visited := W.Walk(root, k');
    NodesAreEntries(k);
    entries := ReadEntries(visited, fin);
  }

  /** The menu is finalized, the symbols are checked for recursion, and the values are computed. If the check
      has nothing to report, the definitions that have come out of the menu have a solution, the evaluator answers
      with it for every order of queries, and the answers are what the menu means. */
  method Configure(root: Menu, modules: Symbol, listed: seq<Symbol>, user: map<Symbol, Tri>, text: Symbol -> string,
                   modulesOn: bool, queries: seq<Symbol>, ghost k: Forest, ghost snap: Infos)
    returns (ok: bool, vals: seq<Tri>, c: Config, ghost defs: Symbol -> D.Node, ghost fin: Infos,
             ghost log: seq<Record>)
    requires Seg(root, null, Cons(root, k, Nil), null) && Distinct(Cons(root, k, Nil)) && AtHome(root, k) && k.Cons?
    requires Holds(Nodes(k), snap) && AsRead(k, snap, modules) && AllListed(k, snap, listed)
    requires forall s <- queries :: s in listed && s.BoolOrTri()
    modifies Nodes(Cons(root, k, Nil))
    ensures Finish(Passes(root.prompt, InfoOf(root)), k, snap, fin, log, EntriesOf(Preorder(k), fin))
    ensures Defines(defs, c, log, EntriesOf(Preorder(k), fin))
    ensures c.user == user && c.text == text && c.modules == modulesOn
    ensures ok <==> !D.HasCycle(defs, Known(defs, listed))
    ensures ok ==> Settles(c, queries, vals) && AllMeant(k, fin, c, queries, vals)
  {
    var passed := Passes(root.prompt, InfoOf(root));
    var deps, entries;
    deps, entries, fin := FinalizeAndRead(root, k, snap);
    log := deps.log;
    MenuIsCovered(passed, k, snap, fin, deps, entries, modules);
    MenuIsWorld(passed, k, snap, fin, deps, entries, listed);
    var graph, dirDep := DefsOf(entries, deps.revDep), DirDepOf(deps.dirDep);
    c := Config(EvalDefs(graph, dirDep), user, text, modulesOn);
    defs := graph;
    MenuDefines(deps, entries, c);
    ok, vals := CheckAndEvaluate(graph, dirDep, c, listed, queries, Known(graph, listed));
    if ok { AnswersMeant(k, fin, log, defs, c, queries, vals); }
  }
}
