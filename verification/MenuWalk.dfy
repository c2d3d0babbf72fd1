/** The walk over the finished menu that conf_write of kconfig/confdata.c makes to write entries out. */
module KconfigMenuWalk {
  import opened KconfigMenuForest
  import opened KconfigDependencies
  import opened KconfigMenuNarrow
  import opened KconfigMenuFinished
  import opened KconfigMenuFinalize

  /** The levels above the current one: what follows the parent, what follows its parent, and so on. */
  datatype Above = Root | Level(rest: Forest, above: Above)

  ghost predicate Leads(parent: Menu?, up: Above)
    reads *
    decreases up
  {
    parent != null &&
    match up
    case Root => parent.next == null && parent.parent == null
    case Level(rest, above) => Seg(parent.next, parent.parent, rest, null) && Leads(parent.parent, above)
  }

  ghost function Remaining(up: Above): seq<Menu> {
    match up
    case Root => []
    case Level(rest, above) => Preorder(rest) + Remaining(above)
  }

  /** Climb to the nearest level on which something follows. */
  method Climb(parent: Menu, ghost up: Above) returns (menu: Menu?, ghost cur: Forest, ghost up': Above)
    requires Leads(parent, up)
    ensures if menu == null then Remaining(up) == [] else
              Seg(menu, menu.parent, cur, null) && Leads(menu.parent, up') &&
                Preorder(cur) + Remaining(up') == Remaining(up)
  {
    menu := parent;
    cur, up' := Nil, up;
    while menu != null
      invariant menu != null ==> Leads(menu, up')
      invariant Remaining(if menu == null then Root else up') == Remaining(up)
      decreases up', menu != null
    {
      if menu.next != null {
        cur := up'.rest;
        menu := menu.next;
        up' := up'.above;
        assert Preorder(cur) + Remaining(up') == Remaining(up);
        return;
      }
      if up'.Level? {
        assert Remaining(up') == Remaining(up'.above);
        up' := up'.above;
      }
      menu := menu.parent;
    }
  }

  /** What the walk still has to visit from `cur` on. */
  ghost function ToVisit(cur: Forest, up: Above): seq<Menu> { Preorder(cur) + Remaining(up) }

  lemma {:induction false} VisitOne(cur: Forest, up: Above)
    requires cur.Cons?
    ensures ToVisit(cur, up) == [cur.node] + ToVisit(cur.kids, Level(cur.rest, up))
    ensures cur.kids == Nil ==> ToVisit(cur, up) == [cur.node] + ToVisit(cur.rest, up)
    ensures cur.kids == Nil && cur.rest == Nil ==> ToVisit(cur, up) == [cur.node] + Remaining(up)
  {
    var k, r := Preorder(cur.kids), Preorder(cur.rest);
    assert ([cur.node] + k + r) + Remaining(up) == [cur.node] + (k + (r + Remaining(up)));
    assert cur.kids == Nil ==> k + (r + Remaining(up)) == r + Remaining(up);
    assert cur.rest == Nil ==> r + Remaining(up) == Remaining(up);
  }

  ghost predicate At(menu: Menu?, cur: Forest, up: Above, todo: seq<Menu>)
    reads *
  {
    if menu == null then todo == []
    else Seg(menu, menu.parent, cur, null) && Leads(menu.parent, up) && todo == ToVisit(cur, up)
  }

  /** From one entry to the next: its first child, else its next sibling, else up (confdata.c:810-822). */
  method Step(menu: Menu, ghost cur: Forest, ghost up: Above, ghost todo: seq<Menu>)
    returns (menu': Menu?, ghost cur': Forest, ghost up': Above, ghost todo': seq<Menu>)
    requires At(menu, cur, up, todo)
    ensures At(menu', cur', up', todo') && todo == [menu] + todo'
  {
    VisitOne(cur, up);
    todo' := todo[1..];
    assert Seg(menu.list, menu, cur.kids, null) && Seg(menu.next, menu.parent, cur.rest, null);
    if menu.list != null {
      assert menu.list.parent == menu && Leads(menu, Level(cur.rest, up));
      menu', cur', up' := menu.list, cur.kids, Level(cur.rest, up);
    } else if menu.next != null {
      assert menu.next.parent == menu.parent;
      menu', cur', up' := menu.next, cur.rest, up;
    } else {
      menu', cur', up' := Climb(menu.parent, up);
    }
  }

  lemma Shift(visited: seq<Menu>, m: Menu, todo: seq<Menu>)
    ensures visited + ([m] + todo) == (visited + [m]) + todo
  {
  }

  /** The entry is written out and the walk moves on. */
  method VisitAndStep(menu: Menu, visited: seq<Menu>, ghost cur: Forest, ghost up: Above, ghost todo: seq<Menu>)
    returns (menu': Menu?, visited': seq<Menu>, ghost cur': Forest, ghost up': Above, ghost todo': seq<Menu>)
    requires At(menu, cur, up, todo)
    ensures At(menu', cur', up', todo')
    ensures visited' + todo' == visited + todo && |todo'| < |todo|
  {
    visited' := visited + [menu];
    menu', cur', up', todo' := Step(menu, cur, up, todo);
    Shift(visited, menu, todo');
  }

  /** The loop of conf_write: it visits every entry below `root` exactly once, in preorder. */
  method Walk(root: Menu, ghost k: Forest) returns (visited: seq<Menu>)
    requires Seg(root, null, Cons(root, k, Nil), null)
    ensures visited == Preorder(k)
  {
    visited := [];
    var menu := root.list;
    ghost var cur, up, todo := k, Root, Preorder(k);
    assert menu != null ==> menu.parent == root && ToVisit(k, Root) == todo;
    while menu != null
      invariant At(menu, cur, up, todo)
      invariant visited + todo == Preorder(k)
      decreases |todo|
    {
      menu, visited, cur, up, todo := VisitAndStep(menu, visited, cur, up, todo);
    }
  }

  lemma {:induction false} PreorderIsEachOnce(k: Forest)
    requires Distinct(k)
    ensures EachOnce(Preorder(k)) && Entries(Preorder(k)) == Nodes(k)
  {
    OncePreorder(k);
    NodesAreEntries(k);
  }

  /** Finishing the menu and then writing it out: whatever was nested and hoisted in between, every
      entry is written exactly once, in the order in which the source declared them. */
  method FinalizeThenWrite(root: Menu, deps: Dependencies, ghost k: Forest, ghost snap: Infos)
    returns (visited: seq<Menu>)
    requires Seg(root, null, Cons(root, k, Nil), null) && Distinct(Cons(root, k, Nil)) && AtHome(root, k) && k.Cons?
    requires Holds(Nodes(k), snap) && deps.Valid() && deps.log == []
    modifies Nodes(Cons(root, k, Nil)), deps`dirDep, deps`revDep, deps`log
    ensures visited == Preorder(k) && EachOnce(visited) && Entries(visited) == Nodes(k)
  {
    ghost var k', _ := FinalizeRoot(root, deps, k, snap);
    visited := Walk(root, k');
    PreorderIsEachOnce(k);
  }
}
