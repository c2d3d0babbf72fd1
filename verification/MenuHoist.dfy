/** The loop of menu_finalize of kconfig/menu.c that moves the children of entries without a prompt text up. */
module KconfigMenuHoist {
  import opened KconfigMenuConditions
  import opened KconfigMenuForest
  import opened KconfigMenuNarrow
  import opened KconfigMenuShape

  /** Moving on to the next entry of a chain. */
  lemma {:induction false} Advance(before: Forest, rest: Forest, k: Forest)
    requires Append(before, rest) == k && Distinct(k) && rest.Cons?
    ensures Append(Append(before, One(rest)), rest.rest) == k && Nodes(before) + Nodes(rest) == Nodes(k)
    ensures Distinct(rest) && rest.node !in Nodes(before)
  {
    AppendAssoc(before, One(rest), rest.rest);
    AppendFacts(before, rest);
  }

  /** The entries of a chain get a new parent; the last of them is returned. */
  method Reparent(first: Menu, p: Menu?, q: Menu, ghost k: Forest)
    returns (last: Menu, ghost before: Forest, ghost kids: Forest)
    requires Seg(first, p, k, null) && Distinct(k)
    modifies Nodes(k)`parent
    ensures Append(before, Cons(last, kids, Nil)) == k
    ensures Seg(first, q, before, last) && Seg(last, q, Cons(last, kids, Nil), null)
  {
    assert k.Cons?;
    ghost var rest;
    before, rest, last := Nil, k, first;
    while true
      invariant Seg(first, q, before, last) && Seg(last, p, rest, null) && rest.Cons?
      invariant Append(before, rest) == k
      decreases rest
    {
      ghost var one := Cons(last, rest.kids, Nil);
      Advance(before, rest, k);
      last.parent := q;
      if last.next == null {
        kids := rest.kids;
        return;
      }
      AppendSeg(first, q, before, last, one, last.next);
      before, rest, last := Append(before, one), rest.rest, last.next;
    }
  }

  /** The chain that ends in `last` is moved from below `menu` to right behind it. */
  method Splice(parent: Menu, menu: Menu, last: Menu, ghost before: Forest, ghost kids: Forest, ghost r: Forest)
    requires Seg(menu.list, parent, before, last) && Seg(last, parent, Cons(last, kids, Nil), null)
    requires menu.parent == parent && Seg(menu.next, parent, r, null)
    requires menu != last && menu !in Nodes(before) && menu !in Nodes(kids) && menu !in Nodes(r)
    requires last !in Nodes(before) && last !in Nodes(kids) && last !in Nodes(r)
    modifies menu`next, menu`list, last`next
    ensures Seg(menu, parent, Cons(menu, Nil, Append(before, Cons(last, kids, r))), null)
  {
    last.next := menu.next;
    menu.next := menu.list;
    menu.list := null;
    AppendSeg(menu.next, parent, before, last, Cons(last, kids, r), null);
  }

  lemma {:induction false} LeafThen(menu: Menu, f: Forest)
    ensures Preorder(Cons(menu, Nil, f)) == [menu] + Preorder(f)
    ensures Nodes(Cons(menu, Nil, f)) == {menu} + Nodes(f)
    ensures Distinct(Cons(menu, Nil, f)) <==> menu !in Nodes(f) && Distinct(f)
  {
    assert Preorder(Nil) == [] && [menu] + [] + Preorder(f) == [menu] + Preorder(f);
  }

  lemma {:induction false} HoistShape(menu: Menu, k: Forest, r: Forest)
    requires Distinct(Cons(menu, k, r))
    ensures var f := Cons(menu, Nil, Append(k, r));
      Distinct(f) && Nodes(f) == Nodes(Cons(menu, k, r)) && Preorder(f) == Preorder(Cons(menu, k, r))
  {
    AppendFacts(k, r);
    LeafThen(menu, Append(k, r));
    assert [menu] + (Preorder(k) + Preorder(r)) == [menu] + Preorder(k) + Preorder(r);
  }

  lemma {:induction false} LastApart(before: Forest, last: Menu, kids: Forest)
    requires Distinct(Append(before, Cons(last, kids, Nil)))
    ensures last !in Nodes(before) && last !in Nodes(kids)
    ensures Nodes(Append(before, Cons(last, kids, Nil))) == Nodes(before) + Nodes(kids) + {last}
  {
    AppendFacts(before, Cons(last, kids, Nil));
  }

  method HoistOne(parent: Menu, menu: Menu, ghost cur: Forest, ghost fin: Infos)
    requires Seg(menu, parent, cur, null) && cur.Cons? && Distinct(cur) && InfoOf(menu) == Of(fin, menu)
    modifies Nodes(cur)`next, Nodes(cur)`list, Nodes(cur)`parent
    ensures Seg(menu, parent, MovedUp(cur, fin), null)
    ensures Distinct(MovedUp(cur, fin)) && Nodes(MovedUp(cur, fin)) == Nodes(cur)
  {
    if menu.list != null && !HasText(menu.prompt, InfoOf(menu)) {
      ghost var k, r := cur.kids, cur.rest;
      HoistShape(menu, k, r);
      assert allocated(Nodes(r));
      var last;
      ghost var before, kids;
      last, before, kids := Reparent(menu.list, menu, parent, k);
      LastApart(before, last, kids);
      AppendAssoc(before, Cons(last, kids, Nil), r);
      Splice(parent, menu, last, before, kids, r);
    }
  }

  /** One round of the loop. */
  method HoistNext(parent: Menu, menu: Menu, ghost done: Forest, ghost cur: Forest, ghost all: set<Menu>,
                   ghost fin: Infos)
    requires Partly(parent.list, parent, parent, done, menu, cur, all) && cur.Cons? && parent !in all
    requires Holds(all, fin)
    modifies Nodes(cur)`next, Nodes(cur)`list, Nodes(cur)`parent
    ensures parent.list == old(parent.list) && Holds(all, fin)
    ensures var g := MovedUp(cur, fin);
      Partly(parent.list, parent, parent, Append(done, One(g)), menu.next, g.rest, all)
  {
    assert allocated(Nodes(done)) && menu in Nodes(cur);
    HoistOne(parent, menu, cur, fin);
    OneMore(parent.list, parent, parent, done, MovedUp(cur, fin), all);
  }

  method Hoist(parent: Menu, ghost k: Forest, ghost fin: Infos)
    requires Seg(parent.list, parent, k, null) && Distinct(k) && parent !in Nodes(k) && Holds(Nodes(k), fin)
    modifies Nodes(k)`next, Nodes(k)`list, Nodes(k)`parent
    ensures Seg(parent.list, parent, Hoisted(k, fin), null) && parent.list == old(parent.list)
  {
    ghost var all, done, cur := Nodes(k), Nil, k;
    var menu := parent.list;
    while menu != null
      invariant Partly(parent.list, parent, parent, done, menu, cur, all) && parent.list == old(parent.list)
      invariant Append(done, Hoisted(cur, fin)) == Hoisted(k, fin) && Holds(all, fin)
      decreases Count(cur)
    {
      ghost var g := MovedUp(cur, fin);
      HoistNext(parent, menu, done, cur, all, fin);
      OneInFront(done, g, Hoisted(g.rest, fin));
      done, cur, menu := Append(done, One(g)), g.rest, menu.next;
    }
    AppendNil(done);
  }
}
