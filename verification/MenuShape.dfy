/** What menu_finalize of kconfig/menu.c makes of the menu tree, as functions: which entries become children
    of which, and the order in which dependencies are gathered. */
module KconfigMenuShape {
  import opened Common
  import opened KconfigExpr
  import opened KconfigMenuEntry
  import opened KconfigMenuForest
  import opened KconfigMenuConditions
  import opened KconfigDependencies
  import opened KconfigMenuNarrow
  import opened KconfigMenuNesting

  // ---------------------------------------------------------------- the functions

  /** The children of an entry without a prompt text become the siblings that follow it (menu.c:414-424). */
  ghost function MovedUp(f: Forest, fin: Infos): (g: Forest)
    requires f.Cons?
    ensures g.Cons? && g.node == f.node && Count(g) == Count(f)
  {
    if f.kids.Cons? && !HasText(f.node.prompt, Of(fin, f.node)) then
      AppendCount(f.kids, f.rest);
      Cons(f.node, Nil, Append(f.kids, f.rest))
    else f
  }

  /** The loop over the children that does so. */
  ghost function Hoisted(f: Forest, fin: Infos): (g: Forest)
    ensures Count(g) == Count(f)
    decreases Count(f)
  {
    if f.Nil? then Nil
    else
      var g := MovedUp(f, fin);
      Cons(g.node, g.kids, Hoisted(g.rest, fin))
  }

  /** menu_finalize for the first entry of a chain: it may take in the entries that follow. */
  ghost function Finalized(f: Forest, fin: Infos): (g: Forest)
    requires f.Cons?
    ensures g.Cons? && g.node == f.node && Count(g) == Count(f)
    decreases Count(f), 1
  {
    if f.kids.Cons? then Cons(f.node, Hoisted(Each(f.kids, fin), fin), f.rest)
    else if f.node.sym.None? then f
    else
      var (k, r) := Nested(f.node, f.rest, fin);
      Cons(f.node, Hoisted(k, fin), r)
  }

  /** For one entry after another of a chain (menu.c:339-340). */
  ghost function Each(f: Forest, fin: Infos): (g: Forest)
    ensures Count(g) == Count(f)
    decreases Count(f), 2
  {
    if f.Nil? then Nil
    else
      var g := Finalized(f, fin);
      Cons(g.node, g.kids, Each(g.rest, fin))
  }

  /** The entries that become children of `a`, and the rest (menu.c:346-366). */
  ghost function Nested(a: Menu, f: Forest, fin: Infos): (r: (Forest, Forest))
    ensures Count(r.0) + Count(r.1) == Count(f)
    decreases Count(f), 2
  {
    if f.Nil? || !Nests(fin, a, f.node) then (Nil, f)
    else
      var g := Finalized(f, fin);
      var (k, r) := Nested(a, g.rest, fin);
      (Cons(g.node, g.kids, k), r)
  }

  /** What one call adds to the dependencies, in order. */
  ghost function FinalLog(f: Forest, fin: Infos): seq<Record>
    requires f.Cons?
    decreases Count(f), 1
  {
    if f.kids.Cons? then TopLog(f.kids, fin) + EachLog(f.kids, fin)
    else if f.node.sym.None? then []
    else NestedLog(f.node, f.rest, fin) + DirectOf(f.node.sym.value, Of(fin, f.node).dep)
  }

  ghost function EachLog(f: Forest, fin: Infos): seq<Record>
    decreases Count(f), 2
  {
    if f.Nil? then [] else FinalLog(f, fin) + EachLog(Finalized(f, fin).rest, fin)
  }

  ghost function NestedLog(a: Menu, f: Forest, fin: Infos): seq<Record>
    decreases Count(f), 2
  {
    if f.Nil? || !Nests(fin, a, f.node) then [] else FinalLog(f, fin) + NestedLog(a, Finalized(f, fin).rest, fin)
  }

  /** An entry that is implied by the one before it becomes the first of its children. */
  lemma ImpliedIsNested(a: Menu, f: Forest, fin: Infos)
    requires f.Cons? && Implied(fin, a, f.node)
    ensures Nested(a, f, fin).0.Cons? && Nested(a, f, fin).0.node == f.node
    ensures var g := Finalized(Cons(a, Nil, f), fin); g.node == a && g.kids.Cons? && g.kids.node == f.node
  {
    ImpliedNests(fin, a, f.node);
  }

  // ---------------------------------------------------------------- the same entries in the same order

  lemma {:induction false} MovedUpSame(f: Forest, fin: Infos)
    requires f.Cons?
    ensures Preorder(MovedUp(f, fin)) == Preorder(f)
  {
    AppendFacts(f.kids, f.rest);
    assert Preorder(Nil) == [];
    assert [f.node] + [] + (Preorder(f.kids) + Preorder(f.rest)) == [f.node] + Preorder(f.kids) + Preorder(f.rest);
  }

  lemma {:induction false} HoistedSame(f: Forest, fin: Infos)
    ensures Preorder(Hoisted(f, fin)) == Preorder(f)
    decreases Count(f)
  {
    if f.Cons? {
      MovedUpSame(f, fin);
      HoistedSame(MovedUp(f, fin).rest, fin);
    }
  }

  lemma {:induction false} FinalizedSame(f: Forest, fin: Infos)
    requires f.Cons?
    ensures Preorder(Finalized(f, fin)) == Preorder(f)
    decreases Count(f), 1
  {
    if f.kids.Cons? {
      EachSame(f.kids, fin);
      HoistedSame(Each(f.kids, fin), fin);
    } else if f.node.sym.Some? {
      var (k, r) := Nested(f.node, f.rest, fin);
      NestedSame(f.node, f.rest, fin);
      HoistedSame(k, fin);
      assert [f.node] + [] + Preorder(f.rest) == [f.node] + Preorder(k) + Preorder(r);
    }
  }

  lemma {:induction false} EachSame(f: Forest, fin: Infos)
    ensures Preorder(Each(f, fin)) == Preorder(f)
    decreases Count(f), 2
  {
    if f.Cons? {
      FinalizedSame(f, fin);
      EachSame(Finalized(f, fin).rest, fin);
    }
  }

  lemma InFront(m: Menu, kids: seq<Menu>, more: seq<Menu>, rest: seq<Menu>)
    ensures ([m] + kids + more) + rest == [m] + kids + (more + rest)
  {
  }

  lemma {:induction false} NestedSame(a: Menu, f: Forest, fin: Infos)
    ensures Preorder(Nested(a, f, fin).0) + Preorder(Nested(a, f, fin).1) == Preorder(f)
    decreases Count(f), 2
  {
    if f.Cons? && Nests(fin, a, f.node) {
      var g := Finalized(f, fin);
      var (k, r) := Nested(a, g.rest, fin);
      FinalizedSame(f, fin);
      NestedSame(a, g.rest, fin);
      InFront(g.node, Preorder(g.kids), Preorder(k), Preorder(r));
    }
  }

  // ---------------------------------------------------------------- what is left of a chain

  /** What follows the entries that have been taken in is the end of the chain, as it was. */
  lemma {:induction false} FinalizedRest(f: Forest, fin: Infos) returns (c: Forest)
    requires f.Cons?
    ensures f.rest == Append(c, Finalized(f, fin).rest)
    decreases Count(f), 1
  {
    c := Nil;
    if f.kids.Nil? && f.node.sym.Some? { c := NestedRest(f.node, f.rest, fin); }
  }

  lemma {:induction false} NestedRest(a: Menu, f: Forest, fin: Infos) returns (c: Forest)
    ensures f == Append(c, Nested(a, f, fin).1)
    decreases Count(f), 2
  {
    c := Nil;
    if f.Cons? && Nests(fin, a, f.node) {
      var g := Finalized(f, fin);
      var c1 := FinalizedRest(f, fin);
      var c2 := NestedRest(a, g.rest, fin);
      AppendAssoc(c1, c2, Nested(a, g.rest, fin).1);
      c := Cons(f.node, f.kids, Append(c1, c2));
    }
  }

  // ---------------------------------------------------------------- nothing is gathered twice or lost

  lemma {:induction false} TopLogCounts(f: Forest, fin: Infos)
    ensures multiset(TopLog(f, fin)) == TopSelects(f, fin)
  {
    if f.Cons? { TopLogCounts(f.rest, fin); }
  }

  lemma {:induction false} FinalLogCounts(f: Forest, fin: Infos)
    requires f.Cons?
    ensures multiset(FinalLog(f, fin)) + Finds(Finalized(f, fin).rest, fin) == Finds(f, fin)
    decreases Count(f), 1
  {
    FindsFirst(f, fin);
    if f.kids.Cons? { KidsLogCounts(f.kids, fin); } else { LeafLogCounts(f, fin); }
  }

  lemma {:induction false} KidsLogCounts(k: Forest, fin: Infos)
    ensures multiset(TopLog(k, fin) + EachLog(k, fin)) == AllDirects(k, fin) + AllSelects(k, fin)
    decreases Count(k), 3
  {
    TopLogCounts(k, fin);
    EachLogCounts(k, fin);
    SelectsSplit(k, fin);
  }

  lemma {:induction false} LeafLogCounts(f: Forest, fin: Infos)
    requires f.Cons? && f.kids.Nil?
    ensures multiset(FinalLog(f, fin)) + Finds(Finalized(f, fin).rest, fin) ==
              OwnDirect(f.node, fin) + Finds(f.rest, fin)
    decreases Count(f), 0
  {
    if f.node.sym.Some? { NestedLogCounts(f.node, f.rest, fin); }
  }

  lemma {:induction false} EachLogCounts(f: Forest, fin: Infos)
    ensures multiset(EachLog(f, fin)) == Finds(f, fin)
    decreases Count(f), 2
  {
    if f.Cons? {
      FinalLogCounts(f, fin);
      EachLogCounts(Finalized(f, fin).rest, fin);
    }
  }

  lemma {:induction false} NestedLogCounts(a: Menu, f: Forest, fin: Infos)
    ensures multiset(NestedLog(a, f, fin)) + Finds(Nested(a, f, fin).1, fin) == Finds(f, fin)
    decreases Count(f), 2
  {
    if f.Cons? && Nests(fin, a, f.node) {
      FinalLogCounts(f, fin);
      NestedLogCounts(a, Finalized(f, fin).rest, fin);
    }
  }
}
