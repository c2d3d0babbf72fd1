/** What the menu looks like when menu_finalize of kconfig/menu.c is done with it: every entry stands where it
    belongs, none stands outside where it would belong, and none without a prompt text has children. */
module KconfigMenuFinished {
  import opened Common
  import opened KconfigExpr
  import opened KconfigMenuForest
  import opened KconfigMenuConditions
  import opened KconfigMenuNarrow
  import opened KconfigMenuNesting
  import opened KconfigMenuShape

  // ---------------------------------------------------------------- every entry where it belongs

  /** `m` was declared under `a`, or it passes the test for being nested under `a`. */
  ghost predicate BelongsTo(fin: Infos, a: Menu, m: Menu) {
    m.home == a || Nests(fin, a, m)
  }

  ghost predicate Owned(fin: Infos, owners: set<Menu>, m: Menu) {
    exists a <- owners :: BelongsTo(fin, a, m)
  }

  /** Behind an entry without a prompt text may stand what used to be its children. */
  ghost function OwnersBehind(fin: Infos, owners: set<Menu>, m: Menu): set<Menu> {
    if HasText(m.prompt, Of(fin, m)) then owners else owners + {m}
  }

  /** Each entry of the level belongs to an owner, or to an entry in front of it without a prompt text. */
  ghost predicate TopsOwned(fin: Infos, owners: set<Menu>, f: Forest)
    decreases f
  {
    f.Cons? ==> Owned(fin, owners, f.node) && TopsOwned(fin, OwnersBehind(fin, owners, f.node), f.rest)
  }

  /** No entry without a prompt text has children, and on every level each entry belongs to its parent
      or has moved up from an entry in front of it without a prompt text. */
  ghost predicate Finished(fin: Infos, owners: set<Menu>, f: Forest)
    decreases f
  {
    f.Cons? ==>
      && Owned(fin, owners, f.node) && (f.kids.Cons? ==> HasText(f.node.prompt, Of(fin, f.node)))
      && Finished(fin, {f.node}, f.kids)
      && Finished(fin, OwnersBehind(fin, owners, f.node), f.rest)
  }

  ghost predicate KidsFinished(fin: Infos, f: Forest) {
    f.Cons? ==> Finished(fin, {f.node}, f.kids) && KidsFinished(fin, f.rest)
  }

  ghost function OwnersAfter(fin: Infos, owners: set<Menu>, f: Forest): (r: set<Menu>)
    ensures owners <= r <= owners + Tops(f)
    decreases f
  {
    if f.Nil? then owners else OwnersAfter(fin, OwnersBehind(fin, owners, f.node), f.rest)
  }

  // ---------------------------------------------------------------- no entry outside where it would belong

  /** What comes next: the first entry of `f`, or `after` behind it. */
  function First(f: Forest, after: Menu?): Menu? { if f.Cons? then f.node else after }

  /** If `a` has declared no entries, and what follows all that stands under it was declared beside it,
      that does not pass the test for being nested under `a`. */
  ghost predicate Stopped(fin: Infos, a: Menu, kids: Forest, next: Menu?) {
    next != null && next.home == a.home && HasText(a.prompt, Of(fin, a)) && (kids.Cons? ==> kids.node.home != a) ==>
      !Nests(fin, a, next)
  }

  /** So nothing that is implied by `a` has been left there. */
  lemma NothingImpliedLeft(fin: Infos, a: Menu, kids: Forest, next: Menu?)
    requires Stopped(fin, a, kids, next) && next != null && next.home == a.home && HasText(a.prompt, Of(fin, a))
    requires kids.Cons? ==> kids.node.home != a
    ensures !Implied(fin, a, next)
  {
    if Implied(fin, a, next) { ImpliedNests(fin, a, next); }
  }

  /** Every entry has taken in all that follows it and passes its test; `after` is what follows the whole. */
  ghost predicate NestedEnough(fin: Infos, f: Forest, after: Menu?)
    decreases f
  {
    f.Cons? ==>
      var next := First(f.rest, after);
      && Stopped(fin, f.node, f.kids, next) && NestedEnough(fin, f.kids, next) && NestedEnough(fin, f.rest, after)
  }

  lemma {:induction false} MoreOwners(fin: Infos, owners: set<Menu>, more: set<Menu>, f: Forest)
    requires owners <= more
    ensures TopsOwned(fin, owners, f) ==> TopsOwned(fin, more, f)
    decreases f
  {
    if f.Cons? && TopsOwned(fin, owners, f) {
      MoreOwners(fin, OwnersBehind(fin, owners, f.node), OwnersBehind(fin, more, f.node), f.rest);
    }
  }

  lemma {:induction false} FinishedParts(fin: Infos, owners: set<Menu>, f: Forest)
    requires Finished(fin, owners, f)
    ensures TopsOwned(fin, owners, f) && KidsFinished(fin, f)
    decreases f
  {
    if f.Cons? { FinishedParts(fin, OwnersBehind(fin, owners, f.node), f.rest); }
  }

  lemma {:induction false} AppendOwned(fin: Infos, owners: set<Menu>, f: Forest, g: Forest)
    requires TopsOwned(fin, owners, f) && TopsOwned(fin, OwnersAfter(fin, owners, f), g)
    ensures TopsOwned(fin, owners, Append(f, g))
    decreases f
  {
    if f.Cons? { AppendOwned(fin, OwnersBehind(fin, owners, f.node), f.rest, g); }
  }

  lemma {:induction false} AppendKidsFinished(fin: Infos, f: Forest, g: Forest)
    ensures KidsFinished(fin, Append(f, g)) <==> KidsFinished(fin, f) && KidsFinished(fin, g) {
    if f.Cons? { AppendKidsFinished(fin, f.rest, g); }
  }

  lemma {:induction false} AppendNestedEnough(fin: Infos, f: Forest, g: Forest, after: Menu?)
    ensures NestedEnough(fin, Append(f, g), after) <==>
              NestedEnough(fin, f, First(g, after)) && NestedEnough(fin, g, after)
    decreases f
  {
    if f.Cons? { AppendNestedEnough(fin, f.rest, g, after); }
  }

  /** What is declared elsewhere makes no difference when it comes next. */
  lemma {:induction false} NextFromElsewhere(fin: Infos, f: Forest, after: Menu?, elsewhere: Menu?)
    requires elsewhere != null ==> forall a <- Nodes(f) :: a.home != elsewhere.home
    requires after == null && NestedEnough(fin, f, after)
    ensures NestedEnough(fin, f, elsewhere)
    decreases f
  {
    if f.Cons? {
      if f.rest.Nil? { NextFromElsewhere(fin, f.kids, after, elsewhere); }
      NextFromElsewhere(fin, f.rest, after, elsewhere);
    }
  }

  // ---------------------------------------------------------------- where entries were declared

  ghost predicate TopsHome(p: Menu?, f: Forest) { f.Cons? ==> f.node.home == p && TopsHome(p, f.rest) }

  /** Everybody below `p` is where it was declared. */
  ghost predicate AtHome(p: Menu, f: Forest) {
    f.Cons? ==> f.node.home == p && AtHome(f.node, f.kids) && AtHome(p, f.rest)
  }

  /** A chain of entries that were declared under `p`, each with what it declares itself. */
  ghost predicate Declared(p: Menu?, f: Forest) {
    f.Cons? ==> f.node.home == p && AtHome(f.node, f.kids) && Declared(p, f.rest)
  }

  ghost predicate Siblings(p: Menu?, f: Forest) { Declared(p, f) && Distinct(f) && (p != null ==> p !in Nodes(f)) }

  lemma {:induction false} HomeDeclared(p: Menu, f: Forest)
    requires AtHome(p, f)
    ensures Declared(p, f)
  {
    if f.Cons? { HomeDeclared(p, f.rest); }
  }

  lemma {:induction false} DeclaredEnd(p: Menu?, d: Forest, f: Forest)
    requires Declared(p, Append(d, f))
    ensures Declared(p, f)
  {
    if d.Cons? { DeclaredEnd(p, d.rest, f); }
  }

  /** What menu_finalize leaves of a chain. */
  lemma {:induction false} SiblingsLeft(p: Menu?, f: Forest, fin: Infos)
    requires f.Cons? && Siblings(p, f)
    ensures Siblings(p, f.rest) && Siblings(p, Finalized(f, fin).rest)
  {
    var r := Finalized(f, fin).rest;
    var c := FinalizedRest(f, fin);
    DeclaredEnd(p, c, r);
    AppendFacts(c, r);
  }

  lemma {:induction false} HomesInside(p: Menu, f: Forest)
    requires AtHome(p, f)
    ensures forall a <- Nodes(f) :: a.home == p || a.home in Nodes(f)
  {
    if f.Cons? {
      HomesInside(f.node, f.kids);
      HomesInside(p, f.rest);
    }
  }

  lemma {:induction false} HomeOwned(fin: Infos, p: Menu, f: Forest)
    requires TopsHome(p, f)
    ensures TopsOwned(fin, {p}, f)
  {
    if f.Cons? {
      HomeOwned(fin, p, f.rest);
      assert BelongsTo(fin, p, f.node);
      MoreOwners(fin, {p}, OwnersBehind(fin, {p}, f.node), f.rest);
    }
  }

  // ---------------------------------------------------------------- moving up

  lemma {:induction false} MovedUpOwned(fin: Infos, owners: set<Menu>, f: Forest)
    requires f.Cons? && TopsOwned(fin, owners, f) && KidsFinished(fin, f)
    ensures var f', more := MovedUp(f, fin), OwnersBehind(fin, owners, f.node);
      Finished(fin, owners, One(f')) && TopsOwned(fin, more, f'.rest) && KidsFinished(fin, f'.rest)
  {
    if f.kids.Cons? && !HasText(f.node.prompt, Of(fin, f.node)) {
      KidsMovedUp(fin, owners + {f.node}, f.node, f.kids, f.rest);
    }
  }

  lemma {:induction false} KidsMovedUp(fin: Infos, more: set<Menu>, m: Menu, k: Forest, r: Forest)
    requires m in more && Finished(fin, {m}, k) && TopsOwned(fin, more, r) && KidsFinished(fin, r)
    ensures TopsOwned(fin, more, Append(k, r)) && KidsFinished(fin, Append(k, r))
  {
    FinishedParts(fin, {m}, k);
    MoreOwners(fin, {m}, more, k);
    MoreOwners(fin, more, OwnersAfter(fin, more, k), r);
    AppendOwned(fin, more, k, r);
    AppendKidsFinished(fin, k, r);
  }

  lemma {:induction false} MovedUpNestedEnough(fin: Infos, f: Forest, after: Menu?)
    requires f.Cons? && NestedEnough(fin, f, after)
    ensures NestedEnough(fin, MovedUp(f, fin), after)
  {
    if f.kids.Cons? && !HasText(f.node.prompt, Of(fin, f.node)) { AppendNestedEnough(fin, f.kids, f.rest, after); }
  }

  /** Once every entry has been looked at, those without a prompt text have no children left. */
  lemma {:induction false} HoistedFinished(fin: Infos, owners: set<Menu>, f: Forest)
    requires TopsOwned(fin, owners, f) && KidsFinished(fin, f)
    ensures Finished(fin, owners, Hoisted(f, fin))
    decreases Count(f)
  {
    if f.Cons? {
      MovedUpOwned(fin, owners, f);
      HoistedFinished(fin, OwnersBehind(fin, owners, f.node), MovedUp(f, fin).rest);
    }
  }

  lemma {:induction false} HoistedNestedEnough(fin: Infos, f: Forest, after: Menu?)
    requires NestedEnough(fin, f, after)
    ensures NestedEnough(fin, Hoisted(f, fin), after)
    decreases Count(f)
  {
    if f.Cons? {
      MovedUpNestedEnough(fin, f, after);
      HoistedNestedEnough(fin, MovedUp(f, fin).rest, after);
    }
  }

  // ---------------------------------------------------------------- the whole pass

  /** What menu_finalize achieves for one entry. */
  lemma {:induction false} FinalizedFinished(fin: Infos, p: Menu?, f: Forest)
    requires f.Cons? && Siblings(p, f)
    ensures var g := Finalized(f, fin);
      Finished(fin, {f.node}, g.kids) && NestedEnough(fin, One(g), First(g.rest, null))
    decreases Count(f), 1
  {
    if f.kids.Cons? {
      DeclaredFinished(fin, p, f);
    } else if f.node.sym.Some? {
      LeafFinished(fin, p, f);
    }
  }

  lemma {:induction false} LeafFinished(fin: Infos, p: Menu?, f: Forest)
    requires f.Cons? && Siblings(p, f) && f.kids.Nil? && f.node.sym.Some?
    ensures var g := Finalized(f, fin);
      Finished(fin, {f.node}, g.kids) && NestedEnough(fin, One(g), First(g.rest, null))
    decreases Count(f), 0
  {
    var (k, r) := Nested(f.node, f.rest, fin);
    SiblingsLeft(p, f, fin);
    NestedFinished(fin, p, f.node, f.rest);
    HoistedFinished(fin, {f.node}, k);
    HoistedNestedEnough(fin, k, First(r, null));
  }

  lemma {:induction false} DeclaredFinished(fin: Infos, p: Menu?, f: Forest)
    requires f.Cons? && Siblings(p, f) && f.kids.Cons?
    ensures var g := Finalized(f, fin);
      Finished(fin, {f.node}, g.kids) && NestedEnough(fin, One(g), First(g.rest, null))
    decreases Count(f), 0
  {
    var m, k := f.node, Each(f.kids, fin);
    HomeDeclared(m, f.kids);
    EachFinished(fin, m, f.kids);
    HomeOwned(fin, m, k);
    HoistedFinished(fin, {m}, k);
    HoistedNestedEnough(fin, k, null);
    EachSame(f.kids, fin);
    HoistedSame(k, fin);
    SameEntries(Hoisted(k, fin), f.kids);
    NextElsewhere(fin, p, f, Hoisted(k, fin));
  }

  /** What follows an entry was not declared under it. */
  lemma {:induction false} NextElsewhere(fin: Infos, p: Menu?, f: Forest, k: Forest)
    requires f.Cons? && Siblings(p, f) && Nodes(k) == Nodes(f.kids) && NestedEnough(fin, k, null)
    requires k.Cons? && k.node.home == f.node
    ensures NestedEnough(fin, Cons(f.node, k, Nil), First(f.rest, null))
  {
    HomesInside(f.node, f.kids);
    assert Nodes(f) == {f.node} + Nodes(f.kids) + Nodes(f.rest);
    assert Declared(p, f.rest);
    forall a <- Nodes(k) ensures a.home in Nodes(f) { assert a.home == f.node || a.home in Nodes(f.kids); }
    NextFromElsewhere(fin, k, null, First(f.rest, null));
  }

  lemma {:induction false} EachFinished(fin: Infos, p: Menu?, f: Forest)
    requires Siblings(p, f)
    ensures KidsFinished(fin, Each(f, fin)) && NestedEnough(fin, Each(f, fin), null) && TopsHome(p, Each(f, fin))
    decreases Count(f), 2
  {
    if f.Cons? {
      FinalizedFinished(fin, p, f);
      SiblingsLeft(p, f, fin);
      EachFinished(fin, p, Finalized(f, fin).rest);
    }
  }

  lemma {:induction false} NestedFinished(fin: Infos, p: Menu?, a: Menu, f: Forest)
    requires Siblings(p, f) && a.sym.Some?
    ensures var (k, r) := Nested(a, f, fin);
      && TopsOwned(fin, {a}, k) && KidsFinished(fin, k) && NestedEnough(fin, k, First(r, null))
      && (r.Cons? ==> !Nests(fin, a, r.node))
    decreases Count(f), 2
  {
    if f.Cons? && Nests(fin, a, f.node) {
      var g := Finalized(f, fin);
      FinalizedFinished(fin, p, f);
      SiblingsLeft(p, f, fin);
      NestedFinished(fin, p, a, g.rest);
      assert BelongsTo(fin, a, f.node);
      MoreOwners(fin, {a}, OwnersBehind(fin, {a}, f.node), Nested(a, g.rest, fin).0);
    }
  }
}
