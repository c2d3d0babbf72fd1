/** Menu entries and the shape of the menu tree they are linked into (struct menu of
    kconfig/expr.h). */
module KconfigMenuForest {
  import opened Common
  import opened KconfigExpr
  import opened KconfigProperty
  import opened KconfigMenuDeps
  import opened KconfigMenuEntry

  class Menu {
    var next: Menu?
    var list: Menu?
    var parent: Menu?
    const sym: Option<Symbol>
    // The properties attached to this entry, and which of them is its prompt.
    var props: seq<Property>
    const prompt: Option<nat>
    var dep: Option<Expr>
    // What its block says, and the entry whose block declares it.
    ghost const lines: seq<Line>
    ghost const home: Menu?

    /** menu_add_entry, and menu_add_dep or menu_add_prop for each line. */
    constructor (sym: Option<Symbol>, lines: seq<Line>, modules: Symbol, ghost home: Menu?)
      ensures this.sym == sym && this.lines == lines && this.home == home
      ensures Info(dep, props) == Written(sym, lines, modules) && prompt == PromptOf(sym, lines, modules)
      ensures next == null && list == null && parent == null
    {
      var d, p: Option<nat> := None, None;
      var ps := if sym.Some? then [Definition(sym.value)] else [];
      var i := 0;
      while i < |lines|
        invariant i <= |lines|
        invariant d == DepOf(lines[..i], modules) && ps == PropsOf(sym, lines[..i], modules)
        invariant p == PromptOf(sym, lines[..i], modules)
      {
        assert lines[..i + 1][..i] == lines[..i];
        match lines[i] {
          case DependsOn(cond) =>
            d := AllocAnd(d, Some(CheckDep(cond, modules)));
          case HasProp(kind, _, _, _) =>
            if kind == TextProp {
              p := Some(|ps|);
            }
            ps := ps + [PropOf(lines[i], modules)];
        }
        i := i + 1;
      }
      assert lines[..i] == lines;
      this.sym, this.lines, this.home := sym, lines, home;
      props, prompt, dep := ps, p, d;
      next, list, parent := null, null, null;
    }
  }

  // ---------------------------------------------------------------- the tree behind the links

  datatype Forest = Nil | Cons(node: Menu, kids: Forest, rest: Forest)

  ghost function Preorder(f: Forest): seq<Menu> {
    match f
    case Nil => []
    case Cons(m, k, r) => [m] + Preorder(k) + Preorder(r)
  }

  ghost function Nodes(f: Forest): set<Menu> {
    match f
    case Nil => {}
    case Cons(m, k, r) => {m} + Nodes(k) + Nodes(r)
  }

  /** Every entry occurs once. */
  ghost predicate Distinct(f: Forest) {
    match f
    case Nil => true
    case Cons(m, k, r) => m !in Nodes(k) && m !in Nodes(r) && Nodes(k) !! Nodes(r) && Distinct(k) && Distinct(r)
  }

  /** The chain of `next` pointers from `first` up to `end` holds the entries of `f`, all with the
      given parent, and the `list` pointer of each leads to its children. */
  ghost predicate Seg(first: Menu?, parent: Menu?, f: Forest, end: Menu?)
    reads Nodes(f)`next, Nodes(f)`list, Nodes(f)`parent
    decreases f
  {
    match f
    case Nil => first == end
    case Cons(m, k, r) =>
      first == m && m.parent == parent && Seg(m.list, m, k, null) && Seg(m.next, parent, r, end)
  }

  ghost function Append(f: Forest, g: Forest): Forest {
    match f
    case Nil => g
    case Cons(m, k, r) => Cons(m, k, Append(r, g))
  }

  lemma {:induction false} AppendFacts(f: Forest, g: Forest)
    ensures Preorder(Append(f, g)) == Preorder(f) + Preorder(g)
    ensures Nodes(Append(f, g)) == Nodes(f) + Nodes(g)
    ensures Distinct(Append(f, g)) <==> Distinct(f) && Distinct(g) && Nodes(f) !! Nodes(g)
  {
    if f.Cons? { AppendFacts(f.rest, g); }
  }

  ghost function Count(f: Forest): nat {
    match f
    case Nil => 0
    case Cons(_, k, r) => 1 + Count(k) + Count(r)
  }

  lemma {:induction false} AppendCount(f: Forest, g: Forest)
    ensures Count(Append(f, g)) == Count(f) + Count(g)
  {
    if f.Cons? { AppendCount(f.rest, g); }
  }

  lemma {:induction false} AppendAssoc(f: Forest, g: Forest, h: Forest)
    ensures Append(Append(f, g), h) == Append(f, Append(g, h))
  {
    if f.Cons? { AppendAssoc(f.rest, g, h); }
  }

  lemma {:induction false} AppendSeg(first: Menu?, parent: Menu?, f: Forest, mid: Menu?, g: Forest, end: Menu?)
    requires Seg(first, parent, f, mid) && Seg(mid, parent, g, end)
    ensures Seg(first, parent, Append(f, g), end)
  {
    if f.Cons? { AppendSeg(f.node.next, parent, f.rest, mid, g, end); }
  }

  /** A chain that is partly done: `done` ends where `cur` begins, and together they hold `all`. */
  ghost predicate Partly(first: Menu?, p: Menu?, q: Menu?, done: Forest, at: Menu?, cur: Forest, all: set<Menu>)
    reads Nodes(done)`next, Nodes(done)`list, Nodes(done)`parent
    reads Nodes(cur)`next, Nodes(cur)`list, Nodes(cur)`parent
  {
    Seg(first, p, done, at) && Seg(at, q, cur, null) && Apart(done, cur) && Nodes(done) + Nodes(cur) == all
  }

  ghost predicate Apart(f: Forest, g: Forest) {
    Distinct(f) && Distinct(g) && Nodes(f) !! Nodes(g)
  }

  ghost function One(f: Forest): Forest
    requires f.Cons?
  {
    Cons(f.node, f.kids, Nil)
  }

  /** The next entry of a partly done chain, once it has the right parent, joins the done part. */
  lemma {:induction false} OneMore(first: Menu?, p: Menu?, q: Menu?, done: Forest, cur: Forest, all: set<Menu>)
    requires cur.Cons? && Seg(first, p, done, cur.node)
    requires Seg(cur.node, p, One(cur), cur.node.next) && Seg(cur.node.next, q, cur.rest, null)
    requires Apart(done, cur) && Nodes(done) + Nodes(cur) == all
    ensures Partly(first, p, q, Append(done, One(cur)), cur.node.next, cur.rest, all)
  {
    AppendSeg(first, p, done, cur.node, One(cur), cur.node.next);
    AppendFacts(done, One(cur));
  }

  /** Adding one entry to the front part of a result, and the rest behind it. */
  lemma {:induction false} OneInFront(done: Forest, g: Forest, rest: Forest)
    requires g.Cons?
    ensures Append(Append(done, One(g)), rest) == Append(done, Cons(g.node, g.kids, rest))
  {
    AppendAssoc(done, One(g), rest);
  }

  /** The last entry of a chain. */
  ghost function Last(f: Forest): (m: Menu)
    requires f.Cons?
    ensures m in Nodes(f)
  {
    if f.rest.Nil? then f.node else Last(f.rest)
  }

  lemma {:induction false} LastOfAppend(f: Forest, g: Forest)
    requires g.Cons?
    ensures Append(f, g).Cons? && Last(Append(f, g)) == Last(g)
  {
    if f.Cons? { LastOfAppend(f.rest, g); }
  }

  lemma {:induction false} SplitLast(first: Menu?, p: Menu?, f: Forest, end: Menu?)
    returns (before: Forest, kids: Forest)
    requires f.Cons? && Seg(first, p, f, end) && Distinct(f)
    ensures f == Append(before, Cons(Last(f), kids, Nil))
    ensures Seg(first, p, before, Last(f)) && Seg(Last(f), p, Cons(Last(f), kids, Nil), end)
    ensures Last(f) !in Nodes(before) && Last(f) !in Nodes(kids)
    ensures Nodes(f) == Nodes(before) + Nodes(kids) + {Last(f)}
  {
    if f.rest.Nil? {
      before, kids := Nil, f.kids;
    } else {
      before, kids := SplitLast(f.node.next, p, f.rest, end);
      before := Cons(f.node, f.kids, before);
    }
  }

  lemma {:induction false} PreorderIndex(f: Forest, i: nat)
    requires i < |Preorder(f)|
    ensures Preorder(f)[i] in Nodes(f)
  {
    var nk := |Preorder(f.kids)|;
    if i == 0 {
    } else if i <= nk {
      PreorderIndex(f.kids, i - 1);
    } else {
      PreorderIndex(f.rest, i - 1 - nk);
    }
  }

  /** The preorder of a distinct tree holds no entry twice. */
  lemma {:induction false} PreorderOnce(f: Forest, i: nat, j: nat)
    requires Distinct(f) && i < j < |Preorder(f)|
    ensures Preorder(f)[i] != Preorder(f)[j]
  {
    var nk := |Preorder(f.kids)|;
    if 0 < i {
      if j <= nk { PreorderOnce(f.kids, i - 1, j - 1); }
      else if i > nk { PreorderOnce(f.rest, i - 1 - nk, j - 1 - nk); }
      else { PreorderIndex(f.kids, i - 1); PreorderIndex(f.rest, j - 1 - nk); }
    } else if j <= nk {
      PreorderIndex(f.kids, j - 1);
    } else {
      PreorderIndex(f.rest, j - 1 - nk);
    }
  }

  ghost predicate EachOnce(s: seq<Menu>) { forall i, j :: 0 <= i < j < |s| ==> s[i] != s[j] }

  lemma {:induction false} OncePreorder(f: Forest)
    requires Distinct(f)
    ensures EachOnce(Preorder(f))
  {
    forall i, j | 0 <= i < j < |Preorder(f)| ensures Preorder(f)[i] != Preorder(f)[j] { PreorderOnce(f, i, j); }
  }

  function Entries(s: seq<Menu>): set<Menu> { set m <- s }

  lemma EntriesTogether(m: Menu, k: seq<Menu>, r: seq<Menu>)
    ensures Entries([m] + k + r) == {m} + Entries(k) + Entries(r)
  {
  }

  lemma {:induction false} NodesAreEntries(f: Forest)
    ensures Nodes(f) == Entries(Preorder(f))
  {
    if f.Cons? {
      NodesAreEntries(f.kids);
      NodesAreEntries(f.rest);
      EntriesTogether(f.node, Preorder(f.kids), Preorder(f.rest));
    }
  }

  lemma OnceParts(m: Menu, k: seq<Menu>, r: seq<Menu>)
    requires EachOnce([m] + k + r)
    ensures EachOnce(k) && EachOnce(r) && m !in Entries(k) && m !in Entries(r) && Entries(k) !! Entries(r)
  {
    var s := [m] + k + r;
    assert forall i :: 0 <= i < |k| ==> s[1 + i] == k[i];
    assert forall i :: 0 <= i < |r| ==> s[1 + |k| + i] == r[i];
    assert s[0] == m;
  }

  lemma {:induction false} DistinctFromOrder(f: Forest)
    requires EachOnce(Preorder(f))
    ensures Distinct(f)
  {
    if f.Cons? {
      OnceParts(f.node, Preorder(f.kids), Preorder(f.rest));
      DistinctFromOrder(f.kids);
      DistinctFromOrder(f.rest);
      NodesAreEntries(f.kids);
      NodesAreEntries(f.rest);
    }
  }

  /** Trees with the same preorder have the same entries. */
  lemma {:induction false} SameEntries(f: Forest, g: Forest)
    requires Preorder(f) == Preorder(g)
    ensures Nodes(f) == Nodes(g) && (Distinct(f) ==> Distinct(g))
  {
    NodesAreEntries(f);
    NodesAreEntries(g);
    if Distinct(f) {
      OncePreorder(f);
      DistinctFromOrder(g);
    }
  }
}
