/** The search for recursive dependencies (sym_check_deps and its helpers in kconfig/symbol.c, and
    the loop over all symbols in kconfig/zconf.y), without choice blocks. */
module KconfigDepCheck {
  import opened Common
  import opened KconfigExpr
  import opened KconfigCompare
  import opened KconfigProperty

  /** A symbol's reverse dependency and its properties. */
  datatype Node = Node(revDep: Option<Expr>, props: seq<Property>)

  /** What the check follows of one property: nothing of a select, the value only of a default. */
  predicate PropEdge(p: Property, t: Symbol) {
    p.kind != SelectProp && (ContainsOpt(p.visible, t) || (p.kind == DefaultProp && ContainsOpt(p.value, t)))
  }

  ghost predicate Edge(defs: Symbol -> Node, s: Symbol, t: Symbol) {
    ContainsOpt(defs(s).revDep, t) || exists i :: 0 <= i < |defs(s).props| && PropEdge(defs(s).props[i], t)
  }

  ghost predicate Walk(defs: Symbol -> Node, p: seq<Symbol>) {
    forall i :: 0 <= i < |p| - 1 ==> Edge(defs, p[i], p[i + 1])
  }

  /** A dependency cycle through a symbol of the given set. */
  ghost predicate HasCycle(defs: Symbol -> Node, symbols: set<Symbol>) {
    exists p :: |p| >= 2 && p[0] == p[|p| - 1] && p[0] in symbols && Walk(defs, p)
  }

  /** Every symbol comes after all the symbols it depends on. */
  ghost predicate Ordered(defs: Symbol -> Node, order: seq<Symbol>) {
    forall i, t :: 0 <= i < |order| && Edge(defs, order[i], t) ==> t in order[..i]
  }

  class DepChecker {
    const defs: Symbol -> Node
    ghost const symbols: set<Symbol>
    // SYMBOL_CHECK, SYMBOL_CHECKED, the stack that starts at check_top, and whether
    // sym_check_print_recursive has been called.
    var check: set<Symbol>
    var checked: set<Symbol>
    var stack: seq<Symbol>
    var reported: bool
    // The symbols in the order in which the search left them without having reported anything.
    ghost var finished: seq<Symbol>

    constructor (defs: Symbol -> Node, ghost symbols: set<Symbol>)
      requires forall s, t :: s in symbols && Edge(defs, s, t) ==> t in symbols
      ensures this.defs == defs && this.symbols == symbols && Valid() && stack == [] && !reported && checked == {}
    {
      this.defs, this.symbols := defs, symbols;
      check, checked, stack, reported, finished := {}, {}, [], false, [];
    }

    ghost predicate Valid()
      reads this
    {
      ValidWith({})
    }

    /** The symbols in `entering` are already marked but not yet on the stack. */
    ghost predicate ValidWith(entering: set<Symbol>)
      reads this
    {
      && (forall s, t :: s in symbols && Edge(defs, s, t) ==> t in symbols)
      && check <= checked <= symbols
      // SYMBOL_CHECK is set exactly on the symbols on the stack, which form a path.
      && (forall s :: s in check <==> s in stack || s in entering)
      && Walk(defs, stack)
      && (reported ==> HasCycle(defs, symbols))
      && (!reported ==> Ordered(defs, finished) && forall s :: s in finished <==> s in checked && s !in check)
    }

    /** What a completed part of the search leaves as it was. */
    twostate predicate Resumed()
      reads this
    {
      && stack == old(stack) && check == old(check)
      && old(checked) <= checked && (old(reported) ==> reported)
      && (!reported ==> forall s :: s in old(finished) ==> s in finished)
    }

    ghost predicate Leads(sym: Symbol)
      reads this
    {
      stack != [] ==> Edge(defs, stack[|stack| - 1], sym)
    }

    /** sym_check_print_recursive, called with a symbol that is on the stack. */
    method Report(sym: Symbol)
      requires Valid() && sym in stack && Leads(sym)
      modifies this`reported
      ensures Valid() && reported
    {
      ghost var k :| 0 <= k < |stack| && stack[k] == sym;
      ghost var p := stack[k..] + [sym];
      assert Walk(defs, p) by {
        forall i | 0 <= i < |p| - 1 ensures Edge(defs, p[i], p[i + 1]) {
          if i + 1 < |p| - 1 { assert Edge(defs, stack[k + i], stack[k + i + 1]); }
        }
      }
      assert p[0] in check;
      reported := true;
    }

    /** sym_check_deps. What it returns is on the stack: the frame of that symbol turns it into nothing. */
    method CheckDeps(sym: Symbol) returns (r: Option<Symbol>)
      requires Valid() && sym in symbols && Leads(sym)
      modifies this
      ensures Valid() && Resumed()
      ensures r.Some? ==> r.value in stack
      ensures !reported ==> r == None && sym in finished
      decreases symbols - checked, 0
    {
      if sym in check {
        Report(sym);
        return Some(sym);
      }
      if sym in checked {
        return None;
      }
      check, checked := check + {sym}, checked + {sym};
      r := CheckSymDeps(sym);
      check := check - {sym};
      if !reported {
        FinishedStaysOrdered(defs, finished, sym);
        finished := finished + [sym];
      }
      if r == Some(sym) {
        r := None;
      }
    }

    /** sym_check_sym_deps. */
    method CheckSymDeps(sym: Symbol) returns (r: Option<Symbol>)
      requires ValidWith({sym}) && sym in check && sym !in stack && Leads(sym)
      modifies this
      ensures ValidWith({sym}) && Resumed()
      ensures r.Some? ==> r.value in stack || r.value == sym
      ensures !reported ==> r == None && forall t :: Edge(defs, sym, t) ==> t in finished
      decreases symbols - checked, 4
    {
      stack := stack + [sym];
      assert stack[..|stack| - 1] == old(stack);
      r := CheckProps(sym);
      stack := stack[..|stack| - 1];
    }

    /** The reverse dependency, then property after property, up to the first problem. */
    method CheckProps(sym: Symbol) returns (r: Option<Symbol>)
      requires Valid() && stack != [] && stack[|stack| - 1] == sym
      modifies this
      ensures Valid() && Resumed()
      ensures r.Some? ==> r.value in stack
      ensures !reported ==> r == None && forall t :: Edge(defs, sym, t) ==> t in finished
      decreases symbols - checked, 3
    {
      r := CheckOpt(defs(sym).revDep, sym);
      if r.Some? { return; }
      var props := defs(sym).props;
      var i := 0;
      while i < |props|
        invariant i <= |props| && Valid() && Resumed()
        invariant !reported ==> forall t :: ContainsOpt(defs(sym).revDep, t) ==> t in finished
        invariant !reported ==> forall j, t :: 0 <= j < i && PropEdge(props[j], t) ==> t in finished
        invariant r == None
      {
        var p := props[i];
        if p.kind != SelectProp {
          r := CheckOpt(p.visible, sym);
          if r.Some? { return; }
          if p.kind == DefaultProp {
            r := CheckOpt(p.value, sym);
            if r.Some? { return; }
          }
        }
        i := i + 1;
      }
    }

    method CheckOpt(e: Option<Expr>, ghost sym: Symbol) returns (r: Option<Symbol>)
      requires Valid() && stack != [] && stack[|stack| - 1] == sym
      requires forall t :: ContainsOpt(e, t) ==> Edge(defs, sym, t)
      modifies this
      ensures Valid() && Resumed()
      ensures r.Some? ==> r.value in stack
      ensures !reported ==> r == None && forall t :: ContainsOpt(e, t) ==> t in finished
      decreases symbols - checked, 2
    {
      if e.None? { return None; }
      r := CheckExprDeps(e.value, sym);
    }

    /** sym_check_expr_deps. */
    method CheckExprDeps(e: Expr, ghost sym: Symbol) returns (r: Option<Symbol>)
      requires Valid() && stack != [] && stack[|stack| - 1] == sym
      requires forall t :: Contains(e, t) ==> Edge(defs, sym, t)
      modifies this
      ensures Valid() && Resumed()
      ensures r.Some? ==> r.value in stack
      ensures !reported ==> r == None && forall t :: Contains(e, t) ==> t in finished
      decreases symbols - checked, 1, e
    {
      match e
      case Var(s) =>
        assert Contains(e, s);
        r := CheckDeps(s);
      case Comp(_, a, b) =>
        assert Contains(e, a) && Contains(e, b);
        r := CheckDeps(a);
        if r.None? { r := CheckDeps(b); }
      case Not(a) =>
        r := CheckExprDeps(a, sym);
      case Bin(_, a, b) =>
        r := CheckExprDeps(a, sym);
        if r.None? { r := CheckExprDeps(b, sym); }
    }
  }

  /** The loop of conf_parse over all symbols, which counts the results of sym_check_deps: a recursion
      is reported if and only if the graph has a cycle, but the count stays 0 all the same. The loop
      does not come to y, m and n, nor to anything else without properties. */
  method CheckAll(defs: Symbol -> Node, order: seq<Symbol>, ghost symbols: set<Symbol>)
    returns (reported: bool, errors: int, ghost finished: seq<Symbol>)
    requires forall s <- order :: s in symbols
    requires forall s, t :: s in symbols && Edge(defs, s, t) ==> s in order && t in symbols
    ensures reported <==> HasCycle(defs, symbols)
    ensures errors == 0
    ensures !reported ==> Ordered(defs, finished) && forall s :: s in order ==> s in finished
  {
    var checker := new DepChecker(defs, symbols);
    errors := 0;
    var i := 0;
    while i < |order|
      invariant i <= |order| && checker.Valid() && checker.stack == [] && fresh(checker)
      invariant checker.defs == defs && checker.symbols == symbols && errors == 0
      invariant !checker.reported ==> forall j :: 0 <= j < i ==> order[j] in checker.finished
    {
      var r := checker.CheckDeps(order[i]);
      if r.Some? {
        errors := errors + 1;
      }
      i := i + 1;
    }
    reported, finished := checker.reported, checker.finished;
    if !reported {
      OrderedHasNoCycle(defs, symbols, finished);
    }
  }

  lemma OrderedHasNoCycle(defs: Symbol -> Node, symbols: set<Symbol>, order: seq<Symbol>)
    requires Ordered(defs, order) && forall s, t :: s in symbols && Edge(defs, s, t) ==> s in order
    ensures !HasCycle(defs, symbols)
  {
    if p: seq<Symbol> :| |p| >= 2 && p[0] == p[|p| - 1] && p[0] in symbols && Walk(defs, p) {
      assert Edge(defs, p[0], p[0 + 1]);
      assert order[..|order|] == order;
      NoCycleFrom(defs, order, p, |order|);
    }
  }

  lemma {:induction false} NoCycleFrom(defs: Symbol -> Node, order: seq<Symbol>, p: seq<Symbol>, n: nat)
    requires Ordered(defs, order) && Walk(defs, p) && |p| >= 2 && p[0] == p[|p| - 1]
    requires n <= |order| && p[0] in order[..n]
    ensures false
  {
    WalkGoesBack(defs, order, p, n, 1);
    WalkGoesBack(defs, order, p, n, |p| - 1);
    NoCycleFrom(defs, order, p, n - 1);
  }

  lemma {:induction false} WalkGoesBack(defs: Symbol -> Node, order: seq<Symbol>, p: seq<Symbol>, n: nat, k: nat)
    requires Ordered(defs, order) && Walk(defs, p) && 1 <= k < |p|
    requires n <= |order| && p[0] in order[..n]
    ensures n >= 1 && p[k] in order[..n - 1]
  {
    if k > 1 { WalkGoesBack(defs, order, p, n, k - 1); }
    assert p[k - 1] in order[..n];
    var i :| 0 <= i < n && order[i] == p[k - 1];
    assert Edge(defs, p[k - 1], p[k - 1 + 1]);
    assert p[k] in order[..i];
  }

  lemma FinishedStaysOrdered(defs: Symbol -> Node, order: seq<Symbol>, s: Symbol)
    requires Ordered(defs, order) && forall t :: Edge(defs, s, t) ==> t in order
    ensures Ordered(defs, order + [s])
  {
    var longer := order + [s];
    forall i, t | 0 <= i < |longer| && Edge(defs, longer[i], t) ensures t in longer[..i] {
      if i < |order| {
        assert t in order[..i];
        assert longer[..i] == order[..i];
      } else {
        assert longer[..i] == order;
      }
    }
  }
}
