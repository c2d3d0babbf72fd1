/** menu_check_dep of kconfig/menu.c on linked nodes. */
module KconfigInPlaceDeps {
  import opened KconfigExpr
  import opened KconfigInPlace
  import opened KconfigMenuDeps

  /** menu_check_dep. */
  method CheckDepInPlace(e: Node, modules: Symbol, ghost sh: Shape, ghost t: Expr) returns (r: Node, ghost sh': Shape)
    requires Rep(e, sh, t) && Apart(sh)
    modifies Nodes(sh)
    ensures Rep(r, sh', CheckDep(t, modules)) && Apart(sh')
    ensures forall n <- Nodes(sh') :: n in Nodes(sh) || fresh(n)
    decreases sh
  {
    r, sh' := e, sh;
    if e.kind == NNot {
      sh' := CheckOperand(e, modules, sh, t);
    } else if e.kind == NOr || e.kind == NAnd {
      sh' := CheckBoth(e, modules, sh, t);
    } else if e.kind == NSymbol && e.lsym == Mod {
      var m := new Node.OfSymbol(modules);
      r := new Node.OfSymbol(No);
      r.kind, r.left, r.right := NAnd, e, m;
      sh' := Two(r, sh, Leaf(m));
    }
  }

  method CheckOperand(e: Node, modules: Symbol, ghost sh: Shape, ghost t: Expr) returns (ghost sh': Shape)
    requires Rep(e, sh, t) && Apart(sh) && t.Not?
    modifies Nodes(sh)
    ensures Rep(e, sh', CheckDep(t, modules)) && Apart(sh')
    ensures forall n <- Nodes(sh') :: n in Nodes(sh) || fresh(n)
    decreases sh, 0
  {
    var left;
    ghost var a;
    left, a := CheckDepInPlace(e.left, modules, sh.a, t.arg);
    assert e !in Nodes(a) && allocated(Nodes(a));
    e.left := left;
    sh' := One(e, a);
  }

  method CheckBoth(e: Node, modules: Symbol, ghost sh: Shape, ghost t: Expr) returns (ghost sh': Shape)
    requires Rep(e, sh, t) && Apart(sh) && t.Bin?
    modifies Nodes(sh)
    ensures Rep(e, sh', CheckDep(t, modules)) && Apart(sh')
    ensures forall n <- Nodes(sh') :: n in Nodes(sh) || fresh(n)
    decreases sh, 0
  {
    ghost var l, r;
    var left, right := e.left, e.right;
    assert Rep(left, sh.l, t.left) && Rep(right, sh.r, t.right);
    assert allocated(Nodes(sh.r));
    left, l := CheckDepInPlace(left, modules, sh.l, t.left);
    assert allocated(Nodes(l));
    right, r := CheckDepInPlace(right, modules, sh.r, t.right);
    Relink(e, left, right, l, r, t.op, CheckDep(t.left, modules), CheckDep(t.right, modules));
    sh' := Two(e, l, r);
  }
}
