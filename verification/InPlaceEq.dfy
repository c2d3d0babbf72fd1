/** Cancelling common operands and comparing expressions on linked nodes: __expr_eliminate_eq,
    expr_eliminate_eq and expr_eq of kconfig/expr.c as they run, with the counter they share. */
module KconfigInPlaceEq {
  import opened KconfigExpr
  import opened KconfigTransform
  import opened KconfigEliminateEq
  import opened KconfigInPlace

  /** expr_copy. */
  method Copy(e: Node, ghost sh: Shape, ghost t: Expr) returns (c: Node, ghost sh': Shape)
    requires Rep(e, sh, t)
    ensures Rep(c, sh', t) && Apart(sh') && fresh(Nodes(sh'))
    decreases sh
  {
    if e.kind == NNot {
      var a;
      ghost var s;
      a, s := Copy(e.left, sh.a, t.arg);
      assert allocated(Nodes(s));
      c := new Node.Negation(a);
      sh' := One(c, s);
    } else if e.kind == NAnd || e.kind == NOr {
      c, sh' := CopyChain(e, sh, t);
    } else {
      c := new Node.OfSymbol(e.lsym);
      c.kind, c.rsym := e.kind, e.rsym;
      sh' := Leaf(c);
    }
  }

  method CopyChain(e: Node, ghost sh: Shape, ghost t: Expr) returns (c: Node, ghost sh': Shape)
    requires Rep(e, sh, t) && t.Bin?
    ensures Rep(c, sh', t) && Apart(sh') && fresh(Nodes(sh'))
    decreases sh, 0
  {
    assert Rep(e.left, sh.l, t.left) && Rep(e.right, sh.r, t.right);
    assert allocated(Nodes(sh.r));
    var l, r;
    ghost var ls, rs;
    l, ls := Copy(e.left, sh.l, t.left);
    assert allocated(Nodes(ls));
    r, rs := Copy(e.right, sh.r, t.right);
    c := NewChain(e.kind, l, ls, t.left, r, rs, t.right, t.op);
    sh' := Two(c, ls, rs);
  }

  method NewChain(kind: Kind, l: Node, ghost ls: Shape, ghost tl: Expr, r: Node, ghost rs: Shape, ghost tr: Expr,
                  ghost o: Op)
    returns (c: Node)
    requires kind == KindOf(o) && Rep(l, ls, tl) && Rep(r, rs, tr)
    ensures Rep(c, Two(c, ls, rs), Bin(o, tl, tr)) && fresh(c) && c !in Nodes(ls) && c !in Nodes(rs)
  {
    assert allocated(Nodes(ls)) && allocated(Nodes(rs));
    c := new Node.OfSymbol(No);
    c.kind := kind;
    Relink(c, l, r, ls, rs, o, tl, tr);
  }

  /** Two trees without a common node. */
  ghost predicate Pair(e1: Node?, s1: Shape, t1: Expr, e2: Node?, s2: Shape, t2: Expr)
    reads Nodes(s1), Nodes(s2)
  {
    Rep(e1, s1, t1) && Rep(e2, s2, t2) && Apart(s1) && Apart(s2) && Nodes(s1) !! Nodes(s2)
  }

  method CopyBoth(e1: Node, ghost s1: Shape, ghost t1: Expr, e2: Node, ghost s2: Shape, ghost t2: Expr)
    returns (c1: Node, ghost d1: Shape, c2: Node, ghost d2: Shape)
    requires Rep(e1, s1, t1) && Rep(e2, s2, t2)
    ensures Pair(c1, d1, t1, c2, d2, t2) && fresh(Nodes(d1)) && fresh(Nodes(d2))
  {
    assert allocated(Nodes(s2));
    c1, d1 := Copy(e1, s1, t1);
    assert allocated(Nodes(d1));
    c2, d2 := Copy(e2, s2, t2);
  }

  /** The test at the end of expr_eq for two chains. */
  method BothSymbol(e1: Node, ghost s1: Shape, ghost t1: Expr, e2: Node, ghost s2: Shape, ghost t2: Expr)
    returns (b: bool)
    requires Rep(e1, s1, t1) && Rep(e2, s2, t2)
    ensures b <==> t1.Var? && t1 == t2
  {
    b := e1.kind == NSymbol && e2.kind == NSymbol && e1.lsym == e2.lsym;
  }

  /** The counter of rewriting steps is global in the source. */
  class Comparer {
    var transCount: nat

    constructor ()
      ensures transCount == 0
    {
      transCount := 0;
    }

    /** expr_eq. It works on copies and puts the counter back. */
    method Equal(e1: Node, ghost s1: Shape, ghost t1: Expr, e2: Node, ghost s2: Shape, ghost t2: Expr)
      returns (equal: bool)
      requires Rep(e1, s1, t1) && Rep(e2, s2, t2)
      modifies this
      ensures equal == ExprEq(t1, t2) && transCount == old(transCount)
      decreases Size(t1) + Size(t2), 4
    {
      if e1.kind != e2.kind {
        equal := false;
      } else if e1.kind == NEqual || e1.kind == NUnequal {
        equal := e1.lsym == e2.lsym && e1.rsym == e2.rsym;
      } else if e1.kind == NSymbol {
        equal := e1.lsym == e2.lsym;
      } else if e1.kind == NNot {
        equal := Equal(e1.left, s1.a, t1.arg, e2.left, s2.a, t2.arg);
      } else {
        equal := EqualChains(e1, s1, t1, e2, s2, t2);
      }
    }

    method EqualChains(e1: Node, ghost s1: Shape, ghost t1: Expr, e2: Node, ghost s2: Shape, ghost t2: Expr)
      returns (equal: bool)
      requires Rep(e1, s1, t1) && Rep(e2, s2, t2) && t1.Bin? && t2.Bin? && t1.op == t2.op
      modifies this
      ensures equal == ExprEq(t1, t2) && transCount == old(transCount)
      decreases Size(t1) + Size(t2), 3
    {
      var c1, c2;
      ghost var d1, d2;
      c1, d1, c2, d2 := CopyBoth(e1, s1, t1, e2, s2, t2);
      var count := transCount;
      c1, d1, c2, d2 := EliminateEqInPlace(c1, d1, t1, c2, d2, t2);
      equal := BothSymbol(c1, d1, EliminateEq(t1, t2).0, c2, d2, EliminateEq(t1, t2).1);
      transCount := count;
    }

    /** expr_eliminate_eq. */
    method EliminateEqInPlace(e1: Node, ghost s1: Shape, ghost t1: Expr, e2: Node, ghost s2: Shape, ghost t2: Expr)
      returns (r1: Node, ghost s1': Shape, r2: Node, ghost s2': Shape)
      requires Pair(e1, s1, t1, e2, s2, t2)
      modifies this, Nodes(s1), Nodes(s2)
      ensures Pair(r1, s1', EliminateEq(t1, t2).0, r2, s2', EliminateEq(t1, t2).1)
      ensures forall n <- Nodes(s1') :: n in Nodes(s1) || n in Nodes(s2) || fresh(n)
      ensures forall n <- Nodes(s2') :: n in Nodes(s1) || n in Nodes(s2) || fresh(n)
      decreases Size(t1) + Size(t2), 2
    {
      ghost var a := First(t1, t2);
      ghost var b := Second(a.0, a.1);
      r1, s1', r2, s2' := CancelByFirst(e1, s1, t1, e2, s2, t2);
      r1, s1', r2, s2' := CancelBySecond(r1, s1', a.0, r2, s2', a.1);
      s1', s2' := EliminateYnPair(r1, s1', b.0, r2, s2', b.1);
    }

    method CancelByFirst(e1: Node, ghost s1: Shape, ghost t1: Expr, e2: Node, ghost s2: Shape, ghost t2: Expr)
      returns (r1: Node, ghost s1': Shape, r2: Node, ghost s2': Shape)
      requires Pair(e1, s1, t1, e2, s2, t2)
      modifies this, Nodes(s1), Nodes(s2)
      ensures Pair(r1, s1', First(t1, t2).0, r2, s2', First(t1, t2).1)
      ensures forall n <- Nodes(s1') :: n in Nodes(s1) || n in Nodes(s2) || fresh(n)
      ensures forall n <- Nodes(s2') :: n in Nodes(s1) || n in Nodes(s2) || fresh(n)
      decreases Size(t1) + Size(t2), 1
    {
      r1, s1', r2, s2' := e1, s1, e2, s2;
      if e1.kind == NOr || e1.kind == NAnd {
        r1, s1', r2, s2' := CancelInPlace(OpOf(e1.kind), e1, s1, t1, e2, s2, t2);
      }
    }

    method CancelBySecond(e1: Node, ghost s1: Shape, ghost t1: Expr, e2: Node, ghost s2: Shape, ghost t2: Expr)
      returns (r1: Node, ghost s1': Shape, r2: Node, ghost s2': Shape)
      requires Pair(e1, s1, t1, e2, s2, t2)
      modifies this, Nodes(s1), Nodes(s2)
      ensures Pair(r1, s1', Second(t1, t2).0, r2, s2', Second(t1, t2).1)
      ensures forall n <- Nodes(s1') :: n in Nodes(s1) || n in Nodes(s2) || fresh(n)
      ensures forall n <- Nodes(s2') :: n in Nodes(s1) || n in Nodes(s2) || fresh(n)
      decreases Size(t1) + Size(t2), 1
    {
      r1, s1', r2, s2' := e1, s1, e2, s2;
      if e1.kind != e2.kind && (e2.kind == NOr || e2.kind == NAnd) {
        r1, s1', r2, s2' := CancelInPlace(OpOf(e2.kind), e1, s1, t1, e2, s2, t2);
      }
    }

    method EliminateYnPair(e1: Node, ghost s1: Shape, ghost t1: Expr, e2: Node, ghost s2: Shape, ghost t2: Expr)
      returns (ghost s1': Shape, ghost s2': Shape)
      requires Pair(e1, s1, t1, e2, s2, t2)
      modifies Nodes(s1), Nodes(s2)
      ensures Pair(e1, s1', EliminateYn(t1), e2, s2', EliminateYn(t2))
      ensures Nodes(s1') <= Nodes(s1) && Nodes(s2') <= Nodes(s2)
    {
      assert allocated(Nodes(s2));
      s1' := EliminateYnInPlace(e1, s1, t1);
      assert allocated(Nodes(s1'));
      s2' := EliminateYnInPlace(e2, s2, t2);
    }

    /** __expr_eliminate_eq. */
    method CancelInPlace(o: Op, e1: Node, ghost s1: Shape, ghost t1: Expr, e2: Node, ghost s2: Shape, ghost t2: Expr)
      returns (r1: Node, ghost s1': Shape, r2: Node, ghost s2': Shape)
      requires Pair(e1, s1, t1, e2, s2, t2)
      modifies this, Nodes(s1), Nodes(s2)
      ensures Pair(r1, s1', Cancel(o, t1, t2).0, r2, s2', Cancel(o, t1, t2).1)
      ensures forall n <- Nodes(s1') :: n in Nodes(s1) || n in Nodes(s2) || fresh(n)
      ensures forall n <- Nodes(s2') :: n in Nodes(s1) || n in Nodes(s2) || fresh(n)
      decreases Size(t1) + Size(t2), if t1.Is(o) || t2.Is(o) then 0 else 5
    {
      r1, s1', r2, s2' := e1, s1, e2, s2;
      if e1.kind == KindOf(o) {
        s1', r2, s2' := CancelFirst(o, e1, s1, t1, e2, s2, t2);
      } else if e2.kind == KindOf(o) {
        r1, s1', s2' := CancelSecond(o, e1, s1, t1, e2, s2, t2);
      } else {
        r1, s1', r2, s2' := CancelOperands(o, e1, s1, t1, e2, s2, t2);
      }
    }

    /** Two operands that are no chains of this connective. */
    method CancelOperands(o: Op, e1: Node, ghost s1: Shape, ghost t1: Expr, e2: Node, ghost s2: Shape, ghost t2: Expr)
      returns (r1: Node, ghost s1': Shape, r2: Node, ghost s2': Shape)
      requires Pair(e1, s1, t1, e2, s2, t2) && !t1.Is(o) && !t2.Is(o)
      modifies this
      ensures Pair(r1, s1', Cancel(o, t1, t2).0, r2, s2', Cancel(o, t1, t2).1)
      ensures (r1 == e1 && s1' == s1 && r2 == e2 && s2' == s2) ||
                (fresh(r1) && fresh(r2) && s1' == Leaf(r1) && s2' == Leaf(r2))
      decreases Size(t1) + Size(t2), 5, 0
    {
      r1, s1', r2, s2' := e1, s1, e2, s2;
      if e1.kind == NSymbol && e2.kind == NSymbol && e1.lsym == e2.lsym && (e1.lsym == Yes || e1.lsym == No) {
        return;
      }
      assert allocated(Nodes(s1)) && allocated(Nodes(s2));
      var equal := Equal(e1, s1, t1, e2, s2, t2);
      if equal {
        transCount := transCount + 1;
        r1 := new Node.OfSymbol(if o == Or then No else Yes);
        r2 := new Node.OfSymbol(if o == Or then No else Yes);
        s1', s2' := Leaf(r1), Leaf(r2);
      }
    }

    /** The same for one operand of a chain: the chain's node `n` and its other operand stay as they are. */
    method CancelBeside(o: Op, e1: Node, ghost s1: Shape, ghost t1: Expr, e2: Node, ghost s2: Shape, ghost t2: Expr,
                        ghost n: Node, ghost k: Node, ghost sk: Shape, ghost tk: Expr)
      returns (r1: Node, ghost s1': Shape, r2: Node, ghost s2': Shape)
      requires Pair(e1, s1, t1, e2, s2, t2) && n !in Nodes(s1) && n !in Nodes(s2)
      requires Rep(k, sk, tk) && Nodes(sk) !! Nodes(s1) && Nodes(sk) !! Nodes(s2)
      modifies this, Nodes(s1), Nodes(s2)
      ensures Pair(r1, s1', Cancel(o, t1, t2).0, r2, s2', Cancel(o, t1, t2).1) && n !in Nodes(s1') && n !in Nodes(s2')
      ensures Rep(k, sk, tk) && Nodes(sk) !! Nodes(s1') && Nodes(sk) !! Nodes(s2')
      ensures forall n <- Nodes(s1') :: n in Nodes(s1) || n in Nodes(s2) || fresh(n)
      ensures forall n <- Nodes(s2') :: n in Nodes(s1) || n in Nodes(s2) || fresh(n)
      decreases Size(t1) + Size(t2), 6
    {
      assert allocated(Nodes(sk));
      r1, s1', r2, s2' := CancelInPlace(o, e1, s1, t1, e2, s2, t2);
    }

    /** Every operand of the first chain against the whole second expression. */
    method CancelFirst(o: Op, e1: Node, ghost s1: Shape, ghost t1: Expr, e2: Node, ghost s2: Shape, ghost t2: Expr)
      returns (ghost s1': Shape, r2: Node, ghost s2': Shape)
      requires Pair(e1, s1, t1, e2, s2, t2) && t1.Is(o)
      modifies this, Nodes(s1), Nodes(s2)
      ensures Pair(e1, s1', Cancel(o, t1, t2).0, r2, s2', Cancel(o, t1, t2).1)
      ensures forall n <- Nodes(s1') :: n in Nodes(s1) || n in Nodes(s2) || fresh(n)
      ensures forall n <- Nodes(s2') :: n in Nodes(s1) || n in Nodes(s2) || fresh(n)
      decreases Size(t1) + Size(t2), 0, 0
    {
      var left, right := e1.left, e1.right;
      ghost var l, r, a := s1.l, s1.r, Cancel(o, t1.left, t2);
      assert Rep(left, l, t1.left) && Rep(right, r, t1.right);
      left, l, r2, s2' := CancelBeside(o, left, l, t1.left, e2, s2, t2, e1, right, r, t1.right);
      right, r, r2, s2' := CancelBeside(o, right, r, t1.right, r2, s2', a.1, e1, left, l, a.0);
      s1' := Two(e1, l, r);
      RelinkBeside(o, e1, left, l, a.0, right, r, Cancel(o, t1.right, a.1).0, r2, s2', Cancel(o, t1.right, a.1).1);
    }

    /** The whole first expression against every operand of the second chain. */
    method CancelSecond(o: Op, e1: Node, ghost s1: Shape, ghost t1: Expr, e2: Node, ghost s2: Shape, ghost t2: Expr)
      returns (r1: Node, ghost s1': Shape, ghost s2': Shape)
      requires Pair(e1, s1, t1, e2, s2, t2) && !t1.Is(o) && t2.Is(o)
      modifies this, Nodes(s1), Nodes(s2)
      ensures Pair(r1, s1', Cancel(o, t1, t2).0, e2, s2', Cancel(o, t1, t2).1)
      ensures forall n <- Nodes(s1') :: n in Nodes(s1) || n in Nodes(s2) || fresh(n)
      ensures forall n <- Nodes(s2') :: n in Nodes(s1) || n in Nodes(s2) || fresh(n)
      decreases Size(t1) + Size(t2), 0, 0
    {
      var left, right := e2.left, e2.right;
      ghost var l, r, a := s2.l, s2.r, Cancel(o, t1, t2.left);
      assert Rep(left, l, t2.left) && Rep(right, r, t2.right);
      r1, s1', left, l := CancelBeside(o, e1, s1, t1, left, l, t2.left, e2, right, r, t2.right);
      r1, s1', right, r := CancelBeside(o, r1, s1', a.0, right, r, t2.right, e2, left, l, a.1);
      s2' := Two(e2, l, r);
      RelinkBeside(o, e2, left, l, a.1, right, r, Cancel(o, a.0, t2.right).1, r1, s1', Cancel(o, a.0, t2.right).0);
    }
  }

  /** The operands that are left are put back below the chain's node; the other tree stays as it is. */
  method RelinkBeside(ghost o: Op, e: Node, left: Node, ghost l: Shape, ghost tl: Expr, right: Node, ghost r: Shape,
                      ghost tr: Expr,
                      ghost k: Node, ghost sk: Shape, ghost tk: Expr)
    requires e.kind == KindOf(o) && Rep(left, l, tl) && Rep(right, r, tr) && e !in Nodes(l) && e !in Nodes(r)
    requires Rep(k, sk, tk) && e !in Nodes(sk)
    modifies e
    ensures Rep(e, Two(e, l, r), Bin(o, tl, tr)) && Rep(k, sk, tk)
  {
    assert allocated(Nodes(sk));
    Relink(e, left, right, l, r, o, tl, tr);
  }

  function OpOf(k: Kind): Op { if k == NOr then Or else And }

  /** The two cancellations of expr_eliminate_eq. */
  ghost function First(t1: Expr, t2: Expr): (Expr, Expr) {
    if t1.Bin? then Cancel(t1.op, t1, t2) else (t1, t2)
  }

  ghost function Second(a1: Expr, a2: Expr): (Expr, Expr) {
    if a2.Bin? && !a1.Is(a2.op) then Cancel(a2.op, a1, a2) else (a1, a2)
  }
}
