/** Expression trees as linked nodes, and the passes of kconfig/expr.c that rewrite them in place:
    expr_eliminate_yn, expr_transform and expr_trans_bool. Each leaves in the nodes the tree that its
    function gives. */
module KconfigInPlace {
  import opened KconfigExpr
  import opened KconfigTransform

  datatype Kind = NSymbol | NEqual | NUnequal | NNot | NOr | NAnd

  /** struct expr. A symbol or an expression on each side, depending on the type. */
  class Node {
    var kind: Kind
    var lsym: Symbol
    var rsym: Symbol
    var left: Node?
    var right: Node?

    /** expr_alloc_symbol. */
    constructor OfSymbol(s: Symbol)
      ensures kind == NSymbol && lsym == s
    {
      kind, lsym, rsym, left, right := NSymbol, s, s, null, null;
    }

    /** expr_alloc_one for a negation. */
    constructor Negation(a: Node?)
      ensures kind == NNot && left == a
    {
      kind, lsym, rsym, left, right := NNot, No, No, a, null;
    }
  }

  // ---------------------------------------------------------------- the tree behind the links

  /** Which node stands where. */
  datatype Shape = Leaf(n: Node) | One(n: Node, a: Shape) | Two(n: Node, l: Shape, r: Shape)

  ghost function Nodes(sh: Shape): set<Node> {
    match sh
    case Leaf(n) => {n}
    case One(n, a) => {n} + Nodes(a)
    case Two(n, l, r) => {n} + Nodes(l) + Nodes(r)
  }

  /** No node is shared. */
  ghost predicate Apart(sh: Shape) {
    match sh
    case Leaf(_) => true
    case One(n, a) => n !in Nodes(a) && Apart(a)
    case Two(n, l, r) => n !in Nodes(l) && n !in Nodes(r) && Nodes(l) !! Nodes(r) && Apart(l) && Apart(r)
  }

  function KindOf(o: Op): Kind { if o == Or then NOr else NAnd }

  /** `e` is the root of a tree of this shape that holds the expression `t`. */
  ghost predicate Rep(e: Node?, sh: Shape, t: Expr)
    reads Nodes(sh)
    decreases sh
  {
    e == sh.n &&
    match t
    case Var(s) => sh.Leaf? && e.kind == NSymbol && e.lsym == s
    case Comp(q, a, b) => sh.Leaf? && e.kind == (if q then NEqual else NUnequal) && e.lsym == a && e.rsym == b
    case Not(a) => sh.One? && e.kind == NNot && Rep(e.left, sh.a, a)
    case Bin(o, l, r) => sh.Two? && e.kind == KindOf(o) && Rep(e.left, sh.l, l) && Rep(e.right, sh.r, r)
  }

  // ---------------------------------------------------------------- expr_eliminate_yn

  ghost function Reroot(sh: Shape, e: Node): Shape {
    match sh
    case Leaf(_) => Leaf(e)
    case One(_, a) => One(e, a)
    case Two(_, l, r) => Two(e, l, r)
  }

  /** *e = *x: the root node is replaced by another one, which gets its contents. */
  method Overwrite(e: Node, x: Node, ghost sh: Shape, ghost t: Expr) returns (ghost sh': Shape)
    requires Rep(x, sh, t) && Apart(sh) && e !in Nodes(sh)
    modifies e
    ensures Rep(e, sh', t) && Apart(sh') && Nodes(sh') <= Nodes(sh) + {e}
  {
    e.kind, e.lsym, e.rsym, e.left, e.right := x.kind, x.lsym, x.rsym, x.left, x.right;
    sh' := Reroot(sh, e);
  }

  method BecomeSymbol(e: Node, s: Symbol) returns (ghost sh': Shape)
    modifies e
    ensures Rep(e, sh', Var(s)) && Apart(sh') && Nodes(sh') == {e}
  {
    e.kind, e.lsym, e.left, e.right := NSymbol, s, null, null;
    sh' := Leaf(e);
  }

  method EliminateYnInPlace(e: Node, ghost sh: Shape, ghost t: Expr) returns (ghost sh': Shape)
    requires Rep(e, sh, t) && Apart(sh)
    modifies Nodes(sh)
    ensures Rep(e, sh', EliminateYn(t)) && Apart(sh') && Nodes(sh') <= Nodes(sh)
    decreases sh
  {
    if e.kind == NAnd || e.kind == NOr {
      ghost var l, r := EliminateYnBoth(e, sh, t);
      sh' := DropConstant(e, e.left, e.right, l, r, t.op, EliminateYn(t.left), EliminateYn(t.right));
    } else {
      sh' := sh;
    }
  }

  /** The two recursive calls; both operands keep their root nodes. */
  method EliminateYnBoth(e: Node, ghost sh: Shape, ghost t: Expr) returns (ghost l: Shape, ghost r: Shape)
    requires Rep(e, sh, t) && Apart(sh) && t.Bin?
    modifies Nodes(sh)
    ensures e.left != null && e.right != null && e.kind == KindOf(t.op)
    ensures Rep(e.left, l, EliminateYn(t.left)) && Rep(e.right, r, EliminateYn(t.right)) && Apart(Two(e, l, r))
    ensures Nodes(l) <= Nodes(sh) && Nodes(r) <= Nodes(sh)
    decreases sh, 0
  {
    assert Rep(e.left, sh.l, t.left) && Rep(e.right, sh.r, t.right);
    assert allocated(Nodes(sh.r));
    l := EliminateYnInPlace(e.left, sh.l, t.left);
    assert allocated(Nodes(l));
    r := EliminateYnInPlace(e.right, sh.r, t.right);
  }

  /** The part of expr_eliminate_yn after the two recursive calls. */
  method DropConstant(e: Node, left: Node, right: Node, ghost l: Shape, ghost r: Shape, ghost o: Op, ghost tl: Expr,
                      ghost tr: Expr)
    returns (ghost sh': Shape)
    requires e.kind == KindOf(o) && e.left == left && e.right == right
    requires Rep(left, l, tl) && Rep(right, r, tr) && Apart(Two(e, l, r))
    modifies e
    ensures Apart(sh') && Nodes(sh') <= {e} + Nodes(l) + Nodes(r)
    ensures Rep(e, sh', if tl == o.Zero() then tl else if tl == o.Unit() then tr
                        else if tr == o.Zero() then tr else if tr == o.Unit() then tl else Bin(o, tl, tr))
  {
    var zero, unit := if e.kind == NAnd then No else Yes, if e.kind == NAnd then Yes else No;
    if left.kind == NSymbol {
      if left.lsym == zero { sh' := BecomeSymbol(e, zero); return; }
      if left.lsym == unit { sh' := Overwrite(e, right, r, tr); return; }
    }
    if right.kind == NSymbol {
      if right.lsym == zero { sh' := BecomeSymbol(e, zero); return; }
      if right.lsym == unit { sh' := Overwrite(e, left, l, tl); return; }
    }
    sh' := Two(e, l, r);
  }

  // ---------------------------------------------------------------- expr_trans_bool

  method TransBoolInPlace(e: Node, ghost sh: Shape, ghost t: Expr)
    requires Rep(e, sh, t) && Apart(sh)
    modifies Nodes(sh)
    ensures Rep(e, sh, TransBool(t))
    decreases sh
  {
    if e.kind == NAnd || e.kind == NOr || e.kind == NNot {
      TransBoolBelow(e, sh, t);
    } else if e.kind == NUnequal && e.lsym.HasType(Tristate) && e.rsym == No {
      e.kind := NSymbol;
    }
  }

  /** The recursive calls; a negation has no right operand. */
  method TransBoolBelow(e: Node, ghost sh: Shape, ghost t: Expr)
    requires Rep(e, sh, t) && Apart(sh) && (t.Bin? || t.Not?)
    modifies Nodes(sh)
    ensures Rep(e, sh, TransBool(t))
    decreases sh, 0
  {
    if e.kind == NNot {
      TransBoolInPlace(e.left, sh.a, t.arg);
    } else {
      assert Rep(e.left, sh.l, t.left) && Rep(e.right, sh.r, t.right);
      assert allocated(Nodes(sh.r));
      TransBoolInPlace(e.left, sh.l, t.left);
      assert allocated(Nodes(sh.l));
      TransBoolInPlace(e.right, sh.r, t.right);
    }
  }

  // ---------------------------------------------------------------- expr_transform

  /** A comparison of a boolean symbol with y, m or n. */
  method TransformCompInPlace(e: Node, ghost t: Expr) returns (ghost sh': Shape)
    requires t.Comp? && Rep(e, Leaf(e), t)
    modifies e
    ensures Rep(e, sh', TransformComp(t.equal, t.lhs, t.rhs)) && Apart(sh') && fresh(Nodes(sh') - {e})
  {
    sh' := Leaf(e);
    if e.lsym.HasType(Boolean) {
      if (e.rsym == No && e.kind == NEqual) || (e.rsym == Yes && e.kind == NUnequal) {
        var a := new Node.OfSymbol(e.lsym);
        e.kind, e.left := NNot, a;
        sh' := One(e, Leaf(a));
      } else if e.rsym == Mod {
        e.lsym := if e.kind == NEqual then No else Yes;
        e.kind := NSymbol;
      } else if e.rsym == Yes || e.rsym == No {
        e.kind := NSymbol;
      }
    }
  }

  /** !(a || b) becomes !a && !b, and the other way round; one node is new. */
  method PushNegation(e: Node, ghost sh: Shape, ghost o: Op, ghost l: Expr, ghost r: Expr) returns (ghost sh': Shape)
    requires Rep(e, sh, Not(Bin(o, l, r))) && Apart(sh)
    modifies Nodes(sh)
    ensures Rep(e, sh', Bin(o.Dual(), Not(l), Not(r))) && Apart(sh') && fresh(Nodes(sh') - Nodes(sh))
  {
    var tmp := e.left;
    assert Rep(tmp, sh.a, Bin(o, l, r));
    assert Rep(tmp.left, sh.a.l, l) && Rep(tmp.right, sh.a.r, r);
    assert allocated(Nodes(sh.a.l)) && allocated(Nodes(sh.a.r));
    var neg := new Node.Negation(tmp.right);
    e.kind := if tmp.kind == NOr then NAnd else NOr;
    e.right := neg;
    tmp.kind := NNot;
    tmp.right := null;
    assert Rep(tmp, One(tmp, sh.a.l), Not(l)) && Rep(neg, One(neg, sh.a.r), Not(r));
    sh' := Two(e, One(tmp, sh.a.l), One(neg, sh.a.r));
  }

  lemma TransformOfNot(a: Expr)
    ensures Transform(Not(a)) == Transform(Not(Transform(a)))
  {
    TransformFixesNormal(Transform(a));
  }

  method TransformInPlace(e: Node, ghost sh: Shape, ghost t: Expr) returns (r: Node, ghost sh': Shape)
    requires Rep(e, sh, t) && Apart(sh)
    modifies Nodes(sh)
    ensures Rep(r, sh', Transform(t)) && Apart(sh') && fresh(Nodes(sh') - Nodes(sh))
    decreases Weight(t)
  {
    r, sh' := e, sh;
    if e.kind == NEqual || e.kind == NUnequal {
      sh' := TransformCompInPlace(e, t);
    } else if e.kind == NAnd || e.kind == NOr {
      sh' := TransformBoth(e, sh, t);
    } else if e.kind == NNot {
      TransformOfNot(t.arg);
      ghost var a := TransformOperand(e, sh, t);
      r, sh' := TransformNegation(e, One(e, a), Transform(t.arg));
    }
  }

  method TransformOperand(e: Node, ghost sh: Shape, ghost t: Expr) returns (ghost a: Shape)
    requires Rep(e, sh, t) && Apart(sh) && t.Not?
    modifies Nodes(sh)
    ensures Rep(e, One(e, a), Not(Transform(t.arg))) && Apart(One(e, a)) && fresh(Nodes(a) - Nodes(sh))
    decreases Weight(t), 0
  {
    var left;
    left, a := TransformInPlace(e.left, sh.a, t.arg);
    assert e !in Nodes(a) && allocated(Nodes(a));
    e.left := left;
  }

  method TransformBoth(e: Node, ghost sh: Shape, ghost t: Expr) returns (ghost sh': Shape)
    requires Rep(e, sh, t) && Apart(sh) && t.Bin?
    modifies Nodes(sh)
    ensures Rep(e, sh', Transform(t)) && Apart(sh') && fresh(Nodes(sh') - Nodes(sh))
    decreases Weight(t), 0
  {
    ghost var l, r;
    var left, right := e.left, e.right;
    assert Rep(left, sh.l, t.left) && Rep(right, sh.r, t.right);
    assert allocated(Nodes(sh.r));
    left, l := TransformInPlace(left, sh.l, t.left);
    assert allocated(Nodes(l));
    right, r := TransformInPlace(right, sh.r, t.right);
    assert fresh(Nodes(l) - Nodes(sh.l)) && fresh(Nodes(r) - Nodes(sh.r));
    Relink(e, left, right, l, r, t.op, Transform(t.left), Transform(t.right));
    sh' := Two(e, l, r);
  }

  method Relink(e: Node, left: Node, right: Node, ghost l: Shape, ghost r: Shape, ghost o: Op, ghost tl: Expr,
                ghost tr: Expr)
    requires e.kind == KindOf(o) && Rep(left, l, tl) && Rep(right, r, tr) && e !in Nodes(l) && e !in Nodes(r)
    modifies e
    ensures Rep(e, Two(e, l, r), Bin(o, tl, tr))
  {
    assert allocated(Nodes(l)) && allocated(Nodes(r));
    e.left, e.right := left, right;
  }

  /** A negation whose operand has been transformed. */
  method TransformNegation(e: Node, ghost sh: Shape, ghost a: Expr) returns (r: Node, ghost sh': Shape)
    requires Rep(e, sh, Not(a)) && Apart(sh) && Normal(a)
    modifies Nodes(sh)
    ensures Rep(r, sh', Transform(Not(a))) && Apart(sh') && fresh(Nodes(sh') - Nodes(sh))
    decreases 2 * Weight(a), 0
  {
    r, sh' := e, sh;
    TransformFixesNormal(a);
    var tmp := e.left;
    assert Rep(tmp, sh.a, a);
    if tmp.kind == NNot {
      assert Rep(tmp.left, sh.a.a, a.arg);
      r, sh' := TransformInPlace(tmp.left, sh.a.a, a.arg);
    } else if tmp.kind == NOr || tmp.kind == NAnd {
      NegationMovesInwards(a.op, a.left, a.right);
      ghost var pushed := PushNegation(e, sh, a.op, a.left, a.right);
      r, sh' := TransformInPlace(e, pushed, Bin(a.op.Dual(), Not(a.left), Not(a.right)));
    } else {
      r, sh' := NegateLeaf(e, sh, a);
    }
  }

  /** The negation of a comparison or of a symbol. */
  method NegateLeaf(e: Node, ghost sh: Shape, ghost a: Expr) returns (r: Node, ghost sh': Shape)
    requires Rep(e, sh, Not(a)) && Apart(sh) && (a.Comp? || a.Var?) && Normal(a)
    modifies Nodes(sh)
    ensures Rep(r, sh', Transform(Not(a))) && Apart(sh') && Nodes(sh') <= Nodes(sh)
  {
    r, sh' := e, sh;
    TransformFixesNormal(a);
    var tmp := e.left;
    assert Rep(tmp, sh.a, a);
    if tmp.kind == NEqual || tmp.kind == NUnequal {
      tmp.kind := if tmp.kind == NEqual then NUnequal else NEqual;
      r, sh' := tmp, sh.a;
    } else if tmp.lsym == Yes || tmp.lsym == No {
      tmp.lsym := if tmp.lsym == Yes then No else Yes;
      r, sh' := tmp, sh.a;
    } else if tmp.lsym == Mod {
      r, sh' := tmp, sh.a;
    }
  }
}
