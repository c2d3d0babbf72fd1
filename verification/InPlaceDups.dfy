/** Removing duplicate operands on linked nodes: expr_join_or, expr_join_and, expr_extract_eq and the
    three functions of expr_eliminate_dups of kconfig/expr.c as they run. Both slots that are passed
    around belong to the same chain, so what is written through one is seen through the other. */
module KconfigInPlaceDups {
  import opened Common
  import opened KconfigExpr
  import opened KconfigTransform
  import opened KconfigEliminateEq
  import opened KconfigJoins
  import opened KconfigSpine
  import opened KconfigDups
  import opened KconfigInPlace
  import opened KconfigInPlaceEq
  import opened KconfigInPlaceSlots

  // ---------------------------------------------------------------- joining two operands

  predicate IsTest(t: Expr) { t.Var? || t.Comp? || (t.Not? && (t.arg.Var? || t.arg.Comp?)) }

  /** What a node says, if it tests a symbol or negates such a test. */
  method Peek(e: Node, ghost sh: Shape, ghost t: Expr) returns (x: Option<Expr>)
    requires Rep(e, sh, t)
    ensures x == if IsTest(t) then Some(t) else None
  {
    if e.kind == NSymbol { return Some(Var(e.lsym)); }
    if e.kind == NEqual || e.kind == NUnequal { return Some(Comp(e.kind == NEqual, e.lsym, e.rsym)); }
    if e.kind == NNot {
      var a := e.left;
      assert Rep(a, sh.a, t.arg);
      if a.kind == NSymbol { return Some(Not(Var(a.lsym))); }
      if a.kind == NEqual || a.kind == NUnequal { return Some(Not(Comp(a.kind == NEqual, a.lsym, a.rsym))); }
    }
    x := None;
  }

  function JoinTests(o: Op, a: Expr, b: Expr): (r: Option<Expr>)
    ensures r.Some? ==> r.value.Var? || r.value.Comp?
    ensures !IsTest(a) || !IsTest(b) ==> r == None
    ensures Join(o, a, b) == if ExprEq(a, b) then Some(a) else r
  {
    if o == Or then JoinTestsOr(a, b) else JoinTestsAnd(a, b)
  }

  method NewTest(x: Expr) returns (r: Node)
    requires x.Var? || x.Comp?
    ensures Rep(r, Shape.Leaf(r), x) && fresh(r)
  {
    if x.Var? {
      r := new Node.OfSymbol(x.sym);
    } else {
      r := new Node.OfSymbol(x.lhs);
      r.kind, r.rsym := if x.equal then NEqual else NUnequal, x.rhs;
    }
  }

  /** expr_join_or and expr_join_and. */
  method JoinNodes(c: Comparer, o: Op, e1: Node, ghost s1: Shape, ghost t1: Expr, e2: Node, ghost s2: Shape,
                   ghost t2: Expr)
    returns (r: Node?, ghost s: Shape)
    requires Rep(e1, s1, t1) && Rep(e2, s2, t2)
    modifies c
    ensures c.transCount == old(c.transCount)
    ensures if Join(o, t1, t2) == None then r == null else
              r != null && Rep(r, s, Join(o, t1, t2).value) && Apart(s) && fresh(Nodes(s))
  {
    r, s := null, s1;
    assert allocated(Nodes(s1)) && allocated(Nodes(s2));
    var equal := c.Equal(e1, s1, t1, e2, s2, t2);
    if equal {
      r, s := Copy(e1, s1, t1);
      return;
    }
    var x1 := Peek(e1, s1, t1);
    var x2 := Peek(e2, s2, t2);
    if x1.Some? && x2.Some? {
      var joined := JoinTests(o, x1.value, x2.value);
      if joined.Some? {
        r := NewTest(joined.value);
        s := Shape.Leaf(r);
      }
    }
  }

  // ---------------------------------------------------------------- expr_extract_eq

  /** What expr_extract_eq leaves of its two inputs, and whether it has extracted anything. */
  function ExtractRest(o: Op, e1: Expr, e2: Expr): (r: (Expr, Expr, bool))
    ensures Size(r.0) <= Size(e1) && Size(r.1) <= Size(e2)
    decreases Size(e1) + Size(e2)
  {
    if e1.Is(o) then
      var (l, e2a, f) := ExtractRest(o, e1.left, e2);
      var (r, e2b, g) := ExtractRest(o, e1.right, e2a);
      (Bin(o, l, r), e2b, f || g)
    else if e2.Is(o) then
      var (e1a, l, f) := ExtractRest(o, e1, e2.left);
      var (e1b, r, g) := ExtractRest(o, e1a, e2.right);
      (e1b, Bin(o, l, r), f || g)
    else if ExprEq(e1, e2) then (o.Unit(), o.Unit(), true)
    else (e1, e2, false)
  }

  lemma {:induction false} ExtractRestIsRest(o: Op, acc: Option<Expr>, e1: Expr, e2: Expr)
    ensures var (acc', r1, r2) := ExtractEq(o, acc, e1, e2);
      ExtractRest(o, e1, e2) == (r1, r2, ExtractRest(o, e1, e2).2) &&
        (acc'.Some? <==> acc.Some? || ExtractRest(o, e1, e2).2)
    decreases Size(e1) + Size(e2)
  {
    if e1.Is(o) {
      var (acc1, _, e2a) := ExtractEq(o, acc, e1.left, e2);
      ExtractRestIsRest(o, acc, e1.left, e2);
      ExtractRestIsRest(o, acc1, e1.right, e2a);
    } else if e2.Is(o) {
      var (acc1, e1a, _) := ExtractEq(o, acc, e1, e2.left);
      ExtractRestIsRest(o, acc, e1, e2.left);
      ExtractRestIsRest(o, acc1, e1a, e2.right);
    }
  }

  /** expr_extract_eq; the operands it collects are not kept. */
  method ExtractInPlace(c: Comparer, o: Op, e1: Node, ghost s1: Shape, ghost t1: Expr, e2: Node, ghost s2: Shape,
                        ghost t2: Expr)
    returns (r1: Node, ghost s1': Shape, r2: Node, ghost s2': Shape, found: bool)
    requires KconfigInPlaceEq.Pair(e1, s1, t1, e2, s2, t2)
    modifies c, Nodes(s1), Nodes(s2)
    ensures var x := ExtractRest(o, t1, t2); KconfigInPlaceEq.Pair(r1, s1', x.0, r2, s2', x.1) && found == x.2
    ensures c.transCount == old(c.transCount)
    ensures forall n <- Nodes(s1') :: n in Nodes(s1) || n in Nodes(s2) || fresh(n)
    ensures forall n <- Nodes(s2') :: n in Nodes(s1) || n in Nodes(s2) || fresh(n)
    decreases Size(t1) + Size(t2), 1
  {
    r1, s1', r2, s2', found := e1, s1, e2, s2, false;
    if e1.kind == KindOf(o) {
      s1', r2, s2', found := ExtractFirst(c, o, e1, s1, t1, e2, s2, t2);
    } else if e2.kind == KindOf(o) {
      r1, s1', s2', found := ExtractSecond(c, o, e1, s1, t1, e2, s2, t2);
    } else {
      r1, s1', r2, s2', found := ExtractOperands(c, o, e1, s1, t1, e2, s2, t2);
    }
  }

  /** Two operands that are no chains of this connective. */
  method ExtractOperands(c: Comparer, o: Op, e1: Node, ghost s1: Shape, ghost t1: Expr, e2: Node, ghost s2: Shape,
                         ghost t2: Expr)
    returns (r1: Node, ghost s1': Shape, r2: Node, ghost s2': Shape, found: bool)
    requires KconfigInPlaceEq.Pair(e1, s1, t1, e2, s2, t2) && !t1.Is(o) && !t2.Is(o)
    modifies c
    ensures var x := ExtractRest(o, t1, t2); KconfigInPlaceEq.Pair(r1, s1', x.0, r2, s2', x.1) && found == x.2
    ensures c.transCount == old(c.transCount)
    ensures (s1' == s1 && s2' == s2) || (fresh(Nodes(s1')) && fresh(Nodes(s2')))
  {
    r1, s1', r2, s2' := e1, s1, e2, s2;
    assert allocated(Nodes(s1)) && allocated(Nodes(s2));
    found := c.Equal(e1, s1, t1, e2, s2, t2);
    if found {
      r1 := new Node.OfSymbol(if o == Or then No else Yes);
      r2 := new Node.OfSymbol(if o == Or then No else Yes);
      s1', s2' := Shape.Leaf(r1), Shape.Leaf(r2);
    }
  }

  /** The same for one operand of a chain: the chain's node `n` and its other operand stay as they are. */
  method ExtractBeside(c: Comparer, o: Op, e1: Node, ghost s1: Shape, ghost t1: Expr, e2: Node, ghost s2: Shape,
                       ghost t2: Expr,
                       ghost n: Node, ghost k: Node, ghost sk: Shape, ghost tk: Expr)
    returns (r1: Node, ghost s1': Shape, r2: Node, ghost s2': Shape, found: bool)
    requires KconfigInPlaceEq.Pair(e1, s1, t1, e2, s2, t2) && n !in Nodes(s1) && n !in Nodes(s2)
    requires Rep(k, sk, tk) && Nodes(sk) !! Nodes(s1) && Nodes(sk) !! Nodes(s2)
    modifies c, Nodes(s1), Nodes(s2)
    ensures var x := ExtractRest(o, t1, t2); KconfigInPlaceEq.Pair(r1, s1', x.0, r2, s2', x.1) && found == x.2
    ensures n !in Nodes(s1') && n !in Nodes(s2') && c.transCount == old(c.transCount)
    ensures Rep(k, sk, tk) && Nodes(sk) !! Nodes(s1') && Nodes(sk) !! Nodes(s2')
    ensures forall n <- Nodes(s1') :: n in Nodes(s1) || n in Nodes(s2) || fresh(n)
    ensures forall n <- Nodes(s2') :: n in Nodes(s1) || n in Nodes(s2) || fresh(n)
    decreases Size(t1) + Size(t2), 2
  {
    assert allocated(Nodes(sk));
    r1, s1', r2, s2', found := ExtractInPlace(c, o, e1, s1, t1, e2, s2, t2);
  }

  /** Both operands of the link `n` against `e2`, one after the other; they are not linked again yet. */
  method ExtractSides(c: Comparer, o: Op, ghost n: Node, left: Node, ghost l: Shape, ghost tl: Expr,
                      right: Node, ghost r: Shape, ghost tr: Expr, e2: Node, ghost s2: Shape, ghost t2: Expr)
    returns (left': Node, ghost l': Shape, right': Node, ghost r': Shape, r2: Node, ghost s2': Shape, found: bool)
    requires KconfigInPlaceEq.Pair(left, l, tl, e2, s2, t2) && Rep(right, r, tr) && Apart(Two(n, l, r))
    requires n !in Nodes(s2) && Nodes(r) !! Nodes(s2)
    modifies c, Nodes(l), Nodes(r), Nodes(s2)
    ensures var (x, y) := (ExtractRest(o, tl, t2), ExtractRest(o, tr, ExtractRest(o, tl, t2).1));
      && Rep(left', l', x.0) && Rep(right', r', y.0) && Rep(r2, s2', y.1) && found == (x.2 || y.2)
    ensures Apart(Two(n, l', r')) && Apart(s2') && Nodes(l') !! Nodes(s2') && Nodes(r') !! Nodes(s2')
    ensures n !in Nodes(s2')
    ensures c.transCount == old(c.transCount)
    ensures forall x <- Nodes(l') + Nodes(r') + Nodes(s2') :: x in Nodes(l) || x in Nodes(r) || x in Nodes(s2) ||
              fresh(x)
    decreases Size(tl) + Size(tr) + Size(t2), 3
  {
    var again;
    ghost var a := ExtractRest(o, tl, t2);
    left', l', r2, s2', found := ExtractBeside(c, o, left, l, tl, e2, s2, t2, n, right, r, tr);
    right', r', r2, s2', again := ExtractBeside(c, o, right, r, tr, r2, s2', a.1, n, left', l', a.0);
    found := found || again;
  }

  method ExtractFirst(c: Comparer, o: Op, e1: Node, ghost s1: Shape, ghost t1: Expr, e2: Node, ghost s2: Shape,
                      ghost t2: Expr)
    returns (ghost s1': Shape, r2: Node, ghost s2': Shape, found: bool)
    requires KconfigInPlaceEq.Pair(e1, s1, t1, e2, s2, t2) && t1.Is(o)
    modifies c, Nodes(s1), Nodes(s2)
    ensures var x := ExtractRest(o, t1, t2); KconfigInPlaceEq.Pair(e1, s1', x.0, r2, s2', x.1) && found == x.2
    ensures c.transCount == old(c.transCount)
    ensures forall n <- Nodes(s1') :: n in Nodes(s1) || n in Nodes(s2) || fresh(n)
    ensures forall n <- Nodes(s2') :: n in Nodes(s1) || n in Nodes(s2) || fresh(n)
    decreases Size(t1) + Size(t2), 0
  {
    var left, right := e1.left, e1.right;
    ghost var l, r, a := s1.l, s1.r, ExtractRest(o, t1.left, t2);
    assert Rep(left, l, t1.left) && Rep(right, r, t1.right);
    left, l, right, r, r2, s2', found := ExtractSides(c, o, e1, left, l, t1.left, right, r, t1.right, e2, s2, t2);
    s1' := Two(e1, l, r);
    RelinkBeside(o, e1, left, l, a.0, right, r, ExtractRest(o, t1.right, a.1).0, r2, s2',
      ExtractRest(o, t1.right, a.1).1);
  }

  /** `e1` against both operands of a link. */
  method ExtractFromSides(c: Comparer, o: Op, e1: Node, ghost s1: Shape, ghost t1: Expr, ghost n: Node,
                          left: Node, ghost l: Shape, ghost tl: Expr, right: Node, ghost r: Shape, ghost tr: Expr)
    returns (r1: Node, ghost s1': Shape, left': Node, ghost l': Shape, right': Node, ghost r': Shape, found: bool)
    requires KconfigInPlaceEq.Pair(e1, s1, t1, left, l, tl) && Rep(right, r, tr) && Apart(Two(n, l, r))
    requires n !in Nodes(s1) && Nodes(r) !! Nodes(s1)
    modifies c, Nodes(s1), Nodes(l), Nodes(r)
    ensures var (x, y) := (ExtractRest(o, t1, tl), ExtractRest(o, ExtractRest(o, t1, tl).0, tr));
      && Rep(r1, s1', y.0) && Rep(left', l', x.1) && Rep(right', r', y.1) && found == (x.2 || y.2)
    ensures Apart(Two(n, l', r')) && Apart(s1') && Nodes(l') !! Nodes(s1') && Nodes(r') !! Nodes(s1')
    ensures n !in Nodes(s1')
    ensures c.transCount == old(c.transCount)
    ensures forall x <- Nodes(l') + Nodes(r') + Nodes(s1') :: x in Nodes(l) || x in Nodes(r) || x in Nodes(s1) ||
              fresh(x)
    decreases Size(t1) + Size(tl) + Size(tr), 3
  {
    var again;
    ghost var a := ExtractRest(o, t1, tl);
    r1, s1', left', l', found := ExtractBeside(c, o, e1, s1, t1, left, l, tl, n, right, r, tr);
    r1, s1', right', r', again := ExtractBeside(c, o, r1, s1', a.0, right, r, tr, n, left', l', a.1);
    found := found || again;
  }

  method ExtractSecond(c: Comparer, o: Op, e1: Node, ghost s1: Shape, ghost t1: Expr, e2: Node, ghost s2: Shape,
                       ghost t2: Expr)
    returns (r1: Node, ghost s1': Shape, ghost s2': Shape, found: bool)
    requires KconfigInPlaceEq.Pair(e1, s1, t1, e2, s2, t2) && !t1.Is(o) && t2.Is(o)
    modifies c, Nodes(s1), Nodes(s2)
    ensures var x := ExtractRest(o, t1, t2); KconfigInPlaceEq.Pair(r1, s1', x.0, e2, s2', x.1) && found == x.2
    ensures c.transCount == old(c.transCount)
    ensures forall n <- Nodes(s1') :: n in Nodes(s1) || n in Nodes(s2) || fresh(n)
    ensures forall n <- Nodes(s2') :: n in Nodes(s1) || n in Nodes(s2) || fresh(n)
    decreases Size(t1) + Size(t2), 0
  {
    var left, right := e2.left, e2.right;
    ghost var l, r, a := s2.l, s2.r, ExtractRest(o, t1, t2.left);
    assert Rep(left, l, t2.left) && Rep(right, r, t2.right);
    r1, s1', left, l, right, r, found := ExtractFromSides(c, o, e1, s1, t1, e2, left, l, t2.left, right, r, t2.right);
    s2' := Two(e2, l, r);
    RelinkBeside(o, e2, left, l, a.1, right, r, ExtractRest(o, a.0, t2.right).1, r1, s1',
      ExtractRest(o, a.0, t2.right).0);
  }

  // ---------------------------------------------------------------- the contradiction test

  /** A copy of the negation of one expression, transformed, and a copy of the other. */
  method NegationAndCopy(e1: Node, ghost s1: Shape, ghost t1: Expr, e2: Node, ghost s2: Shape, ghost t2: Expr)
    returns (c1: Node, ghost d1: Shape, c2: Node, ghost d2: Shape)
    requires Rep(e1, s1, t1) && Rep(e2, s2, t2)
    ensures KconfigInPlaceEq.Pair(c1, d1, Transform(Not(t1)), c2, d2, t2) && fresh(Nodes(d1)) && fresh(Nodes(d2))
  {
    var a;
    ghost var sa;
    assert allocated(Nodes(s2));
    a, sa, c2, d2 := CopyBoth(e1, s1, t1, e2, s2, t2);
    assert allocated(Nodes(sa)) && allocated(Nodes(d2));
    var neg := new Node.Negation(a);
    c1, d1 := NegateCopy(neg, One(neg, sa), Not(t1), c2, d2, t2);
  }

  method NegateCopy(neg: Node, ghost sn: Shape, ghost tn: Expr, ghost k: Node, ghost sk: Shape, ghost tk: Expr)
    returns (r: Node, ghost s: Shape)
    requires Rep(neg, sn, tn) && Apart(sn) && Rep(k, sk, tk) && Apart(sk) && Nodes(sk) !! Nodes(sn)
    modifies Nodes(sn)
    ensures KconfigInPlaceEq.Pair(r, s, Transform(tn), k, sk, tk) && forall n <- Nodes(s) :: n in Nodes(sn) || fresh(n)
  {
    assert allocated(Nodes(sk));
    r, s := TransformInPlace(neg, sn, tn);
  }

  /** Whether one operand contradicts what another slot holds; it works on copies. */
  method ContradictsNodes(c: Comparer, o: Op, e1: Node, ghost s1: Shape, ghost t1: Expr, e2: Node, ghost s2: Shape,
                          ghost t2: Expr)
    returns (b: bool)
    requires Rep(e1, s1, t1) && Rep(e2, s2, t2)
    modifies c
    ensures b == Contradicts(o, t1, t2) && c.transCount == old(c.transCount)
  {
    var n, k, found;
    ghost var sn, sk;
    n, sn, k, sk := NegationAndCopy(e1, s1, t1, e2, s2, t2);
    ghost var x := ExtractRest(o, Transform(Not(t1)), t2);
    ExtractRestIsRest(o, None, Transform(Not(t1)), t2);
    n, sn, k, sk, found := ExtractInPlace(c, o, n, sn, Transform(Not(t1)), k, sk, t2);
    if found {
      sn := EliminateYnInPlace(n, sn, x.0);
    }
    b := n.kind == NSymbol && n.lsym == if o == Or then No else Yes;
  }

  // ---------------------------------------------------------------- two slots of one chain

  ghost predicate Slots(o: Op, e: Node, sh: Shape, t: Expr, s1: Slot, p1: Path, s2: Slot, p2: Path)
    reads Nodes(sh)
  {
    && Rep(e, sh, t) && Apart(sh) && t.Is(o) && OnSpine(o, t, p1) && OnSpine(o, t, p2)
    && InShape(sh, p1) && s1 == SlotAt(sh, p1) && InShape(sh, p2) && s2 == SlotAt(sh, p2)
  }

  /** The slots of the chain are where they were. */
  ghost predicate SameSlots(o: Op, t: Expr, sh: Shape, sh': Shape) {
    forall q :: OnSpine(o, t, q) && InShape(sh, q) ==> InShape(sh', q) && SlotAt(sh', q) == SlotAt(sh, q)
  }

  /** The chain holds another expression, in the same slots. */
  ghost predicate Rewritten(o: Op, e: Node, sh: Shape, t: Expr, sh': Shape, t': Expr)
    reads Nodes(sh')
  {
    Rep(e, sh', t') && Apart(sh') && SameSlots(o, t, sh, sh')
  }

  lemma SameSlotsTwice(o: Op, t: Expr, t': Expr, sh: Shape, sh': Shape, sh'': Shape)
    requires SameSpine(o, t, t') && SameSlots(o, t, sh, sh') && SameSlots(o, t', sh', sh'')
    ensures SameSlots(o, t, sh, sh'')
  {
    forall q | OnSpine(o, t, q) && InShape(sh, q) ensures InShape(sh'', q) && SlotAt(sh'', q) == SlotAt(sh, q) {
      SameSpineAt(o, t, t', q);
    }
  }

  /** The two sides of the link that a slot holds. */
  lemma SidesOf(e: Node, sh: Shape, o: Op, t: Expr, p: Path)
    requires Rep(e, sh, t) && OnSpine(o, t, p) && At(o, t, p).Is(o)
    ensures InShape(sh, p) && Held(SlotAt(sh, p)) == ShapeAt(sh, p).n && InShape(sh, p + [false])
    ensures InShape(sh, p + [true])
    ensures SlotAt(sh, p + [false]) == LeftOf(ShapeAt(sh, p).n) && SlotAt(sh, p + [true]) == RightOf(ShapeAt(sh, p).n)
  {
    RepAt(e, sh, o, t, p);
    SlotBelow(sh, p, false);
    SlotBelow(sh, p, true);
  }

  /** An operand's own nodes have been rewritten; the rest of the chain is as it was in the store. */
  lemma Reassembled(m: Store, e: Node, sh: Shape, o: Op, t: Expr, p: Path, shx: Shape, tx: Expr)
    requires RepIn(m, e, sh, t) && Apart(sh) && OnSpine(o, t, p) && !At(o, t, p).Is(o) && p != [] && InShape(sh, p)
    requires Rep(ShapeAt(sh, p).n, shx, tx) && Apart(shx) && Nodes(shx) !! Nodes(sh) - Nodes(ShapeAt(sh, p))
    requires forall n <- Nodes(sh) - Nodes(ShapeAt(sh, p)) :: n in m && m[n] == CellOf(n)
    requires SlotAt(sh, p).n in m && HeldIn(m, SlotAt(sh, p)) == ShapeAt(sh, p).n
    ensures Rewritten(o, e, sh, t, PutShape(sh, p, shx), Put(o, t, p, tx))
  {
    var m' := StoreOf(Nodes(sh) + Nodes(shx));
    SlotOutside(sh, p);
    RepIsRepIn(m', ShapeAt(sh, p).n, shx, tx);
    Exchanged(m, m', e, sh, o, t, p, ShapeAt(sh, p).n, shx, tx);
    PutShapeFacts(sh, p, shx);
    RepIsRepIn(m', e, PutShape(sh, p, shx), Put(o, t, p, tx));
    OperandExchanged(o, t, sh, p, shx);
  }

  /** Exchanging an operand leaves the chain's slots where they are. */
  lemma OperandExchanged(o: Op, t: Expr, sh: Shape, p: Path, shx: Shape)
    requires OnSpine(o, t, p) && !At(o, t, p).Is(o) && p != [] && InShape(sh, p)
    ensures SameSlots(o, t, sh, PutShape(sh, p, shx))
  {
    forall q | OnSpine(o, t, q) && InShape(sh, q)
      ensures InShape(PutShape(sh, p, shx), q) && SlotAt(PutShape(sh, p, shx), q) == SlotAt(sh, q)
    {
      if p <= q { LeavesDiverge(o, t, p, q); }
      SlotStays(sh, p, shx, q);
    }
  }

  /** An operand is replaced by a new tree. */
  method ReplaceOperand(o: Op, ghost e: Node, s: Slot, x: Node, ghost sh: Shape, ghost t: Expr, ghost p: Path,
                        ghost shx: Shape, ghost tx: Expr)
    returns (ghost sh': Shape)
    requires Rep(e, sh, t) && Apart(sh) && OnSpine(o, t, p) && !At(o, t, p).Is(o) && t.Is(o) && InShape(sh, p)
    requires s == SlotAt(sh, p)
    requires Rep(x, shx, tx) && Apart(shx) && Nodes(shx) !! Nodes(sh)
    modifies Nodes(sh)
    ensures Rewritten(o, e, sh, t, sh', Put(o, t, p, tx)) && Nodes(sh') <= Nodes(sh) + Nodes(shx)
  {
    SlotOutside(sh, p);
    WriteSlot(s, x, e, sh, o, t, p, shx, tx);
    PutShapeFacts(sh, p, shx);
    OperandExchanged(o, t, sh, p, shx);
    sh' := PutShape(sh, p, shx);
  }

  // ---------------------------------------------------------------- expr_eliminate_dups1

  method Dups1InPlace(c: Comparer, o: Op, ghost e: Node, s1: Slot, s2: Slot, ghost sh: Shape, ghost t: Expr,
                      ghost p1: Path, ghost p2: Path)
    returns (ghost sh': Shape)
    requires Slots(o, e, sh, t, s1, p1, s2, p2)
    modifies c, Nodes(sh)
    ensures Rewritten(o, e, sh, t, sh', Dups1(o, t, p1, p2).0)
    ensures c.transCount == old(c.transCount) + Dups1(o, t, p1, p2).1
    ensures forall n <- Nodes(sh') :: n in Nodes(sh) || fresh(n)
    decreases Size(t), Links(o, At(o, t, p1)) + Links(o, At(o, t, p2)), 2
  {
    RepAt(e, sh, o, t, p1);
    RepAt(e, sh, o, t, p2);
    if Held(s1).kind == KindOf(o) {
      sh' := Dups1FirstInPlace(c, o, e, s1, s2, sh, t, p1, p2);
    } else if Held(s2).kind == KindOf(o) {
      sh' := Dups1SecondInPlace(c, o, e, s1, s2, sh, t, p1, p2);
    } else {
      sh' := Dups1OperandsInPlace(c, o, e, s1, s2, sh, t, p1, p2);
    }
  }

  method Dups1FirstInPlace(c: Comparer, o: Op, ghost e: Node, s1: Slot, s2: Slot, ghost sh: Shape, ghost t: Expr,
                           ghost p1: Path, ghost p2: Path)
    returns (ghost sh': Shape)
    requires Slots(o, e, sh, t, s1, p1, s2, p2) && At(o, t, p1).Is(o)
    modifies c, Nodes(sh)
    ensures Rewritten(o, e, sh, t, sh', Dups1First(o, t, p1, p2).0)
    ensures c.transCount == old(c.transCount) + Dups1First(o, t, p1, p2).1
    ensures forall n <- Nodes(sh') :: n in Nodes(sh) || fresh(n)
    decreases Size(t), Links(o, At(o, t, p1)) + Links(o, At(o, t, p2)), 1
  {
    BothSides(o, t, p1);
    SidesOf(e, sh, o, t, p1);
    ghost var a := Dups1(o, t, p1 + [false], p2).0;
    OtherSide(o, t, p1, p2, a);
    var n := Held(s1);
    ghost var mid := Dups1InPlace(c, o, e, LeftOf(n), s2, sh, t, p1 + [false], p2);
    sh' := Dups1InPlace(c, o, e, RightOf(n), s2, mid, a, p1 + [true], p2);
    SameSlotsTwice(o, t, a, sh, mid, sh');
  }

  method Dups1SecondInPlace(c: Comparer, o: Op, ghost e: Node, s1: Slot, s2: Slot, ghost sh: Shape, ghost t: Expr,
                            ghost p1: Path, ghost p2: Path)
    returns (ghost sh': Shape)
    requires Slots(o, e, sh, t, s1, p1, s2, p2) && At(o, t, p2).Is(o)
    modifies c, Nodes(sh)
    ensures Rewritten(o, e, sh, t, sh', Dups1Second(o, t, p1, p2).0)
    ensures c.transCount == old(c.transCount) + Dups1Second(o, t, p1, p2).1
    ensures forall n <- Nodes(sh') :: n in Nodes(sh) || fresh(n)
    decreases Size(t), Links(o, At(o, t, p1)) + Links(o, At(o, t, p2)), 1
  {
    BothSides(o, t, p2);
    SidesOf(e, sh, o, t, p2);
    ghost var a := Dups1(o, t, p1, p2 + [false]).0;
    OtherSide(o, t, p2, p1, a);
    var n := Held(s2);
    ghost var mid := Dups1InPlace(c, o, e, s1, LeftOf(n), sh, t, p1, p2 + [false]);
    sh' := Dups1InPlace(c, o, e, s1, RightOf(n), mid, a, p1, p2 + [true]);
    SameSlotsTwice(o, t, a, sh, mid, sh');
  }

  /** An operand that is a chain of the other connective is worked on within itself. */
  method Tidy1InPlace(c: Comparer, o: Op, ghost e: Node, s1: Slot, ghost sh: Shape, ghost t: Expr, ghost p1: Path)
    returns (ghost sh': Shape)
    requires Slots(o, e, sh, t, s1, p1, s1, p1) && !At(o, t, p1).Is(o)
    modifies c, Nodes(sh)
    ensures Rewritten(o, e, sh, t, sh', Put(o, t, p1, Tidied1(o, t, p1).0))
    ensures c.transCount == old(c.transCount) + Tidied1(o, t, p1).1 && Held(s1) == old(Held(s1))
    ensures forall n <- Nodes(sh') :: n in Nodes(sh) || fresh(n)
    decreases Size(t), 0, 0
  {
    RepAt(e, sh, o, t, p1);
    SlotOutside(sh, p1);
    PutShape0(o, t, p1);
    sh' := sh;
    var e1 := Held(s1);
    if e1.kind == NAnd || e1.kind == NOr {
      ghost var m, part, x := StoreOf(Nodes(sh)), ShapeAt(sh, p1), At(o, t, p1);
      RepIsRepIn(m, e, sh, t);
      ghost var part' := Dups1InPlace(c, OpOf(e1.kind), e1, Top(e1), Top(e1), part, x, [], []);
      Reassembled(m, e, sh, o, t, p1, part', Dups1(x.op, x, [], []).0);
      PutShapeNodes(sh, p1, part');
      sh' := PutShape(sh, p1, part');
    }
  }

  lemma {:induction false} PutShape0(o: Op, t: Expr, p: Path)
    requires OnSpine(o, t, p)
    ensures Put(o, t, p, At(o, t, p)) == t
  {
    if p != [] { PutShape0(o, Child(t, p[0]), p[1..]); }
  }

  /** The slots hold operands, two different ones: join them if that is possible. */
  method JoinSlots(c: Comparer, o: Op, ghost e: Node, s1: Slot, s2: Slot, ghost sh: Shape, ghost t: Expr,
                   ghost p1: Path, ghost p2: Path)
    returns (ghost sh': Shape)
    requires Slots(o, e, sh, t, s1, p1, s2, p2) && !At(o, t, p1).Is(o) && !At(o, t, p2).Is(o) && p1 != p2
    modifies c, Nodes(sh)
    ensures var x := Join(o, At(o, t, p1), At(o, t, p2));
      if x == None then sh' == sh && Rep(e, sh, t) && Held(s1) == old(Held(s1)) && c.transCount == old(c.transCount)
      else Rewritten(o, e, sh, t, sh', Merge(o, t, p1, p2, x.value)) && c.transCount == old(c.transCount) + 1
    ensures forall n <- Nodes(sh') :: n in Nodes(sh) || fresh(n)
  {
    RepAt(e, sh, o, t, p1);
    RepAt(e, sh, o, t, p2);
    sh' := sh;
    assert allocated(Nodes(sh));
    var r;
    ghost var rs;
    r, rs := JoinNodes(c, o, Held(s1), ShapeAt(sh, p1), At(o, t, p1), Held(s2), ShapeAt(sh, p2), At(o, t, p2));
    if r != null {
      sh' := MergeSlots(o, e, s1, s2, r, sh, t, p1, p2, rs, Join(o, At(o, t, p1), At(o, t, p2)).value);
      c.transCount := c.transCount + 1;
    }
  }

  /** The first operand gives way to the unit and the second to the joined expression. */
  method MergeSlots(o: Op, ghost e: Node, s1: Slot, s2: Slot, r: Node, ghost sh: Shape, ghost t: Expr, ghost p1: Path,
                    ghost p2: Path,
                    ghost rs: Shape, ghost x: Expr)
    returns (ghost sh': Shape)
    requires Slots(o, e, sh, t, s1, p1, s2, p2) && !At(o, t, p1).Is(o) && !At(o, t, p2).Is(o) && p1 != p2
    requires Rep(r, rs, x) && Apart(rs) && Nodes(rs) !! Nodes(sh)
    modifies Nodes(sh)
    ensures Rewritten(o, e, sh, t, sh', Merge(o, t, p1, p2, x))
    ensures forall n <- Nodes(sh') :: n in Nodes(sh) || n in Nodes(rs) || fresh(n)
  {
    assert allocated(Nodes(rs)) && allocated(Nodes(sh));
    var u := new Node.OfSymbol(if o == Or then No else Yes);
    PutElsewhere(o, t, p1, o.Unit(), p2);
    PutKeepsSpine(o, t, p1, o.Unit());
    ghost var mid := ReplaceBeside(o, e, s1, u, sh, t, p1, Shape.Leaf(u), o.Unit(), r, rs, x);
    sh' := ReplaceOperand(o, e, s2, r, mid, Put(o, t, p1, o.Unit()), p2, rs, x);
    SameSlotsTwice(o, t, Put(o, t, p1, o.Unit()), sh, mid, sh');
  }

  /** The same as ReplaceOperand; a tree elsewhere stays as it is. */
  method ReplaceBeside(o: Op, ghost e: Node, s: Slot, x: Node, ghost sh: Shape, ghost t: Expr, ghost p: Path,
                       ghost shx: Shape, ghost tx: Expr,
                       ghost r: Node, ghost rs: Shape, ghost tr: Expr)
    returns (ghost sh': Shape)
    requires Rep(e, sh, t) && Apart(sh) && OnSpine(o, t, p) && !At(o, t, p).Is(o) && t.Is(o) && InShape(sh, p)
    requires s == SlotAt(sh, p)
    requires Rep(x, shx, tx) && Apart(shx) && Nodes(shx) !! Nodes(sh)
    requires Rep(r, rs, tr) && Nodes(rs) !! Nodes(sh)
    modifies Nodes(sh)
    ensures Rewritten(o, e, sh, t, sh', Put(o, t, p, tx)) && Nodes(sh') <= Nodes(sh) + Nodes(shx) && Rep(r, rs, tr)
  {
    assert allocated(Nodes(rs));
    sh' := ReplaceOperand(o, e, s, x, sh, t, p, shx, tx);
  }

  method Dups1OperandsInPlace(c: Comparer, o: Op, ghost e: Node, s1: Slot, s2: Slot, ghost sh: Shape, ghost t: Expr,
                              ghost p1: Path, ghost p2: Path)
    returns (ghost sh': Shape)
    requires Slots(o, e, sh, t, s1, p1, s2, p2) && !At(o, t, p1).Is(o) && !At(o, t, p2).Is(o)
    modifies c, Nodes(sh)
    ensures Rewritten(o, e, sh, t, sh', Dups1Operands(o, t, p1, p2).0)
    ensures c.transCount == old(c.transCount) + Dups1Operands(o, t, p1, p2).1
    ensures forall n <- Nodes(sh') :: n in Nodes(sh) || fresh(n)
    decreases Size(t), 0, 1
  {
    RepAt(e, sh, o, t, p1);
    RepAt(e, sh, o, t, p2);
    if p1 != p2 { DifferentNodes(sh, p1, p2); }
    sh' := sh;
    if Held(s1) == Held(s2) {
      return;
    }
    ghost var x := Tidied1(o, t, p1).0;
    ghost var tidied := Put(o, t, p1, x);
    PutOperand(o, t, p1, x);
    PutElsewhere(o, t, p1, x, p2);
    ghost var mid := Tidy1InPlace(c, o, e, s1, sh, t, p1);
    sh' := JoinSlots(c, o, e, s1, s2, mid, tidied, p1, p2);
    if Join(o, x, At(o, tidied, p2)) != None { SameSlotsTwice(o, t, tidied, sh, mid, sh'); }
  }

  // ---------------------------------------------------------------- expr_eliminate_dups2

  method Dups2InPlace(c: Comparer, o: Op, ghost e: Node, s1: Slot, s2: Slot, ghost sh: Shape, ghost t: Expr,
                      ghost p1: Path, ghost p2: Path)
    returns (ghost sh': Shape)
    requires Slots(o, e, sh, t, s1, p1, s2, p2)
    modifies c, Nodes(sh)
    ensures Rewritten(o, e, sh, t, sh', Dups2(o, t, p1, p2).0)
    ensures c.transCount == old(c.transCount) + Dups2(o, t, p1, p2).1
    ensures forall n <- Nodes(sh') :: n in Nodes(sh) || fresh(n)
    decreases Size(t), Links(o, At(o, t, p1)) + Links(o, At(o, t, p2)), 2
  {
    RepAt(e, sh, o, t, p1);
    RepAt(e, sh, o, t, p2);
    if Held(s1).kind == KindOf(o) {
      sh' := Dups2FirstInPlace(c, o, e, s1, s2, sh, t, p1, p2);
    } else if Held(s2).kind == KindOf(o) {
      ghost var a := Dups2Second(o, t, p1, p2).0;
      SameSpineAt(o, t, a, p1);
      SameSpineAt(o, t, a, p2);
      ghost var mid := Dups2SecondInPlace(c, o, e, s1, s2, sh, t, p1, p2);
      sh' := Dups2OperandInPlace(c, o, e, s1, s2, mid, a, p1, p2);
      SameSlotsTwice(o, t, a, sh, mid, sh');
    } else {
      sh' := Dups2OperandInPlace(c, o, e, s1, s2, sh, t, p1, p2);
    }
  }

  method Dups2FirstInPlace(c: Comparer, o: Op, ghost e: Node, s1: Slot, s2: Slot, ghost sh: Shape, ghost t: Expr,
                           ghost p1: Path, ghost p2: Path)
    returns (ghost sh': Shape)
    requires Slots(o, e, sh, t, s1, p1, s2, p2) && At(o, t, p1).Is(o)
    modifies c, Nodes(sh)
    ensures Rewritten(o, e, sh, t, sh', Dups2First(o, t, p1, p2).0)
    ensures c.transCount == old(c.transCount) + Dups2First(o, t, p1, p2).1
    ensures forall n <- Nodes(sh') :: n in Nodes(sh) || fresh(n)
    decreases Size(t), Links(o, At(o, t, p1)) + Links(o, At(o, t, p2)), 1
  {
    BothSides(o, t, p1);
    SidesOf(e, sh, o, t, p1);
    ghost var a := Dups2(o, t, p1 + [false], p2).0;
    OtherSide(o, t, p1, p2, a);
    var n := Held(s1);
    ghost var mid := Dups2InPlace(c, o, e, LeftOf(n), s2, sh, t, p1 + [false], p2);
    sh' := Dups2InPlace(c, o, e, RightOf(n), s2, mid, a, p1 + [true], p2);
    SameSlotsTwice(o, t, a, sh, mid, sh');
  }

  method Dups2SecondInPlace(c: Comparer, o: Op, ghost e: Node, s1: Slot, s2: Slot, ghost sh: Shape, ghost t: Expr,
                            ghost p1: Path, ghost p2: Path)
    returns (ghost sh': Shape)
    requires Slots(o, e, sh, t, s1, p1, s2, p2) && At(o, t, p2).Is(o)
    modifies c, Nodes(sh)
    ensures Rewritten(o, e, sh, t, sh', Dups2Second(o, t, p1, p2).0)
    ensures c.transCount == old(c.transCount) + Dups2Second(o, t, p1, p2).1
    ensures forall n <- Nodes(sh') :: n in Nodes(sh) || fresh(n)
    decreases Size(t), Links(o, At(o, t, p1)) + Links(o, At(o, t, p2)), 1
  {
    BothSides(o, t, p2);
    SidesOf(e, sh, o, t, p2);
    ghost var a := Dups2(o, t, p1, p2 + [false]).0;
    OtherSide(o, t, p2, p1, a);
    var n := Held(s2);
    ghost var mid := Dups2InPlace(c, o, e, s1, LeftOf(n), sh, t, p1, p2 + [false]);
    sh' := Dups2InPlace(c, o, e, s1, RightOf(n), mid, a, p1, p2 + [true]);
    SameSlotsTwice(o, t, a, sh, mid, sh');
  }

  /** An operand that is a chain of the other connective is worked on within itself. */
  method Tidy2InPlace(c: Comparer, o: Op, ghost e: Node, s1: Slot, ghost sh: Shape, ghost t: Expr, ghost p1: Path)
    returns (ghost sh': Shape)
    requires Slots(o, e, sh, t, s1, p1, s1, p1) && !At(o, t, p1).Is(o)
    modifies c, Nodes(sh)
    ensures Rewritten(o, e, sh, t, sh', Put(o, t, p1, Tidied2(o, t, p1).0))
    ensures c.transCount == old(c.transCount) + Tidied2(o, t, p1).1 && Held(s1) == old(Held(s1))
    ensures forall n <- Nodes(sh') :: n in Nodes(sh) || fresh(n)
    decreases Size(t), 0, 0
  {
    RepAt(e, sh, o, t, p1);
    SlotOutside(sh, p1);
    PutShape0(o, t, p1);
    sh' := sh;
    var e1 := Held(s1);
    if e1.kind == NAnd || e1.kind == NOr {
      ghost var m, part, x := StoreOf(Nodes(sh)), ShapeAt(sh, p1), At(o, t, p1);
      RepIsRepIn(m, e, sh, t);
      ghost var part' := Dups2InPlace(c, OpOf(e1.kind), e1, Top(e1), Top(e1), part, x, [], []);
      Reassembled(m, e, sh, o, t, p1, part', Dups2(x.op, x, [], []).0);
      PutShapeNodes(sh, p1, part');
      sh' := PutShape(sh, p1, part');
    }
  }

  method Dups2OperandInPlace(c: Comparer, o: Op, ghost e: Node, s1: Slot, s2: Slot, ghost sh: Shape, ghost t: Expr,
                             ghost p1: Path, ghost p2: Path)
    returns (ghost sh': Shape)
    requires Slots(o, e, sh, t, s1, p1, s2, p2) && !At(o, t, p1).Is(o)
    modifies c, Nodes(sh)
    ensures Rewritten(o, e, sh, t, sh', Dups2Operand(o, t, p1, p2).0)
    ensures c.transCount == old(c.transCount) + Dups2Operand(o, t, p1, p2).1
    ensures forall n <- Nodes(sh') :: n in Nodes(sh) || fresh(n)
    decreases Size(t), 0, 1
  {
    RepAt(e, sh, o, t, p1);
    RepAt(e, sh, o, t, p2);
    if p1 != p2 { DifferentNodes(sh, p1, p2); }
    sh' := sh;
    var e1 := Held(s1);
    if e1 == Held(s2) || (e1.kind != NAnd && e1.kind != NOr) {
      return;
    }
    ghost var x := Tidied2(o, t, p1).0;
    ghost var tidied := Put(o, t, p1, x);
    PutOperand(o, t, p1, x);
    SameSpineAt(o, t, tidied, p2);
    ghost var mid := Tidy2InPlace(c, o, e, s1, sh, t, p1);
    sh' := ZeroIfContradicted(c, o, e, s1, s2, mid, tidied, p1, p2);
    if Contradicts(o, x, At(o, tidied, p2)) { SameSlotsTwice(o, t, tidied, sh, mid, sh'); }
  }

  method ZeroIfContradicted(c: Comparer, o: Op, ghost e: Node, s1: Slot, s2: Slot, ghost sh: Shape, ghost t: Expr,
                            ghost p1: Path, ghost p2: Path)
    returns (ghost sh': Shape)
    requires Slots(o, e, sh, t, s1, p1, s2, p2) && !At(o, t, p1).Is(o)
    modifies c, Nodes(sh)
    ensures if Contradicts(o, At(o, t, p1), At(o, t, p2)) then
              Rewritten(o, e, sh, t, sh', Put(o, t, p1, o.Zero())) && c.transCount == old(c.transCount) + 1
            else sh' == sh && Rep(e, sh, t) && c.transCount == old(c.transCount)
    ensures forall n <- Nodes(sh') :: n in Nodes(sh) || fresh(n)
  {
    RepAt(e, sh, o, t, p1);
    RepAt(e, sh, o, t, p2);
    sh' := sh;
    assert allocated(Nodes(sh));
    var b := ContradictsNodes(c, o, Held(s1), ShapeAt(sh, p1), At(o, t, p1), Held(s2), ShapeAt(sh, p2), At(o, t, p2));
    if b {
      var z := new Node.OfSymbol(if o == Or then Yes else No);
      sh' := ReplaceOperand(o, e, s1, z, sh, t, p1, Shape.Leaf(z), o.Zero());
      c.transCount := c.transCount + 1;
    }
  }

  // ---------------------------------------------------------------- expr_eliminate_dups

  method RoundInPlace(c: Comparer, e: Node, ghost sh: Shape, ghost t: Expr) returns (ghost sh': Shape)
    requires Rep(e, sh, t) && Apart(sh)
    modifies c, Nodes(sh)
    ensures Rep(e, sh', Round(t).0) && Apart(sh') && c.transCount == old(c.transCount) + Round(t).1
    ensures forall n <- Nodes(sh') :: n in Nodes(sh) || fresh(n)
  {
    sh' := sh;
    if e.kind == NAnd || e.kind == NOr {
      ghost var a := Dups1(t.op, t, [], []).0;
      var o := OpOf(e.kind);
      ghost var mid := Dups1InPlace(c, o, e, Top(e), Top(e), sh, t, [], []);
      sh' := Dups2InPlace(c, o, e, Top(e), Top(e), mid, a, [], []);
    }
  }

  /** The whole of expr_eliminate_dups: the node stays the root, and the counter is put back. */
  method EliminateDupsInPlace(c: Comparer, e: Node, ghost sh: Shape, ghost t: Expr) returns (ghost sh': Shape)
    requires Rep(e, sh, t) && Apart(sh)
    modifies c, Nodes(sh)
    ensures Rep(e, sh', EliminateDups(t)) && Apart(sh') && c.transCount == old(c.transCount)
    ensures forall n <- Nodes(sh') :: n in Nodes(sh) || fresh(n)
  {
    var oldcount := c.transCount;
    sh' := sh;
    ghost var cur := t;
    while true
      invariant Rep(e, sh', cur) && Apart(sh') && EliminateDups(cur) == EliminateDups(t)
      invariant forall n <- Nodes(sh') :: n in Nodes(sh) || fresh(n)
      decreases Size(cur)
    {
      RoundExact(cur);
      c.transCount := 0;
      sh' := RoundInPlace(c, e, sh', cur);
      if c.transCount == 0 {
        break;
      }
      sh' := EliminateYnInPlace(e, sh', Round(cur).0);
      cur := EliminateYn(Round(cur).0);
    }
    c.transCount := oldcount;
  }
}
