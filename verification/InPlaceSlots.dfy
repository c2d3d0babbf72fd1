/** Slots of a chain of linked nodes: the source passes them as `struct expr **`. Writing one slot
    changes the whole chain, and what is read through another slot of it (kconfig/expr.c). */
module KconfigInPlaceSlots {
  import opened KconfigExpr
  import opened KconfigSpine
  import opened KconfigInPlace

  /** The place a chain is held in, which is only read, or one side of a node. */
  datatype Slot = Top(n: Node) | LeftOf(n: Node) | RightOf(n: Node)

  function Held(s: Slot): Node?
    reads s.n
  {
    match s
    case Top(n) => n
    case LeftOf(n) => n.left
    case RightOf(n) => n.right
  }

  // ---------------------------------------------------------------- paths in a shape

  ghost function Kid(sh: Shape, d: bool): Shape
    requires sh.Two?
  {
    if d then sh.r else sh.l
  }

  ghost predicate InShape(sh: Shape, p: Path) { p == [] || (sh.Two? && InShape(Kid(sh, p[0]), p[1..])) }

  ghost function ShapeAt(sh: Shape, p: Path): Shape
    requires InShape(sh, p)
  {
    if p == [] then sh else ShapeAt(Kid(sh, p[0]), p[1..])
  }

  ghost function PutShape(sh: Shape, p: Path, x: Shape): Shape
    requires InShape(sh, p)
  {
    if p == [] then x
    else if p[0] then Two(sh.n, sh.l, PutShape(sh.r, p[1..], x))
    else Two(sh.n, PutShape(sh.l, p[1..], x), sh.r)
  }

  ghost function SlotAt(sh: Shape, p: Path): Slot
    requires InShape(sh, p)
  {
    if p == [] then Top(sh.n)
    else if |p| == 1 then (if p[0] then RightOf(sh.n) else LeftOf(sh.n))
    else SlotAt(Kid(sh, p[0]), p[1..])
  }

  /** What a slot on the chain holds. */
  lemma {:induction false} RepAt(e: Node?, sh: Shape, o: Op, t: Expr, p: Path)
    requires Rep(e, sh, t) && OnSpine(o, t, p)
    ensures InShape(sh, p) && Nodes(ShapeAt(sh, p)) <= Nodes(sh) && SlotAt(sh, p).n in Nodes(sh)
    ensures Held(SlotAt(sh, p)) == ShapeAt(sh, p).n && Rep(ShapeAt(sh, p).n, ShapeAt(sh, p), At(o, t, p))
    ensures SlotAt(sh, p).Top? <==> p == []
    decreases p
  {
    if p != [] {
      var k, c := Kid(sh, p[0]), Child(t, p[0]);
      assert Rep(if p[0] then e.right else e.left, k, c);
      RepAt(k.n, k, o, c, p[1..]);
    }
  }

  lemma {:induction false} SlotOutside(sh: Shape, p: Path)
    requires Apart(sh) && InShape(sh, p) && p != []
    ensures Nodes(ShapeAt(sh, p)) <= Nodes(sh) && SlotAt(sh, p).n in Nodes(sh)
    ensures SlotAt(sh, p).n !in Nodes(ShapeAt(sh, p))
    ensures Apart(ShapeAt(sh, p))
    decreases p
  {
    if |p| > 1 { SlotOutside(Kid(sh, p[0]), p[1..]); } else { assert p[1..] == []; }
  }

  lemma {:induction false} ApartAt(sh: Shape, p: Path)
    requires Apart(sh) && InShape(sh, p)
    ensures Apart(ShapeAt(sh, p)) && Nodes(ShapeAt(sh, p)) <= Nodes(sh) && ShapeAt(sh, p).n in Nodes(ShapeAt(sh, p))
    decreases p
  {
    if p != [] { ApartAt(Kid(sh, p[0]), p[1..]); }
  }

  /** Different paths lead to different nodes. */
  lemma {:induction false} DifferentNodes(sh: Shape, p: Path, q: Path)
    requires Apart(sh) && InShape(sh, p) && InShape(sh, q) && p != q
    ensures ShapeAt(sh, p).n != ShapeAt(sh, q).n
    decreases p
  {
    if p == [] {
      ApartAt(Kid(sh, q[0]), q[1..]);
    } else if q == [] {
      ApartAt(Kid(sh, p[0]), p[1..]);
    } else if p[0] == q[0] {
      DifferentNodes(Kid(sh, p[0]), p[1..], q[1..]);
    } else {
      ApartAt(Kid(sh, p[0]), p[1..]);
      ApartAt(Kid(sh, q[0]), q[1..]);
    }
  }

  /** The slots of the two sides of a link. */
  lemma {:induction false} SlotBelow(sh: Shape, p: Path, d: bool)
    requires InShape(sh, p) && ShapeAt(sh, p).Two?
    ensures InShape(sh, p + [d])
    ensures SlotAt(sh, p + [d]) == if d then RightOf(ShapeAt(sh, p).n) else LeftOf(ShapeAt(sh, p).n)
    decreases p
  {
    if p == [] {
      assert [] + [d] == [d] && [d][1..] == [];
    } else {
      SlotBelow(Kid(sh, p[0]), p[1..], d);
      assert (p + [d])[1..] == p[1..] + [d];
    }
  }

  /** Exchanging what a slot holds. */
  lemma {:induction false} PutShapeFacts(sh: Shape, p: Path, x: Shape)
    requires Apart(sh) && Apart(x) && InShape(sh, p) && Nodes(x) !! Nodes(sh) - Nodes(ShapeAt(sh, p))
    ensures Nodes(ShapeAt(sh, p)) <= Nodes(sh)
    ensures Nodes(PutShape(sh, p, x)) == (Nodes(sh) - Nodes(ShapeAt(sh, p))) + Nodes(x) && Apart(PutShape(sh, p, x))
    decreases p
  {
    if p != [] {
      var k := Kid(sh, p[0]);
      ApartAt(k, p[1..]);
      PutShapeFacts(k, p[1..], x);
    }
  }

  /** That leaves every slot where it is but those inside what is exchanged. */
  lemma {:induction false} SlotStays(sh: Shape, p: Path, x: Shape, q: Path)
    requires InShape(sh, p) && InShape(sh, q) && p != [] && (p <= q ==> p == q)
    ensures InShape(PutShape(sh, p, x), q) && SlotAt(PutShape(sh, p, x), q) == SlotAt(sh, q)
    decreases p
  {
    if q != [] && p[0] == q[0] {
      if |p| == 1 {
        assert p == [p[0]] && p <= q;
      } else {
        var k, k' := Kid(sh, p[0]), PutShape(Kid(sh, p[0]), p[1..], x);
        assert p[1..] <= q[1..] ==> p <= q;
        SlotStays(k, p[1..], x, q[1..]);
      }
    }
  }

  // ---------------------------------------------------------------- the contents of nodes as values

  datatype Cell = Cell(kind: Kind, lsym: Symbol, rsym: Symbol, left: Node?, right: Node?)

  type Store = map<Node, Cell>

  function CellOf(n: Node): Cell
    reads n
  {
    Cell(n.kind, n.lsym, n.rsym, n.left, n.right)
  }

  ghost function StoreOf(ns: set<Node>): Store
    reads ns
  {
    map n | n in ns :: CellOf(n)
  }

  /** Rep, in a store. */
  ghost predicate RepIn(m: Store, e: Node?, sh: Shape, t: Expr) {
    e == sh.n && sh.n in m &&
    var c := m[sh.n];
    match t
    case Var(s) => sh.Leaf? && c.kind == NSymbol && c.lsym == s
    case Comp(q, a, b) => sh.Leaf? && c.kind == (if q then NEqual else NUnequal) && c.lsym == a && c.rsym == b
    case Not(a) => sh.One? && c.kind == NNot && RepIn(m, c.left, sh.a, a)
    case Bin(o, l, r) => sh.Two? && c.kind == KindOf(o) && RepIn(m, c.left, sh.l, l) && RepIn(m, c.right, sh.r, r)
  }

  lemma {:induction false} RepIsRepIn(m: Store, e: Node?, sh: Shape, t: Expr)
    requires forall n <- Nodes(sh) :: n in m && m[n] == CellOf(n)
    ensures Rep(e, sh, t) <==> RepIn(m, e, sh, t)
    decreases sh
  {
    if e == sh.n {
      match t
      case Not(a) => if sh.One? { RepIsRepIn(m, e.left, sh.a, a); }
      case Bin(_, l, r) => if sh.Two? { RepIsRepIn(m, e.left, sh.l, l); RepIsRepIn(m, e.right, sh.r, r); }
      case _ =>
    }
  }

  lemma {:induction false} SameStore(m: Store, m': Store, e: Node?, sh: Shape, t: Expr)
    requires RepIn(m, e, sh, t) && forall n <- Nodes(sh) :: n in m && n in m' && m'[n] == m[n]
    ensures RepIn(m', e, sh, t)
    decreases sh
  {
    match t
    case Not(a) => SameStore(m, m', m[e].left, sh.a, a);
    case Bin(_, l, r) => SameStore(m, m', m[e].left, sh.l, l); SameStore(m, m', m[e].right, sh.r, r);
    case _ =>
  }

  function HeldIn(m: Store, s: Slot): Node?
    requires s.n in m
  {
    match s
    case Top(n) => n
    case LeftOf(n) => m[n].left
    case RightOf(n) => m[n].right
  }

  /** Of the two stores' cells for a node, all but the given side are the same. */
  predicate SameBeside(c: Cell, c': Cell, s: Slot) {
    match s
    case Top(_) => c' == c
    case LeftOf(_) => c' == c.(left := c'.left)
    case RightOf(_) => c' == c.(right := c'.right)
  }

  /** Outside of what the slot at `p` holds nothing differs but, possibly, the slot. */
  ghost predicate SameAround(m: Store, m': Store, sh: Shape, p: Path)
    requires InShape(sh, p)
  {
    forall n <- Nodes(sh) :: n in Nodes(ShapeAt(sh, p)) ||
      (n in m && n in m' && if n == SlotAt(sh, p).n then SameBeside(m[n], m'[n], SlotAt(sh, p)) else m'[n] == m[n])
  }

  /** Then the chain holds the expression with that part exchanged. */
  lemma {:induction false} Exchanged(m: Store, m': Store, e: Node?, sh: Shape, o: Op, t: Expr, p: Path, x: Node,
                                     shx: Shape, tx: Expr)
    requires RepIn(m, e, sh, t) && Apart(sh) && OnSpine(o, t, p) && p != [] && InShape(sh, p)
    requires SameAround(m, m', sh, p) && SlotAt(sh, p).n in m'
    requires RepIn(m', x, shx, tx) && HeldIn(m', SlotAt(sh, p)) == x
    ensures RepIn(m', e, PutShape(sh, p, shx), Put(o, t, p, tx))
    decreases p
  {
    var k, other := Kid(sh, p[0]), Kid(sh, !p[0]);
    SlotOutside(sh, p);
    if |p| == 1 {
      assert p[1..] == [] && ShapeAt(sh, p) == k;
      SameStore(m, m', if p[0] then m[e].left else m[e].right, other, Child(t, !p[0]));
    } else {
      SlotOutside(k, p[1..]);
      SameStore(m, m', if p[0] then m[e].left else m[e].right, other, Child(t, !p[0]));
      Exchanged(m, m', if p[0] then m[e].right else m[e].left, k, o, Child(t, p[0]), p[1..], x, shx, tx);
    }
  }

  /** *ep = x. */
  method WriteSlot(s: Slot, x: Node, ghost e: Node, ghost sh: Shape, ghost o: Op, ghost t: Expr, ghost p: Path,
                   ghost shx: Shape, ghost tx: Expr)
    requires Rep(e, sh, t) && Apart(sh) && OnSpine(o, t, p) && p != [] && InShape(sh, p) && s == SlotAt(sh, p)
    requires Rep(x, shx, tx) && Apart(shx) && Nodes(shx) !! Nodes(sh)
    modifies s.n
    ensures Rep(e, PutShape(sh, p, shx), Put(o, t, p, tx))
  {
    ghost var all := Nodes(sh) + Nodes(shx);
    ghost var m := StoreOf(all);
    RepIsRepIn(m, e, sh, t);
    RepIsRepIn(m, x, shx, tx);
    RepAt(e, sh, o, t, p);
    SlotOutside(sh, p);
    SideOfSlot(sh, p);
    assert allocated(all);
    if s.LeftOf? {
      s.n.left := x;
    } else {
      s.n.right := x;
    }
    ghost var m' := StoreOf(all);
    SameStore(m, m', x, shx, tx);
    Exchanged(m, m', e, sh, o, t, p, x, shx, tx);
    PutShapeNodes(sh, p, shx);
    RepIsRepIn(m', e, PutShape(sh, p, shx), Put(o, t, p, tx));
  }

  lemma {:induction false} PutShapeNodes(sh: Shape, p: Path, x: Shape)
    requires InShape(sh, p)
    ensures Nodes(PutShape(sh, p, x)) <= Nodes(sh) + Nodes(x)
    decreases p
  {
    if p != [] { PutShapeNodes(Kid(sh, p[0]), p[1..], x); }
  }

  lemma {:induction false} SideOfSlot(sh: Shape, p: Path)
    requires InShape(sh, p) && p != []
    ensures SlotAt(sh, p) == if p[|p| - 1] then RightOf(SlotAt(sh, p).n) else LeftOf(SlotAt(sh, p).n)
    decreases p
  {
    if |p| > 1 {
      SideOfSlot(Kid(sh, p[0]), p[1..]);
      assert p[1..][|p[1..]| - 1] == p[|p| - 1];
    }
  }
}
