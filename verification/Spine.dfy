/** Slots of an && / || chain. The source passes operand slots as `struct expr **`; here a slot is a
    path from the chain's root, so that two slots may alias and writing one is seen through the
    other. */
module KconfigSpine {
  import opened KconfigExpr
  import opened KconfigTransform

  /** A path of left (false) and right (true) turns. */
  type Path = seq<bool>

  function Child(e: Expr, d: bool): Expr
    requires e.Bin?
  {
    if d then e.right else e.left
  }

  /** Every node on the way to `p` is a node of the chain of `o` rooted at `e`. */
  predicate OnSpine(o: Op, e: Expr, p: Path) {
    p == [] || (e.Is(o) && OnSpine(o, Child(e, p[0]), p[1..]))
  }

  function At(o: Op, e: Expr, p: Path): (r: Expr)
    requires OnSpine(o, e, p)
    ensures if p == [] then r == e else Size(r) < Size(e)
  {
    if p == [] then e else At(o, Child(e, p[0]), p[1..])
  }

  function Put(o: Op, e: Expr, p: Path, x: Expr): Expr
    requires OnSpine(o, e, p)
  {
    if p == [] then x
    else if p[0] then Bin(o, e.left, Put(o, e.right, p[1..], x))
    else Bin(o, Put(o, e.left, p[1..], x), e.right)
  }

  /** `p` addresses an operand of the chain. */
  predicate Leaf(o: Op, e: Expr, p: Path) {
    OnSpine(o, e, p) && !At(o, e, p).Is(o)
  }

  /** The chain nodes of `a` and `b` are laid out alike; only operands may differ. */
  predicate SameSpine(o: Op, a: Expr, b: Expr) {
    a.Is(o) == b.Is(o) && (a.Is(o) ==> SameSpine(o, a.left, b.left) && SameSpine(o, a.right, b.right))
  }

  /** The number of chain nodes. */
  function Links(o: Op, e: Expr): nat {
    if e.Is(o) then 1 + Links(o, e.left) + Links(o, e.right) else 0
  }

  lemma {:induction false} SameSpineRefl(o: Op, a: Expr)
    ensures SameSpine(o, a, a)
  {
    if a.Is(o) { SameSpineRefl(o, a.left); SameSpineRefl(o, a.right); }
  }

  lemma {:induction false} SameSpineTrans(o: Op, a: Expr, b: Expr, c: Expr)
    requires SameSpine(o, a, b) && SameSpine(o, b, c)
    ensures SameSpine(o, a, c)
  {
    if a.Is(o) { SameSpineTrans(o, a.left, b.left, c.left); SameSpineTrans(o, a.right, b.right, c.right); }
  }

  lemma {:induction false} SameSpineLinks(o: Op, a: Expr, b: Expr)
    requires SameSpine(o, a, b)
    ensures Links(o, a) == Links(o, b)
  {
    if a.Is(o) { SameSpineLinks(o, a.left, b.left); SameSpineLinks(o, a.right, b.right); }
  }

  lemma {:induction false} SameSpineAt(o: Op, a: Expr, b: Expr, p: Path)
    requires SameSpine(o, a, b) && OnSpine(o, a, p)
    ensures OnSpine(o, b, p) && At(o, a, p).Is(o) == At(o, b, p).Is(o)
    ensures Links(o, At(o, a, p)) == Links(o, At(o, b, p))
  {
    if p == [] { SameSpineLinks(o, a, b); } else { SameSpineAt(o, Child(a, p[0]), Child(b, p[0]), p[1..]); }
  }

  lemma {:induction false} Descend(o: Op, e: Expr, p: Path, d: bool)
    requires OnSpine(o, e, p) && At(o, e, p).Is(o)
    ensures OnSpine(o, e, p + [d]) && At(o, e, p + [d]) == Child(At(o, e, p), d)
  {
    if p == [] { assert [d][1..] == []; } else {
      Descend(o, Child(e, p[0]), p[1..], d);
      assert (p + [d])[1..] == p[1..] + [d];
    }
  }

  /** Two different operands are on different branches. */
  lemma {:induction false} LeavesDiverge(o: Op, e: Expr, p: Path, q: Path)
    requires Leaf(o, e, p) && OnSpine(o, e, q) && p <= q
    ensures p == q
  {
    if p != [] { LeavesDiverge(o, Child(e, p[0]), p[1..], q[1..]); }
  }

  lemma {:induction false} PutKeepsSpine(o: Op, e: Expr, p: Path, x: Expr)
    requires Leaf(o, e, p) && !x.Is(o)
    ensures SameSpine(o, e, Put(o, e, p, x))
    ensures Leaf(o, Put(o, e, p, x), p) && At(o, Put(o, e, p, x), p) == x
    ensures Size(Put(o, e, p, x)) == Size(e) - Size(At(o, e, p)) + Size(x)
  {
    if p != [] {
      PutKeepsSpine(o, Child(e, p[0]), p[1..], x);
      SameSpineRefl(o, Child(e, !p[0]));
    }
  }

  lemma {:induction false} PutElsewhere(o: Op, e: Expr, p: Path, x: Expr, q: Path)
    requires Leaf(o, e, p) && Leaf(o, e, q) && p != q
    ensures Leaf(o, Put(o, e, p, x), q) && At(o, Put(o, e, p, x), q) == At(o, e, q)
  {
    if p == [] { LeavesDiverge(o, e, p, q); }
    else if q == [] { LeavesDiverge(o, e, q, p); }
    else if p[0] == q[0] { PutElsewhere(o, Child(e, p[0]), p[1..], x, q[1..]); }
  }

  lemma {:induction false} HasConstantAt(o: Op, e: Expr, p: Path)
    requires OnSpine(o, e, p) && p != [] && At(o, e, p) in {Var(Yes), Var(No)}
    ensures HasConstantOperand(e)
  {
    if |p| > 1 { HasConstantAt(o, Child(e, p[0]), p[1..]); } else { assert p[1..] == []; }
  }

  // ---------------------------------------------------------------- values

  lemma {:induction false} PutSame(o: Op, e: Expr, p: Path, x: Expr, env: Env)
    requires OnSpine(o, e, p) && Val(x, env) == Val(At(o, e, p), env)
    ensures Val(Put(o, e, p, x), env) == Val(e, env)
  {
    if p != [] { PutSame(o, Child(e, p[0]), p[1..], x, env); }
  }

  lemma {:induction false} PutSharper(o: Op, e: Expr, p: Path, x: Expr, env: Env)
    requires OnSpine(o, e, p) && (Val(At(o, e, p), env) != MOD ==> Val(x, env) == Val(At(o, e, p), env))
    ensures Val(e, env) != MOD ==> Val(Put(o, e, p, x), env) == Val(e, env)
  {
    if p != [] { PutSharper(o, Child(e, p[0]), p[1..], x, env); }
  }

  /** A chain already contains the contribution of each of its parts. */
  lemma {:induction false} SpineAbsorbs(o: Op, e: Expr, p: Path, env: Env)
    requires OnSpine(o, e, p)
    ensures o.Apply(Val(e, env), Val(At(o, e, p), env)) == Val(e, env)
  {
    if p != [] { SpineAbsorbs(o, Child(e, p[0]), p[1..], env); }
  }

  lemma {:induction false} PutZero(o: Op, e: Expr, p: Path, env: Env)
    requires OnSpine(o, e, p)
    ensures Val(Put(o, e, p, o.Zero()), env) == Val(o.Zero(), env)
  {
    if p != [] { PutZero(o, Child(e, p[0]), p[1..], env); }
  }

  /** Exchanging one part exchanges its contribution. */
  lemma {:induction false} PutExchange(o: Op, e: Expr, p: Path, x: Expr, env: Env)
    requires OnSpine(o, e, p)
    ensures o.Apply(Val(Put(o, e, p, x), env), Val(At(o, e, p), env)) == o.Apply(Val(e, env), Val(x, env))
  {
    if p != [] {
      var c := Child(e, p[0]);
      PutExchange(o, c, p[1..], x, env);
      ExchangeBeside(o, Val(Put(o, c, p[1..], x), env), Val(At(o, e, p), env), Val(c, env), Val(x, env),
        Val(Child(e, !p[0]), env));
    }
  }

  lemma ExchangeBeside(o: Op, replaced: Tri, part: Tri, whole: Tri, x: Tri, sibling: Tri)
    requires o.Apply(replaced, part) == o.Apply(whole, x)
    ensures o.Apply(o.Apply(replaced, sibling), part) == o.Apply(o.Apply(whole, sibling), x)
    ensures o.Apply(o.Apply(sibling, replaced), part) == o.Apply(o.Apply(sibling, whole), x)
  {
  }

  lemma MergeAcross(o: Op, c1: Tri, c2: Tri, d1: Tri, d2: Tri, v1: Tri, v2: Tri, x: Tri)
    requires o.Apply(d1, v1) == c1 && o.Apply(d2, v2) == o.Apply(c2, x)
    requires o.Apply(c2, v2) == c2 && o.Apply(d2, x) == d2 && x == o.Apply(v1, v2)
    ensures o.Apply(d1, d2) == o.Apply(c1, c2) && o.Apply(d2, d1) == o.Apply(c2, c1)
  {
  }

  /** Merging operand `p1` into operand `p2` keeps the value of the chain. */
  lemma {:induction false} PutMerged(o: Op, e: Expr, p1: Path, p2: Path, x: Expr, env: Env)
    requires Leaf(o, e, p1) && Leaf(o, e, p2) && p1 != p2
    requires Val(x, env) == o.Apply(Val(At(o, e, p1), env), Val(At(o, e, p2), env))
    ensures Leaf(o, Put(o, e, p1, o.Unit()), p2)
    ensures Val(Put(o, Put(o, e, p1, o.Unit()), p2, x), env) == Val(e, env)
  {
    PutElsewhere(o, e, p1, o.Unit(), p2);
    if p1 == [] { LeavesDiverge(o, e, p1, p2); }
    else if p2 == [] { LeavesDiverge(o, e, p2, p1); }
    else if p1[0] == p2[0] { PutMerged(o, Child(e, p1[0]), p1[1..], p2[1..], x, env); }
    else {
      var c1, c2 := Child(e, p1[0]), Child(e, p2[0]);
      PutExchange(o, c1, p1[1..], o.Unit(), env);
      PutExchange(o, c2, p2[1..], x, env);
      SpineAbsorbs(o, c2, p2[1..], env);
      PutContains(o, c2, p2[1..], x, env);
      MergeAcross(o, Val(c1, env), Val(c2, env), Val(Put(o, c1, p1[1..], o.Unit()), env),
        Val(Put(o, c2, p2[1..], x), env),
                  Val(At(o, e, p1), env), Val(At(o, e, p2), env), Val(x, env));
    }
  }

  lemma {:induction false} PutContains(o: Op, e: Expr, p: Path, x: Expr, env: Env)
    requires OnSpine(o, e, p)
    ensures o.Apply(Val(Put(o, e, p, x), env), Val(x, env)) == Val(Put(o, e, p, x), env)
  {
    if p != [] { PutContains(o, Child(e, p[0]), p[1..], x, env); }
  }
}
