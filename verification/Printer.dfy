/** Printing an expression (expr_print of kconfig/expr.c) and reading it back with the expression
    grammar of kconfig/zconf.y. */
module KconfigPrinter {
  import opened Common
  import opened KconfigExpr

  datatype Token = Word(name: string) | TEqual | TUnequal | TNot | TAnd | TOr | TOpen | TClose

  // ---------------------------------------------------------------- symbols and names

  function NameOf(s: Symbol): string {
    match s
    case Yes => "y"
    case Mod => "m"
    case No => "n"
    case Const(text) => text
    case Sym(name, _) => name
  }

  /** sym_lookup(name, 0) with the types declared so far; an unknown name becomes a new symbol. */
  function Lookup(types: map<string, SymType>, name: string): Symbol {
    if name == "y" then Yes else if name == "m" then Mod else if name == "n" then No
    else Sym(name, if name in types then types[name] else Unknown)
  }

  function Relookup(types: map<string, SymType>, e: Expr): Expr {
    match e
    case Var(s) => Var(Lookup(types, NameOf(s)))
    case Comp(q, a, b) => Comp(q, Lookup(types, NameOf(a)), Lookup(types, NameOf(b)))
    case Not(a) => Not(Relookup(types, a))
    case Bin(o, l, r) => Bin(o, Relookup(types, l), Relookup(types, r))
  }

  // ---------------------------------------------------------------- expr_print

  datatype ExprType = E_NONE | E_OR | E_AND | E_NOT | E_EQUAL | E_UNEQUAL | E_SYMBOL

  function TypeOf(e: Expr): ExprType {
    match e
    case Var(_) => E_SYMBOL
    case Comp(q, _, _) => if q then E_EQUAL else E_UNEQUAL
    case Not(_) => E_NOT
    case Bin(o, _, _) => TypeOfOp(o)
  }

  function TypeOfOp(o: Op): ExprType { if o == Or then E_OR else E_AND }

  /** expr_compare_type: 1 when an expression of the second type needs parentheses below the first. */
  function CompareType(t1: ExprType, t2: ExprType): int {
    if t1 == t2 then 0
    else match t1
      case E_EQUAL => if t2 in {E_NOT, E_AND, E_OR, E_NONE} then 1 else -1
      case E_UNEQUAL => if t2 in {E_NOT, E_AND, E_OR, E_NONE} then 1 else -1
      case E_NOT => if t2 in {E_AND, E_OR, E_NONE} then 1 else -1
      case E_AND => if t2 in {E_OR, E_NONE} then 1 else -1
      case E_OR => if t2 == E_NONE then 1 else -1
      case _ => -1
  }

  function OpToken(o: Op): Token { if o == Or then TOr else TAnd }

  function Print(e: Expr, prev: ExprType): seq<Token>
    decreases e, 1
  {
    if CompareType(prev, TypeOf(e)) > 0 then [TOpen] + Bare(e) + [TClose] else Bare(e)
  }

  function Bare(e: Expr): seq<Token>
    decreases e, 0
  {
    match e
    case Var(s) => [Word(NameOf(s))]
    case Comp(q, a, b) => [Word(NameOf(a)), if q then TEqual else TUnequal, Word(NameOf(b))]
    case Not(a) => [TNot] + Print(a, E_NOT)
    case Bin(o, l, r) => Print(l, TypeOfOp(o)) + [OpToken(o)] + Print(r, TypeOfOp(o))
  }

  /** A null expression prints as y. */
  function PrintOpt(e: Option<Expr>): seq<Token> {
    if e.None? then [Word("y")] else Print(e.value, E_NONE)
  }

  /** How many opening parentheses there are. */
  function Opening(ts: seq<Token>): nat {
    if ts == [] then 0 else (if ts[0] == TOpen then 1 else 0) + Opening(ts[1..])
  }

  /** Where the grammar needs parentheses: around an || below an &&, and around a chain below a negation. */
  function Needed(e: Expr): nat {
    match e
    case Var(_) => 0
    case Comp(_, _, _) => 0
    case Not(a) => Needed(a) + if a.Bin? then 1 else 0
    case Bin(o, l, r) =>
      Needed(l) + Needed(r) + (if o == And && l.Is(Or) then 1 else 0) + if o == And && r.Is(Or) then 1 else 0
  }

  lemma {:induction false} OpeningInBoth(a: seq<Token>, b: seq<Token>)
    ensures Opening(a + b) == Opening(a) + Opening(b)
  {
    if a == [] {
      assert a + b == b;
    } else {
      assert (a + b)[1..] == a[1..] + b;
      OpeningInBoth(a[1..], b);
    }
  }

  lemma {:induction false} NoneOpening(ts: seq<Token>)
    requires TOpen !in ts
    ensures Opening(ts) == 0
  {
    if ts != [] { NoneOpening(ts[1..]); }
  }

  lemma {:induction false} ParenthesesOf(e: Expr, prev: ExprType)
    ensures Opening(Print(e, prev)) == Needed(e) + if CompareType(prev, TypeOf(e)) > 0 then 1 else 0
    decreases e, 1
  {
    BareParentheses(e);
    OpeningInBoth([TOpen], Bare(e));
    OpeningInBoth([TOpen] + Bare(e), [TClose]);
  }

  lemma {:induction false} BareParentheses(e: Expr)
    ensures Opening(Bare(e)) == Needed(e)
    decreases e, 0
  {
    match e
    case Not(a) =>
      ParenthesesOf(a, E_NOT);
      OpeningInBoth([TNot], Print(a, E_NOT));
    case Bin(_, _, _) => ChainParentheses(e);
    case _ => NoneOpening(Bare(e));
  }

  lemma {:induction false} ChainParentheses(e: Expr)
    requires e.Bin?
    ensures Opening(Bare(e)) == Needed(e)
    decreases e, 0, 0
  {
    var t := TypeOfOp(e.op);
    ParenthesesOf(e.left, t);
    ParenthesesOf(e.right, t);
    OpeningInChain(Print(e.left, t), e.op, Print(e.right, t));
  }

  lemma OpeningInChain(a: seq<Token>, o: Op, b: seq<Token>)
    ensures Opening(a + [OpToken(o)] + b) == Opening(a) + Opening(b)
  {
    OpeningInBoth(a + [OpToken(o)], b);
    OpeningInBoth(a, [OpToken(o)]);
  }

  /** Printing puts parentheses there and nowhere else. */
  lemma ParenthesesWhereNeeded(e: Expr)
    ensures Opening(PrintOpt(Some(e))) == Needed(e)
  {
    ParenthesesOf(e, E_NONE);
  }

  // ---------------------------------------------------------------- the grammar

  datatype Parsed = Fail | Done(e: Expr, rest: seq<Token>)

  /** `!` binds tightest; a comparison stands between two symbols only. */
  function ParseNot(types: map<string, SymType>, ts: seq<Token>): (p: Parsed)
    ensures p.Done? ==> |p.rest| < |ts|
    decreases |ts|, 0
  {
    if ts == [] then Fail
    else match ts[0]
      case TNot =>
        (match ParseNot(types, ts[1..])
         case Done(a, rest) => Done(Not(a), rest)
         case Fail => Fail)
      case TOpen =>
        (match ParseChain(types, Or, ts[1..])
         case Done(a, rest) => if rest != [] && rest[0] == TClose then Done(a, rest[1..]) else Fail
         case Fail => Fail)
      case Word(a) =>
        if |ts| >= 3 && (ts[1] == TEqual || ts[1] == TUnequal) && ts[2].Word? then
          Done(Comp(ts[1] == TEqual, Lookup(types, a), Lookup(types, ts[2].name)), ts[3..])
        else if |ts| >= 2 && (ts[1] == TEqual || ts[1] == TUnequal) then Fail
        else Done(Var(Lookup(types, a)), ts[1..])
      case _ => Fail
  }

  /** An operand of a chain: || chains are made of && chains, && chains of negations. */
  function ParseOperand(types: map<string, SymType>, o: Op, ts: seq<Token>): (p: Parsed)
    ensures p.Done? ==> |p.rest| < |ts|
    decreases |ts|, if o == Or then 3 else 1
  {
    if o == Or then ParseChain(types, And, ts) else ParseNot(types, ts)
  }

  function ParseChain(types: map<string, SymType>, o: Op, ts: seq<Token>): (p: Parsed)
    ensures p.Done? ==> |p.rest| < |ts|
    decreases |ts|, if o == Or then 4 else 2
  {
    match ParseOperand(types, o, ts)
    case Done(a, rest) => ParseRest(types, o, a, rest)
    case Fail => Fail
  }

  /** Both connectives are left-associative. */
  function ParseRest(types: map<string, SymType>, o: Op, acc: Expr, ts: seq<Token>): (p: Parsed)
    ensures p.Done? ==> |p.rest| <= |ts|
    decreases |ts|, 0
  {
    if ts == [] || ts[0] != OpToken(o) then Done(acc, ts)
    else match ParseOperand(types, o, ts[1..])
      case Done(b, rest) => ParseRest(types, o, Bin(o, acc, b), rest)
      case Fail => Fail
  }

  function Parse(types: map<string, SymType>, ts: seq<Token>): Option<Expr> {
    match ParseChain(types, Or, ts)
    case Done(e, rest) => if rest == [] then Some(e) else None
    case Fail => None
  }

  // ---------------------------------------------------------------- left re-association

  /** Chains regrouped to the left, at every level. */
  function LeftAssoc(e: Expr): Expr
    decreases e, 0
  {
    match e
    case Not(a) => Not(LeftAssoc(a))
    case Bin(o, l, r) => Attach(o, LeftAssoc(l), r)
    case _ => e
  }

  function Attach(o: Op, acc: Expr, e: Expr): Expr
    decreases e, 1
  {
    if e.Is(o) then Attach(o, Attach(o, acc, e.left), e.right) else Bin(o, acc, LeftAssoc(e))
  }

  lemma {:induction false} LeftAssocExact(e: Expr, env: Env)
    ensures Val(LeftAssoc(e), env) == Val(e, env)
    decreases e, 0
  {
    match e
    case Not(a) => LeftAssocExact(a, env);
    case Bin(o, l, r) => LeftAssocExact(l, env); AttachExact(o, LeftAssoc(l), r, env);
    case _ =>
  }

  lemma {:induction false} AttachExact(o: Op, acc: Expr, e: Expr, env: Env)
    ensures Val(Attach(o, acc, e), env) == o.Apply(Val(acc, env), Val(e, env))
    decreases e, 1
  {
    if e.Is(o) {
      AttachExact(o, acc, e.left, env);
      AttachExact(o, Attach(o, acc, e.left), e.right, env);
    } else {
      LeftAssocExact(e, env);
    }
  }

  // ---------------------------------------------------------------- the round trip

  /** What may follow an operand of a chain of `o`. */
  predicate Ends(o: Op, ts: seq<Token>) {
    ts == [] || ts[0] == TClose || ts[0] == TOr || (o == And && ts[0] == TAnd)
  }

  function ReadBack(types: map<string, SymType>, e: Expr): Expr { LeftAssoc(Relookup(types, e)) }

  // The lemmas follow the parser's functions; at one expression they are used in the order of the ranks.

  lemma ReadLeaf(types: map<string, SymType>, e: Expr, rest: seq<Token>)
    requires (e.Var? || e.Comp?) && Ends(And, rest)
    ensures ParseNot(types, Bare(e) + rest) == Done(Relookup(types, e), rest)
  {
    var ts := Bare(e) + rest;
    if e.Var? { assert ts[1..] == rest; } else { assert ts[3..] == rest; }
  }

  lemma ReadNegation(types: map<string, SymType>, inner: seq<Token>, a: Expr, rest: seq<Token>)
    requires ParseNot(types, inner + rest) == Done(a, rest)
    ensures ParseNot(types, [TNot] + inner + rest) == Done(Not(a), rest)
  {
    assert ([TNot] + inner + rest)[1..] == inner + rest;
  }

  lemma ReadParens(types: map<string, SymType>, inner: seq<Token>, a: Expr, rest: seq<Token>)
    requires ParseChain(types, Or, inner + ([TClose] + rest)) == Done(a, [TClose] + rest)
    ensures ParseNot(types, [TOpen] + inner + [TClose] + rest) == Done(a, rest)
  {
    assert ([TOpen] + inner + [TClose] + rest)[1..] == inner + ([TClose] + rest);
    assert ([TClose] + rest)[1..] == rest;
  }

  lemma {:induction false} ReadNot(types: map<string, SymType>, e: Expr, rest: seq<Token>)
    requires Ends(And, rest)
    ensures ParseNot(types, Print(e, E_NOT) + rest) == Done(ReadBack(types, e), rest)
    decreases e, if e.Bin? then 7 else 0
  {
    match e
    case Var(_) => ReadLeaf(types, e, rest);
    case Comp(_, _, _) => ReadLeaf(types, e, rest);
    case Not(a) =>
      ReadNot(types, a, rest);
      ReadNegation(types, Print(a, E_NOT), ReadBack(types, a), rest);
    case Bin(_, _, _) =>
      ReadBare(types, e, [TClose] + rest);
      ReadParens(types, Bare(e), ReadBack(types, e), rest);
  }

  lemma {:induction false} ReadBare(types: map<string, SymType>, e: Expr, rest: seq<Token>)
    requires rest == [] || rest[0] == TClose
    ensures ParseChain(types, Or, Bare(e) + rest) == Done(ReadBack(types, e), rest)
    decreases e, 5
  {
    ReadFirst(types, Or, e, rest);
  }

  /** An operand that is not itself a chain of the same connective. */
  lemma {:induction false} ReadOperand(types: map<string, SymType>, o: Op, e: Expr, rest: seq<Token>)
    requires !e.Is(o) && Ends(o, rest)
    ensures ParseOperand(types, o, Print(e, TypeOfOp(o)) + rest) == Done(ReadBack(types, e), rest)
    decreases e, if o == Or then 3 else if e.Bin? then 8 else 1
  {
    if o == Or {
      assert Print(e, E_OR) == Bare(e) == Print(e, E_AND);
      ReadFirst(types, And, e, rest);
    } else {
      assert Print(e, E_AND) == Print(e, E_NOT);
      ReadNot(types, e, rest);
    }
  }

  /** The rest of a chain, regrouped to the left. */
  lemma {:induction false} ReadRest(types: map<string, SymType>, o: Op, acc: Expr, e: Expr, rest: seq<Token>)
    requires Ends(o, rest)
    ensures ParseRest(types, o, acc, [OpToken(o)] + Print(e, TypeOfOp(o)) + rest) ==
              ParseRest(types, o, Attach(o, acc, Relookup(types, e)), rest)
    decreases e, 9
  {
    var ts := [OpToken(o)] + Print(e, TypeOfOp(o)) + rest;
    if e.Is(o) {
      var right := [OpToken(o)] + Print(e.right, TypeOfOp(o)) + rest;
      assert ts == [OpToken(o)] + Print(e.left, TypeOfOp(o)) + right;
      ReadRest(types, o, acc, e.left, right);
      ReadRest(types, o, Attach(o, acc, Relookup(types, e.left)), e.right, rest);
    } else {
      ReadOperand(types, o, e, rest);
      assert ts[1..] == Print(e, TypeOfOp(o)) + rest;
    }
  }

  lemma {:induction false} ReadFirst(types: map<string, SymType>, o: Op, e: Expr, rest: seq<Token>)
    requires Ends(o, rest)
    ensures ParseChain(types, o, Print(e, TypeOfOp(o)) + rest) == ParseRest(types, o, ReadBack(types, e), rest)
    decreases e, if o == Or then 4 else if e.Is(Or) then 9 else 2
  {
    if e.Is(o) {
      var right := [OpToken(o)] + Print(e.right, TypeOfOp(o)) + rest;
      assert Print(e, TypeOfOp(o)) + rest == Print(e.left, TypeOfOp(o)) + right;
      ReadFirst(types, o, e.left, right);
      ReadRest(types, o, ReadBack(types, e.left), e.right, rest);
    } else {
      ReadOperand(types, o, e, rest);
    }
  }

  /** Reading back what was printed gives the expression regrouped to the left, with every symbol
      looked up by its name. */
  lemma PrintThenParse(types: map<string, SymType>, e: Expr)
    ensures Parse(types, Print(e, E_NONE)) == Some(LeftAssoc(Relookup(types, e)))
  {
    assert Print(e, E_NONE) == Bare(e) == Bare(e) + [];
    ReadBare(types, e, []);
  }

  /** A symbol that its own name leads back to: not a quoted constant, and declared with its type. */
  predicate Refers(types: map<string, SymType>, s: Symbol) { Lookup(types, NameOf(s)) == s }

  predicate AllRefer(types: map<string, SymType>, e: Expr) {
    match e
    case Var(s) => Refers(types, s)
    case Comp(_, a, b) => Refers(types, a) && Refers(types, b)
    case Not(a) => AllRefer(types, a)
    case Bin(_, l, r) => AllRefer(types, l) && AllRefer(types, r)
  }

  lemma {:induction false} RelookupIdentity(types: map<string, SymType>, e: Expr)
    ensures Relookup(types, e) == e <==> AllRefer(types, e)
  {
    match e
    case Not(a) => RelookupIdentity(types, a);
    case Bin(_, l, r) => RelookupIdentity(types, l); RelookupIdentity(types, r);
    case _ =>
  }

  /** The round trip keeps the value; the absent expression comes back as y. */
  lemma PrintThenParseKeepsValue(types: map<string, SymType>, e: Option<Expr>, env: Env)
    requires e.Some? ==> AllRefer(types, e.value)
    ensures var r := Parse(types, PrintOpt(e));
      r.Some? && Val(r.value, env) == OptVal(e, env) && (e.Some? ==> r.value == LeftAssoc(e.value))
  {
    if e.Some? {
      PrintThenParse(types, e.value);
      RelookupIdentity(types, e.value);
      LeftAssocExact(e.value, env);
    } else {
      assert PrintOpt(e) == Print(Var(Yes), E_NONE);
      PrintThenParse(types, Var(Yes));
    }
  }

  /** Without nested chains to regroup, the expression itself comes back. */
  predicate LeftNested(e: Expr) {
    match e
    case Not(a) => LeftNested(a)
    case Bin(o, l, r) => LeftNested(l) && LeftNested(r) && !r.Is(o)
    case _ => true
  }

  lemma {:induction false} LeftAssocIdentity(e: Expr)
    ensures LeftAssoc(e) == e <==> LeftNested(e)
    ensures LeftNested(LeftAssoc(e))
    decreases e, 0
  {
    match e
    case Not(a) => LeftAssocIdentity(a);
    case Bin(o, l, r) =>
      LeftAssocIdentity(l);
      LeftAssocIdentity(r);
      AttachLeftNested(o, LeftAssoc(l), r);
    case _ =>
  }

  lemma {:induction false} AttachLeftNested(o: Op, acc: Expr, e: Expr)
    requires LeftNested(acc)
    ensures LeftNested(Attach(o, acc, e))
    decreases e, 1
  {
    if e.Is(o) {
      AttachLeftNested(o, acc, e.left);
      AttachLeftNested(o, Attach(o, acc, e.left), e.right);
    } else {
      LeftAssocIdentity(e);
      LeftAssocKeepsTop(e);
    }
  }

  lemma {:induction false} LeftAssocKeepsTop(e: Expr)
    ensures TypeOf(LeftAssoc(e)) == TypeOf(e)
  {
    if e.Bin? { AttachIsChain(e.op, LeftAssoc(e.left), e.right); }
  }

  lemma {:induction false} AttachIsChain(o: Op, acc: Expr, e: Expr)
    ensures Attach(o, acc, e).Is(o)
    decreases e
  {
    if e.Is(o) { AttachIsChain(o, Attach(o, acc, e.left), e.right); }
  }
}
