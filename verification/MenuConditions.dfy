/** The conditions that menu_finalize of kconfig/menu.c gives to one entry: what is handed down to it,
    and-ed with its own and simplified. */
module KconfigMenuConditions {
  import opened Common
  import opened KconfigExpr
  import opened KconfigTransform
  import opened KconfigCompare
  import opened KconfigDups
  import opened KconfigDupsNormal
  import opened KconfigDupsDone
  import opened KconfigDupsTwice
  import opened KconfigProperty
  import opened KconfigMenuEntry

  /** The condition an entry hands down: its prompt's, or without a prompt its own. */
  function Passes(prompt: Option<nat>, i: Info): Option<Expr> {
    if prompt.Some? && prompt.value < |i.props| then i.props[prompt.value].visible else i.dep
  }

  /** The condition of an entry's prompt; an entry without a prompt is always visible. */
  function PromptCondition(prompt: Option<nat>, i: Info): Option<Expr> {
    if prompt.Some? && prompt.value < |i.props| then i.props[prompt.value].visible else None
  }

  predicate HasText(prompt: Option<nat>, i: Info) {
    prompt.Some? && prompt.value < |i.props| && i.props[prompt.value].kind == TextProp
  }

  /** `inherited` && `own`, simplified (menu.c:315-317 and 326-328). */
  function Conjoined(inherited: Option<Expr>, own: Option<Expr>): Option<Expr> {
    var both := AllocAnd(inherited, if own.Some? then Some(Transform(own.value)) else None);
    if both.Some? then Some(EliminateDups(both.value)) else None
  }

  function BoolOnly(sym: Option<Symbol>, e: Option<Expr>): Option<Expr> {
    if sym.Some? && !sym.value.HasType(Tristate) && e.Some? then Some(TransBool(e.value)) else e
  }

  /** One property (menu.c:326-331). */
  function NarrowedProp(sym: Option<Symbol>, dep: Option<Expr>, p: Property): Property {
    p.(visible := BoolOnly(sym, Conjoined(dep, p.visible)))
  }

  function NarrowedProps(sym: Option<Symbol>, dep: Option<Expr>, props: seq<Property>): seq<Property> {
    seq(|props|, i requires 0 <= i < |props| => NarrowedProp(sym, dep, props[i]))
  }

  /** What one entry gets: its own condition and-ed with the one passed to it, and each property's with that. */
  function Narrowed(passed: Option<Expr>, sym: Option<Symbol>, before: Info): Info {
    var dep := Conjoined(passed, before.dep);
    Info(dep, NarrowedProps(sym, dep, before.props))
  }

  // ---------------------------------------------------------------- values

  /** The value that is wanted, if it is definite. */
  predicate Agrees(wanted: Tri, got: Tri) { wanted == MOD || got == wanted }

  /** n exactly when n is wanted, if what is wanted is definite. */
  predicate Shows(wanted: Tri, got: Tri) { wanted == MOD || (got == NO <==> wanted == NO) }

  /** expr_trans_bool is applied to the conditions of this entry, and some symbol is at m. */
  ghost predicate Flattened(sym: Option<Symbol>, env: Env) {
    sym.Some? && !sym.value.HasType(Tristate) && !TwoValued(env)
  }

  predicate NormalOpt(e: Option<Expr>) { e.Some? ==> Normal(e.value) }

  /** Wherever the conjunction is definite it is kept. */
  lemma ConjoinedExact(inherited: Option<Expr>, own: Option<Expr>, env: Env)
    requires WellFormed(env)
    ensures Agrees(Min(OptVal(inherited, env), OptVal(own, env)), OptVal(Conjoined(inherited, own), env))
  {
    var transformed := if own.Some? then Some(Transform(own.value)) else None;
    if own.Some? { TransformExact(own.value, env); }
    assert OptVal(own, env) == OptVal(transformed, env);
    var both := AllocAnd(inherited, transformed);
    if both.Some? { EliminateDupsExact(both.value); }
  }

  lemma ConjoinedNormal(inherited: Option<Expr>, own: Option<Expr>)
    requires NormalOpt(inherited)
    ensures NormalOpt(Conjoined(inherited, own))
  {
    var both := AllocAnd(inherited, if own.Some? then Some(Transform(own.value)) else None);
    if both.Some? { EliminateDupsNormal(both.value); }
  }

  /** What comes of it has no operand that another one makes superfluous. */
  lemma ConjoinedIsSimplified(inherited: Option<Expr>, own: Option<Expr>)
    ensures var e := Conjoined(inherited, own); e.Some? ==> Clean(e.value) && Quiet(e.value)
  {
    var both := AllocAnd(inherited, if own.Some? then Some(Transform(own.value)) else None);
    if both.Some? {
      EliminateDupsExact(both.value);
      EliminateDupsQuiet(both.value);
    }
  }

  /** An entry that states again what is handed down to it gets a condition no larger than that. */
  lemma RepeatedCondition(inherited: Expr, own: Expr)
    requires Clean(inherited) && Transform(own) == inherited
    ensures Conjoined(Some(inherited), Some(own)).Some?
    ensures Size(Conjoined(Some(inherited), Some(own)).value) <= Size(inherited)
  {
    TwiceIsOnce(And, inherited);
  }

  lemma {:induction false} TransBoolNormal(e: Expr)
    requires Normal(e)
    ensures Normal(TransBool(e))
  {
    match e
    case Bin(_, l, r) => TransBoolNormal(l); TransBoolNormal(r);
    case _ =>
  }

  /** The conditions of a symbol that is no tristate have no test that a tristate symbol is not n. */
  lemma FlattenedHasNoTests(sym: Symbol, dep: Option<Expr>, p: Property)
    requires !sym.HasType(Tristate)
    ensures var e := NarrowedProp(Some(sym), dep, p).visible; e.Some? ==> NoSetTests(e.value)
  {
    if Conjoined(dep, p.visible).Some? { TransBoolDropsTests(Conjoined(dep, p.visible).value); }
  }

  /** The finished condition of a property has the wanted value wherever that is definite; if it has been
      flattened to two values, it is n exactly when that is wanted. */
  lemma PropExact(sym: Option<Symbol>, dep: Option<Expr>, p: Property, env: Env)
    requires WellFormed(env) && NormalOpt(dep)
    ensures var wanted, got := Min(OptVal(dep, env), OptVal(p.visible, env)),
              OptVal(NarrowedProp(sym, dep, p).visible, env);
      Shows(wanted, got) && (!Flattened(sym, env) ==> Agrees(wanted, got))
  {
    ConjoinedExact(dep, p.visible, env);
    ConjoinedNormal(dep, p.visible);
    var visible := Conjoined(dep, p.visible);
    if visible.Some? {
      TransBoolKeepsVisible(visible.value, env);
      if TwoValued(env) { TransBoolExact(visible.value, env); }
    }
  }

  /** All that an entry gets is in normal form, and so is what it hands down. */
  lemma NarrowedNormal(passed: Option<Expr>, sym: Option<Symbol>, before: Info, prompt: Option<nat>)
    requires NormalOpt(passed)
    ensures NormalOpt(Narrowed(passed, sym, before).dep)
    ensures NormalOpt(Passes(prompt, Narrowed(passed, sym, before)))
  {
    var dep := Conjoined(passed, before.dep);
    ConjoinedNormal(passed, before.dep);
    if prompt.Some? && prompt.value < |before.props| {
      var own := before.props[prompt.value].visible;
      ConjoinedNormal(dep, own);
      if Conjoined(dep, own).Some? { TransBoolNormal(Conjoined(dep, own).value); }
    }
  }

  // ---------------------------------------------------------------- the condition of a definition

  /** Dropping "!= n" drops no symbol but n. */
  lemma {:induction false} TransBoolContains(e: Expr, t: Symbol)
    requires t != No
    ensures Contains(TransBool(e), t) <==> Contains(e, t)
  {
    match e
    case Bin(_, l, r) => TransBoolContains(l, t); TransBoolContains(r, t);
    case Not(a) => TransBoolContains(a, t);
    case _ =>
  }

  /** A property without a condition of its own ends up with its entry's. */
  lemma PlainPropContains(passed: Option<Expr>, own: Option<Expr>, sym: Option<Symbol>, p: Property, t: Symbol)
    requires p.visible == None && t != No
    ensures var dep := Conjoined(passed, own);
      ContainsOpt(NarrowedProp(sym, dep, p).visible, t) <==> ContainsOpt(dep, t)
  {
    var both := AllocAnd(passed, if own.Some? then Some(Transform(own.value)) else None);
    if both.Some? {
      EliminateDupsIdempotent(both.value);
      TransBoolContains(EliminateDups(both.value), t);
    }
  }

  /** So whatever symbol the finished condition of an entry mentions, but n, a property of its symbol
      mentions too: the one that stands for the definition. */
  lemma DefinitionMentions(passed: Option<Expr>, sym: Symbol, before: Info, t: Symbol)
    requires Definition(sym) in before.props && t != No
    requires ContainsOpt(Narrowed(passed, Some(sym), before).dep, t)
    ensures exists p <- Narrowed(passed, Some(sym), before).props :: p.kind == SymbolProp && ContainsOpt(p.visible, t)
  {
    var after := Narrowed(passed, Some(sym), before);
    var i :| 0 <= i < |before.props| && before.props[i] == Definition(sym);
    PlainPropContains(passed, before.dep, Some(sym), before.props[i], t);
    assert after.props[i] in after.props;
  }

  /** An entry as read has a prompt with a text exactly if one of its lines gives a text, and keeps it. */
  lemma HasTextExactlyWhen(passed: Option<Expr>, sym: Option<Symbol>, lines: seq<Line>, modules: Symbol)
    ensures HasText(PromptOf(sym, lines, modules), Narrowed(passed, sym, Written(sym, lines, modules))) <==>
              exists i :: 0 <= i < |lines| && lines[i].HasProp? && lines[i].kind == TextProp
  {
    TextIsRead(sym, lines, modules);
    NarrowedText(PromptOf(sym, lines, modules), passed, sym, Written(sym, lines, modules));
  }

  lemma NarrowedText(prompt: Option<nat>, passed: Option<Expr>, sym: Option<Symbol>, before: Info)
    ensures HasText(prompt, Narrowed(passed, sym, before)) == HasText(prompt, before)
  {
  }

  lemma TextIsRead(sym: Option<Symbol>, lines: seq<Line>, modules: Symbol)
    ensures HasText(PromptOf(sym, lines, modules), Written(sym, lines, modules)) <==>
              exists i :: 0 <= i < |lines| && lines[i].HasProp? && lines[i].kind == TextProp
  {
    if exists i :: 0 <= i < |lines| && lines[i].HasProp? && lines[i].kind == TextProp {
      var i := LastText(lines);
      PromptInWords(sym, lines, modules, i);
      PropsInWords(sym, lines, modules, Env((t: Symbol) => NO, (t: Symbol) => "", false));
    } else {
      NoPromptInWords(sym, lines, modules);
    }
  }

  lemma {:induction false} LastText(lines: seq<Line>) returns (i: nat)
    requires exists i :: 0 <= i < |lines| && lines[i].HasProp? && lines[i].kind == TextProp
    ensures i < |lines| && lines[i].HasProp? && lines[i].kind == TextProp
    ensures forall j :: i < j < |lines| ==> !(lines[j].HasProp? && lines[j].kind == TextProp)
  {
    var n := |lines| - 1;
    if lines[n].HasProp? && lines[n].kind == TextProp { i := n; } else { i := LastText(lines[..n]); }
  }
}
