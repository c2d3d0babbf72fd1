/** What a menu entry is made of: the lines of its block, as the parser hands them to menu_add_entry,
    menu_add_dep and menu_add_prop of kconfig/menu.c. */
module KconfigMenuEntry {
  import opened Common
  import opened KconfigExpr
  import opened KconfigProperty
  import opened KconfigMenuDeps

  /** `depends on cond`, or a property with its `if` condition; a prompt also gets the `visible if`
      conditions of the menus above. */
  datatype Line =
    | DependsOn(cond: Expr)
    | HasProp(kind: PropKind, given: Option<Expr>, value: Option<Expr>, above: seq<Expr>)

  /** What menu_finalize changes of an entry. */
  datatype Info = Info(dep: Option<Expr>, props: seq<Property>)

  function CheckOpt(e: Option<Expr>, modules: Symbol): Option<Expr> {
    if e.Some? then Some(CheckDep(e.value, modules)) else None
  }

  function AndAll(e: Option<Expr>, above: seq<Expr>): Option<Expr> {
    if above == [] then e else AllocAnd(AndAll(e, above[..|above| - 1]), Some(above[|above| - 1]))
  }

  /** The entry's own condition. */
  function DepOf(lines: seq<Line>, modules: Symbol): Option<Expr> {
    if lines == [] then None
    else
      var dep, last := DepOf(lines[..|lines| - 1], modules), lines[|lines| - 1];
      if last.DependsOn? then AllocAnd(dep, Some(CheckDep(last.cond, modules))) else dep
  }

  function PropOf(line: Line, modules: Symbol): Property
    requires line.HasProp?
  {
    Property(line.kind, AndAll(CheckOpt(line.given, modules), line.above), line.value)
  }

  /** The property by which a symbol knows its definitions. */
  function Definition(sym: Symbol): Property { Property(SymbolProp, None, Some(Var(sym))) }

  function PropsOf(sym: Option<Symbol>, lines: seq<Line>, modules: Symbol): seq<Property> {
    if lines == [] then if sym.Some? then [Definition(sym.value)] else []
    else
      var props, last := PropsOf(sym, lines[..|lines| - 1], modules), lines[|lines| - 1];
      if last.HasProp? then props + [PropOf(last, modules)] else props
  }

  /** Which of the properties is the prompt: the last one with a text. */
  function PromptOf(sym: Option<Symbol>, lines: seq<Line>, modules: Symbol): Option<nat> {
    if lines == [] then None
    else
      var before, last := lines[..|lines| - 1], lines[|lines| - 1];
      if last.HasProp? && last.kind == TextProp then Some(|PropsOf(sym, before, modules)|)
      else PromptOf(sym, before, modules)
  }

  function Written(sym: Option<Symbol>, lines: seq<Line>, modules: Symbol): Info {
    Info(DepOf(lines, modules), PropsOf(sym, lines, modules))
  }

  lemma {:induction false} HasDefinition(sym: Symbol, lines: seq<Line>, modules: Symbol)
    ensures Definition(sym) in PropsOf(Some(sym), lines, modules)
  {
    if lines != [] { HasDefinition(sym, lines[..|lines| - 1], modules); }
  }

  // ---------------------------------------------------------------- what the conditions mean

  /** The value of a condition that stands in the block, where m is short for m && MODULES. */
  function Read(e: Option<Expr>, modules: Symbol, env: Env): Tri {
    if e.Some? then ValReading(e.value, env, Min(MOD, TriOf(modules, env))) else YES
  }

  lemma CheckedReads(e: Option<Expr>, modules: Symbol, env: Env)
    ensures OptVal(CheckOpt(e, modules), env) == Read(e, modules, env)
  {
    if e.Some? { CheckDepExact(e.value, modules, env); }
  }

  /** The entry's condition has the least value of those of its `depends on` lines, y without any. */
  lemma {:induction false} DepInWords(lines: seq<Line>, modules: Symbol, env: Env)
    ensures forall x <- lines :: x.DependsOn? ==> OptVal(DepOf(lines, modules), env) <= Read(Some(x.cond), modules, env)
    ensures OptVal(DepOf(lines, modules), env) == YES || exists x <- lines ::
      x.DependsOn? && OptVal(DepOf(lines, modules), env) == Read(Some(x.cond), modules, env)
  {
    if lines != [] {
      var before, last := lines[..|lines| - 1], lines[|lines| - 1];
      DepInWords(before, modules, env);
      if last.DependsOn? { CheckedReads(Some(last.cond), modules, env); }
      assert lines == before + [last];
    }
  }

  /** `t` is the least of `own` and the values of the conditions of the menus above. */
  ghost predicate IsLeast(t: Tri, own: Tri, above: seq<Expr>, env: Env) {
    t <= own && (forall v <- above :: t <= Val(v, env)) && (t == own || exists v <- above :: t == Val(v, env))
  }

  lemma {:induction false} AboveInWords(e: Option<Expr>, above: seq<Expr>, env: Env)
    ensures IsLeast(OptVal(AndAll(e, above), env), OptVal(e, env), above, env)
  {
    if above != [] {
      var before, last := above[..|above| - 1], above[|above| - 1];
      AboveInWords(e, before, env);
      assert above == before + [last];
      if v :| v in before && OptVal(AndAll(e, before), env) == Val(v, env) { assert v in above; }
      assert last in above;
    }
  }

  /** The property is what the line says: its condition has the least value of the line's own `if` and of those of
      the menus above. */
  ghost predicate Says(line: Line, p: Property, modules: Symbol, env: Env)
    requires line.HasProp?
  {
    && p.kind == line.kind && p.value == line.value
    && IsLeast(OptVal(p.visible, env), Read(line.given, modules, env), line.above, env)
  }

  lemma PropInWords(line: Line, modules: Symbol, env: Env)
    requires line.HasProp?
    ensures Says(line, PropOf(line, modules), modules, env)
  {
    CheckedReads(line.given, modules, env);
    AboveInWords(CheckOpt(line.given, modules), line.above, env);
  }

  /** How many of the first `n` lines are properties. */
  function PropLines(lines: seq<Line>, n: nat): nat
    requires n <= |lines|
  {
    if n == 0 then 0 else PropLines(lines, n - 1) + if lines[n - 1].HasProp? then 1 else 0
  }

  lemma {:induction false} PropLinesOfPart(lines: seq<Line>, m: nat, n: nat)
    requires n <= m <= |lines|
    ensures PropLines(lines[..m], n) == PropLines(lines, n)
  {
    if n > 0 { PropLinesOfPart(lines, m, n - 1); }
  }

  function Definitions(sym: Option<Symbol>): nat { if sym.Some? then 1 else 0 }

  /** An entry has the property that stands for its definition, if it has a symbol, and one for each property line,
      in their order. */
  lemma {:induction false} PropsInWords(sym: Option<Symbol>, lines: seq<Line>, modules: Symbol, env: Env)
    ensures |PropsOf(sym, lines, modules)| == Definitions(sym) + PropLines(lines, |lines|)
    ensures sym.Some? ==> PropsOf(sym, lines, modules)[0] == Definition(sym.value)
    ensures forall i :: 0 <= i < |lines| && lines[i].HasProp? ==>
              var j := Definitions(sym) + PropLines(lines, i);
              j < |PropsOf(sym, lines, modules)| && Says(lines[i], PropsOf(sym, lines, modules)[j], modules, env)
  {
    if lines != [] {
      var n := |lines| - 1;
      PropsInWords(sym, lines[..n], modules, env);
      PropLinesOfPart(lines, n, n);
      forall i | 0 <= i < n ensures PropLines(lines[..n], i) == PropLines(lines, i) { PropLinesOfPart(lines, n, i); }
      if lines[n].HasProp? { PropInWords(lines[n], modules, env); }
    }
  }

  /** Its prompt is the property of the last line with a text. */
  lemma {:induction false} PromptInWords(sym: Option<Symbol>, lines: seq<Line>, modules: Symbol, i: nat)
    requires i < |lines| && lines[i].HasProp? && lines[i].kind == TextProp
    requires forall j :: i < j < |lines| ==> !(lines[j].HasProp? && lines[j].kind == TextProp)
    ensures PromptOf(sym, lines, modules) == Some(Definitions(sym) + PropLines(lines, i))
  {
    var n := |lines| - 1;
    PropLinesOfPart(lines, n, i);
    if i < n {
      PromptInWords(sym, lines[..n], modules, i);
    } else {
      var env := Env((t: Symbol) => NO, (t: Symbol) => "", false);
      PropsInWords(sym, lines[..n], modules, env);
    }
  }

  lemma {:induction false} NoPromptInWords(sym: Option<Symbol>, lines: seq<Line>, modules: Symbol)
    requires forall j :: 0 <= j < |lines| ==> !(lines[j].HasProp? && lines[j].kind == TextProp)
    ensures PromptOf(sym, lines, modules) == None
  {
    if lines != [] { NoPromptInWords(sym, lines[..|lines| - 1], modules); }
  }

  // ---------------------------------------------------------------- all conditions have been checked for m

  predicate IsChecked(e: Option<Expr>, modules: Symbol) { e.Some? ==> Checked(e.value, modules) }

  /** The conditions that are not looked through for m, those of menus above, do not have it. */
  predicate NoBareModAbove(lines: seq<Line>, modules: Symbol) {
    forall i :: 0 <= i < |lines| && lines[i].HasProp? ==> forall v <- lines[i].above :: Checked(v, modules)
  }

  predicate InfoChecked(i: Info, modules: Symbol) {
    IsChecked(i.dep, modules) && forall p <- i.props :: IsChecked(p.visible, modules)
  }

  lemma {:induction false} DepIsChecked(lines: seq<Line>, modules: Symbol)
    ensures IsChecked(DepOf(lines, modules), modules)
  {
    if lines != [] {
      DepIsChecked(lines[..|lines| - 1], modules);
      var last := lines[|lines| - 1];
      if last.DependsOn? { CheckDepIsChecked(last.cond, modules); }
    }
  }

  lemma {:induction false} AndAllChecked(e: Option<Expr>, above: seq<Expr>, modules: Symbol)
    requires IsChecked(e, modules) && forall v <- above :: Checked(v, modules)
    ensures IsChecked(AndAll(e, above), modules)
  {
    if above != [] {
      AndAllChecked(e, above[..|above| - 1], modules);
      assert above[|above| - 1] in above;
    }
  }

  lemma {:induction false} PropsAreChecked(sym: Option<Symbol>, lines: seq<Line>, modules: Symbol)
    requires NoBareModAbove(lines, modules)
    ensures forall p <- PropsOf(sym, lines, modules) :: IsChecked(p.visible, modules)
  {
    if lines != [] {
      var before, last := lines[..|lines| - 1], lines[|lines| - 1];
      PropsAreChecked(sym, before, modules);
      if last.HasProp? {
        if last.given.Some? { CheckDepIsChecked(last.given.value, modules); }
        AndAllChecked(CheckOpt(last.given, modules), last.above, modules);
      }
    }
  }

  /** Every condition of an entry as the parser leaves it has m only as m && MODULES, apart from what
      `visible if` adds. */
  lemma WrittenIsChecked(sym: Option<Symbol>, lines: seq<Line>, modules: Symbol)
    requires NoBareModAbove(lines, modules)
    ensures InfoChecked(Written(sym, lines, modules), modules)
  {
    DepIsChecked(lines, modules);
    PropsAreChecked(sym, lines, modules);
  }
}
