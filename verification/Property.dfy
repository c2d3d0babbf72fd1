/** The properties of symbols and menu entries (struct property of kconfig/expr.h). */
module KconfigProperty {
  import opened Common
  import opened KconfigExpr

  /** P_PROMPT, P_MENU and P_COMMENT; P_SYMBOL, which every definition of a symbol has; P_DEFAULT; P_SELECT;
      and the others. */
  datatype PropKind = TextProp | SymbolProp | DefaultProp | SelectProp | OtherProp

  /** The value is a default's, or the symbol that is selected. A property with a text is a prompt. */
  datatype Property = Property(kind: PropKind, visible: Option<Expr>, value: Option<Expr>)
}
