/** expr.h: the properties of the symbols of a configuration, and which symbols
    the properties mention. There are no choices. */
module Symbols {
  import opened Kconfig

  /** struct property. Prompts are the properties with a text: prompts, menus and
      comments. Other stands for those without that neither the evaluator nor the
      dependency check looks into: where a symbol is defined, and environment
      variables. A missing visibility means always visible. */
  datatype Property = Prompt(visible: Option<Expr>)
                    | Default(visible: Option<Expr>, e: Expr)
                    | Range(visible: Option<Expr>, lo: Symbol, hi: Symbol)
                    | Select(visible: Option<Expr>, target: Symbol)
                    | Other(visible: Option<Expr>)

  /** What the configuration says of one symbol: its properties in order, its
      direct dependencies, and what selects it. */
  datatype Definition = Definition(props: seq<Property>, dirDep: Option<Expr>, revDep: Option<Expr>)

  type Config = map<Symbol, Definition>

  function Def(c: Config, s: Symbol): Definition {
    if s in c then c[s] else Definition([], None, None)
  }

  /** The symbols of an expression, left to right. */
  function Syms(e: Expr): seq<Symbol> {
    match e
    case Sym(s) => [s]
    case Equal(l, r) => [l, r]
    case Unequal(l, r) => [l, r]
    case Not(a) => Syms(a)
    case Bin(_, a, b) => Syms(a) + Syms(b)
  }

  function OptSyms(e: Option<Expr>): seq<Symbol> {
    if e.None? then [] else Syms(e.value)
  }
}
