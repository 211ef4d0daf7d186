/** The JavaScript number behaviour the calculator relies on, kept abstract:
    the engine only passes numbers between these operations and never looks
    inside them. */
module Numerics {
  import opened Text

  datatype Option<+T> = None | Some(value: T)

  /** The four operators `compute` switches on. */
  datatype Arith = Add | Subtract | Multiply | Divide

  /** The operator a button symbol selects: the `case` labels of `compute`'s
      switch. Every other symbol falls to its `default` branch. */
  function ArithOf(symbol: string): (r: Option<Arith>)
    ensures r.Some? <==> symbol == "+" || symbol == "-" || symbol == "x" || symbol == "/"
    ensures r == Some(Add) <==> symbol == "+"
    ensures r == Some(Subtract) <==> symbol == "-"
    ensures r == Some(Multiply) <==> symbol == "x"
    ensures r == Some(Divide) <==> symbol == "/"
  {
    match symbol
    case "+" => Some(Add)
    case "-" => Some(Subtract)
    case "x" => Some(Multiply)
    case "/" => Some(Divide)
    case _ => None
  }

  /** A number semantics over values of type V:
      - parse: `parseFloat`, None where it yields NaN;
      - isZero: `=== 0`;
      - apply: the arithmetic `+ - * /`;
      - hundred: the literal 100 that `handlePercent` divides by;
      - show: `Number.prototype.toString`;
      - group: `toLocaleString('en', { maximumFractionDigits: 0 })`. */
  datatype Numeric<!V> = Numeric(
    parse: string -> Option<V>,
    isZero: V -> bool,
    apply: (Arith, V, V) -> V,
    hundred: V,
    show: V -> string,
    group: V -> string)

  /** What holds of JavaScript's `toString` on numbers and what the
      invariants below need: it never yields the empty text and never more
      than one decimal point. */
  ghost predicate WellBehaved<V(!new)>(num: Numeric<V>)
  {
    forall v :: num.show(v) != "" && Count(num.show(v), '.') <= 1
  }
}
