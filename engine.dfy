/** The calculator's state machine as values: the four fields of the
    `Calculator` object and one transition function per operation. The
    class in module CalculatorObject is proved to follow these functions. */
module Engine {
  import opened Text
  import opened Numerics

  /** The fields `currentOperand`, `previousOperand`, `operation` (None for
      `undefined`) and `shouldResetDisplay`. */
  datatype State = State(current: string, previous: string, operation: Option<string>, shouldReset: bool)

  /** The state the constructor creates. */
  const Initial := State("0", "", None, false)

  /** `clear`: back to the initial operands; the reset flag is left alone. */
  function Clear(s: State): (r: State)
    ensures r == Initial.(shouldReset := s.shouldReset)
  {
    s.(current := "0", previous := "", operation := None)
  }

  /** `delete`: drop the last character of the current operand; an operand
      that becomes empty reads "0" again. */
  function Delete(s: State): (r: State)
    ensures r.current != ""
    ensures r.(current := s.current) == s
    ensures s.current == "0" ==> r == s
    ensures s.current != "0" && |s.current| >= 2 ==> r.current + [s.current[|s.current| - 1]] == s.current
    ensures s.current != "0" && |s.current| < 2 ==> r.current == "0"
  {
    if s.current == "0" then s
    else
      var shorter := DropLast(s.current);
      s.(current := if shorter == "" then "0" else shorter)
  }

  /** The tokens the number buttons send: a digit, "00" or ".". */
  predicate IsEntryToken(t: string)
  {
    t in ["0", "1", "2", "3", "4", "5", "6", "7", "8", "9", "00", "."]
  }

  /** The text `appendNumber` edits: empty when a reset is pending. */
  function EntryText(s: State): string
  {
    if s.shouldReset then "" else s.current
  }

  /** `appendNumber`: start afresh if a reset is pending, refuse a second
      decimal point, let a token other than "." replace a lone "0", and
      otherwise append the token verbatim. */
  function AppendNumber(s: State, number: string): (r: State)
    ensures !r.shouldReset
    ensures r.previous == s.previous && r.operation == s.operation
    ensures number == "." && '.' in EntryText(s) ==> r.current == EntryText(s)
    ensures EntryText(s) == "0" && number != "." ==> r.current == number
    ensures !(number == "." && '.' in EntryText(s)) && !(EntryText(s) == "0" && number != ".")
            ==> r.current == EntryText(s) + number
  {
    var entry := EntryText(s);
    if number == "." && '.' in entry then s.(current := entry, shouldReset := false)
    else if entry == "0" && number != "." then s.(current := number, shouldReset := false)
    else s.(current := entry + number, shouldReset := false)
  }

  /** The operator a pending `operation` selects, if any. */
  function Pending(s: State): Option<Arith>
  {
    match s.operation
    case None => None
    case Some(symbol) => ArithOf(symbol)
  }

  /** What `compute` does with a state. */
  datatype Outcome<V> = Unchanged | DivisionByZero | Result(value: V)

  /** The parse guard and the `switch` of `compute`. */
  function Evaluate<V>(num: Numeric<V>, s: State): (o: Outcome<V>)
    ensures o.Unchanged? <==>
      num.parse(s.previous).None? || num.parse(s.current).None? || Pending(s).None?
    ensures o.DivisionByZero? <==>
      !o.Unchanged? && Pending(s) == Some(Divide) && num.isZero(num.parse(s.current).value)
    ensures o.Result? ==>
      o.value == num.apply(Pending(s).value, num.parse(s.previous).value, num.parse(s.current).value)
  {
    var prev := num.parse(s.previous);
    var current := num.parse(s.current);
    if prev.None? || current.None? then Unchanged
    else
      match Pending(s)
      case None => Unchanged
      case Some(Divide) =>
        if num.isZero(current.value) then DivisionByZero
        else Result(num.apply(Divide, prev.value, current.value))
      case Some(op) => Result(num.apply(op, prev.value, current.value))
  }

  /** Whether `compute` raises the "Cannot divide by zero!" alert. */
  predicate DividesByZero<V>(num: Numeric<V>, s: State)
  {
    Evaluate(num, s).DivisionByZero?
  }

  /** `compute`: no change on an unparsable operand or an unknown operator;
      a zero divisor clears; otherwise the result's text becomes the current
      operand, nothing is pending and the next entry starts afresh. */
  function Compute<V>(num: Numeric<V>, s: State): (r: State)
    ensures num.parse(s.previous).None? || num.parse(s.current).None? ==> r == s
    ensures Pending(s).None? ==> r == s
    ensures DividesByZero(num, s) ==> r == Initial.(shouldReset := s.shouldReset)
    ensures Evaluate(num, s).Result? ==>
      r == State(num.show(Evaluate(num, s).value), "", None, true)
  {
    match Evaluate(num, s)
    case Unchanged => s
    case DivisionByZero => Clear(s)
    case Result(v) => s.(current := num.show(v), operation := None, previous := "", shouldReset := true)
  }

  /** `chooseOperation`: ignored while the current operand is empty; a
      pending operation is computed first; then the current operand moves to
      the previous one and `symbol` becomes the pending operation. */
  function ChooseOperation<V>(num: Numeric<V>, s: State, symbol: string): (r: State)
    ensures s.current == "" ==> r == s
    ensures s.current != "" ==> r.operation == Some(symbol) && r.current == ""
    ensures s.current != "" && s.previous == "" ==>
      r.previous == s.current && r.shouldReset == s.shouldReset
    ensures s.current != "" && s.previous != "" ==>
      r.previous == Compute(num, s).current && r.shouldReset == Compute(num, s).shouldReset
  {
    if s.current == "" then s
    else
      var folded := if s.previous != "" then Compute(num, s) else s;
      folded.(operation := Some(symbol), previous := folded.current, current := "")
  }

  /** `handlePercent`: the current operand divided by 100, when it parses. */
  function HandlePercent<V>(num: Numeric<V>, s: State): (r: State)
    ensures r.(current := s.current) == s
    ensures num.parse(s.current).None? ==> r == s
    ensures num.parse(s.current).Some? ==>
      r.current == num.show(num.apply(Divide, num.parse(s.current).value, num.hundred))
  {
    match num.parse(s.current)
    case None => s
    case Some(v) => s.(current := num.show(num.apply(Divide, v, num.hundred)))
  }

  /** One button press, as the event listeners dispatch it. */
  datatype Command =
    | Number(token: string)
    | Operator(symbol: string)
    | Percent
    | Equals
    | AllClear
    | Backspace

  function Step<V>(num: Numeric<V>, s: State, c: Command): State
  {
    match c
    case Number(token) => AppendNumber(s, token)
    case Operator(symbol) => ChooseOperation(num, s, symbol)
    case Percent => HandlePercent(num, s)
    case Equals => Compute(num, s)
    case AllClear => Clear(s)
    case Backspace => Delete(s)
  }

  /** The state after a sequence of button presses. */
  function Run<V>(num: Numeric<V>, s: State, cs: seq<Command>): State
    decreases |cs|
  {
    if cs == [] then s else Run(num, Step(num, s, cs[0]), cs[1..])
  }
}
