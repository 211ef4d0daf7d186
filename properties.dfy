/** What the calculator's operations promise together: idempotence of
    clear, delete as the inverse of a one-character entry, the single
    decimal point, an invariant every button press keeps, and the
    chaining and divide-by-zero behaviour. */
module Properties {
  import opened Text
  import opened Numerics
  import opened Engine
  import Display

  lemma ClearIdempotent(s: State)
    ensures Clear(Clear(s)) == Clear(s)
    ensures Clear(s) == Initial.(shouldReset := s.shouldReset)
  {
  }

  /** `delete` pressed `k` times. */
  function DeleteTimes(s: State, k: nat): State
    decreases k
  {
    if k == 0 then s else DeleteTimes(Delete(s), k - 1)
  }

  /** Pressing delete at least as often as the operand is long (and at
      least once) always ends at "0", and touches nothing else. */
  lemma {:induction false} DeleteRepeatedlySettlesAtZero(s: State, k: nat)
    requires 0 < k && |s.current| <= k
    ensures DeleteTimes(s, k) == s.(current := "0")
    decreases k
  {
    var t := Delete(s);
    if k > 1 {
      DeleteRepeatedlySettlesAtZero(t, k - 1);
    }
  }

  /** Delete undoes the entry of one character onto a non-empty operand
      that is being edited (no reset pending, not the lone "0"). */
  lemma DeleteUndoesAppend(s: State, number: string)
    requires |number| == 1 && number != "."
    requires !s.shouldReset && s.current != "" && s.current != "0"
    ensures Delete(AppendNumber(s, number)) == s
  {
  }

  /** The double-zero button on a lone "0" yields "00": the replace rule
      does not rule out every leading zero. */
  lemma DoubleZeroKeepsLeadingZero(s: State)
    requires s.current == "0" && !s.shouldReset
    ensures AppendNumber(s, "00").current == "00"
    ensures AppendNumber(AppendNumber(s, "00"), "5").current == "005"
  {
  }

  /** Entry never creates a second decimal point. */
  lemma AppendNumberKeepsOnePoint(s: State, number: string)
    requires IsEntryToken(number)
    requires Count(s.current, '.') <= 1
    ensures Count(AppendNumber(s, number).current, '.') <= 1
  {
    var entry := EntryText(s);
    assert Count(entry, '.') <= 1;
    if !(number == "." && '.' in entry) && !(entry == "0" && number != ".") {
      CountConcat(entry, number, '.');
      assert number == "." ==> Count(entry, '.') == 0;
    }
  }

  /** Text never gains a decimal point by losing its last character. */
  lemma DropLastCount(t: string)
    ensures Count(DropLast(t), '.') <= Count(t, '.')
  {
    if t != [] {
      CountConcat(DropLast(t), [t[|t| - 1]], '.');
    }
  }

  /** The invariant of every reachable state: each operand has at most one
      decimal point, an operand is pending exactly when an operation is, and
      the current operand is empty only right after an operator was chosen. */
  predicate Consistent(s: State)
  {
    && Count(s.current, '.') <= 1
    && Count(s.previous, '.') <= 1
    && (s.previous == "" <==> s.operation.None?)
    && (s.current == "" ==> s.operation.Some?)
  }

  lemma InitialConsistent()
    ensures Consistent(Initial)
  {
  }

  /** `compute` leaves a current operand that is non-empty with at most one point. */
  lemma ComputeKeepsOperand<V(!new)>(num: Numeric<V>, s: State)
    requires WellBehaved(num)
    requires Consistent(s)
    ensures Consistent(Compute(num, s))
  {
  }

  /** Every button press keeps the invariant, given number buttons send entry tokens. */
  lemma StepKeepsConsistent<V(!new)>(num: Numeric<V>, s: State, c: Command)
    requires WellBehaved(num)
    requires Consistent(s)
    requires c.Number? ==> IsEntryToken(c.token)
    ensures Consistent(Step(num, s, c))
  {
    match c
    case Number(token) =>
      AppendNumberKeepsOnePoint(s, token);
    case Operator(symbol) =>
      if s.current != "" && s.previous != "" {
        ComputeKeepsOperand(num, s);
      }
    case Percent =>
      if num.parse(s.current).Some? {
        var w := num.apply(Divide, num.parse(s.current).value, num.hundred);
        assert num.show(w) != "" && Count(num.show(w), '.') <= 1;
      }
    case Equals =>
      ComputeKeepsOperand(num, s);
    case AllClear =>
    case Backspace =>
      DropLastCount(s.current);
  }

  /** Any sequence of button presses from a consistent state keeps it consistent. */
  lemma {:induction false} RunKeepsConsistent<V(!new)>(num: Numeric<V>, s: State, cs: seq<Command>)
    requires WellBehaved(num)
    requires Consistent(s)
    requires forall k :: 0 <= k < |cs| && cs[k].Number? ==> IsEntryToken(cs[k].token)
    ensures Consistent(Run(num, s, cs))
    decreases |cs|
  {
    if cs != [] {
      StepKeepsConsistent(num, s, cs[0]);
      RunKeepsConsistent(num, Step(num, s, cs[0]), cs[1..]);
    }
  }

  /** A second operator folds the pending one first:
      2 + 3 + 4 = shows ((2 + 3) + 4). */
  lemma ChainingFoldsPendingOperation<V>(num: Numeric<V>, two: V, three: V, four: V)
    requires num.parse("2") == Some(two) && num.parse("3") == Some(three) && num.parse("4") == Some(four)
    requires num.parse(num.show(num.apply(Add, two, three))) == Some(num.apply(Add, two, three))
    ensures Run(num, Initial, [Number("2"), Operator("+"), Number("3"), Operator("+"), Number("4"), Equals])
      == State(num.show(num.apply(Add, num.apply(Add, two, three), four)), "", None, true)
  {
    var five := num.apply(Add, two, three);
    var s1 := Step(num, Initial, Number("2"));
    assert s1 == State("2", "", None, false);
    var s2 := Step(num, s1, Operator("+"));
    assert s2 == State("", "2", Some("+"), false);
    var s3 := Step(num, s2, Number("3"));
    assert s3 == State("3", "2", Some("+"), false);
    var s4 := Step(num, s3, Operator("+"));
    assert Evaluate(num, s3) == Result(five);
    assert s4 == State("", num.show(five), Some("+"), true);
    var s5 := Step(num, s4, Number("4"));
    assert s5 == State("4", num.show(five), Some("+"), false);
    var cs := [Number("2"), Operator("+"), Number("3"), Operator("+"), Number("4"), Equals];
    assert Run(num, Initial, cs) == Run(num, s1, cs[1..]);
    assert Run(num, s1, cs[1..]) == Run(num, s2, cs[2..]);
    assert Run(num, s2, cs[2..]) == Run(num, s3, cs[3..]);
    assert Run(num, s3, cs[3..]) == Run(num, s4, cs[4..]);
    assert Run(num, s4, cs[4..]) == Run(num, s5, cs[5..]);
  }

  /** 8 / 0 = raises the alert and ends in the freshly constructed state. */
  lemma DivideByZeroResets<V>(num: Numeric<V>, eight: V, zero: V)
    requires num.parse("8") == Some(eight) && num.parse("0") == Some(zero) && num.isZero(zero)
    ensures var pending := Run(num, Initial, [Number("8"), Operator("/"), Number("0")]);
      && DividesByZero(num, pending)
      && Compute(num, pending) == Initial
  {
    var s1 := Step(num, Initial, Number("8"));
    var s2 := Step(num, s1, Operator("/"));
    var s3 := Step(num, s2, Number("0"));
    assert s3 == State("0", "8", Some("/"), false);
    var cs := [Number("8"), Operator("/"), Number("0")];
    assert Run(num, Initial, cs) == Run(num, s1, cs[1..]);
    assert Run(num, s1, cs[1..]) == Run(num, s2, cs[2..]);
    assert Run(num, s2, cs[2..]) == Run(num, s3, cs[3..]);
  }

  /** In a consistent state the display shows an operand with a point as its
      grouped integer part, the point, and all the digits typed after it. */
  lemma DisplayKeepsFraction<V>(num: Numeric<V>, s: State)
    requires Consistent(s)
    requires '.' in s.current
    ensures var i := FirstIndex(s.current, '.');
      Display.FormatDisplayNumber(num, s.current)
        == Display.IntegerDisplay(num, s.current[..i]) + "." + s.current[i + 1..]
  {
    Display.FormatSinglePoint(num, s.current);
  }
}
