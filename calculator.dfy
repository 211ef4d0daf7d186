/** The `Calculator` object: four fields updated in place, one method per
    operation. Each method is proved to move the fields exactly as the
    matching transition of module Engine says. */
module CalculatorObject {
  import opened Numerics
  import Engine

  class Calculator<!V> {
    /** The number semantics the operations use (JavaScript's, in the source). */
    const num: Numeric<V>

    var currentOperand: string
    var previousOperand: string
    var operation: Option<string>
    var shouldResetDisplay: bool

    /** The fields as an Engine state. */
    function View(): Engine.State
      reads this
    {
      Engine.State(currentOperand, previousOperand, operation, shouldResetDisplay)
    }

    constructor(num: Numeric<V>)
      ensures this.num == num
      ensures View() == Engine.Initial
    {
      this.num := num;
      currentOperand := "0";
      previousOperand := "";
      operation := None;
      shouldResetDisplay := false;
    }

    method Clear()
      modifies this
      ensures View() == Engine.Clear(old(View()))
      ensures currentOperand == "0" && previousOperand == "" && operation == None
      ensures shouldResetDisplay == old(shouldResetDisplay)
    {
      currentOperand := "0";
      previousOperand := "";
      operation := None;
    }

    method Delete()
      modifies this
      ensures View() == Engine.Delete(old(View()))
    {
      if currentOperand == "0" {
        return;
      }
      if currentOperand != "" {
        currentOperand := currentOperand[..|currentOperand| - 1];
      }
      if currentOperand == "" {
        currentOperand := "0";
      }
    }

    method AppendNumber(number: string)
      modifies this
      ensures View() == Engine.AppendNumber(old(View()), number)
    {
      if shouldResetDisplay {
        currentOperand := "";
        shouldResetDisplay := false;
      }
      if number == "." && '.' in currentOperand {
        return;
      }
      if currentOperand == "0" && number != "." {
        currentOperand := number;
      } else {
        currentOperand := currentOperand + number;
      }
    }

    /** Returns whether the pending computation raised the divide-by-zero alert. */
    method ChooseOperation(symbol: string) returns (alerted: bool)
      modifies this
      ensures View() == Engine.ChooseOperation(num, old(View()), symbol)
      ensures alerted <==>
        old(currentOperand) != "" && old(previousOperand) != "" && Engine.DividesByZero(num, old(View()))
    {
      alerted := false;
      if currentOperand == "" {
        return;
      }
      if previousOperand != "" {
        alerted := Compute();
      }
      operation := Some(symbol);
      previousOperand := currentOperand;
      currentOperand := "";
    }

    method HandlePercent()
      modifies this
      ensures View() == Engine.HandlePercent(num, old(View()))
    {
      var current := num.parse(currentOperand);
      if current.None? {
        return;
      }
      currentOperand := num.show(num.apply(Divide, current.value, num.hundred));
    }

    /** Returns whether the "Cannot divide by zero!" alert was raised. */
    method Compute() returns (alerted: bool)
      modifies this
      ensures View() == Engine.Compute(num, old(View()))
      ensures alerted == Engine.DividesByZero(num, old(View()))
    {
      alerted := false;
      var prev := num.parse(previousOperand);
      var current := num.parse(currentOperand);
      if prev.None? || current.None? {
        return;
      }
      var symbol := if operation.Some? then ArithOf(operation.value) else None;
      var computation: V;
      match symbol {
        case Some(Add) =>
          computation := num.apply(Add, prev.value, current.value);
        case Some(Subtract) =>
          computation := num.apply(Subtract, prev.value, current.value);
        case Some(Multiply) =>
          computation := num.apply(Multiply, prev.value, current.value);
        case Some(Divide) =>
          if num.isZero(current.value) {
            alerted := true;
            Clear();
            return;
          }
          computation := num.apply(Divide, prev.value, current.value);
        case None =>
          return;
      }
      currentOperand := num.show(computation);
      operation := None;
      previousOperand := "";
      shouldResetDisplay := true;
    }
  }
}
