/**
 * The arithmetic of the calculator: class ArithmeticUnit and Calculator.binaryEval.
 * Values are exact reals. Division and exponentiation are IEEE operations in the source
 * (Math.pow, division by zero giving an infinity or NaN); here they are functions the
 * caller supplies, so nothing below depends on what they compute.
 */
module Arithmetic {
  import opened Tokens

  datatype ArithmeticUnit = ArithmeticUnit(divide: (real, real) -> real, exponentiate: (real, real) -> real)
  {
    function Add(addend1: real, addend2: real): real { addend1 + addend2 }
    function Subtract(minuend: real, subtrahend: real): real { minuend - subtrahend }
    function Multiply(multiplicand: real, multiplier: real): real { multiplicand * multiplier }
    function Divide(dividend: real, divisor: real): real { divide(dividend, divisor) }
    function Exponentiate(base: real, exponent: real): real { exponentiate(base, exponent) }
  }

  /** The five primitive operator symbols. */
  const Primitives: set<string> := {"+", "-", "*", "/", "**"}

  /** The primitive a basic symbol names. */
  function Apply(au: ArithmeticUnit, symbol: string, x: real, y: real): real
    requires symbol in Primitives
  {
    if symbol == "+" then au.Add(x, y)
    else if symbol == "-" then au.Subtract(x, y)
    else if symbol == "*" then au.Multiply(x, y)
    else if symbol == "/" then au.Divide(x, y)
    else au.Exponentiate(x, y)
  }

  /** Calculator.binaryEval: the switch over the operator's symbol; a symbol with no case
      leaves the initial answer 0. */
  function BinaryEval(au: ArithmeticUnit, operator: Operator, oper1: real, oper2: real): real
  {
    match operator.symbol
    case "+" => au.Add(oper1, oper2)
    case "-" => au.Subtract(oper1, oper2)
    case "*" => au.Multiply(oper1, oper2)
    case "/" => au.Divide(oper1, oper2)
    case "**" => au.Exponentiate(oper1, oper2)
    case "+-" => au.Add(oper1, -1.0 * oper2)
    case "--" => au.Subtract(oper1, -1.0 * oper2)
    case "*-" => au.Multiply(oper1, -1.0 * oper2)
    case "/-" => au.Divide(oper1, -1.0 * oper2)
    case "**-" => au.Exponentiate(oper1, -1.0 * oper2)
    case _ => 0.0
  }

  /** A basic symbol applies its primitive; the composite `X-` applies the primitive of X
      to the negated right operand; every other symbol yields 0. */
  lemma BinaryEvalMeaning(au: ArithmeticUnit, operator: Operator, x: real, y: real)
    ensures operator.symbol in Primitives ==>
      BinaryEval(au, operator, x, y) == Apply(au, operator.symbol, x, y)
    ensures forall b :: b in Primitives && operator.symbol == b + "-" ==>
      BinaryEval(au, operator, x, y) == Apply(au, b, x, -y)
    ensures operator.symbol !in Primitives && (forall b :: b in Primitives ==> operator.symbol != b + "-") ==>
      BinaryEval(au, operator, x, y) == 0.0
  {
    assert "+" + "-" == "+-" && "-" + "-" == "--" && "*" + "-" == "*-";
    assert "/" + "-" == "/-" && "**" + "-" == "**-";
  }

  /** Every symbol of the table other than the grouping symbol has a case of its own. */
  lemma TableSymbolsAreEvaluated(op: Operator)
    requires op in SupportedOperators && op.symbol != Grouping
    ensures op.symbol in Primitives || exists b :: b in Primitives && op.symbol == b + "-"
  {
    assert "+" + "-" == "+-" && "-" + "-" == "--" && "*" + "-" == "*-";
    assert "/" + "-" == "/-" && "**" + "-" == "**-";
  }
}
