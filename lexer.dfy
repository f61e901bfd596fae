/**
 * The lexer (class Lexer in Tester.java): a cursor over the expression string that
 * emits one token at a time. The functions say what each step consumes; the class
 * performs the step with the source's while loops and is proved to agree with them.
 */
module Lexing {
  import opened Tokens

  /** Character.isDigit, restricted to the ASCII digits. */
  predicate IsDigit(c: char)
  {
    '0' <= c <= '9'
  }

  /** A character getOperator keeps consuming: neither a digit nor an opening parenthesis. */
  predicate IsOperatorChar(c: char)
  {
    !IsDigit(c) && c != '('
  }

  /** The end of the maximal run of digits that starts at i. */
  function DigitRunEnd(s: string, i: nat): (j: nat)
    requires i <= |s|
    ensures i <= j <= |s|
    ensures forall k :: i <= k < j ==> IsDigit(s[k])
    ensures j == |s| || !IsDigit(s[j])
    decreases |s| - i
  {
    if i < |s| && IsDigit(s[i]) then DigitRunEnd(s, i + 1) else i
  }

  /** The end of the maximal run of operator characters that starts at i. */
  function OperatorRunEnd(s: string, i: nat): (j: nat)
    requires i <= |s|
    ensures i <= j <= |s|
    ensures forall k :: i <= k < j ==> IsOperatorChar(s[k])
    ensures j == |s| || !IsOperatorChar(s[j])
    decreases |s| - i
  {
    if i < |s| && IsOperatorChar(s[i]) then OperatorRunEnd(s, i + 1) else i
  }

  /** The index of the first ')' at or after i, or |s| when there is none. */
  function CloseIndex(s: string, i: nat): (j: nat)
    requires i <= |s|
    ensures i <= j <= |s|
    ensures forall k :: i <= k < j ==> s[k] != ')'
    ensures j == |s| || s[j] == ')'
    decreases |s| - i
  {
    if i < |s| && s[i] != ')' then CloseIndex(s, i + 1) else i
  }

  function DigitValue(c: char): nat
  {
    if IsDigit(c) then (c as int - '0' as int) as nat else 0
  }

  /** The value of a decimal numeral, most significant digit first (Double.parseDouble
      of a run of digits, without rounding). */
  function DecimalValue(ds: string): nat
  {
    if ds == [] then 0 else 10 * DecimalValue(ds[..|ds| - 1]) + DigitValue(ds[|ds| - 1])
  }

  /** One step of the lexer from position i: the token nextToken returns and the position it
      leaves behind. An unterminated sub-expression runs to the end of the string and leaves
      the position one past the end, because `charAt(position++)` increments before it throws. */
  function Scan(s: string, i: nat): (r: (Token, nat))
    requires i < |s|
    ensures i < r.1 <= |s| + 1
    ensures r.1 == |s| + 1 <==> s[i] == '(' && CloseIndex(s, i) == |s|
    ensures IsDigit(s[i]) <==> r.0.Num?
    ensures r.0.Num? ==> r.1 == DigitRunEnd(s, i) && r.0.value == DecimalValue(s[i..r.1]) as real
    ensures r.0.Op? ==> IsOperatorChar(s[i]) && r.1 == OperatorRunEnd(s, i) && r.0.symbol == s[i..r.1]
    ensures r.0.Expr? <==> s[i] == '('
    ensures r.0.Expr? && r.1 <= |s| ==> r.0.text == s[i..r.1] && s[r.1 - 1] == ')'
    ensures r.0.Expr? ==> r.1 == CloseIndex(s, i) + 1 && r.0.text == s[i..Min(r.1, |s|)] && r.0.text[0] == '('
  {
    if IsDigit(s[i]) then
      var j := DigitRunEnd(s, i);
      (Num(DecimalValue(s[i..j]) as real), j)
    else if s[i] == '(' then
      var j := CloseIndex(s, i);
      if j < |s| then (Expr(s[i..j + 1]), j + 1) else (Expr(s[i..]), |s| + 1)
    else
      var j := OperatorRunEnd(s, i);
      (Op(s[i..j]), j)
  }

  function Min(a: nat, b: nat): nat
  {
    if a <= b then a else b
  }

  /** The text a scan step consumes. */
  function Lexeme(s: string, i: nat): string
    requires i < |s|
  {
    s[i..Min(Scan(s, i).1, |s|)]
  }

  /** The slices consumed by the loop of AST.init from position i on. */
  function Lexemes(s: string, i: nat): seq<string>
    requires i <= |s| + 1
    decreases |s| + 1 - i
  {
    if i >= |s| then [] else [Lexeme(s, i)] + Lexemes(s, Scan(s, i).1)
  }

  function Concat(parts: seq<string>): string
  {
    if parts == [] then [] else parts[0] + Concat(parts[1..])
  }

  /** The loop of AST.init consumes the whole input: the slices concatenate back to it. */
  lemma {:induction false} LexemesCover(s: string, i: nat)
    requires i <= |s| + 1
    ensures Concat(Lexemes(s, i)) == if i <= |s| then s[i..] else []
    decreases |s| + 1 - i
  {
    if i < |s| {
      var j := Scan(s, i).1;
      LexemesCover(s, j);
      assert Lexemes(s, i) == [Lexeme(s, i)] + Lexemes(s, j);
      assert Concat(Lexemes(s, i)) == Lexeme(s, i) + Concat(Lexemes(s, j));
      if j <= |s| {
        assert s[i..j] + s[j..] == s[i..];
      } else {
        assert Lexeme(s, i) == s[i..];
      }
    }
  }

  /** Every token's own text is the slice it was scanned from. */
  lemma TokenIsLexeme(s: string, i: nat)
    requires i < |s|
    ensures var t := Scan(s, i).0;
      (t.Op? ==> t.symbol == Lexeme(s, i)) &&
      (t.Expr? ==> t.text == Lexeme(s, i)) &&
      (t.Num? ==> t.value == DecimalValue(Lexeme(s, i)) as real)
  {
  }

  /** Lexer: `position` is the cursor, `expression` the fixed input. */
  class Lexer {
    var position: nat
    const expression: string

    constructor (expression: string)
      ensures this.expression == expression && position == 0
    {
      this.expression := expression;
      position := 0;
    }

    method HasMoreTokens() returns (more: bool)
      ensures more <==> position < |expression|
    {
      more := position < |expression|;
    }

    method NextToken() returns (t: Token)
      requires position < |expression|
      modifies this
      ensures (t, position) == Scan(expression, old(position))
    {
      if IsDigit(expression[position]) {
        t := GetNumber();
      } else if expression[position] == '(' {
        t := GetSubExpression();
      } else {
        t := GetOperator();
      }
    }

    method GetNumber() returns (t: Token)
      requires position <= |expression|
      modifies this
      ensures position == DigitRunEnd(expression, old(position))
      ensures t == Num(DecimalValue(expression[old(position)..position]) as real)
    {
      var value: string := [];
      while position < |expression| && IsDigit(expression[position])
        invariant old(position) <= position <= |expression|
        invariant value == expression[old(position)..position]
        invariant DigitRunEnd(expression, old(position)) == DigitRunEnd(expression, position)
        decreases |expression| - position
      {
        value := value + [expression[position]];
        position := position + 1;
      }
      t := Num(DecimalValue(value) as real);
    }

    method GetOperator() returns (t: Token)
      requires position <= |expression|
      modifies this
      ensures position == OperatorRunEnd(expression, old(position))
      ensures t == Op(expression[old(position)..position])
    {
      var value: string := [];
      while position < |expression| && !IsDigit(expression[position]) && expression[position] != '('
        invariant old(position) <= position <= |expression|
        invariant value == expression[old(position)..position]
        invariant OperatorRunEnd(expression, old(position)) == OperatorRunEnd(expression, position)
        decreases |expression| - position
      {
        value := value + [expression[position]];
        position := position + 1;
      }
      t := Op(value);
    }

    method GetSubExpression() returns (t: Token)
      requires position <= |expression|
      modifies this
      ensures var j := CloseIndex(expression, old(position));
        if j < |expression| then position == j + 1 && t == Expr(expression[old(position)..j + 1])
        else position == |expression| + 1 && t == Expr(expression[old(position)..])
    {
      var value: string := [];
      while position < |expression| && expression[position] != ')'
        invariant old(position) <= position <= |expression|
        invariant value == expression[old(position)..position]
        invariant CloseIndex(expression, old(position)) == CloseIndex(expression, position)
        decreases |expression| - position
      {
        value := value + [expression[position]];
        position := position + 1;
      }
      // value.append(expression.charAt(position++)): the increment happens even when
      // charAt throws at the end of the string, and the exception is swallowed.
      if position < |expression| {
        value := value + [expression[position]];
      }
      position := position + 1;
      t := Expr(value);
    }
  }
}
