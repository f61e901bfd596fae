/**
 * Tokens, operator precedence and the fixed operator table of the expression parser
 * (classes Token, Operator and the static part of Calculator in Tester.java).
 */
module Tokens {
  import opened Wrappers

  /** The ways a parse or an evaluation can fail. Only InvalidExpression is declared by the
      program; the other three are the Java runtime exceptions the code can run into. */
  datatype Failure =
    | InvalidExpression        // InvalidExpressionException: an operator symbol missing from the table
    | StringIndexOutOfBounds   // substring(1, 0) on the lone sub-expression "("
    | ClassCast                // a (Double) cast of a token that is not a number
    | NullPointer              // dereferencing an empty root or a missing operator

  /** Token<T> with its Type tag: a number, an operator string or a raw "(...)" sub-expression. */
  datatype Token = Num(value: real) | Op(symbol: string) | Expr(text: string)

  /** Operator.Precedence, in declaration order: NONE is declared last and so is the greatest. */
  datatype Precedence = ZERO | FIRST | SECOND | THIRD | FOURTH | NONE

  function Ordinal(p: Precedence): nat
  {
    match p
    case ZERO => 0
    case FIRST => 1
    case SECOND => 2
    case THIRD => 3
    case FOURTH => 4
    case NONE => 5
  }

  /** `a.compareTo(b) > 0` on the enum: a is declared after b. */
  predicate Outranks(a: Precedence, b: Precedence)
  {
    Ordinal(a) > Ordinal(b)
  }

  /** Comparison by ordinal is a strict total order with NONE at the top. */
  lemma OutranksIsStrictTotalOrder(a: Precedence, b: Precedence, c: Precedence)
    ensures !Outranks(a, a)
    ensures Outranks(a, b) && Outranks(b, c) ==> Outranks(a, c)
    ensures a == b || Outranks(a, b) || Outranks(b, a)
    ensures a != NONE ==> Outranks(NONE, a)
  {
  }

  /** NONE is never strictly outranked. */
  lemma NoneIsTop(p: Precedence)
    ensures !Outranks(p, NONE)
  {
  }

  datatype Operator = Operator(symbol: string, precedence: Precedence)

  /** The symbol of the synthetic grouping node that stands for a parenthesised sub-expression. */
  const Grouping: string := "()"

  /** Calculator.supportedOperators. The source keeps them in a HashSet; the symbols are
      unique (SymbolsUnique), so the order of this sequence does not affect any lookup. */
  const SupportedOperators: seq<Operator> := [
    Operator(Grouping, NONE),
    Operator("+", FIRST),
    Operator("-", FIRST),
    Operator("*", SECOND),
    Operator("/", SECOND),
    Operator("**", THIRD),
    Operator("+-", FIRST),
    Operator("--", FIRST),
    Operator("*-", SECOND),
    Operator("/-", SECOND),
    Operator("**-", THIRD)
  ]

  predicate Supported(s: string)
  {
    exists op :: op in SupportedOperators && op.symbol == s
  }

  lemma SymbolsUnique()
    ensures forall i, j :: 0 <= i < j < |SupportedOperators| ==>
      SupportedOperators[i].symbol != SupportedOperators[j].symbol
  {
  }

  /** The first entry of `table` whose symbol is exactly `s` (the for-each loop over the set). */
  function Find(table: seq<Operator>, s: string): (r: Option<Operator>)
    ensures r.Some? ==> r.value in table && r.value.symbol == s
    ensures r.None? <==> forall op :: op in table ==> op.symbol != s
  {
    if table == [] then None
    else if table[0].symbol == s then Some(table[0])
    else Find(table[1..], s)
  }

  /** Calculator.getOperator: null (None) for a symbol outside the table. */
  function GetOperator(s: string): Option<Operator>
  {
    Find(SupportedOperators, s)
  }

  /** getOperator finds an entry exactly when the symbol is in the table, and the entry it
      finds carries that symbol. */
  lemma GetOperatorMeaning(s: string)
    ensures GetOperator(s).Some? <==> Supported(s)
    ensures GetOperator(s).Some? ==> GetOperator(s).value in SupportedOperators && GetOperator(s).value.symbol == s
  {
  }

  /** Because the symbols are unique, every table entry is found by its own symbol,
      whatever order the set is iterated in. */
  lemma GetOperatorExact(op: Operator)
    requires op in SupportedOperators
    ensures GetOperator(op.symbol) == Some(op)
  {
    SymbolsUnique();
    GetOperatorMeaning(op.symbol);
    var r := GetOperator(op.symbol);
    var i :| 0 <= i < |SupportedOperators| && SupportedOperators[i] == r.value;
    var j :| 0 <= j < |SupportedOperators| && SupportedOperators[j] == op;
    assert i == j;
  }

  /** `(String) token.value()`: the string a non-number token carries. */
  function TokenString(t: Token): string
    requires !t.Num?
  {
    if t.Op? then t.symbol else t.text
  }

  /** Calculator.checkPrecedence. */
  function CheckPrecedence(t: Token): (r: Result<Precedence, Failure>)
    ensures t.Num? ==> r == Ok(NONE)
    ensures r.Err? ==> r.error == InvalidExpression
  {
    if t.Num? then Ok(NONE)
    else
      match GetOperator(TokenString(t))
      case Some(op) => Ok(op.precedence)
      case None => Err(InvalidExpression)
  }

  /** Any token other than a number has the precedence of the table entry for its string;
      it fails exactly when the string is not in the table. */
  lemma CheckPrecedenceMeaning(t: Token)
    requires !t.Num?
    ensures CheckPrecedence(t).Ok? <==> Supported(TokenString(t))
    ensures CheckPrecedence(t).Ok? ==> Operator(TokenString(t), CheckPrecedence(t).value) in SupportedOperators
  {
    GetOperatorMeaning(TokenString(t));
  }

  /** A table symbol yields exactly the precedence of its own entry. */
  lemma CheckPrecedenceOfEntry(op: Operator)
    requires op in SupportedOperators
    ensures CheckPrecedence(Op(op.symbol)) == Ok(op.precedence)
    ensures CheckPrecedence(Expr(op.symbol)) == Ok(op.precedence)
  {
    GetOperatorExact(op);
  }

  /** The characters the symbols of the table start with. */
  predicate LeadsTable(c: char)
  {
    c == '(' || c == '+' || c == '-' || c == '*' || c == '/'
  }

  lemma TableLeads()
    ensures forall i :: 0 <= i < |SupportedOperators| ==>
      |SupportedOperators[i].symbol| > 0 && LeadsTable(SupportedOperators[i].symbol[0])
  {
  }

  /** A search of a table whose symbols all start with a leading character finds nothing for
      a string that starts with another one. */
  lemma {:induction false} FindMissing(table: seq<Operator>, s: string)
    requires |s| > 0 && !LeadsTable(s[0])
    requires forall i :: 0 <= i < |table| ==> |table[i].symbol| > 0 && LeadsTable(table[i].symbol[0])
    ensures Find(table, s) == None
  {
    if table != [] {
      assert table[0].symbol[0] != s[0];
      FindMissing(table[1..], s);
    }
  }

  /** getOperator returns null, and checkPrecedence throws, for a symbol that starts with a
      character no table symbol starts with (such as `%` or `^`). */
  lemma UnsupportedLead(s: string)
    requires |s| > 0 && !LeadsTable(s[0])
    ensures GetOperator(s) == None
    ensures CheckPrecedence(Op(s)) == Err(InvalidExpression)
  {
    TableLeads();
    FindMissing(SupportedOperators, s);
  }
}
