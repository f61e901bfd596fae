/**
 * Worked examples for parenthesised sub-expressions and for the ways a run fails.
 */
module GroupingExamples {
  import opened Wrappers
  import opened Tokens
  import opened Lexing
  import opened Arithmetic
  import opened TreeModel
  import opened Evaluation
  import opened Examples

  // ---------------------------------------------------------------------------------------
  // "(2+3)*4": the sub-expression is parsed into its own nodes first, and a grouping node
  // over its root then takes part in the insertion like a number.

  // The trees of the inner expression "2+3".
  const InnerTree0 := Tree(EmptyArena, None)
  const InnerTree1 := Tree(Arena([Node(Num(2.0), None, None, None)], [0], -1), Some(0))
  const InnerTree2 := Tree(Arena([Node(Num(2.0), Some(1), None, None), Node(Op("+"), None, Some(0), None)],
                                 [-1, 0], -3), Some(1))
  const InnerTree3 := Tree(Arena([Node(Num(2.0), Some(1), None, None), Node(Op("+"), None, Some(0), Some(2)),
                                  Node(Num(3.0), Some(1), None, None)], [-1, 0, -3], -4), Some(1))

  const GroupNode := Node(Op(Grouping), None, None, Some(1))

  // The trees of the whole expression after each token.
  const GroupTree1 := Tree(Arena(InnerTree3.arena.nodes + [GroupNode], [-2, -1, -4, 0], -5), Some(3))
  const GroupTree2 := Tree(Arena(InnerTree3.arena.nodes + [GroupNode.(parent := Some(4)), Node(Op("*"), None, Some(3), None)],
                                 [-3, -2, -5, -1, 0], -7), Some(4))
  const GroupTree3 := Tree(Arena(InnerTree3.arena.nodes + [GroupNode.(parent := Some(4)), Node(Op("*"), None, Some(3), Some(5)),
                                                           Node(Num(4.0), Some(4), None, None)],
                                 [-3, -2, -5, -1, 0, -7], -8), Some(4))

  lemma InnerStep2()
    requires Context(InnerTree1, 0)
    ensures Insert(InnerTree1, Op("+"), 0) == Ok(InnerTree2)
  {
    assert Outranks(NONE, FIRST);
    LeafContext(InnerTree1, Op("+"), 0);
    var a1 := Alloc(InnerTree1.arena, Op("+"), None);
    assert a1 == Arena(InnerTree1.arena.nodes + [Node(Op("+"), None, None, None)], [0, -1], -2);
    var t := Tree(a1, Some(0));
    assert Lower(a1.level, 0) == [-1, -2];
    assert Splice(t, 0, 1, 0, 1) == InnerTree2;
    CheckPrecedenceOfEntry(Operator("+", FIRST));
    assert InsertTo(t, 0, 1, 0, 1) == Ok(InnerTree2);
  }

  lemma InnerStep3()
    requires Context(InnerTree2, 0)
    ensures Insert(InnerTree2, Num(3.0), 0) == Ok(InnerTree3)
  {
    assert !Outranks(FIRST, NONE);
    LeafContext(InnerTree2, Num(3.0), 0);
    var a1 := Alloc(InnerTree2.arena, Num(3.0), None);
    assert a1 == Arena(InnerTree2.arena.nodes + [Node(Num(3.0), None, None, None)], [-1, 0, -3], -4);
    var t := Tree(a1, Some(1));
    assert Attach(t, 1, 2, 0, 2) == InnerTree3;
    CheckPrecedenceOfEntry(Operator("+", FIRST));
    assert InsertTo(t, 1, 2, 0, 2) == Ok(InnerTree3);
  }

  lemma InnerParse()
    ensures ParseFrom("2+3", 0, InnerTree0, 0) == Ok(InnerTree3)
  {
    var s := "2+3";
    ScanDigit(s, 0);
    ScanOperator(s, 1);
    ScanDigit(s, 2);
    assert Insert(InnerTree0, Num(2.0), 0) == Ok(InnerTree1);
    InnerStep2();
    InnerStep3();
    assert ParseFrom(s, 3, InnerTree3, 0) == Ok(InnerTree3);
    assert ParseFrom(s, 2, InnerTree2, 0) == Ok(InnerTree3);
    assert ParseFrom(s, 1, InnerTree1, 0) == Ok(InnerTree3);
  }

  lemma GroupArena()
    requires Ranked(InnerTree3.arena)
    ensures Alloc(InnerTree3.arena, Op(Grouping), Some(1)) == GroupTree1.arena
  {
    assert Lower(InnerTree3.arena.level, 0) == [-2, -1, -4];
  }

  lemma GroupStep1()
    ensures Insert(InnerTree0, Expr("(2+3)"), 0) == Ok(GroupTree1)
  {
    var text := "(2+3)";
    assert Inner(text) == "2+3";
    InnerParse();
    GroupContext(InnerTree0, InnerTree3, 0);
    GroupArena();
  }

  lemma GroupStep2()
    requires Context(GroupTree1, 0)
    ensures Insert(GroupTree1, Op("*"), 0) == Ok(GroupTree2)
  {
    assert Outranks(NONE, SECOND);
    LeafContext(GroupTree1, Op("*"), 0);
    var a1 := Alloc(GroupTree1.arena, Op("*"), None);
    assert a1 == Arena(GroupTree1.arena.nodes + [Node(Op("*"), None, None, None)], [-2, -1, -4, 0, -5], -6);
    var t := Tree(a1, Some(3));
    assert Lower(a1.level, 0) == [-3, -2, -5, -1, -6];
    assert Splice(t, 3, 4, 0, 4) == GroupTree2;
    CheckPrecedenceOfEntry(Operator(Grouping, NONE));
    CheckPrecedenceOfEntry(Operator("*", SECOND));
    assert InsertTo(t, 3, 4, 0, 4) == Ok(GroupTree2);
  }

  lemma GroupStep3()
    requires Context(GroupTree2, 0)
    ensures Insert(GroupTree2, Num(4.0), 0) == Ok(GroupTree3)
  {
    assert !Outranks(SECOND, NONE);
    LeafContext(GroupTree2, Num(4.0), 0);
    var a1 := Alloc(GroupTree2.arena, Num(4.0), None);
    assert a1 == Arena(GroupTree2.arena.nodes + [Node(Num(4.0), None, None, None)], [-3, -2, -5, -1, 0, -7], -8);
    var t := Tree(a1, Some(4));
    assert Attach(t, 4, 5, 0, 5) == GroupTree3;
    CheckPrecedenceOfEntry(Operator("*", SECOND));
    assert InsertTo(t, 4, 5, 0, 5) == Ok(GroupTree3);
  }

  lemma GroupScan()
    ensures Scan("(2+3)*4", 0) == (Expr("(2+3)"), 5)
  {
    var s := "(2+3)*4";
    assert CloseIndex(s, 4) == 4 && CloseIndex(s, 3) == 4 && CloseIndex(s, 2) == 4;
    assert CloseIndex(s, 1) == 4 && CloseIndex(s, 0) == 4;
    assert s[0..5] == "(2+3)";
  }

  /** The parenthesised sum ends up below the product, as (2+3)*4. */
  lemma GroupParse()
    ensures Parse("(2+3)*4") == Ok(GroupTree3)
  {
    var s := "(2+3)*4";
    GroupScan();
    ScanOperator(s, 5);
    ScanDigit(s, 6);
    GroupStep1();
    GroupStep2();
    GroupStep3();
    assert ParseFrom(s, 7, GroupTree3, 0) == Ok(GroupTree3);
    assert ParseFrom(s, 6, GroupTree2, 0) == Ok(GroupTree3);
    assert ParseFrom(s, 5, GroupTree1, 0) == Ok(GroupTree3);
  }

  lemma PlusLookup()
    ensures GetOperator("+") == Some(Operator("+", FIRST))
  {
    GetOperatorExact(Operator("+", FIRST));
  }

  /** A `+` node over two numbers stands for binaryEval of the `+` entry. */
  lemma CombinePlus(au: ArithmeticUnit, x: real, y: real)
    ensures Combine(Op("+"), Some(Num(x)), Some(Num(y)), au) == Ok(Num(BinaryEval(au, Operator("+", FIRST), x, y)))
  {
    PlusLookup();
    CombineEntry(Op("+"), Operator("+", FIRST), x, y, au);
  }

  lemma PlusArithmetic(au: ArithmeticUnit, x: real, y: real)
    ensures BinaryEval(au, Operator("+", FIRST), x, y) == x + y
  {
  }

  lemma GroupTreeSumNode(au: ArithmeticUnit)
    requires Ranked(GroupTree3.arena)
    ensures Denote(GroupTree3.arena, 1, au) == Combine(Op("+"), Some(Num(2.0)), Some(Num(3.0)), au)
  {
    var a := GroupTree3.arena;
    assert Denote(a, 0, au) == Ok(Num(2.0)) && Denote(a, 2, au) == Ok(Num(3.0));
  }

  lemma GroupTreeGroupNode(au: ArithmeticUnit, v: real)
    requires Ranked(GroupTree3.arena) && Denote(GroupTree3.arena, 1, au) == Ok(Num(v))
    ensures Denote(GroupTree3.arena, 3, au) == Ok(Num(v))
  {
  }

  lemma GroupTreeRootNode(au: ArithmeticUnit, v: real)
    requires Ranked(GroupTree3.arena) && Denote(GroupTree3.arena, 3, au) == Ok(Num(v))
    ensures Denote(GroupTree3.arena, 4, au) == Combine(Op("*"), Some(Num(v)), Some(Num(4.0)), au)
  {
    assert Denote(GroupTree3.arena, 5, au) == Ok(Num(4.0));
  }

  lemma GroupTreeDenotes(au: ArithmeticUnit)
    requires Ranked(GroupTree3.arena)
    ensures Denote(GroupTree3.arena, 4, au) == Ok(Num(20.0))
  {
    PlusLookup();
    TimesLookup();
    GroupTreeSumNode(au);
    CombinePlus(au, 2.0, 3.0);
    PlusArithmetic(au, 2.0, 3.0);
    GroupTreeGroupNode(au, 5.0);
    GroupTreeRootNode(au, 5.0);
    CombineTimes(au, 5.0, 4.0);
    TimesArithmetic(au, 5.0, 4.0);
  }

  /** Hence `(2+3)*4` evaluates to 20. */
  lemma GroupValue(au: ArithmeticUnit)
    ensures Run("(2+3)*4", au) == Ok(20.0)
  {
    GroupParse();
    SolveIsDenotation(GroupTree3, au);
    GroupTreeDenotes(au);
  }

  // ---------------------------------------------------------------------------------------
  // Failures.

  /** `()` gives a grouping node with no child; solve then casts its string to a number. */
  lemma EmptyGroupFails(au: ArithmeticUnit)
    ensures Run("()", au) == Err(ClassCast)
  {
    var s := "()";
    assert CloseIndex(s, 1) == 1 && CloseIndex(s, 0) == 1;
    assert s[0..2] == "()";
    assert Scan(s, 0) == (Expr("()"), 2);
    assert Inner("()") == "";
    var t := Tree(Arena([Node(Op(Grouping), None, None, None)], [0], -1), Some(0));
    assert ParseFrom("", 0, InnerTree0, 0) == Ok(InnerTree0);
    GroupContext(InnerTree0, InnerTree0, 0);
    assert Insert(InnerTree0, Expr("()"), 0) == Ok(t);
    assert Parse(s) == Ok(t);
    SolveIsDenotation(t, au);
    assert Denote(t.arena, 0, au) == Ok(Op(Grouping));
  }

  /** An unterminated `(` yields a one-character sub-expression, and `substring(1, 0)` fails. */
  lemma UnterminatedGroupFails(au: ArithmeticUnit)
    ensures Run("(", au) == Err(StringIndexOutOfBounds)
  {
    var s := "(";
    assert CloseIndex(s, 1) == 1 && CloseIndex(s, 0) == 1;
    assert s[0..] == "(";
    assert Scan(s, 0) == (Expr("("), 2);
  }

  /** `%` is not in the table, so checkPrecedence rejects it when it is inserted. */
  lemma UnsupportedOperatorFails(au: ArithmeticUnit)
    ensures Run("3%2", au) == Err(InvalidExpression)
  {
    var s := "3%2";
    ScanDigit(s, 0);
    ScanOperator(s, 1);
    var t1 := Tree(Arena([Node(Num(3.0), None, None, None)], [0], -1), Some(0));
    assert Insert(InnerTree0, Num(3.0), 0) == Ok(t1);
    assert Insert(t1, Op("%"), 0) == Err(InvalidExpression) by {
      UnsupportedLead("%");
      LeafContext(t1, Op("%"), 0);
    }
    assert ParseFrom(s, 1, t1, 0) == Err(InvalidExpression);
  }
}
