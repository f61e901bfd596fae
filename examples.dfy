/**
 * Worked examples: what the model computes for a few concrete expressions, derived step by
 * step from the definitions. They pin down how the source's insertion behaves on the same
 * inputs, including where it does not follow the usual rules of arithmetic.
 */
module Examples {
  import opened Wrappers
  import opened Tokens
  import opened Lexing
  import opened Arithmetic
  import opened TreeModel
  import opened Evaluation

  /** A one-digit number followed by something other than a digit. */
  lemma ScanDigit(s: string, i: nat)
    requires i < |s| && IsDigit(s[i]) && (i + 1 == |s| || !IsDigit(s[i + 1]))
    ensures Scan(s, i) == (Num(DigitValue(s[i]) as real), i + 1)
  {
    assert DigitRunEnd(s, i + 1) == i + 1 && DigitRunEnd(s, i) == i + 1;
    assert s[i..i + 1] == [s[i]] && [s[i]][..0] == [];
    assert DecimalValue([s[i]]) == DigitValue(s[i]);
  }

  /** A one-character operator followed by a digit or a parenthesis. */
  lemma ScanOperator(s: string, i: nat)
    requires i + 1 < |s| && IsOperatorChar(s[i]) && !IsOperatorChar(s[i + 1])
    ensures Scan(s, i) == (Op([s[i]]), i + 1)
  {
    assert OperatorRunEnd(s, i + 1) == i + 1;
    assert s[i..i + 1] == [s[i]];
  }

  /** Two digits followed by something other than a digit. */
  lemma ScanTwoDigits(s: string, i: nat)
    requires i + 1 < |s| && IsDigit(s[i]) && IsDigit(s[i + 1]) && (i + 2 == |s| || !IsDigit(s[i + 2]))
    ensures Scan(s, i) == (Num((10 * DigitValue(s[i]) + DigitValue(s[i + 1])) as real), i + 2)
  {
    assert DigitRunEnd(s, i + 2) == i + 2 && DigitRunEnd(s, i + 1) == i + 2 && DigitRunEnd(s, i) == i + 2;
    var ds := s[i..i + 2];
    assert ds == [s[i], s[i + 1]] && ds[..1] == [s[i]] && [s[i]][..0] == [];
    assert DecimalValue([s[i]]) == DigitValue(s[i]);
  }

  /** A two-character operator followed by a digit or a parenthesis. */
  lemma ScanTwoCharOperator(s: string, i: nat)
    requires i + 2 < |s| && IsOperatorChar(s[i]) && IsOperatorChar(s[i + 1]) && !IsOperatorChar(s[i + 2])
    ensures Scan(s, i) == (Op([s[i], s[i + 1]]), i + 2)
  {
    assert OperatorRunEnd(s, i + 2) == i + 2 && OperatorRunEnd(s, i + 1) == i + 2;
    assert s[i..i + 2] == [s[i], s[i + 1]];
  }

  const Minus := Node(Op("-"), None, None, None)

  // The trees that AST.init builds for "10-3-2", one per token.
  const SubTree0 := Tree(EmptyArena, None)
  const SubTree1 := Tree(Arena([Node(Num(10.0), None, None, None)], [0], -1), Some(0))
  const SubTree2 := Tree(Arena([Node(Num(10.0), Some(1), None, None), Minus.(left := Some(0))], [-1, 0], -3), Some(1))
  const SubTree3 := Tree(Arena([Node(Num(10.0), Some(1), None, None), Minus.(left := Some(0), right := Some(2)),
                                Node(Num(3.0), Some(1), None, None)], [-1, 0, -3], -4), Some(1))
  const SubTree4 := Tree(Arena([Node(Num(10.0), Some(1), None, None), Minus.(left := Some(0), right := Some(3)),
                                Node(Num(3.0), Some(1), None, None), Minus.(left := Some(2))], [-1, 0, -4, -3], -6), Some(1))
  const SubTree5 := Tree(Arena([Node(Num(10.0), Some(1), None, None), Minus.(left := Some(0), right := Some(3)),
                                Node(Num(3.0), Some(1), None, None), Minus.(left := Some(2), right := Some(4)),
                                Node(Num(2.0), Some(3), None, None)], [-1, 0, -4, -3, -6], -7), Some(1))

  lemma SubStep2()
    requires Context(SubTree1, 0)
    ensures Insert(SubTree1, Op("-"), 0) == Ok(SubTree2)
  {
    assert Outranks(NONE, FIRST);
    LeafContext(SubTree1, Op("-"), 0);
    var a1 := Alloc(SubTree1.arena, Op("-"), None);
    assert a1 == Arena([Node(Num(10.0), None, None, None), Minus], [0, -1], -2);
    var t := Tree(a1, Some(0));
    assert Lower(a1.level, 0) == [-1, -2];
    assert Splice(t, 0, 1, 0, 1) == SubTree2;
    CheckPrecedenceOfEntry(Operator("-", FIRST));
    assert InsertTo(t, 0, 1, 0, 1) == Ok(SubTree2);
  }

  lemma SubStep3()
    requires Context(SubTree2, 0)
    ensures Insert(SubTree2, Num(3.0), 0) == Ok(SubTree3)
  {
    assert !Outranks(FIRST, NONE);
    LeafContext(SubTree2, Num(3.0), 0);
    var a1 := Alloc(SubTree2.arena, Num(3.0), None);
    assert a1 == Arena(SubTree2.arena.nodes + [Node(Num(3.0), None, None, None)], [-1, 0, -3], -4);
    var t := Tree(a1, Some(1));
    assert Attach(t, 1, 2, 0, 2) == SubTree3;
    CheckPrecedenceOfEntry(Operator("-", FIRST));
    assert InsertTo(t, 1, 2, 0, 2) == Ok(SubTree3);
  }

  lemma SubStep4()
    requires Context(SubTree3, 0)
    ensures Insert(SubTree3, Op("-"), 0) == Ok(SubTree4)
  {
    assert Outranks(NONE, FIRST) && !Outranks(FIRST, FIRST);
    LeafContext(SubTree3, Op("-"), 0);
    var a1 := Alloc(SubTree3.arena, Op("-"), None);
    assert a1 == Arena(SubTree3.arena.nodes + [Minus], [-1, 0, -3, -4], -5);
    var t := Tree(a1, Some(1));
    assert Lower(a1.level, -3) == [-1, 0, -4, -5];
    assert Splice(t, 2, 3, 0, 3) == SubTree4;
    CheckPrecedenceOfEntry(Operator("-", FIRST));
    assert InsertTo(t, 2, 3, 0, 3) == Ok(SubTree4);
    assert InsertTo(t, 1, 3, 0, 3) == Ok(SubTree4);
  }

  lemma SubStep5()
    requires Context(SubTree4, 0)
    ensures Insert(SubTree4, Num(2.0), 0) == Ok(SubTree5)
  {
    assert !Outranks(FIRST, NONE);
    LeafContext(SubTree4, Num(2.0), 0);
    var a1 := Alloc(SubTree4.arena, Num(2.0), None);
    assert a1 == Arena(SubTree4.arena.nodes + [Node(Num(2.0), None, None, None)], [-1, 0, -4, -3, -6], -7);
    var t := Tree(a1, Some(1));
    assert Attach(t, 3, 4, 0, 4) == SubTree5;
    CheckPrecedenceOfEntry(Operator("-", FIRST));
    assert InsertTo(t, 3, 4, 0, 4) == Ok(SubTree5);
    assert InsertTo(t, 1, 4, 0, 4) == Ok(SubTree5);
  }

  /** Equal precedences do not splice, so `10-3-2` nests to the right, as 10-(3-2). */
  lemma SubtractionNestsRight()
    ensures Parse("10-3-2") == Ok(SubTree5)
  {
    var s := "10-3-2";
    ScanTwoDigits(s, 0);
    ScanOperator(s, 2);
    ScanDigit(s, 3);
    ScanOperator(s, 4);
    ScanDigit(s, 5);
    assert Insert(SubTree0, Num(10.0), 0) == Ok(SubTree1);
    SubStep2();
    SubStep3();
    SubStep4();
    SubStep5();
    assert ParseFrom(s, 6, SubTree5, 0) == Ok(SubTree5);
    assert ParseFrom(s, 5, SubTree4, 0) == Ok(SubTree5);
    assert ParseFrom(s, 4, SubTree3, 0) == Ok(SubTree5);
    assert ParseFrom(s, 3, SubTree2, 0) == Ok(SubTree5);
    assert ParseFrom(s, 2, SubTree1, 0) == Ok(SubTree5);
  }

  lemma MinusLookup()
    ensures GetOperator("-") == Some(Operator("-", FIRST))
  {
    GetOperatorExact(Operator("-", FIRST));
  }

  lemma TimesLookup()
    ensures GetOperator("*") == Some(Operator("*", SECOND))
  {
    GetOperatorExact(Operator("*", SECOND));
  }

  /** An operator node over two numbers, whose symbol is found in the table, stands for
      binaryEval of the entry found. */
  lemma CombineEntry(token: Token, op: Operator, x: real, y: real, au: ArithmeticUnit)
    requires !token.Num? && TokenString(token) != Grouping && GetOperator(TokenString(token)) == Some(op)
    ensures Combine(token, Some(Num(x)), Some(Num(y)), au) == Ok(Num(BinaryEval(au, op, x, y)))
  {
  }

  lemma CombineMinus(au: ArithmeticUnit, x: real, y: real)
    ensures Combine(Op("-"), Some(Num(x)), Some(Num(y)), au) == Ok(Num(BinaryEval(au, Operator("-", FIRST), x, y)))
  {
    MinusLookup();
    CombineEntry(Op("-"), Operator("-", FIRST), x, y, au);
  }

  lemma MinusArithmetic(au: ArithmeticUnit, x: real, y: real)
    ensures BinaryEval(au, Operator("-", FIRST), x, y) == x - y
  {
  }

  /** A `*` node over two numbers stands for binaryEval of the `*` entry. */
  lemma CombineTimes(au: ArithmeticUnit, x: real, y: real)
    ensures Combine(Op("*"), Some(Num(x)), Some(Num(y)), au) == Ok(Num(BinaryEval(au, Operator("*", SECOND), x, y)))
  {
    TimesLookup();
    CombineEntry(Op("*"), Operator("*", SECOND), x, y, au);
  }

  lemma TimesArithmetic(au: ArithmeticUnit, x: real, y: real)
    ensures BinaryEval(au, Operator("*", SECOND), x, y) == x * y
  {
  }

  lemma PowerLookup()
    ensures GetOperator("**") == Some(Operator("**", THIRD))
  {
    GetOperatorExact(Operator("**", THIRD));
  }

  /** A `**` node over two numbers stands for binaryEval of the `**` entry. */
  lemma CombinePower(au: ArithmeticUnit, x: real, y: real)
    ensures Combine(Op("**"), Some(Num(x)), Some(Num(y)), au) == Ok(Num(BinaryEval(au, Operator("**", THIRD), x, y)))
  {
    PowerLookup();
    CombineEntry(Op("**"), Operator("**", THIRD), x, y, au);
  }

  lemma PowerArithmetic(au: ArithmeticUnit, x: real, y: real)
    ensures BinaryEval(au, Operator("**", THIRD), x, y) == au.exponentiate(x, y)
  {
  }

  lemma PlusNegatedLookup()
    ensures GetOperator("+-") == Some(Operator("+-", FIRST))
  {
    GetOperatorExact(Operator("+-", FIRST));
  }

  /** A `+-` node over two numbers stands for binaryEval of the `+-` entry. */
  lemma CombinePlusNegated(au: ArithmeticUnit, x: real, y: real)
    ensures Combine(Op("+-"), Some(Num(x)), Some(Num(y)), au) == Ok(Num(BinaryEval(au, Operator("+-", FIRST), x, y)))
  {
    PlusNegatedLookup();
    CombineEntry(Op("+-"), Operator("+-", FIRST), x, y, au);
  }

  lemma PlusNegatedArithmetic(au: ArithmeticUnit, x: real, y: real)
    ensures BinaryEval(au, Operator("+-", FIRST), x, y) == x - y
  {
  }

  lemma SubTree5RightNode(au: ArithmeticUnit)
    requires Ranked(SubTree5.arena)
    ensures Denote(SubTree5.arena, 3, au) == Combine(Op("-"), Some(Num(3.0)), Some(Num(2.0)), au)
  {
    var a := SubTree5.arena;
    assert Denote(a, 2, au) == Ok(Num(3.0)) && Denote(a, 4, au) == Ok(Num(2.0));
  }

  lemma SubTree5RootNode(au: ArithmeticUnit, v: real)
    requires Ranked(SubTree5.arena) && Denote(SubTree5.arena, 3, au) == Ok(Num(v))
    ensures Denote(SubTree5.arena, 1, au) == Combine(Op("-"), Some(Num(10.0)), Some(Num(v)), au)
  {
    assert Denote(SubTree5.arena, 0, au) == Ok(Num(10.0));
  }

  lemma SubTree5Denotes(au: ArithmeticUnit)
    requires Ranked(SubTree5.arena)
    ensures Denote(SubTree5.arena, 1, au) == Ok(Num(9.0))
  {
    MinusLookup();
    SubTree5RightNode(au);
    CombineMinus(au, 3.0, 2.0);
    MinusArithmetic(au, 3.0, 2.0);
    SubTree5RootNode(au, 1.0);
    CombineMinus(au, 10.0, 1.0);
    MinusArithmetic(au, 10.0, 1.0);
  }

  /** Hence `10-3-2` evaluates to 9, not to 5. */
  lemma SubtractionValue(au: ArithmeticUnit)
    ensures Run("10-3-2", au) == Ok(9.0)
  {
    SubtractionNestsRight();
    SolveIsDenotation(SubTree5, au);
    SubTree5Denotes(au);
  }

  // The trees that AST.init builds for "3**2+6*2-12", one per token.
  const MixedTree0 := Tree(EmptyArena, None)
  const MixedTree1 := Tree(Arena([Node(Num(3.0), None, None, None)],
                               [0], -1), Some(0))
  const MixedTree2 := Tree(Arena([Node(Num(3.0), Some(1), None, None),
                                Node(Op("**"), None, Some(0), None)],
                               [-1, 0], -3), Some(1))
  const MixedTree3 := Tree(Arena([Node(Num(3.0), Some(1), None, None),
                                Node(Op("**"), None, Some(0), Some(2)),
                                Node(Num(2.0), Some(1), None, None)],
                               [-1, 0, -3], -4), Some(1))
  const MixedTree4 := Tree(Arena([Node(Num(3.0), Some(1), None, None),
                                Node(Op("**"), Some(3), Some(0), Some(2)),
                                Node(Num(2.0), Some(1), None, None),
                                Node(Op("+"), None, Some(1), None)],
                               [-2, -1, -4, 0], -6), Some(3))
  const MixedTree5 := Tree(Arena([Node(Num(3.0), Some(1), None, None),
                                Node(Op("**"), Some(3), Some(0), Some(2)),
                                Node(Num(2.0), Some(1), None, None),
                                Node(Op("+"), None, Some(1), Some(4)),
                                Node(Num(6.0), Some(3), None, None)],
                               [-2, -1, -4, 0, -6], -7), Some(3))
  const MixedTree6 := Tree(Arena([Node(Num(3.0), Some(1), None, None),
                                Node(Op("**"), Some(3), Some(0), Some(2)),
                                Node(Num(2.0), Some(1), None, None),
                                Node(Op("+"), None, Some(1), Some(5)),
                                Node(Num(6.0), Some(3), None, None),
                                Node(Op("*"), None, Some(4), None)],
                               [-2, -1, -4, 0, -7, -6], -9), Some(3))
  const MixedTree7 := Tree(Arena([Node(Num(3.0), Some(1), None, None),
                                Node(Op("**"), Some(3), Some(0), Some(2)),
                                Node(Num(2.0), Some(1), None, None),
                                Node(Op("+"), None, Some(1), Some(5)),
                                Node(Num(6.0), Some(3), None, None),
                                Node(Op("*"), None, Some(4), Some(6)),
                                Node(Num(2.0), Some(5), None, None)],
                               [-2, -1, -4, 0, -7, -6, -9], -10), Some(3))
  const MixedTree8 := Tree(Arena([Node(Num(3.0), Some(1), None, None),
                                Node(Op("**"), Some(3), Some(0), Some(2)),
                                Node(Num(2.0), Some(1), None, None),
                                Node(Op("+"), None, Some(1), Some(5)),
                                Node(Num(6.0), Some(3), None, None),
                                Node(Op("*"), Some(7), Some(4), Some(6)),
                                Node(Num(2.0), Some(5), None, None),
                                Node(Op("-"), None, Some(5), None)],
                               [-2, -1, -4, 0, -8, -7, -10, -6], -12), Some(7))
  const MixedTree9 := Tree(Arena([Node(Num(3.0), Some(1), None, None),
                                Node(Op("**"), Some(3), Some(0), Some(2)),
                                Node(Num(2.0), Some(1), None, None),
                                Node(Op("+"), None, Some(1), Some(5)),
                                Node(Num(6.0), Some(3), None, None),
                                Node(Op("*"), Some(7), Some(4), Some(6)),
                                Node(Num(2.0), Some(5), None, None),
                                Node(Op("-"), None, Some(5), Some(8)),
                                Node(Num(12.0), Some(7), None, None)],
                               [-2, -1, -4, 0, -8, -7, -10, -6, -12], -13), Some(7))

  lemma MixedStep2()
    requires Context(MixedTree1, 0)
    ensures Insert(MixedTree1, Op("**"), 0) == Ok(MixedTree2)
  {
    assert Outranks(NONE, THIRD);
    LeafContext(MixedTree1, Op("**"), 0);
    var a1 := Alloc(MixedTree1.arena, Op("**"), None);
    assert a1 == Arena(MixedTree1.arena.nodes + [Node(Op("**"), None, None, None)], [0, -1], -2);
    var t := Tree(a1, Some(0));
    assert Lower(a1.level, 0) == [-1, -2];
    assert Splice(t, 0, 1, 0, 1) == MixedTree2;
    CheckPrecedenceOfEntry(Operator("**", THIRD));
    assert InsertTo(t, 0, 1, 0, 1) == Ok(MixedTree2);
  }

  lemma MixedStep3()
    requires Context(MixedTree2, 0)
    ensures Insert(MixedTree2, Num(2.0), 0) == Ok(MixedTree3)
  {
    assert !Outranks(THIRD, NONE);
    LeafContext(MixedTree2, Num(2.0), 0);
    var a1 := Alloc(MixedTree2.arena, Num(2.0), None);
    assert a1 == Arena(MixedTree2.arena.nodes + [Node(Num(2.0), None, None, None)], [-1, 0, -3], -4);
    var t := Tree(a1, Some(1));
    assert Attach(t, 1, 2, 0, 2) == MixedTree3;
    CheckPrecedenceOfEntry(Operator("**", THIRD));
    assert InsertTo(t, 1, 2, 0, 2) == Ok(MixedTree3);
  }

  lemma MixedStep4()
    requires Context(MixedTree3, 0)
    ensures Insert(MixedTree3, Op("+"), 0) == Ok(MixedTree4)
  {
    assert Outranks(THIRD, FIRST);
    LeafContext(MixedTree3, Op("+"), 0);
    var a1 := Alloc(MixedTree3.arena, Op("+"), None);
    assert a1 == Arena(MixedTree3.arena.nodes + [Node(Op("+"), None, None, None)], [-1, 0, -3, -4], -5);
    var t := Tree(a1, Some(1));
    assert Lower(a1.level, 0) == [-2, -1, -4, -5];
    assert Splice(t, 1, 3, 0, 3) == MixedTree4;
    CheckPrecedenceOfEntry(Operator("**", THIRD));
    CheckPrecedenceOfEntry(Operator("+", FIRST));
    assert InsertTo(t, 1, 3, 0, 3) == Ok(MixedTree4);
  }

  lemma MixedStep5()
    requires Context(MixedTree4, 0)
    ensures Insert(MixedTree4, Num(6.0), 0) == Ok(MixedTree5)
  {
    assert !Outranks(FIRST, NONE);
    LeafContext(MixedTree4, Num(6.0), 0);
    var a1 := Alloc(MixedTree4.arena, Num(6.0), None);
    assert a1 == Arena(MixedTree4.arena.nodes + [Node(Num(6.0), None, None, None)], [-2, -1, -4, 0, -6], -7);
    var t := Tree(a1, Some(3));
    assert Attach(t, 3, 4, 0, 4) == MixedTree5;
    CheckPrecedenceOfEntry(Operator("+", FIRST));
    assert InsertTo(t, 3, 4, 0, 4) == Ok(MixedTree5);
  }

  lemma MixedStep6()
    requires Context(MixedTree5, 0)
    ensures Insert(MixedTree5, Op("*"), 0) == Ok(MixedTree6)
  {
    assert !Outranks(FIRST, SECOND) && Outranks(NONE, SECOND);
    LeafContext(MixedTree5, Op("*"), 0);
    var a1 := Alloc(MixedTree5.arena, Op("*"), None);
    assert a1 == Arena(MixedTree5.arena.nodes + [Node(Op("*"), None, None, None)], [-2, -1, -4, 0, -6, -7], -8);
    var t := Tree(a1, Some(3));
    assert Lower(a1.level, -6) == [-2, -1, -4, 0, -7, -8];
    assert Splice(t, 4, 5, 0, 5) == MixedTree6;
    CheckPrecedenceOfEntry(Operator("+", FIRST));
    CheckPrecedenceOfEntry(Operator("*", SECOND));
    assert InsertTo(t, 4, 5, 0, 5) == Ok(MixedTree6);
    assert InsertTo(t, 3, 5, 0, 5) == Ok(MixedTree6);
  }

  lemma MixedStep7()
    requires Context(MixedTree6, 0)
    ensures Insert(MixedTree6, Num(2.0), 0) == Ok(MixedTree7)
  {
    assert !Outranks(FIRST, NONE) && !Outranks(SECOND, NONE);
    LeafContext(MixedTree6, Num(2.0), 0);
    var a1 := Alloc(MixedTree6.arena, Num(2.0), None);
    assert a1 == Arena(MixedTree6.arena.nodes + [Node(Num(2.0), None, None, None)], [-2, -1, -4, 0, -7, -6, -9], -10);
    var t := Tree(a1, Some(3));
    assert Attach(t, 5, 6, 0, 6) == MixedTree7;
    CheckPrecedenceOfEntry(Operator("+", FIRST));
    CheckPrecedenceOfEntry(Operator("*", SECOND));
    assert InsertTo(t, 5, 6, 0, 6) == Ok(MixedTree7);
    assert InsertTo(t, 3, 6, 0, 6) == Ok(MixedTree7);
  }

  lemma MixedStep8()
    requires Context(MixedTree7, 0)
    ensures Insert(MixedTree7, Op("-"), 0) == Ok(MixedTree8)
  {
    assert !Outranks(FIRST, FIRST) && Outranks(SECOND, FIRST);
    LeafContext(MixedTree7, Op("-"), 0);
    var a1 := Alloc(MixedTree7.arena, Op("-"), None);
    assert a1 == Arena(MixedTree7.arena.nodes + [Node(Op("-"), None, None, None)], [-2, -1, -4, 0, -7, -6, -9, -10], -11);
    var t := Tree(a1, Some(3));
    assert Lower(a1.level, -6) == [-2, -1, -4, 0, -8, -7, -10, -11];
    assert Splice(t, 5, 7, 0, 7) == MixedTree8;
    assert InsertTo(t, 5, 7, 0, 7) == Ok(MixedTree8) by {
      CheckPrecedenceOfEntry(Operator("*", SECOND));
      CheckPrecedenceOfEntry(Operator("-", FIRST));
    }
    assert InsertTo(t, 3, 7, 0, 7) == Ok(MixedTree8) by {
      CheckPrecedenceOfEntry(Operator("+", FIRST));
      CheckPrecedenceOfEntry(Operator("-", FIRST));
    }
  }

  lemma MixedStep9()
    requires Context(MixedTree8, 0)
    ensures Insert(MixedTree8, Num(12.0), 0) == Ok(MixedTree9)
  {
    assert !Outranks(FIRST, NONE);
    LeafContext(MixedTree8, Num(12.0), 0);
    var a1 := Alloc(MixedTree8.arena, Num(12.0), None);
    assert a1 == Arena(MixedTree8.arena.nodes + [Node(Num(12.0), None, None, None)], [-2, -1, -4, 0, -8, -7, -10, -6, -12], -13);
    var t := Tree(a1, Some(7));
    assert Attach(t, 7, 8, 0, 8) == MixedTree9;
    CheckPrecedenceOfEntry(Operator("-", FIRST));
    assert InsertTo(t, 7, 8, 0, 8) == Ok(MixedTree9);
  }

  /** Multiplication and exponentiation bind tighter than addition here, but the final `-`
      is spliced above `*` through the stale parent link of the `*` node, so the root becomes
      `-` over `6*2` and `12`: the `3**2+` part is no longer reachable from the root. */
  lemma MixedParse()
    ensures Parse("3**2+6*2-12") == Ok(MixedTree9)
  {
    var s := "3**2+6*2-12";
    ScanDigit(s, 0);
    ScanTwoCharOperator(s, 1);
    ScanDigit(s, 3);
    ScanOperator(s, 4);
    ScanDigit(s, 5);
    ScanOperator(s, 6);
    ScanDigit(s, 7);
    ScanOperator(s, 8);
    ScanTwoDigits(s, 9);
    assert Insert(MixedTree0, Num(3.0), 0) == Ok(MixedTree1);
    MixedStep2();
    MixedStep3();
    MixedStep4();
    MixedStep5();
    MixedStep6();
    MixedStep7();
    MixedStep8();
    MixedStep9();
    assert ParseFrom(s, 11, MixedTree9, 0) == Ok(MixedTree9);
    assert ParseFrom(s, 9, MixedTree8, 0) == Ok(MixedTree9);
    assert ParseFrom(s, 8, MixedTree7, 0) == Ok(MixedTree9);
    assert ParseFrom(s, 7, MixedTree6, 0) == Ok(MixedTree9);
    assert ParseFrom(s, 6, MixedTree5, 0) == Ok(MixedTree9);
    assert ParseFrom(s, 5, MixedTree4, 0) == Ok(MixedTree9);
    assert ParseFrom(s, 4, MixedTree3, 0) == Ok(MixedTree9);
    assert ParseFrom(s, 3, MixedTree2, 0) == Ok(MixedTree9);
    assert ParseFrom(s, 1, MixedTree1, 0) == Ok(MixedTree9);
  }

  lemma MixedTreeProductNode(au: ArithmeticUnit)
    requires Ranked(MixedTree9.arena)
    ensures Denote(MixedTree9.arena, 5, au) == Combine(Op("*"), Some(Num(6.0)), Some(Num(2.0)), au)
  {
    var a := MixedTree9.arena;
    assert Denote(a, 4, au) == Ok(Num(6.0)) && Denote(a, 6, au) == Ok(Num(2.0));
  }

  lemma MixedTreeRootNode(au: ArithmeticUnit, v: real)
    requires Ranked(MixedTree9.arena) && Denote(MixedTree9.arena, 5, au) == Ok(Num(v))
    ensures Denote(MixedTree9.arena, 7, au) == Combine(Op("-"), Some(Num(v)), Some(Num(12.0)), au)
  {
    assert Denote(MixedTree9.arena, 8, au) == Ok(Num(12.0));
  }

  lemma MixedTreeDenotes(au: ArithmeticUnit)
    requires Ranked(MixedTree9.arena)
    ensures Denote(MixedTree9.arena, 7, au) == Ok(Num(0.0))
  {
    TimesLookup();
    MinusLookup();
    MixedTreeProductNode(au);
    CombineTimes(au, 6.0, 2.0);
    TimesArithmetic(au, 6.0, 2.0);
    MixedTreeRootNode(au, 12.0);
    CombineMinus(au, 12.0, 12.0);
    MinusArithmetic(au, 12.0, 12.0);
  }

  /** Hence `3**2+6*2-12` evaluates to 0, not to 9. */
  lemma MixedValue(au: ArithmeticUnit)
    ensures Run("3**2+6*2-12", au) == Ok(0.0)
  {
    MixedParse();
    SolveIsDenotation(MixedTree9, au);
    MixedTreeDenotes(au);
  }

  // The trees that AST.init builds for "2*3**2", one per token.
  const PowerTree0 := Tree(EmptyArena, None)
  const PowerTree1 := Tree(Arena([Node(Num(2.0), None, None, None)],
                               [0], -1), Some(0))
  const PowerTree2 := Tree(Arena([Node(Num(2.0), Some(1), None, None),
                                Node(Op("*"), None, Some(0), None)],
                               [-1, 0], -3), Some(1))
  const PowerTree3 := Tree(Arena([Node(Num(2.0), Some(1), None, None),
                                Node(Op("*"), None, Some(0), Some(2)),
                                Node(Num(3.0), Some(1), None, None)],
                               [-1, 0, -3], -4), Some(1))
  const PowerTree4 := Tree(Arena([Node(Num(2.0), Some(1), None, None),
                                Node(Op("*"), None, Some(0), Some(3)),
                                Node(Num(3.0), Some(1), None, None),
                                Node(Op("**"), None, Some(2), None)],
                               [-1, 0, -4, -3], -6), Some(1))
  const PowerTree5 := Tree(Arena([Node(Num(2.0), Some(1), None, None),
                                Node(Op("*"), None, Some(0), Some(3)),
                                Node(Num(3.0), Some(1), None, None),
                                Node(Op("**"), None, Some(2), Some(4)),
                                Node(Num(2.0), Some(3), None, None)],
                               [-1, 0, -4, -3, -6], -7), Some(1))

  lemma PowerTreeStep2()
    requires Context(PowerTree1, 0)
    ensures Insert(PowerTree1, Op("*"), 0) == Ok(PowerTree2)
  {
    assert Outranks(NONE, SECOND);
    LeafContext(PowerTree1, Op("*"), 0);
    var a1 := Alloc(PowerTree1.arena, Op("*"), None);
    assert a1 == Arena(PowerTree1.arena.nodes + [Node(Op("*"), None, None, None)], [0, -1], -2);
    var t := Tree(a1, Some(0));
    assert Lower(a1.level, 0) == [-1, -2];
    assert Splice(t, 0, 1, 0, 1) == PowerTree2;
    CheckPrecedenceOfEntry(Operator("*", SECOND));
    assert InsertTo(t, 0, 1, 0, 1) == Ok(PowerTree2);
  }

  lemma PowerTreeStep3()
    requires Context(PowerTree2, 0)
    ensures Insert(PowerTree2, Num(3.0), 0) == Ok(PowerTree3)
  {
    assert !Outranks(SECOND, NONE);
    LeafContext(PowerTree2, Num(3.0), 0);
    var a1 := Alloc(PowerTree2.arena, Num(3.0), None);
    assert a1 == Arena(PowerTree2.arena.nodes + [Node(Num(3.0), None, None, None)], [-1, 0, -3], -4);
    var t := Tree(a1, Some(1));
    assert Attach(t, 1, 2, 0, 2) == PowerTree3;
    CheckPrecedenceOfEntry(Operator("*", SECOND));
    assert InsertTo(t, 1, 2, 0, 2) == Ok(PowerTree3);
  }

  lemma PowerTreeStep4()
    requires Context(PowerTree3, 0)
    ensures Insert(PowerTree3, Op("**"), 0) == Ok(PowerTree4)
  {
    assert !Outranks(SECOND, THIRD) && Outranks(NONE, THIRD);
    LeafContext(PowerTree3, Op("**"), 0);
    var a1 := Alloc(PowerTree3.arena, Op("**"), None);
    assert a1 == Arena(PowerTree3.arena.nodes + [Node(Op("**"), None, None, None)], [-1, 0, -3, -4], -5);
    var t := Tree(a1, Some(1));
    assert Lower(a1.level, -3) == [-1, 0, -4, -5];
    assert Splice(t, 2, 3, 0, 3) == PowerTree4;
    CheckPrecedenceOfEntry(Operator("*", SECOND));
    CheckPrecedenceOfEntry(Operator("**", THIRD));
    assert InsertTo(t, 2, 3, 0, 3) == Ok(PowerTree4);
    assert InsertTo(t, 1, 3, 0, 3) == Ok(PowerTree4);
  }

  lemma PowerTreeStep5()
    requires Context(PowerTree4, 0)
    ensures Insert(PowerTree4, Num(2.0), 0) == Ok(PowerTree5)
  {
    assert !Outranks(SECOND, NONE) && !Outranks(THIRD, NONE);
    LeafContext(PowerTree4, Num(2.0), 0);
    var a1 := Alloc(PowerTree4.arena, Num(2.0), None);
    assert a1 == Arena(PowerTree4.arena.nodes + [Node(Num(2.0), None, None, None)], [-1, 0, -4, -3, -6], -7);
    var t := Tree(a1, Some(1));
    assert Attach(t, 3, 4, 0, 4) == PowerTree5;
    CheckPrecedenceOfEntry(Operator("*", SECOND));
    CheckPrecedenceOfEntry(Operator("**", THIRD));
    assert InsertTo(t, 3, 4, 0, 4) == Ok(PowerTree5);
    assert InsertTo(t, 1, 4, 0, 4) == Ok(PowerTree5);
  }

  /** `**` outranks `*`, so `2*3**2` nests as 2*(3**2). */
  lemma PowerParse()
    ensures Parse("2*3**2") == Ok(PowerTree5)
  {
    var s := "2*3**2";
    ScanDigit(s, 0);
    ScanOperator(s, 1);
    ScanDigit(s, 2);
    ScanTwoCharOperator(s, 3);
    ScanDigit(s, 5);
    assert Insert(PowerTree0, Num(2.0), 0) == Ok(PowerTree1);
    PowerTreeStep2();
    PowerTreeStep3();
    PowerTreeStep4();
    PowerTreeStep5();
    assert ParseFrom(s, 6, PowerTree5, 0) == Ok(PowerTree5);
    assert ParseFrom(s, 5, PowerTree4, 0) == Ok(PowerTree5);
    assert ParseFrom(s, 3, PowerTree3, 0) == Ok(PowerTree5);
    assert ParseFrom(s, 2, PowerTree2, 0) == Ok(PowerTree5);
    assert ParseFrom(s, 1, PowerTree1, 0) == Ok(PowerTree5);
  }

  lemma PowerTreeRightNode(au: ArithmeticUnit)
    requires Ranked(PowerTree5.arena)
    ensures Denote(PowerTree5.arena, 3, au) == Combine(Op("**"), Some(Num(3.0)), Some(Num(2.0)), au)
  {
    var a := PowerTree5.arena;
    assert Denote(a, 2, au) == Ok(Num(3.0)) && Denote(a, 4, au) == Ok(Num(2.0));
  }

  lemma PowerTreeRootNode(au: ArithmeticUnit, v: real)
    requires Ranked(PowerTree5.arena) && Denote(PowerTree5.arena, 3, au) == Ok(Num(v))
    ensures Denote(PowerTree5.arena, 1, au) == Combine(Op("*"), Some(Num(2.0)), Some(Num(v)), au)
  {
    assert Denote(PowerTree5.arena, 0, au) == Ok(Num(2.0));
  }

  lemma PowerTreeDenotes(au: ArithmeticUnit)
    requires Ranked(PowerTree5.arena) && au.exponentiate(3.0, 2.0) == 9.0
    ensures Denote(PowerTree5.arena, 1, au) == Ok(Num(18.0))
  {
    PowerLookup();
    TimesLookup();
    PowerTreeRightNode(au);
    CombinePower(au, 3.0, 2.0);
    PowerArithmetic(au, 3.0, 2.0);
    PowerTreeRootNode(au, 9.0);
    CombineTimes(au, 2.0, 9.0);
    TimesArithmetic(au, 2.0, 9.0);
  }

  /** Hence `2*3**2` evaluates to 18 when exponentiate gives 9 for 3 and 2, as Math.pow does. */
  lemma PowerValue(au: ArithmeticUnit)
    requires au.exponentiate(3.0, 2.0) == 9.0
    ensures Run("2*3**2", au) == Ok(18.0)
  {
    PowerParse();
    SolveIsDenotation(PowerTree5, au);
    PowerTreeDenotes(au);
  }

  // The trees that AST.init builds for "5+-3", one per token.
  const SignTree0 := Tree(EmptyArena, None)
  const SignTree1 := Tree(Arena([Node(Num(5.0), None, None, None)],
                               [0], -1), Some(0))
  const SignTree2 := Tree(Arena([Node(Num(5.0), Some(1), None, None),
                                Node(Op("+-"), None, Some(0), None)],
                               [-1, 0], -3), Some(1))
  const SignTree3 := Tree(Arena([Node(Num(5.0), Some(1), None, None),
                                Node(Op("+-"), None, Some(0), Some(2)),
                                Node(Num(3.0), Some(1), None, None)],
                               [-1, 0, -3], -4), Some(1))

  lemma SignTreeStep2()
    requires Context(SignTree1, 0)
    ensures Insert(SignTree1, Op("+-"), 0) == Ok(SignTree2)
  {
    assert Outranks(NONE, FIRST);
    LeafContext(SignTree1, Op("+-"), 0);
    var a1 := Alloc(SignTree1.arena, Op("+-"), None);
    assert a1 == Arena(SignTree1.arena.nodes + [Node(Op("+-"), None, None, None)], [0, -1], -2);
    var t := Tree(a1, Some(0));
    assert Lower(a1.level, 0) == [-1, -2];
    assert Splice(t, 0, 1, 0, 1) == SignTree2;
    CheckPrecedenceOfEntry(Operator("+-", FIRST));
    assert InsertTo(t, 0, 1, 0, 1) == Ok(SignTree2);
  }

  lemma SignTreeStep3()
    requires Context(SignTree2, 0)
    ensures Insert(SignTree2, Num(3.0), 0) == Ok(SignTree3)
  {
    assert !Outranks(FIRST, NONE);
    LeafContext(SignTree2, Num(3.0), 0);
    var a1 := Alloc(SignTree2.arena, Num(3.0), None);
    assert a1 == Arena(SignTree2.arena.nodes + [Node(Num(3.0), None, None, None)], [-1, 0, -3], -4);
    var t := Tree(a1, Some(1));
    assert Attach(t, 1, 2, 0, 2) == SignTree3;
    CheckPrecedenceOfEntry(Operator("+-", FIRST));
    assert InsertTo(t, 1, 2, 0, 2) == Ok(SignTree3);
  }

  /** The lexer fuses `+-` into one operator, which adds the negated right operand. */
  lemma SignParse()
    ensures Parse("5+-3") == Ok(SignTree3)
  {
    var s := "5+-3";
    ScanDigit(s, 0);
    ScanTwoCharOperator(s, 1);
    ScanDigit(s, 3);
    assert Insert(SignTree0, Num(5.0), 0) == Ok(SignTree1);
    SignTreeStep2();
    SignTreeStep3();
    assert ParseFrom(s, 4, SignTree3, 0) == Ok(SignTree3);
    assert ParseFrom(s, 3, SignTree2, 0) == Ok(SignTree3);
    assert ParseFrom(s, 1, SignTree1, 0) == Ok(SignTree3);
  }

  lemma SignTreeRootNode(au: ArithmeticUnit)
    requires Ranked(SignTree3.arena)
    ensures Denote(SignTree3.arena, 1, au) == Combine(Op("+-"), Some(Num(5.0)), Some(Num(3.0)), au)
  {
    var a := SignTree3.arena;
    assert Denote(a, 0, au) == Ok(Num(5.0)) && Denote(a, 2, au) == Ok(Num(3.0));
  }

  lemma SignTreeDenotes(au: ArithmeticUnit)
    requires Ranked(SignTree3.arena)
    ensures Denote(SignTree3.arena, 1, au) == Ok(Num(2.0))
  {
    PlusNegatedLookup();
    SignTreeRootNode(au);
    CombinePlusNegated(au, 5.0, 3.0);
    PlusNegatedArithmetic(au, 5.0, 3.0);
  }

  /** Hence `5+-3` evaluates to 2. */
  lemma SignValue(au: ArithmeticUnit)
    ensures Run("5+-3", au) == Ok(2.0)
  {
    SignParse();
    SolveIsDenotation(SignTree3, au);
    SignTreeDenotes(au);
  }

}
