# Expression calculator: a Dafny model of Tester.java

Tester.java is a small calculator for arithmetic expressions over non-negative integers. It has three stages:

1. A `Lexer` cuts the expression into tokens:
   - a maximal run of digits is a number;
   - `(` up to the first `)` is a raw sub-expression;
   - a maximal run of anything else is an operator.
2. An `AST` builds a binary tree of `ASTNode`s, one token at a time:
   - a new node is spliced above the insertion point when that point's precedence strictly exceeds the new node's;
   - otherwise the new node fills the first empty child slot, or the search moves into the right child;
   - a sub-expression is parsed into an AST of its own and hung below a `"()"` grouping node.
3. A `Calculator` reduces the tree in place, in post-order:
   - each operator node with two children becomes a number;
   - each grouping node takes its child's token.

The lookups go through a fixed table of eleven operator symbols. Precedence is compared by the declaration order of the `Precedence` enum.

The model keeps the source's form:
- The lexer, the tree builder and the evaluator are classes whose methods update fields in place with the source's loops and branches (`Lexing.Lexer`, `Ast.Heap`, `Ast.AST`, `Calc.Calculator`).
- Each method is proved to leave exactly the state computed by a specification function:
  - `Lexing.Scan` for the lexer;
  - `TreeModel.InsertTo`, `Insert` and `ParseFrom` for the builder;
  - `Evaluation.EvalNode`, `Reduce` and `Solve` for the evaluator.
- Properties are proved about those functions.

The Java heap of `ASTNode` objects is an arena: a sequence of nodes whose `parent`, `left` and `right` fields are indices. Several ASTs share one arena, as they share the heap. This is what lets the model reproduce the program's parent links faithfully.

A splice below the root never sets the new node's parent field. A later splice above that node therefore takes the no-parent branch and replaces the whole tree. The proof uses ghost ranks: one `level` per node, and one `floor` per arena that lies below every node's level. A fresh node without a child is ranked at the floor, below every other node; a fresh grouping node takes its child's former level, and every rank at or below that level moves down by one. They establish three things: the links are acyclic, the descent of `insertTo` terminates, and the post-order walk of `evalNode` terminates.

The evaluator is related to an independent reference semantics, `Evaluation.Denote`, which computes what each node stands for without changing anything. `EvalRefinesDenote` proves three things about the in-place reduction:
- it succeeds exactly when the denotation does;
- it fails with the same exception otherwise;
- it leaves each node it evaluates holding that denotation.

The modules are:
- `Wrappers`;
- `Tokens`: tokens, precedences and the operator table;
- `Lexing`;
- `Arithmetic`: `ArithmeticUnit` and `binaryEval`;
- `TreeModel`;
- `Evaluation`;
- `Ast`;
- `Calc`;
- `Examples` and `GroupingExamples`: proved evaluations of concrete expressions.

The model follows the code where the expected results sometimes quoted for this program differ from it:
- `3**2+6*2-12`, the expression `main` evaluates, gives 0, not 9. After `-` is spliced above `6*2`, the tree's root is that `-` node. The stale parent link of the product discards `3**2+`. This is `Examples.MixedParse` and `Examples.MixedValue`.
- `10-3-2` gives 9, not 5. Operators of equal precedence descend to the right, so the tree is `10-(3-2)`. This is `Examples.SubtractionNestsRight` and `Examples.SubtractionValue`.

## Model

| member | source | states |
|---|---|---|
| Tokens.Ordinal | Tester.java:448-450 | the position of a precedence in the enum's declaration order, ZERO first and NONE last |
| Tokens.Outranks | Tester.java:444-446 | `compareTo(...) > 0` on precedences, as insertTo tests it at line 58: the first is declared after the second; its order properties are stated by OutranksIsStrictTotalOrder |
| Tokens.OutranksIsStrictTotalOrder | Tester.java:444-450 | `compareTo > 0` on precedences, by declaration order, is irreflexive, transitive and total; NONE, declared last, outranks every other precedence |
| Tokens.NoneIsTop | Tester.java:448-450 | no precedence strictly outranks NONE |
| Tokens.SymbolsUnique | Tester.java:173-187 | the eleven symbols of the operator table are pairwise distinct |
| Tokens.Supported | Tester.java:168-187 | a symbol is supported when some entry of the static operator table carries it |
| Tokens.TokenString | Tester.java:189-194 | the `(String)` cast of a non-number token's value (also at lines 213 and 227): an operator's symbol or a sub-expression's raw text |
| Tokens.Find | Tester.java:196-200 | the for-each search returns an entry of the table carrying exactly the symbol sought, and returns nothing exactly when no entry carries it |
| Tokens.GetOperator | Tester.java:196-200 | getOperator: the search of the operator table for a symbol; what it returns is stated by GetOperatorMeaning and GetOperatorExact |
| Tokens.GetOperatorMeaning | Tester.java:196-200 | getOperator finds an entry exactly when the symbol is in the table, and the entry carries that symbol |
| Tokens.GetOperatorExact | Tester.java:173-200 | every table entry is what getOperator returns for its own symbol, whatever order the set is iterated in |
| Tokens.CheckPrecedence | Tester.java:189-194 | a number token has precedence NONE; the only failure is InvalidExpressionException |
| Tokens.CheckPrecedenceMeaning | Tester.java:189-194 | a non-number token succeeds exactly when its string is a table symbol, and then yields the precedence of that symbol's entry |
| Tokens.CheckPrecedenceOfEntry | Tester.java:173-194 | each table symbol, as an operator or as a sub-expression string, yields its own entry's precedence |
| Tokens.TableLeads | Tester.java:173-187 | every table symbol is non-empty and starts with one of `(` `+` `-` `*` `/` |
| Tokens.FindMissing | Tester.java:196-200 | a search of a table whose symbols all start with such a character finds nothing for a string starting with another character |
| Tokens.UnsupportedLead | Tester.java:189-200 | for such a string (e.g. `%`) getOperator returns null and checkPrecedence throws InvalidExpressionException |
| Lexing.IsDigit | Tester.java:341 | `Character.isDigit`, restricted to the ASCII digits, as tested in nextToken (line 326) and getNumber's loop |
| Lexing.IsOperatorChar | Tester.java:353 | the test of getOperator's loop: neither a digit nor `(` |
| Lexing.DigitRunEnd | Tester.java:341-344 | the end of the maximal run of digits from the cursor |
| Lexing.OperatorRunEnd | Tester.java:353-356 | the end of the maximal run of characters that are neither digits nor `(` (it may include `)`) |
| Lexing.CloseIndex | Tester.java:365-368 | the index of the first `)` at or after the cursor, or the end of the string |
| Lexing.DecimalValue | Tester.java:346 | `Double.parseDouble` of a digit run: the numeral's value, most significant digit first, computed exactly; Scan and GetNumber state that a number token carries it |
| Lexing.Scan | Tester.java:325-374 | one lexer step always advances; it stops at most one past the end, and only for an unterminated `(`. A digit gives a number whose value is the decimal value of the maximal digit run. An operator is the maximal run without digits or `(`. A sub-expression starts with `(` and ends with the first `)`, or runs to the end of the string |
| Lexing.LexemesCover | Tester.java:25-30 | the slices consumed by init's loop concatenate back to the whole input |
| Lexing.TokenIsLexeme | Tester.java:337-374 | each token's text (or, for a number, its digits) is exactly the slice consumed |
| Lexing.Lexer.constructor | Tester.java:318-323 | the cursor starts at 0 over the given expression |
| Lexing.Lexer.HasMoreTokens | Tester.java:376-379 | true exactly when the cursor is before the end |
| Lexing.Lexer.NextToken | Tester.java:325-335 | returns the token and leaves the cursor where Scan says |
| Lexing.Lexer.GetNumber | Tester.java:337-347 | the loop consumes the maximal digit run and returns its decimal value |
| Lexing.Lexer.GetOperator | Tester.java:349-359 | the loop consumes the maximal operator run and returns it as the symbol |
| Lexing.Lexer.GetSubExpression | Tester.java:361-374 | consumes through the first `)`; with none, takes the rest of the string and leaves the cursor one past the end (the increment in `charAt(position++)` happens before the exception, which the catch block swallows) |
| Arithmetic.BinaryEval | Tester.java:236-272 | binaryEval: the switch over the operator's symbol; its cases are stated by BinaryEvalMeaning and TableSymbolsAreEvaluated |
| Arithmetic.ArithmeticUnit.Add | Tester.java:291-293 | the sum of the two operands |
| Arithmetic.ArithmeticUnit.Subtract | Tester.java:295-297 | the minuend less the subtrahend |
| Arithmetic.ArithmeticUnit.Multiply | Tester.java:299-301 | the product of the two operands |
| Arithmetic.ArithmeticUnit.Divide | Tester.java:303-305 | the supplied division, standing for IEEE `/` |
| Arithmetic.ArithmeticUnit.Exponentiate | Tester.java:307-309 | the supplied exponentiation, standing for `Math.pow` |
| Arithmetic.BinaryEvalMeaning | Tester.java:236-272 | each primitive symbol applies its ArithmeticUnit operation; each composite `X-` applies X's operation to the negated right operand; any other symbol gives the initial 0 |
| Arithmetic.TableSymbolsAreEvaluated | Tester.java:173-187 | every table symbol other than `()` has its own case in binaryEval |
| TreeModel.Alloc | Tester.java:125-127 | `new ASTNode(token)` appends a node with that token and no links, except the right child given for a grouping node; the existing nodes are unchanged |
| TreeModel.AllocRanked | Tester.java:125-127 | allocating a fresh node keeps the arena acyclic and well-linked |
| TreeModel.Splice | Tester.java:59-72 | the splice as a state change: the new node's left becomes the insertion point; the recorded parent's slot that held the insertion point now holds the new node, or, with no recorded parent, the new node becomes the root and the insertion point's parent; its fields are stated by SpliceNodes and its invariant by SpliceContext |
| TreeModel.SpliceLevels | Tester.java:59-72 | how a splice re-ranks: the new node takes the insertion point's rank, and the rank of every node at or below it moves one down |
| TreeModel.SpliceNodes | Tester.java:59-72 | the splice's frame: the new node's left becomes the insertion point. The recorded parent's slot that held the insertion point (its right slot if so, else its left) now points at the new node. With no recorded parent, the insertion point's parent becomes the new node. Nothing else changes; in particular the new node's parent stays unset |
| TreeModel.SpliceNodeRanked | Tester.java:59-72 | every node is still correctly ranked after a splice |
| TreeModel.SpliceContext | Tester.java:59-72 | a splice keeps the tree invariant and the nodes outside the AST; the root is unchanged or is the new node |
| TreeModel.AttachContext | Tester.java:91-96 | attaching into an empty slot keeps the tree invariant and the root |
| TreeModel.Attach | Tester.java:91-96 | the new node fills the insertion point's left slot if it is empty, else its right slot, and its parent becomes the insertion point; the invariant it keeps is stated by AttachContext |
| TreeModel.InsertTo | Tester.java:57-101 | insertTo keeps the tree invariant. It touches no node of an enclosing AST and allocates nothing. The root is unchanged or is the new node. The only failure is InvalidExpressionException |
| TreeModel.InsertToRule | Tester.java:57-101 | the insertion rule. A failed lookup throws. A strict outranking gives the splice. Otherwise the new node fills the left slot if empty, else the right slot if empty, with its parent set to the insertion point; else the search continues into the right child. Equal precedences therefore never splice |
| TreeModel.InsertToOutranked | Tester.java:57-101 | a node of precedence NONE (a number or a grouping node) is never spliced: it is attached with its token and children unchanged and a parent set, and the root does not move |
| TreeModel.Insert | Tester.java:32-55 | insert keeps the tree invariant and the enclosing nodes, and always leaves a root |
| TreeModel.InsertLeafShape | Tester.java:48-54 | a number or operator becomes a new childless node holding the token. It is the root of an empty tree; otherwise it is passed to insertTo with the root as insertion point |
| TreeModel.InsertGroupShape | Tester.java:34-47 | a one-character sub-expression fails in substring. Otherwise the inner text's AST is built over the same heap, and its failure is insert's failure. The new `()` node has no left child and that AST's root as right child. It is the root of an empty tree; otherwise the root is unchanged |
| TreeModel.Inner | Tester.java:38 | `substring(1, length - 1)` of a sub-expression token: its text without the first and last character (also at line 44) |
| TreeModel.LeafContext | Tester.java:48-54 | a fresh leaf node satisfies insertTo's precondition with the root as insertion point; in particular it has no left child |
| TreeModel.GroupContext | Tester.java:34-47 | a fresh grouping node over a sub-AST satisfies insertTo's precondition, with no left child, so only the first of the three splice branches can ever run |
| TreeModel.ParseFrom | Tester.java:25-30 | init's loop inserts token after token, keeps the invariant and the enclosing nodes, and stops at the first failure |
| TreeModel.Parse | Tester.java:16-19 | `new AST(expression)` on a fresh heap yields a well-formed tree |
| Evaluation.NumberOf | Tester.java:204 | the `(Double)` cast succeeds exactly on numbers and fails with ClassCastException otherwise |
| Evaluation.Reduce | Tester.java:213-232 | the reduction of one node changes only that node and keeps its parent link and the ranks. A grouping node with a child takes the token of its left child if it has one, else of its right child, and ends with no children. A grouping node without children, and any other node lacking a child, is left as it is. An operator node with two children fails with ClassCastException if a child is not a number, else with NullPointerException if its symbol is not in the table; otherwise it keeps its links and becomes the number binaryEval gives |
| Evaluation.EvalNode | Tester.java:207-234 | evalNode changes no node ranked above the one evaluated (its ancestors and the nodes of enclosing trees), never changes a number, and keeps the ranks |
| Evaluation.ReduceRefines | Tester.java:213-232 | once the children hold their denotations, the reduction settles the node to its own denotation, or fails exactly as the denotation does |
| Evaluation.EvalRefinesDenote | Tester.java:207-234 | the in-place post-order reduction succeeds exactly when the reference denotation does, with the same failure otherwise; every node it changes ends up holding what it stood for |
| Evaluation.Solve | Tester.java:202-205 | solve: evalNode from the root, then the `(Double)` cast of the root's token; its meaning is stated by SolveIsDenotation |
| Evaluation.Run | Tester.java:6-8 | `new Calculator().solve(new AST(expression))`: parse, then solve, stopping at the first failure; Calc.Calculate is proved to compute it and the examples evaluate it |
| Evaluation.SolveIsDenotation | Tester.java:202-205 | solve of an empty tree throws NullPointerException; otherwise it is the root's denotation cast to a number |
| Ast.Heap.constructor | Tester.java:118-127 | the heap starts empty |
| Ast.Heap.NewNode | Tester.java:125-127 | `new ASTNode(token)` (with setRight for a grouping node) is the allocation of the arena model |
| Ast.Heap.SetValue | Tester.java:145-147 | updates one node's token and nothing else |
| Ast.Heap.SetLeft | Tester.java:149-151 | updates one node's left link and nothing else |
| Ast.Heap.SetRight | Tester.java:153-155 | updates one node's right link and nothing else |
| Ast.Heap.SetParent | Tester.java:157-159 | updates one node's parent link and nothing else |
| Ast.AST.constructor | Tester.java:16-18 | an AST starts with no root over the given expression |
| Ast.AST.Init | Tester.java:25-30 | the lexer loop leaves exactly the tree ParseFrom computes, or reports its failure |
| Ast.AST.Insert | Tester.java:32-55 | leaves exactly the tree Insert computes, or reports its failure |
| Ast.AST.InsertTo | Tester.java:57-101 | leaves exactly the tree InsertTo computes, or reports its failure |
| Ast.AST.SpliceAbove | Tester.java:59-72 | leaves exactly the spliced tree |
| Ast.AST.AttachBelow | Tester.java:91-96 | leaves exactly the tree with the new node in the first empty slot |
| Calc.Calculator.constructor | Tester.java:169 | the calculator holds the given arithmetic unit |
| Calc.Calculator.EvalNode | Tester.java:207-234 | leaves exactly the heap EvalNode computes, or reports its failure |
| Calc.Calculator.Reduce | Tester.java:213-232 | leaves exactly the heap Reduce computes, or reports its failure |
| Calc.Calculator.Solve | Tester.java:202-205 | returns exactly what Solve computes, and after a successful evaluation leaves exactly the heap EvalNode computes from the root |
| Calc.Calculate | Tester.java:6-8 | `new Calculator().solve(new AST(expression))` returns exactly Run(expression) |
| Examples.SubtractionNestsRight | Tester.java:57-101 | `10-3-2` is built as `10-(3-2)`: equal precedences descend to the right |
| Examples.SubtractionValue | Tester.java:202-272 | `10-3-2` evaluates to 9 |
| Examples.MixedParse | Tester.java:57-101 | `3**2+6*2-12` ends with root `-` over `6*2` and `12`: the stale parent link of the product makes the last splice replace the root |
| Examples.MixedValue | Tester.java:6-8 | `3**2+6*2-12`, the expression main evaluates, gives 0 |
| Examples.PowerParse | Tester.java:57-101 | `2*3**2` is built as `2*(3**2)` |
| Examples.PowerValue | Tester.java:202-272 | `2*3**2` gives 18 when the exponentiation gives 9 |
| Examples.SignParse | Tester.java:349-359 | `5+-3` is lexed with `+-` as one operator |
| Examples.SignValue | Tester.java:255-257 | `5+-3` gives 2 |
| GroupingExamples.GroupParse | Tester.java:32-55 | `(2+3)*4` has the sum below a grouping node, which is the product's left operand |
| GroupingExamples.GroupValue | Tester.java:207-234 | `(2+3)*4` gives 20 |
| GroupingExamples.EmptyGroupFails | Tester.java:202-205 | `()` leaves a childless grouping node as root, and solve's cast throws ClassCastException |
| GroupingExamples.UnterminatedGroupFails | Tester.java:37-38 | a lone `(` makes `substring(1, 0)` throw |
| GroupingExamples.UnsupportedOperatorFails | Tester.java:189-194 | `3%2` throws InvalidExpressionException |

## Left out

- Printing: `main`'s output, `AST.print`/`printFrom` and the `toString` methods. They are output formatting only. `Calc.Calculate` stands for `main` without the printing.
- IEEE doubles: values are exact reals, so rounding, overflow and NaN are not modelled. Division and `Math.pow` are functions supplied in `ArithmeticUnit`, so nothing relies on what they compute, division by zero included.
- `Double.parseDouble`: a digit run has its exact decimal value, with no rounding of long numerals.
- Characters: a Dafny string is a sequence of Unicode scalar values, while Java's `charAt`, `length` and `substring` work on UTF-16 code units. For input containing characters outside the Basic Multilingual Plane the model's results can differ from the program's: on `(1𝔸` the program's `substring(1, length - 1)` splits the surrogate pair and checkPrecedence throws InvalidExpressionException, while the model evaluates the group `1𝔸` to 1. Lexing.Scan, the Lexer methods and TreeModel.Insert are faithful only for input within the Basic Multilingual Plane.
- `Character.isDigit`: the model accepts only the ASCII digits `0` to `9`; the other Unicode digits are not modelled.
- The ArithmeticUnit singleton (`getInstance`): the arithmetic unit is a parameter.
- The static initialiser of the operator table.
- `HashSet` iteration order: the table is a sequence. The symbols are unique (`Tokens.SymbolsUnique`), so every lookup result is the same whatever the order (`Tokens.GetOperatorExact`).
- `unaryEval`, `Token.setType` and `Token.setValue`: they are never called.
- Exceptions other than InvalidExpressionException become failure values: ClassCastException, StringIndexOutOfBoundsException and NullPointerException. They are not thrown, and the state of the heap after a failure is not specified.
- Ast.AST.Insert: the grouping node is allocated after the sub-AST's nodes. The source allocates it before them. Nothing in the program observes allocation order.
- Ast.AST.InsertTo: the second and third splice branches (Tester.java:73-89) are not modelled as code paths. Every caller passes a node with no left child (`TreeModel.LeafContext`, `TreeModel.GroupContext`), so the first branch is always taken.
- The ranks in `Ast.Heap` (`level`, `floor`) are proof-only ghost state. They are not part of the program.
