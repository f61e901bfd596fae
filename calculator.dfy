/**
 * Class Calculator of Tester.java in the imperative form of the source: evalNode rewrites the
 * nodes of the tree in place. Each method is proved to leave the state computed by its
 * counterpart in Evaluation, whose meaning is fixed there by EvalRefinesDenote.
 */
module Calc {
  import opened Wrappers
  import opened Tokens
  import opened Arithmetic
  import opened TreeModel
  import opened Evaluation
  import opened Ast

  class Calculator {
    const au: ArithmeticUnit

    constructor (au: ArithmeticUnit)
      ensures this.au == au
    {
      this.au := au;
    }

    /** Calculator.evalNode (Tester.java:207-234). */
    method EvalNode(heap: Heap, node: Option<nat>) returns (err: Option<Failure>)
      requires Ranked(heap.State()) && LinkBelow(node, |heap.nodes|)
      modifies heap
      ensures var r := Evaluation.EvalNode(old(heap.State()), node, au);
        (r.Ok? ==> err.None? && heap.State() == r.value) && (r.Err? ==> err == Some(r.error))
      decreases Measure(heap.State(), node)
    {
      err := None;
      if node.None? || heap.nodes[node.value].token.Num? {
        return;
      }
      ghost var a := heap.State();
      var i := node.value;
      assert NodeRanked(a, i);
      err := EvalNode(heap, heap.nodes[i].left);
      if err.Some? {
        return;
      }
      ghost var a1 := heap.State();
      assert a1.nodes[i] == a.nodes[i] && NodeRanked(a1, i);
      err := EvalNode(heap, heap.nodes[i].right);
      if err.Some? {
        return;
      }
      assert heap.nodes[i] == a.nodes[i];
      err := Reduce(heap, i);
    }

    /** What evalNode does at a node once both subtrees are evaluated (Tester.java:213-232). */
    method Reduce(heap: Heap, i: nat) returns (err: Option<Failure>)
      requires Ranked(heap.State()) && i < |heap.nodes| && !heap.nodes[i].token.Num?
      modifies heap
      ensures var r := Evaluation.Reduce(old(heap.State()), i, au);
        (r.Ok? ==> err.None? && heap.State() == r.value) && (r.Err? ==> err == Some(r.error))
    {
      err := None;
      var x := heap.nodes[i];
      assert NodeRanked(heap.State(), i);
      if TokenString(x.token) == Grouping {
        if x.left.Some? {
          heap.SetValue(i, heap.nodes[x.left.value].token);
          heap.SetRight(i, None);
          heap.SetLeft(i, None);
        } else if x.right.Some? {
          heap.SetValue(i, heap.nodes[x.right.value].token);
          heap.SetRight(i, None);
          heap.SetLeft(i, None);
        }
      } else if x.left.Some? && x.right.Some? {
        var op := GetOperator(TokenString(x.token));
        var oper1 := NumberOf(heap.nodes[x.left.value].token);
        if oper1.Err? {
          return Some(oper1.error);
        }
        var oper2 := NumberOf(heap.nodes[x.right.value].token);
        if oper2.Err? {
          return Some(oper2.error);
        }
        if op.None? {
          return Some(NullPointer);
        }
        heap.SetValue(i, Num(BinaryEval(au, op.value, oper1.value, oper2.value)));
      }
    }

    /** Calculator.solve (Tester.java:202-205). */
    method Solve(tree: AST) returns (r: Result<real, Failure>)
      requires Ranked(tree.heap.State()) && LinkBelow(tree.root, |tree.heap.nodes|)
      modifies tree.heap
      ensures r == Evaluation.Solve(old(tree.State()), au)
      ensures var e := Evaluation.EvalNode(old(tree.heap.State()), old(tree.root), au);
        e.Ok? ==> tree.heap.State() == e.value
    {
      var err := EvalNode(tree.heap, tree.root);
      if err.Some? {
        return Err(err.value);
      }
      if tree.root.None? {
        return Err(NullPointer);
      }
      r := NumberOf(tree.heap.nodes[tree.root.value].token);
    }
  }

  /** `new Calculator().solve(new AST(expression))` on a fresh heap: the result is the
      denotation of the parsed tree (see Evaluation.SolveIsDenotation). */
  method Calculate(expression: string, au: ArithmeticUnit) returns (r: Result<real, Failure>)
    ensures r == Run(expression, au)
  {
    var heap := new Heap();
    var tree := new AST(heap, expression);
    var err := tree.Init();
    if err.Some? {
      return Err(err.value);
    }
    var calculator := new Calculator(au);
    r := calculator.Solve(tree);
  }
}
