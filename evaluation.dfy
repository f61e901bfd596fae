/**
 * The evaluator of class Calculator (evalNode and solve) as functions over the arena, and
 * Denote, a reference semantics that computes the value of a node without changing anything.
 * EvalRefinesDenote proves that the in-place post-order reduction leaves every node it
 * evaluates holding its denotation, and fails exactly when the denotation fails.
 */
module Evaluation {
  import opened Wrappers
  import opened Tokens
  import opened Arithmetic
  import opened TreeModel

  /** `(Double) token.value()`. */
  function NumberOf(t: Token): (r: Result<real, Failure>)
    ensures r.Ok? <==> t.Num?
    ensures r.Ok? ==> r.value == t.value
    ensures r.Err? ==> r.error == ClassCast
  {
    if t.Num? then Ok(t.value) else Err(ClassCast)
  }

  ghost function Measure(a: Arena, node: Option<nat>): int
  {
    if node.Some? && node.value < |a.level| then a.level[node.value] - a.floor else 0
  }

  /** The last step of evalNode (Tester.java:213-232), once both children are evaluated. A
      grouping node with a child takes the token of its left child if it has one, else of its
      right child, and loses both children. Any other node with two children becomes a number:
      binaryEval of its operator applied to its children's values. Every other node is left
      as it is. */
  ghost function Reduce(a: Arena, i: nat, au: ArithmeticUnit): (r: Result<Arena, Failure>)
    requires Ranked(a) && i < |a.nodes| && !a.nodes[i].token.Num?
    ensures r.Ok? ==> Ranked(r.value) && r.value.level == a.level && r.value.floor == a.floor
    ensures r.Ok? ==> |r.value.nodes| == |a.nodes| && r.value.nodes[i].parent == a.nodes[i].parent
    ensures r.Ok? ==> forall k :: 0 <= k < |a.nodes| && k != i ==> r.value.nodes[k] == a.nodes[k]
    ensures var x := a.nodes[i]; assert NodeRanked(a, i);
      TokenString(x.token) == Grouping && (x.left.Some? || x.right.Some?) ==>
        var c := if x.left.Some? then x.left.value else x.right.value;
        r.Ok? && r.value.nodes[i] == Node(a.nodes[c].token, x.parent, None, None)
    ensures var x := a.nodes[i];
      (if TokenString(x.token) == Grouping then x.left.None? && x.right.None? else x.left.None? || x.right.None?) ==>
        r == Ok(a)
    ensures var x := a.nodes[i]; assert NodeRanked(a, i);
      TokenString(x.token) != Grouping && x.left.Some? && x.right.Some? ==>
        var l := a.nodes[x.left.value].token;
        var rt := a.nodes[x.right.value].token;
        var op := GetOperator(TokenString(x.token));
        (r.Err? <==> !l.Num? || !rt.Num? || op.None?) &&
        (r.Err? ==> r.error == if l.Num? && rt.Num? then NullPointer else ClassCast) &&
        (r.Ok? ==> r.value.nodes[i] == x.(token := Num(BinaryEval(au, op.value, l.value, rt.value))))
  {
    var x := a.nodes[i];
    assert NodeRanked(a, i);
    if TokenString(x.token) == Grouping then
      if x.left.Some? then
        var r := Arena(a.nodes[i := Node(a.nodes[x.left.value].token, x.parent, None, None)], a.level, a.floor);
        assert forall k :: 0 <= k < |r.nodes| ==> NodeRanked(a, k) ==> NodeRanked(r, k);
        Ok(r)
      else if x.right.Some? then
        var r := Arena(a.nodes[i := Node(a.nodes[x.right.value].token, x.parent, None, None)], a.level, a.floor);
        assert forall k :: 0 <= k < |r.nodes| ==> NodeRanked(a, k) ==> NodeRanked(r, k);
        Ok(r)
      else Ok(a)
    else if x.left.Some? && x.right.Some? then
      var op := GetOperator(TokenString(x.token));
      var v1 :- NumberOf(a.nodes[x.left.value].token);
      var v2 :- NumberOf(a.nodes[x.right.value].token);
      if op.None? then Err(NullPointer)   // binaryEval dereferences the null operator
      else
        var r := Arena(a.nodes[i := x.(token := Num(BinaryEval(au, op.value, v1, v2)))], a.level, a.floor);
        assert forall k :: 0 <= k < |r.nodes| ==> NodeRanked(a, k) ==> NodeRanked(r, k);
        Ok(r)
    else Ok(a)
  }

  /** Calculator.evalNode (Tester.java:207-234): nothing happens to an absent node or a number;
      otherwise the left and then the right subtree are evaluated before the node is reduced.
      Only nodes ranked at or below the node can change, and numbers never do. */
  ghost function EvalNode(a: Arena, node: Option<nat>, au: ArithmeticUnit): (r: Result<Arena, Failure>)
    requires Ranked(a) && LinkBelow(node, |a.nodes|)
    ensures r.Ok? ==> Ranked(r.value) && r.value.level == a.level && r.value.floor == a.floor
    ensures r.Ok? ==> |r.value.nodes| == |a.nodes|
    ensures r.Ok? ==> forall k :: 0 <= k < |a.nodes| && (node.None? || a.level[node.value] < a.level[k]) ==>
      r.value.nodes[k] == a.nodes[k]
    ensures r.Ok? ==> forall k :: 0 <= k < |a.nodes| && a.nodes[k].token.Num? ==> r.value.nodes[k] == a.nodes[k]
    decreases Measure(a, node)
  {
    if node.None? || a.nodes[node.value].token.Num? then Ok(a)
    else
      var i := node.value;
      assert NodeRanked(a, i);
      var a1 :- EvalNode(a, a.nodes[i].left, au);
      assert a1.nodes[i] == a.nodes[i] && NodeRanked(a1, i);
      var a2 :- EvalNode(a1, a1.nodes[i].right, au);
      assert a2.nodes[i] == a.nodes[i];
      Reduce(a2, i, au)
  }

  /** Calculator.solve (Tester.java:202-205): evaluate from the root, then read the root's
      number; an empty tree dereferences a null root. */
  ghost function Solve(t: Tree, au: ArithmeticUnit): Result<real, Failure>
    requires Ranked(t.arena) && LinkBelow(t.root, |t.arena.nodes|)
  {
    var a :- EvalNode(t.arena, t.root, au);
    if t.root.None? then Err(NullPointer) else NumberOf(a.nodes[t.root.value].token)
  }

  /** `new Calculator().solve(new AST(expression))`. */
  ghost function Run(expression: string, au: ArithmeticUnit): Result<real, Failure>
  {
    var t :- Parse(expression);
    Solve(t, au)
  }

  // ---------------------------------------------------------------------------------------
  // Reference semantics

  /** What a non-number node stands for, given what its children stand for. */
  function Combine(token: Token, l: Option<Token>, r: Option<Token>, au: ArithmeticUnit): Result<Token, Failure>
    requires !token.Num?
  {
    if TokenString(token) == Grouping then
      if l.Some? then Ok(l.value) else if r.Some? then Ok(r.value) else Ok(token)
    else if l.Some? && r.Some? then
      var v1 :- NumberOf(l.value);
      var v2 :- NumberOf(r.value);
      match GetOperator(TokenString(token))
      case None => Err(NullPointer)
      case Some(op) => Ok(Num(BinaryEval(au, op, v1, v2)))
    else Ok(token)
  }

  /** The token node i stands for: a number stands for itself, any other node for the
      combination of what its children stand for. */
  ghost function Denote(a: Arena, i: nat, au: ArithmeticUnit): Result<Token, Failure>
    requires Ranked(a) && i < |a.nodes|
    decreases a.level[i] - a.floor, 0
  {
    var x := a.nodes[i];
    assert NodeRanked(a, i);
    if x.token.Num? then Ok(x.token)
    else
      var l :- DenoteChild(a, x.left, au);
      var r :- DenoteChild(a, x.right, au);
      Combine(x.token, l, r, au)
  }

  ghost function DenoteChild(a: Arena, c: Option<nat>, au: ArithmeticUnit): Result<Option<Token>, Failure>
    requires Ranked(a) && LinkBelow(c, |a.nodes|)
    decreases Measure(a, c), 1
  {
    if c.None? then Ok(None)
    else
      assert NodeRanked(a, c.value);
      var d :- Denote(a, c.value, au);
      Ok(Some(d))
  }

  /** Node k of b holds what it stood for in a, in a form whose denotation is the token itself. */
  ghost predicate Settled(a: Arena, b: Arena, k: nat, au: ArithmeticUnit)
    requires Ranked(a) && k < |a.nodes| && k < |b.nodes|
  {
    var d := Denote(a, k, au);
    d.Ok? && b.nodes[k].token == d.value && (d.value.Num? || (b.nodes[k].left.None? && b.nodes[k].right.None?))
  }

  /** b is a with some nodes replaced by their settled form. */
  ghost predicate Agrees(a: Arena, b: Arena, au: ArithmeticUnit)
  {
    Ranked(a) && Ranked(b) && b.level == a.level && b.floor == a.floor && |b.nodes| == |a.nodes| &&
    forall k :: 0 <= k < |a.nodes| ==> b.nodes[k] == a.nodes[k] || Settled(a, b, k, au)
  }

  /** Settling nodes does not change what any node stands for. */
  lemma {:induction false} DenoteStable(a: Arena, b: Arena, k: nat, au: ArithmeticUnit)
    requires Agrees(a, b, au) && k < |a.nodes|
    ensures Denote(b, k, au) == Denote(a, k, au)
    decreases a.level[k] - a.floor
  {
    assert NodeRanked(a, k);
    var x := a.nodes[k];
    if b.nodes[k] == x {
      if !x.token.Num? {
        if x.left.Some? {
          DenoteStable(a, b, x.left.value, au);
        }
        if x.right.Some? {
          DenoteStable(a, b, x.right.value, au);
        }
        assert DenoteChild(b, x.left, au) == DenoteChild(a, x.left, au);
        assert DenoteChild(b, x.right, au) == DenoteChild(a, x.right, au);
      }
    } else {
      assert Settled(a, b, k, au);
    }
  }

  lemma AgreesReflexive(a: Arena, au: ArithmeticUnit)
    requires Ranked(a)
    ensures Agrees(a, a, au)
  {
  }

  lemma AgreesTransitive(a: Arena, b: Arena, c: Arena, au: ArithmeticUnit)
    requires Agrees(a, b, au) && Agrees(b, c, au)
    ensures Agrees(a, c, au)
  {
    forall k | 0 <= k < |a.nodes|
      ensures c.nodes[k] == a.nodes[k] || Settled(a, c, k, au)
    {
      if c.nodes[k] != b.nodes[k] {
        assert Settled(b, c, k, au);
        DenoteStable(a, b, k, au);
      } else if b.nodes[k] != a.nodes[k] {
        assert Settled(a, b, k, au);
      }
    }
  }

  /** The reduction step, applied once the children hold their denotations, settles the node. */
  lemma ReduceRefines(a: Arena, a2: Arena, i: nat, au: ArithmeticUnit)
    requires Agrees(a, a2, au) && i < |a.nodes| && NodeRanked(a, i)
    requires a2.nodes[i] == a.nodes[i] && !a.nodes[i].token.Num?
    requires var x := a.nodes[i];
      (x.left.Some? ==>
        Denote(a, x.left.value, au).Ok? && a2.nodes[x.left.value].token == Denote(a, x.left.value, au).value) &&
      (x.right.Some? ==>
        Denote(a, x.right.value, au).Ok? && a2.nodes[x.right.value].token == Denote(a, x.right.value, au).value)
    ensures Reduce(a2, i, au).Ok? <==> Denote(a, i, au).Ok?
    ensures Reduce(a2, i, au).Err? ==> Reduce(a2, i, au).error == Denote(a, i, au).error
    ensures Reduce(a2, i, au).Ok? ==>
      Agrees(a, Reduce(a2, i, au).value, au) && Reduce(a2, i, au).value.nodes[i].token == Denote(a, i, au).value
  {
    var x := a.nodes[i];
    var l := DenoteChild(a, x.left, au);
    var r := DenoteChild(a, x.right, au);
    assert l.Ok? && r.Ok?;
    assert x.left.Some? ==> l.value == Some(a2.nodes[x.left.value].token);
    assert x.right.Some? ==> r.value == Some(a2.nodes[x.right.value].token);
    assert Denote(a, i, au) == Combine(x.token, l.value, r.value, au);
    var e3 := Reduce(a2, i, au);
    if e3.Ok? {
      var a3 := e3.value;
      assert Settled(a, a3, i, au) || a3.nodes[i] == a.nodes[i];
      forall k | 0 <= k < |a.nodes|
        ensures a3.nodes[k] == a.nodes[k] || Settled(a, a3, k, au)
      {
        if k != i {
          assert a3.nodes[k] == a2.nodes[k];
          assert a2.nodes[k] == a.nodes[k] || Settled(a, a2, k, au);
        }
      }
    }
  }

  /** The in-place post-order reduction computes the reference semantics: it succeeds exactly
      when the denotation does, with the same failure otherwise; on success every node it
      changed holds what it stood for, and the evaluated node holds its own denotation. */
  lemma {:induction false} EvalRefinesDenote(a: Arena, node: Option<nat>, au: ArithmeticUnit)
    requires Ranked(a) && LinkBelow(node, |a.nodes|)
    ensures var e := EvalNode(a, node, au); var d := DenoteChild(a, node, au);
      (e.Ok? <==> d.Ok?) && (e.Err? ==> e.error == d.error) &&
      (e.Ok? ==> Agrees(a, e.value, au)) &&
      (e.Ok? && node.Some? ==> e.value.nodes[node.value].token == Denote(a, node.value, au).value)
    decreases Measure(a, node)
  {
    if node.None? || a.nodes[node.value].token.Num? {
      AgreesReflexive(a, au);
    } else {
      var i := node.value;
      var x := a.nodes[i];
      assert NodeRanked(a, i);
      EvalRefinesDenote(a, x.left, au);
      var e1 := EvalNode(a, x.left, au);
      if e1.Ok? {
        var a1 := e1.value;
        assert a1.nodes[i] == x && NodeRanked(a1, i);
        EvalRefinesDenote(a1, x.right, au);
        if x.right.Some? {
          DenoteStable(a, a1, x.right.value, au);
        }
        assert DenoteChild(a1, x.right, au) == DenoteChild(a, x.right, au);
        var e2 := EvalNode(a1, x.right, au);
        if e2.Ok? {
          var a2 := e2.value;
          AgreesTransitive(a, a1, a2, au);
          assert a2.nodes[i] == x;
          if x.left.Some? {
            var l := x.left.value;
            if a2.nodes[l] != a1.nodes[l] {
              assert Settled(a1, a2, l, au);
              DenoteStable(a, a1, l, au);
            }
          }
          ReduceRefines(a, a2, i, au);
        }
      }
    }
  }

  /** What solve returns, in terms of the reference semantics of the root. */
  lemma SolveIsDenotation(t: Tree, au: ArithmeticUnit)
    requires Ranked(t.arena) && LinkBelow(t.root, |t.arena.nodes|)
    ensures t.root.None? ==> Solve(t, au) == Err(NullPointer)
    ensures t.root.Some? ==> Solve(t, au) == match Denote(t.arena, t.root.value, au)
                                             case Ok(d) => NumberOf(d)
                                             case Err(e) => Err(e)
  {
    EvalRefinesDenote(t.arena, t.root, au);
  }
}
