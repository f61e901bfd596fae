/**
 * Classes AST and ASTNode of Tester.java in the imperative form of the source: AST's methods
 * update its root field and the fields of the nodes in place. The Java heap of ASTNode
 * objects is the Heap below; an ASTNode reference is an index into it. Each method is proved
 * to leave exactly the state computed by its counterpart in TreeModel.
 */
module Ast {
  import opened Wrappers
  import opened Tokens
  import opened Lexing
  import opened TreeModel

  class Heap {
    var nodes: seq<Node>
    ghost var level: seq<int>
    ghost var floor: int

    ghost function State(): Arena
      reads this
    {
      Arena(nodes, level, floor)
    }

    constructor ()
      ensures State() == EmptyArena
    {
      nodes, level, floor := [], [], 0;
    }

    /** `new ASTNode(token)`, with `setRight(right)` for a grouping node. */
    method NewNode(token: Token, right: Option<nat>) returns (n: nat)
      requires Ranked(State()) && LinkBelow(right, |nodes|)
      modifies this
      ensures n == |old(nodes)| && State() == Alloc(old(State()), token, right)
    {
      n := |nodes|;
      if right.Some? {
        ghost var t := level[right.value];
        level := Lower(level, t) + [t];
      } else {
        level := level + [floor];
      }
      floor := floor - 1;
      nodes := nodes + [Node(token, None, None, right)];
    }

    method SetValue(i: nat, token: Token)
      requires i < |nodes|
      modifies this
      ensures nodes == old(nodes)[i := old(nodes)[i].(token := token)]
      ensures level == old(level) && floor == old(floor)
    {
      nodes := nodes[i := nodes[i].(token := token)];
    }

    method SetLeft(i: nat, left: Option<nat>)
      requires i < |nodes|
      modifies this
      ensures nodes == old(nodes)[i := old(nodes)[i].(left := left)]
      ensures level == old(level) && floor == old(floor)
    {
      nodes := nodes[i := nodes[i].(left := left)];
    }

    method SetRight(i: nat, right: Option<nat>)
      requires i < |nodes|
      modifies this
      ensures nodes == old(nodes)[i := old(nodes)[i].(right := right)]
      ensures level == old(level) && floor == old(floor)
    {
      nodes := nodes[i := nodes[i].(right := right)];
    }

    method SetParent(i: nat, parent: Option<nat>)
      requires i < |nodes|
      modifies this
      ensures nodes == old(nodes)[i := old(nodes)[i].(parent := parent)]
      ensures level == old(level) && floor == old(floor)
    {
      nodes := nodes[i := nodes[i].(parent := parent)];
    }
  }

  class AST {
    const heap: Heap
    var root: Option<nat>
    const expression: string
    /** The first index of the nodes this AST creates. */
    ghost const lo: nat

    ghost function State(): Tree
      reads this, heap
    {
      Tree(heap.State(), root)
    }

    /** The field initialisation of `new AST(expression)`; the constructor's call of init
        is the separate method Init. */
    constructor (heap: Heap, expression: string)
      ensures this.heap == heap && this.expression == expression && root == None && lo == |heap.nodes|
    {
      this.heap := heap;
      this.expression := expression;
      root := None;
      lo := |heap.nodes|;
    }

    /** AST.init (Tester.java:25-30). */
    method Init() returns (err: Option<Failure>)
      requires Context(State(), lo)
      modifies this, heap
      ensures var r := ParseFrom(expression, 0, old(State()), lo);
        (r.Ok? ==> err.None? && State() == r.value) && (r.Err? ==> err == Some(r.error))
      decreases |expression|, 1
    {
      var lex := new Lexer(expression);
      err := None;
      var more := lex.HasMoreTokens();
      while more
        invariant lex.expression == expression && lex.position <= |expression| + 1
        invariant more <==> lex.position < |expression|
        invariant err.None?
        invariant Context(State(), lo)
        invariant ParseFrom(expression, lex.position, State(), lo) == ParseFrom(expression, 0, old(State()), lo)
        decreases |expression| + 1 - lex.position
      {
        var token := lex.NextToken();
        assert TokenSize(token) <= |expression|;
        err := Insert(token);
        if err.Some? {
          return;
        }
        more := lex.HasMoreTokens();
      }
    }

    /** AST.insert (Tester.java:32-55). */
    method Insert(token: Token) returns (err: Option<Failure>)
      requires Context(State(), lo)
      modifies this, heap
      ensures var r := TreeModel.Insert(old(State()), token, lo);
        (r.Ok? ==> err.None? && State() == r.value) && (r.Err? ==> err == Some(r.error))
      decreases TokenSize(token), 0
    {
      ghost var t := State();
      var base := |heap.nodes|;
      if token.Expr? {
        var value := token.text;
        if |value| < 2 {
          return Some(StringIndexOutOfBounds);
        }
        err := None;
        var temp := new AST(heap, value[1..|value| - 1]);
        err := temp.Init();
        if err.Some? {
          return;
        }
        ghost var sub := temp.State();
        GroupContext(t, sub, lo);
        var head := heap.NewNode(Op(Grouping), temp.root);
        if root.None? {
          root := Some(head);
        } else {
          ghost var a1 := heap.State();
          err := InsertTo(root.value, head, base);
          if err.None? {
            FrameTransitive(t.arena, a1, heap.State(), lo);
          }
        }
      } else {
        err := None;
        LeafContext(t, token, lo);
        var node := heap.NewNode(token, None);
        if root.None? {
          root := Some(node);
        } else {
          ghost var a1 := heap.State();
          err := InsertTo(root.value, node, node);
          if err.None? {
            FrameTransitive(t.arena, a1, heap.State(), lo);
          }
        }
      }
    }

    /** AST.insertTo (Tester.java:57-101). */
    method InsertTo(insertionPoint: nat, toInsert: nat, ghost b: nat) returns (err: Option<Failure>)
      requires InsertionContext(State(), insertionPoint, toInsert, lo, b)
      modifies this, heap
      ensures var r := TreeModel.InsertTo(old(State()), insertionPoint, toInsert, lo, b);
        (r.Ok? ==> err.None? && State() == r.value) && (r.Err? ==> err == Some(r.error))
      decreases heap.level[insertionPoint] - heap.floor
    {
      ghost var t := State();
      var existing := CheckPrecedence(heap.nodes[insertionPoint].token);
      if existing.Err? {
        return Some(existing.error);
      }
      var incoming := CheckPrecedence(heap.nodes[toInsert].token);
      if incoming.Err? {
        return Some(incoming.error);
      }
      err := None;
      if Outranks(existing.value, incoming.value) {
        SpliceAbove(insertionPoint, toInsert, b);
      } else if heap.nodes[insertionPoint].left.None? || heap.nodes[insertionPoint].right.None? {
        AttachBelow(insertionPoint, toInsert, b);
      } else {
        var next := heap.nodes[insertionPoint].right.value;
        assert NodeRanked(t.arena, insertionPoint) && LinksFrom(t.arena.nodes[insertionPoint], lo);
        assert LinksBelow(t.arena.nodes[insertionPoint], b);
        err := InsertTo(next, toInsert, b);
      }
    }

    /** The first branch of insertTo's splice: toInsert takes insertionPoint's place, with
        insertionPoint as its left child. toInsert has no left child here, so the source's
        other two splice branches cannot be reached. */
    method SpliceAbove(insertionPoint: nat, toInsert: nat, ghost b: nat)
      requires InsertionContext(State(), insertionPoint, toInsert, lo, b)
      modifies this, heap
      ensures State() == Splice(old(State()), insertionPoint, toInsert, lo, b)
    {
      ghost var t := State();
      SpliceNodes(t, insertionPoint, toInsert, lo, b);
      heap.SetLeft(toInsert, Some(insertionPoint));
      var oldParent := heap.nodes[insertionPoint].parent;
      if oldParent.Some? {
        if heap.nodes[oldParent.value].right == Some(insertionPoint) {
          heap.SetRight(oldParent.value, Some(toInsert));
        } else {
          heap.SetLeft(oldParent.value, Some(toInsert));
        }
      } else {
        root := Some(toInsert);
        heap.SetParent(insertionPoint, Some(toInsert));
      }
      ghost var x := t.arena.level[insertionPoint];
      heap.level := Lower(t.arena.level, x)[toInsert := x];
      heap.floor := t.arena.floor - 1;
    }

    /** insertTo's attach branches: toInsert becomes the first free child of insertionPoint. */
    method AttachBelow(insertionPoint: nat, toInsert: nat, ghost b: nat)
      requires InsertionContext(State(), insertionPoint, toInsert, lo, b)
      requires heap.nodes[insertionPoint].left.None? || heap.nodes[insertionPoint].right.None?
      modifies heap
      ensures State() == Attach(old(State()), insertionPoint, toInsert, lo, b)
    {
      if heap.nodes[insertionPoint].left.None? {
        heap.SetLeft(insertionPoint, Some(toInsert));
      } else {
        heap.SetRight(insertionPoint, Some(toInsert));
      }
      heap.SetParent(toInsert, Some(insertionPoint));
    }
  }
}
