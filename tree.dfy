/**
 * The tree builder of class AST (insert, insertTo, init), as functions over an arena.
 *
 * The Java heap of ASTNode objects is the sequence `nodes`: node i is nodes[i] and its
 * parent, left and right fields are indices. Several AST objects share one arena, as they
 * share the Java heap: parsing a parenthesised token builds a second AST whose root becomes
 * a child of a grouping node.
 *
 * `level` and `floor` are not program state. They rank the nodes so that every child is
 * ranked below its node and every node below its parent (Ranked). That ranking shows that
 * the links never form a cycle, and it is the termination measure of insertTo's descent and
 * of the evaluator's post-order walk. The nodes of one AST under construction, the indices
 * from `lo` on, are ranked below every node of the enclosing ASTs (Below), so building a
 * sub-expression never re-ranks the nodes outside it.
 */
module TreeModel {
  import opened Wrappers
  import opened Tokens
  import opened Lexing

  /** ASTNode: a token and its parent, left and right links. */
  datatype Node = Node(token: Token, parent: Option<nat>, left: Option<nat>, right: Option<nat>)

  datatype Arena = Arena(nodes: seq<Node>, level: seq<int>, floor: int)

  /** An AST object: the arena it lives in and its root field. */
  datatype Tree = Tree(arena: Arena, root: Option<nat>)

  predicate LinkBelow(o: Option<nat>, b: int)
  {
    o.Some? ==> o.value < b
  }

  predicate LinksBelow(n: Node, b: int)
  {
    LinkBelow(n.parent, b) && LinkBelow(n.left, b) && LinkBelow(n.right, b)
  }

  predicate LinkFrom(o: Option<nat>, lo: nat)
  {
    o.Some? ==> lo <= o.value
  }

  predicate LinksFrom(n: Node, lo: nat)
  {
    LinkFrom(n.parent, lo) && LinkFrom(n.left, lo) && LinkFrom(n.right, lo)
  }

  ghost predicate NodeRanked(a: Arena, i: nat)
    requires i < |a.nodes| == |a.level|
  {
    var n := a.nodes[i];
    a.floor < a.level[i] &&
    LinksBelow(n, |a.nodes|) &&
    (n.left.Some? ==> a.level[n.left.value] < a.level[i]) &&
    (n.right.Some? ==> a.level[n.right.value] < a.level[i]) &&
    (n.parent.Some? ==> a.level[i] < a.level[n.parent.value])
  }

  /** Every link is an index of the arena, children rank below their node and parents above. */
  ghost predicate Ranked(a: Arena)
  {
    |a.level| == |a.nodes| && forall i :: 0 <= i < |a.nodes| ==> NodeRanked(a, i)
  }

  /** No node below index b links to a node at b or above. */
  ghost predicate Closed(nodes: seq<Node>, b: nat)
  {
    forall k :: 0 <= k < b && k < |nodes| ==> LinksBelow(nodes[k], b)
  }

  /** No node at index lo or above links to a node below lo. */
  ghost predicate LinkedFrom(nodes: seq<Node>, lo: nat)
  {
    forall k :: lo <= k < |nodes| ==> LinksFrom(nodes[k], lo)
  }

  /** The nodes from lo on rank below all the nodes before lo. */
  ghost predicate Below(a: Arena, lo: nat)
  {
    forall i, j :: lo <= i < |a.level| && 0 <= j < lo && j < |a.level| ==> a.level[i] < a.level[j]
  }

  /** The invariant of an AST under construction whose nodes are those from index lo on. */
  ghost predicate Context(t: Tree, lo: nat)
  {
    Ranked(t.arena) && lo <= |t.arena.nodes| && LinkedFrom(t.arena.nodes, lo) && Below(t.arena, lo) &&
    (t.root.Some? ==> lo <= t.root.value < |t.arena.nodes|)
  }

  /** a2 extends a1 and leaves the nodes before lo, and their ranks, as they were. */
  ghost predicate Frame(a1: Arena, a2: Arena, lo: nat)
  {
    lo <= |a1.nodes| <= |a2.nodes| && |a1.level| == |a1.nodes| && |a2.level| == |a2.nodes| &&
    a2.nodes[..lo] == a1.nodes[..lo] && a2.level[..lo] == a1.level[..lo]
  }

  lemma FrameTransitive(a1: Arena, a2: Arena, a3: Arena, lo: nat)
    requires Frame(a1, a2, lo) && Frame(a2, a3, lo)
    ensures Frame(a1, a3, lo)
  {
  }

  /** Every rank at or below t moves down by one, making room just above t. */
  function Lower(level: seq<int>, t: int): (r: seq<int>)
    ensures |r| == |level|
    ensures forall k :: 0 <= k < |level| ==> r[k] == if level[k] <= t then level[k] - 1 else level[k]
  {
    seq(|level|, k requires 0 <= k < |level| => if level[k] <= t then level[k] - 1 else level[k])
  }

  /** `new ASTNode(token)` followed, for a grouping node, by `setRight(right)`. A node without a
      child is ranked below every other node; a grouping node just above its child. */
  function Alloc(a: Arena, token: Token, right: Option<nat>): (r: Arena)
    requires Ranked(a) && LinkBelow(right, |a.nodes|)
    ensures |r.nodes| == |a.nodes| + 1 && r.nodes[..|a.nodes|] == a.nodes
    ensures r.nodes[|a.nodes|] == Node(token, None, None, right)
  {
    var node := Node(token, None, None, right);
    if right.Some? then
      var t := a.level[right.value];
      Arena(a.nodes + [node], Lower(a.level, t) + [t], a.floor - 1)
    else
      Arena(a.nodes + [node], a.level + [a.floor], a.floor - 1)
  }

  lemma AllocRanked(a: Arena, token: Token, right: Option<nat>)
    requires Ranked(a) && LinkBelow(right, |a.nodes|)
    ensures Ranked(Alloc(a, token, right))
    ensures right.None? ==> forall k :: 0 <= k < |a.nodes| ==>
      Alloc(a, token, right).level[|a.nodes|] < Alloc(a, token, right).level[k]
  {
    var r := Alloc(a, token, right);
    var n := |a.nodes|;
    if right.Some? {
      var t := a.level[right.value];
      assert r.level == Lower(a.level, t) + [t];
      assert forall k :: 0 <= k < n ==> r.level[k] == Lower(a.level, t)[k];
    } else {
      assert r.level == a.level + [a.floor];
      assert forall k :: 0 <= k < n ==> r.level[k] == a.level[k];
    }
    forall i | 0 <= i < |r.nodes|
      ensures NodeRanked(r, i)
    {
      if i < n {
        assert NodeRanked(a, i);
        assert r.nodes[i] == a.nodes[i];
      } else if right.Some? {
        assert NodeRanked(a, right.value);
      }
    }
    if right.None? {
      forall k | 0 <= k < n
        ensures r.level[n] < r.level[k]
      {
        assert NodeRanked(a, k);
      }
    }
  }

  /** The invariant shared by every call of insertTo: the node n to insert is the newest node,
      nothing links to it, it has no left child (so only the first of the source's three splice
      branches can be taken) and it ranks below every node before index b; the insertion point
      and everything below index b belong to the AST being built (from lo on) or its enclosers. */
  ghost predicate InsertionContext(t: Tree, ip: nat, n: nat, lo: nat, b: nat)
  {
    Context(t, lo) && lo <= ip < b <= n && n + 1 == |t.arena.nodes| &&
    Closed(t.arena.nodes, b) && Closed(t.arena.nodes, n) &&
    t.arena.nodes[n].left.None? && t.arena.nodes[n].parent.None? &&
    forall k :: 0 <= k < b ==> t.arena.level[n] < t.arena.level[k]
  }

  /** The splice of insertTo (Tester.java:59-72): n takes ip as its left child and takes ip's
      place under ip's recorded parent, or in the root field when ip records no parent. Only in
      the root case is ip's parent field updated; n's parent field is never set. */
  ghost function Splice(t: Tree, ip: nat, n: nat, lo: nat, b: nat): (r: Tree)
    requires InsertionContext(t, ip, n, lo, b)
  {
    var a := t.arena;
    var nodes := a.nodes[n := a.nodes[n].(left := Some(ip))];
    var level := Lower(a.level, a.level[ip])[n := a.level[ip]];
    match a.nodes[ip].parent
    case Some(p) =>
      var nodes' :=
        if nodes[p].right == Some(ip) then nodes[p := nodes[p].(right := Some(n))]
        else nodes[p := nodes[p].(left := Some(n))];
      Tree(Arena(nodes', level, a.floor - 1), t.root)
    case None =>
      Tree(Arena(nodes[ip := nodes[ip].(parent := Some(n))], level, a.floor - 1), Some(n))
  }

  /** How a splice re-ranks: n moves to the rank of ip, and every node ranked at or below ip
      moves down by one. */
  lemma SpliceLevels(t: Tree, ip: nat, n: nat, lo: nat, b: nat)
    requires InsertionContext(t, ip, n, lo, b)
    ensures var r := Splice(t, ip, n, lo, b).arena; var a := t.arena;
      |r.level| == |a.level| && r.floor == a.floor - 1 && r.level[n] == a.level[ip] &&
      forall k :: 0 <= k < |a.level| && k != n ==>
        r.level[k] == if a.level[k] <= a.level[ip] then a.level[k] - 1 else a.level[k]
  {
  }

  /** The links after a splice: n's left child is ip; ip's recorded parent p has its slot that
      held ip (its right one if that held ip, else its left one) pointing at n, or, when ip
      records no parent, ip's parent field is n. Every other node is unchanged. */
  lemma SpliceNodes(t: Tree, ip: nat, n: nat, lo: nat, b: nat)
    requires InsertionContext(t, ip, n, lo, b)
    ensures var r := Splice(t, ip, n, lo, b).arena; var a := t.arena; var p := a.nodes[ip].parent;
      |r.nodes| == |a.nodes| &&
      r.nodes[n] == a.nodes[n].(left := Some(ip)) &&
      (p.Some? ==>
        p.value != n && p.value != ip && r.nodes[ip] == a.nodes[ip] &&
        r.nodes[p.value] == (if a.nodes[p.value].right == Some(ip) then a.nodes[p.value].(right := Some(n))
                             else a.nodes[p.value].(left := Some(n)))) &&
      (p.None? ==> r.nodes[ip] == a.nodes[ip].(parent := Some(n))) &&
      forall k :: 0 <= k < |a.nodes| && k != n && k != ip && p != Some(k) ==> r.nodes[k] == a.nodes[k]
  {
    var a := t.arena;
    assert NodeRanked(a, ip);
    assert LinksBelow(a.nodes[ip], b);
  }

  lemma SpliceNodeRanked(t: Tree, ip: nat, n: nat, lo: nat, b: nat, i: nat)
    requires InsertionContext(t, ip, n, lo, b)
    requires i < |t.arena.nodes|
    ensures var r := Splice(t, ip, n, lo, b).arena; |r.nodes| == |r.level| == |t.arena.nodes| && NodeRanked(r, i)
  {
    var a := t.arena;
    var r := Splice(t, ip, n, lo, b).arena;
    SpliceLevels(t, ip, n, lo, b);
    SpliceNodes(t, ip, n, lo, b);
    var x := a.level[ip];
    var p := a.nodes[ip].parent;
    assert NodeRanked(a, ip) && NodeRanked(a, n) && NodeRanked(a, i);
    if i == n {
      if a.nodes[n].right.Some? {
        assert a.level[a.nodes[n].right.value] < a.level[n] < x;
      }
    } else {
      assert LinksBelow(a.nodes[i], n);
      var ni := a.nodes[i];
      assert ni.left.Some? ==> ni.left.value != n;
      assert ni.right.Some? ==> ni.right.value != n;
      assert ni.parent.Some? ==> ni.parent.value != n;
    }
  }

  lemma SpliceContext(t: Tree, ip: nat, n: nat, lo: nat, b: nat)
    requires InsertionContext(t, ip, n, lo, b)
    ensures var r := Splice(t, ip, n, lo, b);
      Context(r, lo) && Frame(t.arena, r.arena, lo) && |r.arena.nodes| == |t.arena.nodes| &&
      (r.root == t.root || r.root == Some(n))
  {
    var a := t.arena;
    var r := Splice(t, ip, n, lo, b);
    var ra := r.arena;
    SpliceLevels(t, ip, n, lo, b);
    var parent := a.nodes[ip].parent;
    assert LinksFrom(a.nodes[ip], lo);
    forall i | 0 <= i < |ra.nodes|
      ensures NodeRanked(ra, i)
    {
      SpliceNodeRanked(t, ip, n, lo, b, i);
    }
    forall k | lo <= k < |ra.nodes|
      ensures LinksFrom(ra.nodes[k], lo)
    {
      assert LinksFrom(a.nodes[k], lo);
    }
    forall i, j | lo <= i < |ra.level| && 0 <= j < lo
      ensures ra.level[i] < ra.level[j]
    {
      assert a.level[ip] < a.level[j];
      assert a.level[i] < a.level[j];
    }
    forall j | 0 <= j < lo
      ensures ra.level[j] == a.level[j] && ra.nodes[j] == a.nodes[j]
    {
      assert a.level[ip] < a.level[j];
    }
    assert ra.nodes[..lo] == a.nodes[..lo];
    assert ra.level[..lo] == a.level[..lo];
  }

  /** The descent of insertTo (Tester.java:91-96): n fills the first empty child slot of ip and
      records ip as its parent. */
  ghost function Attach(t: Tree, ip: nat, n: nat, lo: nat, b: nat): (r: Tree)
    requires InsertionContext(t, ip, n, lo, b)
    requires t.arena.nodes[ip].left.None? || t.arena.nodes[ip].right.None?
  {
    var a := t.arena;
    var x := a.nodes[ip];
    var x' := if x.left.None? then x.(left := Some(n)) else x.(right := Some(n));
    Tree(Arena(a.nodes[ip := x'][n := a.nodes[n].(parent := Some(ip))], a.level, a.floor), t.root)
  }

  lemma AttachContext(t: Tree, ip: nat, n: nat, lo: nat, b: nat)
    requires InsertionContext(t, ip, n, lo, b)
    requires t.arena.nodes[ip].left.None? || t.arena.nodes[ip].right.None?
    ensures var r := Attach(t, ip, n, lo, b);
      Context(r, lo) && Frame(t.arena, r.arena, lo) && |r.arena.nodes| == |t.arena.nodes| && r.root == t.root
  {
    var a := t.arena;
    var r := Attach(t, ip, n, lo, b);
    var ra := r.arena;
    assert NodeRanked(a, ip);
    forall i | 0 <= i < |ra.nodes|
      ensures NodeRanked(ra, i)
    {
      assert NodeRanked(a, i);
      if i != n && i != ip {
        assert LinksBelow(a.nodes[i], n);
      }
    }
    forall k | lo <= k < |ra.nodes|
      ensures LinksFrom(ra.nodes[k], lo)
    {
      assert LinksFrom(a.nodes[k], lo);
    }
    assert ra.nodes[..lo] == a.nodes[..lo];
  }

  /** AST.insertTo (Tester.java:57-101). Both precedences are looked up first, so an operator
      symbol outside the table fails the insertion. When the insertion point strictly outranks
      the new node, the new node is spliced above it; otherwise the new node goes into the
      insertion point's first empty child slot, or the search continues into its right child. */
  ghost function InsertTo(t: Tree, ip: nat, n: nat, lo: nat, b: nat): (r: Result<Tree, Failure>)
    requires InsertionContext(t, ip, n, lo, b)
    ensures r.Ok? ==> Context(r.value, lo) && Frame(t.arena, r.value.arena, lo)
    ensures r.Ok? ==> |r.value.arena.nodes| == |t.arena.nodes| && (r.value.root == t.root || r.value.root == Some(n))
    ensures r.Err? ==> r.error == InvalidExpression
    decreases t.arena.level[ip] - t.arena.floor
  {
    var a := t.arena;
    var pi :- CheckPrecedence(a.nodes[ip].token);
    var pn :- CheckPrecedence(a.nodes[n].token);
    if Outranks(pi, pn) then
      SpliceContext(t, ip, n, lo, b);
      Ok(Splice(t, ip, n, lo, b))
    else if a.nodes[ip].left.None? || a.nodes[ip].right.None? then
      AttachContext(t, ip, n, lo, b);
      Ok(Attach(t, ip, n, lo, b))
    else
      var next := a.nodes[ip].right.value;
      assert NodeRanked(a, ip) && LinksFrom(a.nodes[ip], lo) && LinksBelow(a.nodes[ip], b);
      InsertTo(t, next, n, lo, b)
  }

  /** The insertion rule of insertTo, field by field: a failed lookup fails the insertion; a
      strict outranking splices n above ip; otherwise n fills ip's left slot if it is empty, else
      its right slot if that is empty (becoming the child whose parent is ip), else the search
      moves on to ip's right child. Equal precedences never splice, so they nest to the right. */
  lemma InsertToRule(t: Tree, ip: nat, n: nat, lo: nat, b: nat)
    requires InsertionContext(t, ip, n, lo, b)
    ensures var a := t.arena; var r := InsertTo(t, ip, n, lo, b);
      var pi := CheckPrecedence(a.nodes[ip].token); var pn := CheckPrecedence(a.nodes[n].token);
      var x := a.nodes[ip];
      ((pi.Err? || pn.Err?) ==> r == Err(InvalidExpression)) &&
      (pi.Ok? && pn.Ok? && Outranks(pi.value, pn.value) ==> r == Ok(Splice(t, ip, n, lo, b))) &&
      (pi.Ok? && pn.Ok? && !Outranks(pi.value, pn.value) && x.left.None? ==>
        r == Ok(Tree(Arena(a.nodes[ip := x.(left := Some(n))][n := a.nodes[n].(parent := Some(ip))], a.level, a.floor), t.root))) &&
      (pi.Ok? && pn.Ok? && !Outranks(pi.value, pn.value) && x.left.Some? && x.right.None? ==>
        r == Ok(Tree(Arena(a.nodes[ip := x.(right := Some(n))][n := a.nodes[n].(parent := Some(ip))], a.level, a.floor), t.root))) &&
      (pi.Ok? && pn.Ok? && !Outranks(pi.value, pn.value) && x.left.Some? && x.right.Some? ==>
        x.right.value < b && InsertionContext(t, x.right.value, n, lo, b) && r == InsertTo(t, x.right.value, n, lo, b))
  {
    assert NodeRanked(t.arena, ip) && LinksFrom(t.arena.nodes[ip], lo) && LinksBelow(t.arena.nodes[ip], b);
  }

  /** A node of precedence NONE (a number or a grouping node) is never spliced: nothing
      outranks NONE, so it is attached as some node's child and keeps its token and its own
      children, and the root does not move. */
  lemma {:induction false} InsertToOutranked(t: Tree, ip: nat, n: nat, lo: nat, b: nat)
    requires InsertionContext(t, ip, n, lo, b)
    requires t.arena.nodes[n].token.Num? || t.arena.nodes[n].token == Op(Grouping)
    ensures var r := InsertTo(t, ip, n, lo, b); var m := t.arena.nodes[n];
      r.Ok? ==> (r.value.root == t.root && r.value.arena.nodes[n].parent.Some? &&
                 r.value.arena.nodes[n].token == m.token && r.value.arena.nodes[n].left == m.left &&
                 r.value.arena.nodes[n].right == m.right)
    decreases t.arena.level[ip] - t.arena.floor
  {
    var a := t.arena;
    var m := a.nodes[n];
    if !m.token.Num? {
      CheckPrecedenceOfEntry(Operator(Grouping, NONE));
    }
    var pi := CheckPrecedence(a.nodes[ip].token);
    if pi.Ok? {
      NoneIsTop(pi.value);
      var x := a.nodes[ip];
      if x.left.None? {
      } else if x.right.None? {
      } else {
        assert NodeRanked(a, ip);
        InsertToOutranked(t, x.right.value, n, lo, b);
      }
    }
  }

  /** The size that bounds the recursion through parenthesised tokens. */
  function TokenSize(token: Token): nat
  {
    if token.Expr? then |token.text| else 0
  }

  /** The text between the parentheses of a sub-expression token, `substring(1, length - 1)`. */
  function Inner(text: string): string
    requires 2 <= |text|
  {
    text[1..|text| - 1]
  }

  /** AST.insert (Tester.java:32-55). A number or operator token becomes a new node; a
      sub-expression token is parsed into an AST of its own whose root becomes the right child of
      a new "()" node. The new node is the root of an empty tree and is passed to insertTo
      otherwise. A sub-expression token of one character (a lone "(") makes substring fail. */
  ghost function Insert(t: Tree, token: Token, lo: nat): (r: Result<Tree, Failure>)
    requires Context(t, lo)
    ensures r.Ok? ==> Context(r.value, lo) && Frame(t.arena, r.value.arena, lo) && r.value.root.Some?
    decreases TokenSize(token), 0, 0
  {
    var a := t.arena;
    var base := |a.nodes|;
    if token.Expr? then
      if |token.text| < 2 then Err(StringIndexOutOfBounds)
      else
        var sub :- ParseFrom(Inner(token.text), 0, Tree(a, None), base);
        GroupContext(t, sub, lo);
        var a1 := Alloc(sub.arena, Op(Grouping), sub.root);
        var g := |sub.arena.nodes|;
        if t.root.None? then Ok(Tree(a1, Some(g)))
        else
          var r :- InsertTo(Tree(a1, t.root), t.root.value, g, lo, base);
          FrameTransitive(a, a1, r.arena, lo);
          Ok(r)
    else
      LeafContext(t, token, lo);
      var a1 := Alloc(a, token, None);
      if t.root.None? then Ok(Tree(a1, Some(base)))
      else
        var r :- InsertTo(Tree(a1, t.root), t.root.value, base, lo, base);
        FrameTransitive(a, a1, r.arena, lo);
        Ok(r)
  }

  /** A number or operator token becomes a new node at the end of the heap holding that
      token, with no children; it becomes the root of an empty tree, and is otherwise handed to
      insertTo with the root as the insertion point. */
  lemma InsertLeafShape(t: Tree, token: Token, lo: nat)
    requires Context(t, lo) && !token.Expr?
    ensures var a := t.arena; var n := |a.nodes|; var r := Insert(t, token, lo);
      (t.root.None? ==>
        r.Ok? && r.value.root == Some(n) && r.value.arena.nodes == a.nodes + [Node(token, None, None, None)]) &&
      (t.root.Some? ==>
        InsertionContext(Tree(Alloc(a, token, None), t.root), t.root.value, n, lo, n) &&
        r == InsertTo(Tree(Alloc(a, token, None), t.root), t.root.value, n, lo, n))
  {
    LeafContext(t, token, lo);
  }

  /** A sub-expression token: a lone "(" fails in substring; otherwise the text between the
      parentheses is parsed as an AST of its own over the same heap (its failure is the
      insertion's failure), and a new "()" node over that AST's root is added after its nodes.
      The "()" node keeps no left child and the sub-AST's root as its right child; it is the root
      of an empty tree, and otherwise becomes a child somewhere below the unchanged root. */
  lemma InsertGroupShape(t: Tree, token: Token, lo: nat)
    requires Context(t, lo) && token.Expr?
    ensures |token.text| < 2 ==> Insert(t, token, lo) == Err(StringIndexOutOfBounds)
    ensures 2 <= |token.text| ==>
      var sub := ParseFrom(Inner(token.text), 0, Tree(t.arena, None), |t.arena.nodes|);
      var r := Insert(t, token, lo);
      (sub.Err? ==> r == Err(sub.error)) &&
      (sub.Ok? && r.Ok? ==>
        var g := |sub.value.arena.nodes|;
        g < |r.value.arena.nodes| &&
        r.value.arena.nodes[g].token == Op(Grouping) &&
        r.value.arena.nodes[g].left.None? && r.value.arena.nodes[g].right == sub.value.root &&
        r.value.root == (if t.root.None? then Some(g) else t.root)) &&
      (sub.Ok? && t.root.None? ==> r.Ok?)
  {
    if 2 <= |token.text| {
      var a := t.arena;
      var sub := ParseFrom(Inner(token.text), 0, Tree(a, None), |a.nodes|);
      if sub.Ok? {
        var st := sub.value;
        GroupContext(t, st, lo);
        var a1 := Alloc(st.arena, Op(Grouping), st.root);
        var g := |st.arena.nodes|;
        if t.root.Some? {
          InsertToOutranked(Tree(a1, t.root), t.root.value, g, lo, |a.nodes|);
        }
      }
    }
  }

  lemma LeafContext(t: Tree, token: Token, lo: nat)
    requires Context(t, lo)
    ensures var a1 := Alloc(t.arena, token, None); var n := |t.arena.nodes|;
      Context(Tree(a1, Some(n)), lo) && Frame(t.arena, a1, lo) &&
      (t.root.Some? ==> InsertionContext(Tree(a1, t.root), t.root.value, n, lo, n))
  {
    var a := t.arena;
    var a1 := Alloc(a, token, None);
    AllocRanked(a, token, None);
    var n := |a.nodes|;
    forall k | 0 <= k < n
      ensures LinksBelow(a1.nodes[k], n)
    {
      assert NodeRanked(a, k);
    }
    assert a1.nodes[..lo] == a.nodes[..lo];
    assert a1.level[..lo] == a.level[..lo];
  }

  /** After the sub-parse: the grouping node over the sub-tree satisfies insertTo's invariant. */
  lemma GroupContext(t: Tree, sub: Tree, lo: nat)
    requires Context(t, lo)
    requires Context(sub, |t.arena.nodes|) && Frame(t.arena, sub.arena, |t.arena.nodes|)
    ensures var a1 := Alloc(sub.arena, Op(Grouping), sub.root); var g := |sub.arena.nodes|;
      Context(Tree(a1, Some(g)), lo) && Frame(t.arena, a1, lo) &&
      (t.root.Some? ==> InsertionContext(Tree(a1, t.root), t.root.value, g, lo, |t.arena.nodes|))
  {
    var a := t.arena;
    var base := |a.nodes|;
    var s := sub.arena;
    var a1 := Alloc(s, Op(Grouping), sub.root);
    var g := |s.nodes|;
    AllocRanked(s, Op(Grouping), sub.root);
    // The enclosing nodes rank above the whole sub-tree, so allocation does not move them.
    forall j | 0 <= j < base
      ensures a1.level[j] == a.level[j] && a1.nodes[j] == a.nodes[j]
      ensures sub.root.Some? ==> a1.level[g] < a1.level[j]
      ensures sub.root.None? ==> a1.level[g] < a1.level[j]
    {
      assert s.level[..base] == a.level[..base] && s.nodes[..base] == a.nodes[..base];
      assert s.level[j] == a.level[j] && s.nodes[j] == a.nodes[j];
      if sub.root.Some? {
        assert s.level[sub.root.value] < s.level[j];
      } else {
        assert NodeRanked(s, j);
      }
    }
    forall k | 0 <= k < g
      ensures LinksBelow(a1.nodes[k], g)
    {
      assert NodeRanked(s, k);
    }
    forall k | 0 <= k < base
      ensures LinksBelow(a1.nodes[k], base)
    {
      assert NodeRanked(a, k);
    }
    forall k | lo <= k < |a1.nodes|
      ensures LinksFrom(a1.nodes[k], lo)
    {
      if k < base {
        assert LinksFrom(a.nodes[k], lo);
      } else if k < g {
        assert LinksFrom(s.nodes[k], base);
      }
    }
    forall i, j | lo <= i < |a1.level| && 0 <= j < lo
      ensures a1.level[i] < a1.level[j]
    {
      if i < base {
        assert a.level[i] < a.level[j];
      } else if i < g {
        assert s.level[i] < s.level[j];
      }
    }
    assert a1.nodes[..lo] == a.nodes[..lo];
    assert a1.level[..lo] == a.level[..lo];
    if t.root.Some? {
      assert a1.nodes[g].left.None?;
    }
  }

  /** The loop of AST.init (Tester.java:25-30) from lexer position pos on: each token is
      inserted in turn, and the first failure ends the parse. */
  ghost function ParseFrom(s: string, pos: nat, t: Tree, lo: nat): (r: Result<Tree, Failure>)
    requires pos <= |s| + 1 && Context(t, lo)
    ensures r.Ok? ==> Context(r.value, lo) && Frame(t.arena, r.value.arena, lo)
    ensures r.Ok? && t.root.Some? ==> r.value.root.Some?
    decreases |s|, 1, |s| + 1 - pos
  {
    if pos >= |s| then Ok(t)
    else
      var (token, next) := Scan(s, pos);
      var t1 :- Insert(t, token, lo);
      var r :- ParseFrom(s, next, t1, lo);
      FrameTransitive(t.arena, t1.arena, r.arena, lo);
      Ok(r)
  }

  /** The empty heap. */
  const EmptyArena: Arena := Arena([], [], 0)

  /** `new AST(expression)` on a fresh heap. */
  ghost function Parse(s: string): (r: Result<Tree, Failure>)
    ensures r.Ok? ==> Context(r.value, 0)
  {
    ParseFrom(s, 0, Tree(EmptyArena, None), 0)
  }
}
