/** Directed graphs of source modules, reachability and strongly connected components. */
module Graph {

  type Node = string

  /** Adjacency lists, as the analyser builds them: a dependency need not be a key. */
  type Digraph = map<Node, seq<Node>>

  /** The dependency list of a node; a node without an entry has none. */
  function Deps(g: Digraph, n: Node): seq<Node> {
    if n in g then g[n] else []
  }

  predicate Edge(g: Digraph, a: Node, b: Node) {
    b in Deps(g, a)
  }

  ghost function Nodes(g: Digraph): set<Node> {
    g.Keys + (set k, m | k in g && m in g[k] :: m)
  }

  lemma EdgeNodes(g: Digraph, a: Node, b: Node)
    requires Edge(g, a, b)
    ensures a in Nodes(g) && b in Nodes(g)
  {
    assert a in g && b in g[a];
  }

  /** `p` lists the nodes after `a` on a walk from `a` to `b`. */
  ghost predicate Walk(g: Digraph, a: Node, p: seq<Node>, b: Node)
    decreases |p|
  {
    if p == [] then a == b else Edge(g, a, p[0]) && Walk(g, p[0], p[1..], b)
  }

  ghost predicate Reach(g: Digraph, a: Node, b: Node) {
    exists p :: Walk(g, a, p, b)
  }

  lemma ReachSelf(g: Digraph, a: Node)
    ensures Reach(g, a, a)
  {
    assert Walk(g, a, [], a);
  }

  lemma ReachEdge(g: Digraph, a: Node, b: Node)
    requires Edge(g, a, b)
    ensures Reach(g, a, b)
  {
    assert Walk(g, b, [b][1..], b);
    assert Walk(g, a, [b], b);
  }

  lemma {:induction false} WalkConcat(g: Digraph, a: Node, p: seq<Node>, b: Node, q: seq<Node>, c: Node)
    requires Walk(g, a, p, b) && Walk(g, b, q, c)
    ensures Walk(g, a, p + q, c)
    decreases |p|
  {
    if p == [] {
      assert p + q == q;
    } else {
      WalkConcat(g, p[0], p[1..], b, q, c);
      assert (p + q)[1..] == p[1..] + q;
    }
  }

  lemma ReachTrans(g: Digraph, a: Node, b: Node, c: Node)
    requires Reach(g, a, b) && Reach(g, b, c)
    ensures Reach(g, a, c)
  {
    var p :| Walk(g, a, p, b);
    var q :| Walk(g, b, q, c);
    WalkConcat(g, a, p, b, q, c);
  }

  /** A walk that leaves a set crosses its border on some edge. */
  lemma {:induction false} WalkCrosses(g: Digraph, a: Node, p: seq<Node>, b: Node, s: set<Node>)
    returns (x: Node, y: Node)
    requires Walk(g, a, p, b) && a in s && b !in s
    ensures x in s && y !in s && Edge(g, x, y)
    ensures Reach(g, a, x) && Reach(g, y, b)
    decreases |p|
  {
    if p[0] in s {
      x, y := WalkCrosses(g, p[0], p[1..], b, s);
      ReachEdge(g, a, p[0]);
      ReachTrans(g, a, p[0], x);
    } else {
      x, y := a, p[0];
      ReachSelf(g, a);
    }
  }

  lemma ReachCrosses(g: Digraph, a: Node, b: Node, s: set<Node>) returns (x: Node, y: Node)
    requires Reach(g, a, b) && a in s && b !in s
    ensures x in s && y !in s && Edge(g, x, y)
    ensures Reach(g, a, x) && Reach(g, y, b)
  {
    var p :| Walk(g, a, p, b);
    x, y := WalkCrosses(g, a, p, b, s);
  }

  ghost predicate SuccessorClosed(g: Digraph, s: set<Node>) {
    forall a, b :: a in s && Edge(g, a, b) ==> b in s
  }

  lemma ReachStaysInside(g: Digraph, s: set<Node>, a: Node, b: Node)
    requires SuccessorClosed(g, s) && a in s && Reach(g, a, b)
    ensures b in s
  {
    if b !in s {
      var x, y := ReachCrosses(g, a, b, s);
    }
  }

  lemma ReachNode(g: Digraph, a: Node, b: Node)
    requires Reach(g, a, b) && a in Nodes(g)
    ensures b in Nodes(g)
  {
    forall x, y | x in Nodes(g) && Edge(g, x, y)
      ensures y in Nodes(g)
    {
      EdgeNodes(g, x, y);
    }
    ReachStaysInside(g, Nodes(g), a, b);
  }

  ghost predicate Mutual(g: Digraph, a: Node, b: Node) {
    Reach(g, a, b) && Reach(g, b, a)
  }

  /** The strongly connected component of `n`: every node mutually reachable with it. */
  ghost function Scc(g: Digraph, n: Node): set<Node> {
    set m | m in Nodes(g) && Mutual(g, n, m)
  }

  /** A node lies on an import cycle: its component has a second node, or it imports itself. */
  ghost predicate Cyclic(g: Digraph, n: Node) {
    Edge(g, n, n) || exists m :: m != n && Mutual(g, n, m)
  }

  lemma SccSelf(g: Digraph, n: Node)
    requires n in Nodes(g)
    ensures n in Scc(g, n)
  {
    ReachSelf(g, n);
  }

  lemma SccSame(g: Digraph, a: Node, b: Node)
    requires Mutual(g, a, b)
    ensures Scc(g, a) == Scc(g, b)
  {
    forall m | m in Nodes(g)
      ensures Mutual(g, a, m) <==> Mutual(g, b, m)
    {
      if Mutual(g, a, m) {
        ReachTrans(g, b, a, m);
        ReachTrans(g, m, a, b);
      }
      if Mutual(g, b, m) {
        ReachTrans(g, a, b, m);
        ReachTrans(g, m, b, a);
      }
    }
  }

  lemma CyclicShared(g: Digraph, a: Node, b: Node)
    requires Mutual(g, a, b) && Cyclic(g, a)
    ensures Cyclic(g, b)
  {
    if a != b {
      assert Mutual(g, b, a);
    }
  }
}
