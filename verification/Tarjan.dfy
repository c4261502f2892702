/**
 The depth-first search for import cycles: Tarjan's algorithm with an index map,
 a low-link map and an explicit stack.
 */
module Tarjan {
  import opened Graph
  import opened Sorting

  // ---------- The invariant, over values ----------

  ghost predicate ReachesGray(g: Digraph, gray: set<Node>, idx: map<Node, nat>, y: Node)
    requires gray <= idx.Keys && y in idx
  {
    exists x :: x in gray && idx[x] <= idx[y] && Reach(g, y, x)
  }

  /** A finished visit has indexed every successor. */
  ghost predicate Explored(g: Digraph, gray: set<Node>, idx: map<Node, nat>) {
    forall n, m :: n in idx && n !in gray && Edge(g, n, m) ==> m in idx
  }

  /** A running visit reaches everything stacked since it began. */
  ghost predicate Forward(g: Digraph, gray: set<Node>, idx: map<Node, nat>, on: set<Node>)
    requires gray <= idx.Keys && on <= idx.Keys
  {
    forall x, y {:trigger Reach(g, x, y)} :: x in gray && y in on && idx[x] <= idx[y] ==> Reach(g, x, y)
  }

  /** `on` is the set of stacked nodes and `gray` the nodes whose visit is still running. */
  ghost predicate Inv(g: Digraph, gray: set<Node>, idx: map<Node, nat>, on: set<Node>) {
    && gray <= on <= idx.Keys <= Nodes(g)
    && Explored(g, gray, idx)
    && SuccessorClosed(g, idx.Keys - on)
    && Forward(g, gray, idx, on)
    && (forall y {:trigger ReachesGray(g, gray, idx, y)} :: y in on ==> ReachesGray(g, gray, idx, y))
  }

  ghost predicate Below(idx: map<Node, nat>, next: nat) {
    forall n :: n in idx ==> idx[n] < next
  }

  /** Later state of the index map: old entries kept, new ones numbered from `next0`. */
  ghost predicate Extends(idx0: map<Node, nat>, next0: nat, idx: map<Node, nat>) {
    && (forall n :: n in idx0 ==> n in idx && idx[n] == idx0[n])
    && (forall n :: n in idx && n !in idx0 ==> next0 <= idx[n])
  }

  /** Later state of the indices and the stacked set: only new nodes were stacked. */
  ghost predicate Grown(idx0: map<Node, nat>, next0: nat, on0: set<Node>, idx: map<Node, nat>, on: set<Node>) {
    && Extends(idx0, next0, idx)
    && on0 <= on
    && (forall n :: n in on - on0 ==> n !in idx0)
  }

  /** Edges from nodes stacked since `on0` back into `on0` reach no index under `bound`. */
  ghost predicate EdgesBounded(g: Digraph, idx: map<Node, nat>, on0: set<Node>, on: set<Node>, bound: nat)
    requires on0 <= idx.Keys
  {
    forall x, y :: x in on - on0 && y in on0 && Edge(g, x, y) ==> bound <= idx[y]
  }

  ghost predicate LowWitness(g: Digraph, idx: map<Node, nat>, on: set<Node>, v: Node, bound: nat)
    requires on <= idx.Keys
  {
    exists y :: y in on && idx[y] == bound && Reach(g, v, y)
  }

  /** The visit of `v` sits on top of the stacked set `on0`: what its visit knows at any time. */
  ghost predicate Active(g: Digraph, gray: set<Node>, idx: map<Node, nat>, on0: set<Node>, on: set<Node>, v: Node) {
    && Inv(g, gray + {v}, idx, on)
    && gray <= on0 <= on
    && v in on - on0
    && (forall n :: n in on0 ==> idx[n] < idx[v])
    && (forall n :: n in on - on0 ==> idx[v] <= idx[n])
    && (forall x {:trigger Reach(g, x, v)} :: x in gray ==> Reach(g, x, v))
  }

  // ---------- Components found so far ----------

  /** `c` lists one whole cyclic component, each node once. */
  ghost predicate IsCycle(g: Digraph, c: seq<Node>) {
    && c != []
    && NoDuplicates(c)
    && Elems(c) == Scc(g, c[0])
    && Cyclic(g, c[0])
  }

  ghost predicate Covered(n: Node, comps: seq<seq<Node>>) {
    exists i :: 0 <= i < |comps| && n in comps[i]
  }

  ghost predicate CompsOk(g: Digraph, le: (Node, Node) -> bool, closed: set<Node>, comps: seq<seq<Node>>) {
    && (forall i :: 0 <= i < |comps| ==>
          IsCycle(g, comps[i]) && Sorted(le, comps[i]) && Elems(comps[i]) <= closed)
    && (forall n {:trigger Covered(n, comps)} :: n in closed && Cyclic(g, n) ==> Covered(n, comps))
    && (forall i, j :: 0 <= i < j < |comps| ==> Elems(comps[i]) !! Elems(comps[j]))
    && "" !in closed
  }

  // ---------- Steps of the search ----------

  lemma EnterKeepsInv(g: Digraph, gray: set<Node>, idx: map<Node, nat>, on: set<Node>, v: Node, next: nat)
    requires Inv(g, gray, idx, on) && Below(idx, next)
    requires v in Nodes(g) && v !in idx
    requires forall x :: x in gray ==> Reach(g, x, v)
    ensures Active(g, gray, idx[v := next], on, on + {v}, v)
    ensures idx[v := next].Keys - (on + {v}) == idx.Keys - on
  {
    var idx' := idx[v := next];
    assert idx'.Keys == idx.Keys + {v};
    assert idx'.Keys - (on + {v}) == idx.Keys - on;
    ReachSelf(g, v);
    assert forall n, m :: n in idx' && n !in gray + {v} && Edge(g, n, m) ==> m in idx;
    forall x, y | x in gray + {v} && y in on + {v} && idx'[x] <= idx'[y]
      ensures Reach(g, x, y)
    {
    }
    forall y | y in on + {v}
      ensures ReachesGray(g, gray + {v}, idx', y)
    {
      if y != v {
        assert ReachesGray(g, gray, idx, y);
        var x :| x in gray && idx[x] <= idx[y] && Reach(g, y, x);
        assert x in gray + {v} && idx'[x] <= idx'[y];
      }
    }
  }

  /** Every node stacked above `v` is mutually reachable with `v`. */
  lemma AboveIsMutual(g: Digraph, gray: set<Node>, idx: map<Node, nat>, on0: set<Node>, on: set<Node>, v: Node, y: Node)
    requires Active(g, gray, idx, on0, on, v) && y in on - on0
    ensures Mutual(g, v, y)
  {
    assert v in gray + {v} && idx[v] <= idx[y];
    assert ReachesGray(g, gray + {v}, idx, y);
    var x :| x in gray + {v} && idx[x] <= idx[y] && Reach(g, y, x);
    if x != v {
      ReachTrans(g, y, x, v);
    }
  }

  /** With no edge back below `v`, the nodes above `v` step only to each other or to closed nodes. */
  lemma TopSuccessors(g: Digraph, gray: set<Node>, idx: map<Node, nat>, on0: set<Node>, on: set<Node>, v: Node, x: Node, z: Node)
    requires Active(g, gray, idx, on0, on, v)
    requires forall m :: Edge(g, v, m) ==> m in idx
    requires EdgesBounded(g, idx, on0, on, idx[v])
    requires x in on - on0 && Edge(g, x, z)
    ensures z in on - on0 || z in idx.Keys - on
  {
    assert x == v || x !in gray + {v};
  }

  /** When the low link meets the index, the nodes above `v` are exactly its component. */
  lemma TopIsComponent(g: Digraph, gray: set<Node>, idx: map<Node, nat>, on0: set<Node>, on: set<Node>, v: Node)
    requires Active(g, gray, idx, on0, on, v)
    requires forall m :: Edge(g, v, m) ==> m in idx
    requires EdgesBounded(g, idx, on0, on, idx[v])
    ensures on - on0 == Scc(g, v)
  {
    forall y | y in on - on0
      ensures y in Scc(g, v)
    {
      AboveIsMutual(g, gray, idx, on0, on, v, y);
    }
    forall w | w in Scc(g, v)
      ensures w in on - on0
    {
      if w !in on - on0 {
        var x, z := ReachCrosses(g, v, w, on - on0);
        TopSuccessors(g, gray, idx, on0, on, v, x, z);
        ReachTrans(g, z, w, v);
        ReachStaysInside(g, idx.Keys - on, z, v);
      }
    }
  }

  /** Popping a finished component restores the invariant of the caller. */
  lemma PopKeepsInv(g: Digraph, gray: set<Node>, idx0: map<Node, nat>, next0: nat, idx: map<Node, nat>, on0: set<Node>, on: set<Node>, v: Node)
    requires Inv(g, gray, idx0, on0) && Extends(idx0, next0, idx)
    requires Active(g, gray, idx, on0, on, v)
    requires forall m :: Edge(g, v, m) ==> m in idx
    requires EdgesBounded(g, idx, on0, on, idx[v])
    ensures Inv(g, gray, idx, on0)
  {
    forall a, b | a in idx.Keys - on0 && Edge(g, a, b)
      ensures b in idx.Keys - on0
    {
      if a in on - on0 {
        TopSuccessors(g, gray, idx, on0, on, v, a, b);
      } else {
        assert a in idx.Keys - on;
      }
    }
    forall y | y in on0
      ensures ReachesGray(g, gray, idx, y)
    {
      assert ReachesGray(g, gray, idx0, y);
      var x :| x in gray && idx0[x] <= idx0[y] && Reach(g, y, x);
      assert idx[x] <= idx[y];
    }
  }

  /** A low link below `v` leads from `v` to a visit that started before it. */
  lemma LowLeadsToGray(g: Digraph, gray: set<Node>, idx0: map<Node, nat>, next0: nat, idx: map<Node, nat>, on0: set<Node>, on: set<Node>, v: Node, low: nat)
    returns (x: Node)
    requires Inv(g, gray, idx0, on0) && Extends(idx0, next0, idx)
    requires Active(g, gray, idx, on0, on, v)
    requires low < idx[v] && LowWitness(g, idx, on, v, low)
    ensures x in gray && idx[x] <= idx[v] && Reach(g, v, x)
  {
    var w :| w in on && idx[w] == low && Reach(g, v, w);
    assert w in on0;
    assert ReachesGray(g, gray, idx0, w);
    x :| x in gray && idx0[x] <= idx0[w] && Reach(g, w, x);
    ReachTrans(g, v, w, x);
  }

  lemma GrayAfterLeaving(g: Digraph, gray: set<Node>, idx0: map<Node, nat>, next0: nat, idx: map<Node, nat>, on0: set<Node>, on: set<Node>, v: Node, low: nat, y: Node)
    requires Inv(g, gray, idx0, on0) && Extends(idx0, next0, idx)
    requires Active(g, gray, idx, on0, on, v)
    requires low < idx[v] && LowWitness(g, idx, on, v, low)
    requires y in on
    ensures ReachesGray(g, gray, idx, y)
  {
    if y in on0 {
      assert ReachesGray(g, gray, idx0, y);
      var z :| z in gray && idx0[z] <= idx0[y] && Reach(g, y, z);
      assert idx[z] <= idx[y];
    } else {
      var x := LowLeadsToGray(g, gray, idx0, next0, idx, on0, on, v, low);
      AboveIsMutual(g, gray, idx, on0, on, v, y);
      ReachTrans(g, y, v, x);
    }
  }

  /** A node whose low link points below it stays stacked, and still reaches a running visit. */
  lemma LeaveKeepsInv(g: Digraph, gray: set<Node>, idx0: map<Node, nat>, next0: nat, idx: map<Node, nat>, on0: set<Node>, on: set<Node>, v: Node, low: nat)
    requires Inv(g, gray, idx0, on0) && Extends(idx0, next0, idx)
    requires Active(g, gray, idx, on0, on, v)
    requires forall m :: Edge(g, v, m) ==> m in idx
    requires low < idx[v] && LowWitness(g, idx, on, v, low)
    ensures Inv(g, gray, idx, on)
  {
    assert Explored(g, gray, idx) by {
      assert Explored(g, gray + {v}, idx);
    }
    assert Forward(g, gray, idx, on) by {
      assert Forward(g, gray + {v}, idx, on);
    }
    forall y | y in on
      ensures ReachesGray(g, gray, idx, y)
    {
      GrayAfterLeaving(g, gray, idx0, next0, idx, on0, on, v, low, y);
    }
  }

  // ---------- Scanning the dependencies of one node ----------

  /**
   What the dependency loop of `v` knows: `low` is the running low link and `done`
   the dependencies already handled.
   */
  ghost predicate Scanning(g: Digraph, gray: set<Node>, idx: map<Node, nat>, on0: set<Node>, on: set<Node>, v: Node, low: nat, done: set<Node>) {
    && Active(g, gray, idx, on0, on, v)
    && low <= idx[v]
    && LowWitness(g, idx, on, v, low)
    && EdgesBounded(g, idx, on0, on - {v}, low)
    && (forall d :: d in done ==> d in idx)
    && (forall d :: d in done && d in on0 ==> low <= idx[d])
  }

  lemma ScanStart(g: Digraph, gray: set<Node>, idx: map<Node, nat>, on0: set<Node>, v: Node)
    requires Active(g, gray, idx, on0, on0 + {v}, v)
    ensures Scanning(g, gray, idx, on0, on0 + {v}, v, idx[v], {})
  {
    ReachSelf(g, v);
    assert v in on0 + {v} && idx[v] == idx[v] && Reach(g, v, v);
  }

  /** An already indexed dependency lowers the low link only while it is stacked. */
  lemma ScanIndexed(g: Digraph, gray: set<Node>, idx: map<Node, nat>, on0: set<Node>, on: set<Node>, v: Node, low: nat, done: set<Node>, d: Node)
    requires Scanning(g, gray, idx, on0, on, v, low, done)
    requires Edge(g, v, d) && d in idx
    ensures Scanning(g, gray, idx, on0, on, v, if d in on && idx[d] < low then idx[d] else low, done + {d})
  {
    if d in on && idx[d] < low {
      ReachEdge(g, v, d);
      assert d in on && idx[d] == idx[d] && Reach(g, v, d);
      assert LowWitness(g, idx, on, v, idx[d]);
    }
  }

  /** What the visit of a new node `d` leaves behind, relative to the state before it. */
  ghost predicate Visited(g: Digraph, idx0: map<Node, nat>, next0: nat, on0: set<Node>, idx: map<Node, nat>, on: set<Node>, d: Node, low: nat) {
    && Grown(idx0, next0, on0, idx, on)
    && d in idx && d !in idx0
    && on <= idx.Keys
    && on0 <= idx0.Keys
    && low <= idx[d]
    && (if d in on then LowWitness(g, idx, on, d, low) else low == idx[d])
    && EdgesBounded(g, idx, on0, on, low)
  }

  lemma LowAfterChild(g: Digraph, gray: set<Node>, idx1: map<Node, nat>, next1: nat, on0: set<Node>, on1: set<Node>, v: Node, low1: nat, done: set<Node>,
                      idx: map<Node, nat>, on: set<Node>, d: Node, low: nat)
    requires Scanning(g, gray, idx1, on0, on1, v, low1, done) && Below(idx1, next1)
    requires Edge(g, v, d) && Visited(g, idx1, next1, on1, idx, on, d, low)
    ensures LowWitness(g, idx, on, v, if low < low1 then low else low1)
  {
    if low < low1 {
      assert d in on;
      var y :| y in on && idx[y] == low && Reach(g, d, y);
      ReachEdge(g, v, d);
      ReachTrans(g, v, d, y);
    } else {
      var y :| y in on1 && idx1[y] == low1 && Reach(g, v, y);
      assert y in on && idx[y] == low1;
    }
  }

  lemma ActiveAfterChild(g: Digraph, gray: set<Node>, idx1: map<Node, nat>, next1: nat, on0: set<Node>, on1: set<Node>, v: Node, idx: map<Node, nat>, on: set<Node>)
    requires Active(g, gray, idx1, on0, on1, v) && Below(idx1, next1)
    requires Inv(g, gray + {v}, idx, on) && Grown(idx1, next1, on1, idx, on)
    ensures Active(g, gray, idx, on0, on, v)
  {
    forall n | n in on - on0
      ensures idx[v] <= idx[n]
    {
      if n in on1 {
        assert n in on1 - on0;
      } else {
        assert n in on - on1;
      }
    }
  }

  /** A new dependency is visited first; the low link then takes the smaller of the two. */
  lemma ScanChild(g: Digraph, gray: set<Node>, idx1: map<Node, nat>, next1: nat, on0: set<Node>, on1: set<Node>, v: Node, low1: nat, done: set<Node>,
                  idx: map<Node, nat>, on: set<Node>, d: Node, low: nat)
    requires Scanning(g, gray, idx1, on0, on1, v, low1, done) && Below(idx1, next1)
    requires Edge(g, v, d) && Visited(g, idx1, next1, on1, idx, on, d, low)
    requires Inv(g, gray + {v}, idx, on)
    ensures Scanning(g, gray, idx, on0, on, v, if low < low1 then low else low1, done + {d})
  {
    var bound := if low < low1 then low else low1;
    LowAfterChild(g, gray, idx1, next1, on0, on1, v, low1, done, idx, on, d, low);
    ActiveAfterChild(g, gray, idx1, next1, on0, on1, v, idx, on);
    forall x, y | x in on - {v} - on0 && y in on0 && Edge(g, x, y)
      ensures bound <= idx[y]
    {
      if x in on1 {
        assert x in on1 - {v} - on0;
        assert low1 <= idx1[y];
      } else {
        assert x in on - on1 && y in on1;
      }
    }
  }

  lemma ScanEnd(g: Digraph, gray: set<Node>, idx: map<Node, nat>, on0: set<Node>, on: set<Node>, v: Node, low: nat, done: set<Node>)
    requires Scanning(g, gray, idx, on0, on, v, low, done)
    requires forall m :: Edge(g, v, m) ==> m in done
    ensures EdgesBounded(g, idx, on0, on, low)
  {
    forall x, y | x in on - on0 && y in on0 && Edge(g, x, y)
      ensures low <= idx[y]
    {
      if x != v {
        assert x in on - {v} - on0;
      }
    }
  }

  // ---------- Recording components ----------

  /** The length test of the source decides whether the component is a cycle. */
  lemma CyclicTest(g: Digraph, v: Node, c: seq<Node>)
    requires v in Nodes(g) && c != [] && NoDuplicates(c) && Elems(c) == Scc(g, v)
    ensures Cyclic(g, v) <==> |c| > 1 || Edge(g, c[0], c[0])
  {
    SccSelf(g, v);
    assert v in Elems(c) && c[0] in Elems(c);
    forall m | Mutual(g, v, m)
      ensures m in Elems(c)
    {
      ReachNode(g, v, m);
    }
    if |c| > 1 {
      assert c[1] in Elems(c);
      var other := if c[0] == v then c[1] else c[0];
      assert other != v && Mutual(g, v, other);
    }
  }

  lemma SortedIsCycle(g: Digraph, v: Node, c: seq<Node>, sorted: seq<Node>)
    requires v in Nodes(g) && c != [] && NoDuplicates(c) && Elems(c) == Scc(g, v) && Cyclic(g, v)
    requires multiset(sorted) == multiset(c)
    ensures IsCycle(g, sorted) && Elems(sorted) == Elems(c)
  {
    SameElems(c, sorted);
    NoDuplicatesPermuted(c, sorted);
    assert sorted[0] in Elems(c);
    SccSame(g, v, sorted[0]);
    CyclicShared(g, v, sorted[0]);
  }

  /** Recording a popped component, or dropping an acyclic one, keeps the list of cycles right. */
  lemma RecordCycle(g: Digraph, le: (Node, Node) -> bool, closed: set<Node>, comps: seq<seq<Node>>, c: seq<Node>)
    requires CompsOk(g, le, closed, comps)
    requires IsCycle(g, c) && Sorted(le, c) && "" !in c && Elems(c) !! closed
    ensures CompsOk(g, le, closed + Elems(c), comps + [c])
  {
    var comps' := comps + [c];
    forall n | n in closed + Elems(c) && Cyclic(g, n)
      ensures Covered(n, comps')
    {
      if n in closed {
        assert Covered(n, comps);
        var i :| 0 <= i < |comps| && n in comps[i];
        assert n in comps'[i];
      } else {
        assert n in comps'[|comps|];
      }
    }
    forall i, j | 0 <= i < j < |comps'|
      ensures Elems(comps'[i]) !! Elems(comps'[j])
    {
      if j == |comps| {
        assert Elems(comps[i]) <= closed;
      }
    }
  }

  lemma DropAcyclic(g: Digraph, le: (Node, Node) -> bool, closed: set<Node>, comps: seq<seq<Node>>, v: Node, c: seq<Node>)
    requires CompsOk(g, le, closed, comps)
    requires Elems(c) == Scc(g, v) && !Cyclic(g, v) && "" !in c
    ensures CompsOk(g, le, closed + Elems(c), comps)
  {
    forall n | n in Elems(c) && Cyclic(g, n)
      ensures false
    {
      CyclicShared(g, n, v);
    }
  }

  // ---------- Finishing a visit ----------

  lemma VisitedStacked(g: Digraph, idx0: map<Node, nat>, next0: nat, on0: set<Node>, idx: map<Node, nat>, on: set<Node>, v: Node, low: nat)
    requires on0 <= idx0.Keys && v !in idx0 && Below(idx0, next0)
    requires Grown(idx0[v := next0], next0 + 1, on0 + {v}, idx, on)
    requires v in on && on <= idx.Keys
    requires low <= idx[v] && LowWitness(g, idx, on, v, low) && EdgesBounded(g, idx, on0, on, low)
    ensures Visited(g, idx0, next0, on0, idx, on, v, low)
  {
    ExtendsPast(idx0, next0, idx, v);
    forall n | n in on - on0
      ensures n !in idx0
    {
      if n != v {
        assert n in on - (on0 + {v});
      }
    }
  }

  lemma VisitedClosed(g: Digraph, idx0: map<Node, nat>, next0: nat, on0: set<Node>, idx: map<Node, nat>, v: Node)
    requires on0 <= idx0.Keys && v !in idx0 && Below(idx0, next0)
    requires Extends(idx0[v := next0], next0 + 1, idx)
    ensures Visited(g, idx0, next0, on0, idx, on0, v, idx[v])
  {
    ExtendsPast(idx0, next0, idx, v);
  }

  lemma ExtendsPast(idx0: map<Node, nat>, next0: nat, idx: map<Node, nat>, v: Node)
    requires v !in idx0 && Extends(idx0[v := next0], next0 + 1, idx)
    ensures Extends(idx0, next0, idx) && v in idx && idx[v] == next0
  {
    var idx1 := idx0[v := next0];
    assert forall n :: n in idx0 ==> n in idx1 && idx1[n] == idx0[n];
    assert v in idx1;
  }
}
