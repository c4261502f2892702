/**
 What the import-cycle analysis returns: every cyclic component once, in an order
 that depends on nothing but the edges.
 */
module ImportCycles {
  import opened Graph
  import opened Sorting
  import opened Tarjan
  import opened SccSearch

  /** `component.join('\n')`. */
  function Join(names: seq<Node>): string {
    if names == [] then ""
    else if |names| == 1 then names[0]
    else names[0] + "\n" + Join(names[1..])
  }

  /** The comparison of two components: their joined names, compared by locale. */
  function ByJoinedNames(localeLe: (string, string) -> bool): (seq<Node>, seq<Node>) -> bool {
    (left, right) => localeLe(Join(left), Join(right))
  }

  lemma JoinedNamesPreorder(localeLe: (string, string) -> bool)
    requires TotalPreorder(localeLe)
    ensures TotalPreorder(ByJoinedNames(localeLe))
  {
    var le := ByJoinedNames(localeLe);
    forall x: seq<Node>, y: seq<Node>
      ensures le(x, y) || le(y, x)
    {
      assert localeLe(Join(x), Join(y)) || localeLe(Join(y), Join(x));
    }
    forall x: seq<Node>, y: seq<Node>, z: seq<Node> | le(x, y) && le(y, z)
      ensures le(x, z)
    {
      assert localeLe(Join(x), Join(y)) && localeLe(Join(y), Join(z));
    }
  }

  /** The specification of the analysis. */
  ghost predicate IsCycleListing(g: Digraph, nodeLe: (Node, Node) -> bool, localeLe: (string, string) -> bool, cycles: seq<seq<Node>>) {
    && (forall i :: 0 <= i < |cycles| ==> IsCycle(g, cycles[i]) && Sorted(nodeLe, cycles[i]))
    && (forall n {:trigger Covered(n, cycles)} :: Cyclic(g, n) ==> Covered(n, cycles))
    && (forall i, j :: 0 <= i < j < |cycles| ==> Elems(cycles[i]) !! Elems(cycles[j]))
    && Sorted(ByJoinedNames(localeLe), cycles)
  }

  /** The analysis either lists the cycles or throws the stack-underflow error. */
  datatype Outcome = Cycles(cycles: seq<seq<Node>>) | StackUnderflow

  method SortedKeys(graph: Digraph, nodeLe: (Node, Node) -> bool) returns (keys: seq<Node>)
    requires TotalPreorder(nodeLe)
    ensures Elems(keys) == graph.Keys && Sorted(nodeLe, keys)
  {
    keys := [];
    var rest := graph.Keys;
    while rest != {}
      invariant rest <= graph.Keys && Elems(keys) == graph.Keys - rest
      decreases rest
    {
      var k :| k in rest;
      assert Elems(keys + [k]) == Elems(keys) + {k};
      keys := keys + [k];
      rest := rest - {k};
    }
    SameElems(keys, Sort(nodeLe, keys));
    SortSorted(nodeLe, keys);
    keys := Sort(nodeLe, keys);
  }

  /**
   The whole analysis: it never loses a cycle, never reports anything else, and throws
   exactly when some module has the empty name.
   */
  method FindStronglyConnectedComponents(graph: Digraph, nodeLe: (Node, Node) -> bool, localeLe: (string, string) -> bool)
    returns (outcome: Outcome)
    requires TotalPreorder(nodeLe) && TotalPreorder(localeLe)
    ensures outcome.StackUnderflow? <==> "" in Nodes(graph)
    ensures outcome.Cycles? ==> IsCycleListing(graph, nodeLe, localeLe, outcome.cycles)
  {
    var search := new Search(graph, nodeLe);
    var keys := SortedKeys(graph, nodeLe);
    var thrown := VisitAll(search, keys);
    if thrown {
      return StackUnderflow;
    }
    assert forall n :: n in graph.Keys ==> n in Elems(keys);
    AllClosed(graph, search.indices);
    ListingSorted(graph, nodeLe, localeLe, search.indices.Keys - search.onStack, search.components);
    return Cycles(Sort(ByJoinedNames(localeLe), search.components));
  }

  /** The outer loop: visits every listed node that no earlier visit reached. */
  method VisitAll(search: Search, keys: seq<Node>) returns (thrown: bool)
    requires search.Valid({}) && search.onStack == {}
    requires forall n :: n in keys ==> n in Nodes(search.graph)
    modifies search
    ensures thrown ==> "" in Nodes(search.graph)
    ensures !thrown ==> search.Valid({}) && search.onStack == {}
    ensures !thrown ==> forall n :: n in keys ==> n in search.indices
  {
    var i := 0;
    while i < |keys|
      invariant i <= |keys|
      invariant search.Valid({}) && search.onStack == {}
      invariant forall j :: 0 <= j < i ==> keys[j] in search.indices
    {
      if keys[i] !in search.indices {
        thrown := search.Visit(keys[i], {});
        if thrown {
          return;
        }
        NothingRunning(search.graph, search.indices, search.onStack);
      }
      i := i + 1;
    }
    return false;
  }

  /** With no visit running, the stack is empty. */
  lemma NothingRunning(g: Digraph, idx: map<Node, nat>, on: set<Node>)
    requires Inv(g, {}, idx, on)
    ensures on == {}
  {
    assert forall y :: y in on ==> ReachesGray(g, {}, idx, y);
  }

  lemma AllClosed(g: Digraph, idx: map<Node, nat>)
    requires Inv(g, {}, idx, {}) && g.Keys <= idx.Keys
    ensures idx.Keys == Nodes(g)
  {
    assert idx.Keys - {} == idx.Keys;
    forall n | n in Nodes(g)
      ensures n in idx
    {
      if n !in g {
        var k :| k in g && n in g[k];
        assert Edge(g, k, n);
      }
    }
  }

  lemma CyclicIsNode(g: Digraph, n: Node)
    requires Cyclic(g, n)
    ensures n in Nodes(g)
  {
    if Edge(g, n, n) {
      EdgeNodes(g, n, n);
    } else {
      var m :| m != n && Mutual(g, n, m);
      var p :| Walk(g, n, p, m);
      EdgeNodes(g, n, p[0]);
    }
  }

  lemma CoveredPermuted(n: Node, comps: seq<seq<Node>>, cycles: seq<seq<Node>>)
    requires Covered(n, comps) && forall c :: c in comps ==> c in cycles
    ensures Covered(n, cycles)
  {
    var i :| 0 <= i < |comps| && n in comps[i];
    assert comps[i] in cycles;
    var j :| 0 <= j < |cycles| && cycles[j] == comps[i];
  }

  /** Non-empty and pairwise disjoint lists stay pairwise disjoint in any order. */
  lemma DisjointPermuted(comps: seq<seq<Node>>, cycles: seq<seq<Node>>)
    requires multiset(cycles) == multiset(comps)
    requires forall i :: 0 <= i < |comps| ==> comps[i] != []
    requires forall i, j :: 0 <= i < j < |comps| ==> Elems(comps[i]) !! Elems(comps[j])
    ensures forall i, j :: 0 <= i < j < |cycles| ==> Elems(cycles[i]) !! Elems(cycles[j])
  {
    SameElems(comps, cycles);
    forall i, j | 0 <= i < j < |comps|
      ensures comps[i] != comps[j]
    {
      assert comps[i][0] in Elems(comps[i]);
    }
    NoDuplicatesPermuted(comps, cycles);
    forall i, j | 0 <= i < j < |cycles|
      ensures Elems(cycles[i]) !! Elems(cycles[j])
    {
      assert cycles[i] in comps && cycles[j] in comps && cycles[i] != cycles[j];
      var a :| 0 <= a < |comps| && comps[a] == cycles[i];
      var b :| 0 <= b < |comps| && comps[b] == cycles[j];
    }
  }

  /** Any permutation of the recorded components covers the cyclic nodes and stays disjoint. */
  lemma ListingPermuted(g: Digraph, nodeLe: (Node, Node) -> bool, closed: set<Node>, comps: seq<seq<Node>>, cycles: seq<seq<Node>>)
    requires CompsOk(g, nodeLe, closed, comps) && closed == Nodes(g)
    requires multiset(cycles) == multiset(comps)
    ensures forall i :: 0 <= i < |cycles| ==> IsCycle(g, cycles[i]) && Sorted(nodeLe, cycles[i])
    ensures forall n {:trigger Covered(n, cycles)} :: Cyclic(g, n) ==> Covered(n, cycles)
    ensures forall i, j :: 0 <= i < j < |cycles| ==> Elems(cycles[i]) !! Elems(cycles[j])
  {
    SameElems(comps, cycles);
    DisjointPermuted(comps, cycles);
    assert forall i :: 0 <= i < |cycles| ==> cycles[i] in comps;
    forall n | Cyclic(g, n)
      ensures Covered(n, cycles)
    {
      CyclicIsNode(g, n);
      assert Covered(n, comps);
      CoveredPermuted(n, comps, cycles);
    }
  }

  /** The recorded components, sorted, are the listing. */
  lemma ListingSorted(g: Digraph, nodeLe: (Node, Node) -> bool, localeLe: (string, string) -> bool, closed: set<Node>, comps: seq<seq<Node>>)
    requires TotalPreorder(localeLe)
    requires CompsOk(g, nodeLe, closed, comps) && closed == Nodes(g)
    ensures IsCycleListing(g, nodeLe, localeLe, Sort(ByJoinedNames(localeLe), comps))
  {
    var le := ByJoinedNames(localeLe);
    JoinedNamesPreorder(localeLe);
    SortSorted(le, comps);
    ListingPermuted(g, nodeLe, closed, comps, Sort(le, comps));
  }

  // ---------- The answer depends on the edges alone ----------

  ghost predicate EdgesWithin(g: Digraph, h: Digraph) {
    forall a, b :: Edge(g, a, b) ==> Edge(h, a, b)
  }

  lemma {:induction false} WalkWithin(g: Digraph, h: Digraph, a: Node, p: seq<Node>, b: Node)
    requires EdgesWithin(g, h) && Walk(g, a, p, b)
    ensures Walk(h, a, p, b)
    decreases |p|
  {
    if p != [] {
      WalkWithin(g, h, p[0], p[1..], b);
    }
  }

  lemma ReachWithin(g: Digraph, h: Digraph, a: Node, b: Node)
    requires EdgesWithin(g, h) && Reach(g, a, b)
    ensures Reach(h, a, b)
  {
    var p :| Walk(g, a, p, b);
    WalkWithin(g, h, a, p, b);
  }

  /** Adding edges keeps a cyclic component inside a cyclic component. */
  lemma CycleGrows(g: Digraph, h: Digraph, n: Node)
    requires EdgesWithin(g, h) && Cyclic(g, n)
    ensures Cyclic(h, n) && Scc(g, n) <= Scc(h, n)
  {
    if !Edge(g, n, n) {
      var m :| m != n && Mutual(g, n, m);
      ReachWithin(g, h, n, m);
      ReachWithin(g, h, m, n);
      assert Mutual(h, n, m);
    }
    CyclicIsNode(h, n);
    forall m | m in Scc(g, n)
      ensures m in Scc(h, n)
    {
      ReachWithin(g, h, n, m);
      ReachWithin(g, h, m, n);
      ReachNode(h, n, m);
    }
  }

  /** Two listings of the same edges contain the same cycles. */
  lemma ListedInBoth(g: Digraph, h: Digraph, nodeLe: (Node, Node) -> bool, localeLe: (string, string) -> bool, cycles: seq<seq<Node>>, others: seq<seq<Node>>, c: seq<Node>)
    requires EdgesWithin(g, h) && EdgesWithin(h, g) && Antisymmetric(nodeLe)
    requires IsCycleListing(g, nodeLe, localeLe, cycles) && IsCycleListing(h, nodeLe, localeLe, others)
    requires c in cycles
    ensures c in others
  {
    var n := c[0];
    CycleGrows(g, h, n);
    CycleGrows(h, g, n);
    assert Covered(n, others);
    var j :| 0 <= j < |others| && n in others[j];
    assert n in Elems(others[j]);
    SccSame(h, others[j][0], n);
    assert forall m :: m in c <==> m in Elems(c);
    assert forall m :: m in others[j] <==> m in Elems(others[j]);
    SortedUnique(nodeLe, c, others[j]);
  }

  lemma {:induction false} FirstBreak(x: string, r: string, y: string, s: string)
    requires '\n' !in x && '\n' !in y && x + "\n" + r == y + "\n" + s
    ensures x == y && r == s
  {
    var left, right := x + "\n" + r, y + "\n" + s;
    assert left[|x|] == '\n' && right[|y|] == '\n';
    assert forall i :: 0 <= i < |x| ==> left[i] == x[i] && x[i] != '\n';
    assert forall i :: 0 <= i < |y| ==> right[i] == y[i] && y[i] != '\n';
    assert |x| == |y|;
    assert x == left[..|x|] && y == right[..|y|];
    assert r == left[|x| + 1..] && s == right[|y| + 1..];
  }

  lemma {:induction false} BreakInJoin(names: seq<Node>)
    requires |names| > 1
    ensures '\n' in Join(names)
  {
    assert Join(names)[|names[0]|] == '\n';
  }

  /** Joining loses nothing when no name holds a line break. */
  lemma {:induction false} JoinInjective(names: seq<Node>, others: seq<Node>)
    requires names != [] && others != [] && Join(names) == Join(others)
    requires forall n :: n in names || n in others ==> '\n' !in n
    ensures names == others
    decreases |names|
  {
    assert names[0] in names && others[0] in others;
    if |names| == 1 {
      if |others| > 1 {
        BreakInJoin(others);
      }
    } else if |others| == 1 {
      BreakInJoin(names);
    } else {
      FirstBreak(names[0], Join(names[1..]), others[0], Join(others[1..]));
      JoinInjective(names[1..], others[1..]);
      assert names == [names[0]] + names[1..] && others == [others[0]] + others[1..];
    }
  }

  lemma ListingNoDuplicates(g: Digraph, nodeLe: (Node, Node) -> bool, localeLe: (string, string) -> bool, cycles: seq<seq<Node>>)
    requires IsCycleListing(g, nodeLe, localeLe, cycles)
    ensures NoDuplicates(cycles)
  {
    forall i, j | 0 <= i < j < |cycles|
      ensures cycles[i] != cycles[j]
    {
      assert cycles[i][0] in Elems(cycles[i]);
    }
  }

  /** The sort cannot tell the two components apart; a locale order ties more than equal strings. */
  predicate Tied(localeLe: (string, string) -> bool, c: seq<Node>, d: seq<Node>) {
    localeLe(Join(c), Join(d)) && localeLe(Join(d), Join(c))
  }

  ghost predicate NoTies(localeLe: (string, string) -> bool, cycles: seq<seq<Node>>) {
    forall i, j :: 0 <= i < j < |cycles| ==> !Tied(localeLe, cycles[i], cycles[j])
  }

  /** Where the order ties equal strings only, names without line breaks are enough for that. */
  lemma PlainNamesNeverTie(g: Digraph, nodeLe: (Node, Node) -> bool, localeLe: (string, string) -> bool, cycles: seq<seq<Node>>)
    requires IsCycleListing(g, nodeLe, localeLe, cycles) && Antisymmetric(localeLe)
    requires forall n :: n in Nodes(g) ==> '\n' !in n
    ensures NoTies(localeLe, cycles)
  {
    ListingNoDuplicates(g, nodeLe, localeLe, cycles);
    forall i, j | 0 <= i < j < |cycles|
      ensures !Tied(localeLe, cycles[i], cycles[j])
    {
      var c, d := cycles[i], cycles[j];
      assert forall n :: n in c ==> n in Elems(c);
      assert forall n :: n in d ==> n in Elems(d);
      if Join(c) == Join(d) {
        JoinInjective(c, d);
      }
    }
  }

  /**
   Reordering or repeating dependencies, or adding modules without imports, changes
   nothing: equal edges give the same list, unless the order ties two of its components.
   */
  lemma ListingDependsOnEdges(g: Digraph, h: Digraph, nodeLe: (Node, Node) -> bool, localeLe: (string, string) -> bool, cycles: seq<seq<Node>>, others: seq<seq<Node>>)
    requires EdgesWithin(g, h) && EdgesWithin(h, g)
    requires Antisymmetric(nodeLe) && NoTies(localeLe, cycles)
    requires IsCycleListing(g, nodeLe, localeLe, cycles) && IsCycleListing(h, nodeLe, localeLe, others)
    ensures cycles == others
  {
    var le := ByJoinedNames(localeLe);
    ListingNoDuplicates(g, nodeLe, localeLe, cycles);
    ListingNoDuplicates(h, nodeLe, localeLe, others);
    forall c
      ensures c in cycles <==> c in others
    {
      if c in cycles {
        ListedInBoth(g, h, nodeLe, localeLe, cycles, others, c);
      }
      if c in others {
        ListedInBoth(h, g, nodeLe, localeLe, others, cycles, c);
      }
    }
    forall c, d | c in cycles && d in cycles && le(c, d) && le(d, c)
      ensures c == d
    {
      assert Tied(localeLe, c, d) && Tied(localeLe, d, c);
      var i :| 0 <= i < |cycles| && cycles[i] == c;
      var j :| 0 <= j < |cycles| && cycles[j] == d;
      assert !(i < j) && !(j < i);
    }
    SortedUnique(le, cycles, others);
  }

  function Swapped(cycles: seq<seq<Node>>, i: nat, j: nat): (r: seq<seq<Node>>)
    requires i < j < |cycles|
    ensures |r| == |cycles|
    ensures forall k :: 0 <= k < |cycles| ==> r[k] == cycles[if k == i then j else if k == j then i else k]
  {
    cycles[i := cycles[j]][j := cycles[i]]
  }

  lemma SwapCovers(cycles: seq<seq<Node>>, i: nat, j: nat, n: Node)
    requires i < j < |cycles| && Covered(n, cycles)
    ensures Covered(n, Swapped(cycles, i, j))
  {
    var k :| 0 <= k < |cycles| && n in cycles[k];
    assert n in Swapped(cycles, i, j)[if k == i then j else if k == j then i else k];
  }

  lemma SwapDisjoint(cycles: seq<seq<Node>>, i: nat, j: nat)
    requires i < j < |cycles| && forall a, b :: 0 <= a < b < |cycles| ==> Elems(cycles[a]) !! Elems(cycles[b])
    ensures forall a, b :: 0 <= a < b < |cycles| ==> Elems(Swapped(cycles, i, j)[a]) !! Elems(Swapped(cycles, i, j)[b])
  {
  }

  lemma SwapSorted(localeLe: (string, string) -> bool, cycles: seq<seq<Node>>, i: nat, j: nat)
    requires TotalPreorder(localeLe) && Sorted(ByJoinedNames(localeLe), cycles)
    requires i < j < |cycles| && Tied(localeLe, cycles[i], cycles[j])
    ensures Sorted(ByJoinedNames(localeLe), Swapped(cycles, i, j))
  {
    var r, le := Swapped(cycles, i, j), ByJoinedNames(localeLe);
    forall a, b | 0 <= a < b < |r|
      ensures le(r[a], r[b])
    {
      TiedForward(localeLe, r[a], cycles[a]);
      TiedForward(localeLe, cycles[b], r[b]);
      assert le(cycles[a], cycles[b]);
      assert localeLe(Join(r[a]), Join(cycles[a])) && localeLe(Join(cycles[a]), Join(cycles[b]));
      assert localeLe(Join(r[a]), Join(cycles[b])) && localeLe(Join(cycles[b]), Join(r[b]));
    }
  }

  lemma TiedForward(localeLe: (string, string) -> bool, c: seq<Node>, d: seq<Node>)
    requires TotalPreorder(localeLe) && (c == d || Tied(localeLe, c, d) || Tied(localeLe, d, c))
    ensures localeLe(Join(c), Join(d))
  {
    assert localeLe(Join(c), Join(d)) || localeLe(Join(d), Join(c));
  }

  /** Tied components may trade places. */
  lemma TiedMaySwap(g: Digraph, nodeLe: (Node, Node) -> bool, localeLe: (string, string) -> bool, cycles: seq<seq<Node>>, i: nat, j: nat)
    requires TotalPreorder(localeLe) && IsCycleListing(g, nodeLe, localeLe, cycles)
    requires i < j < |cycles| && Tied(localeLe, cycles[i], cycles[j])
    ensures IsCycleListing(g, nodeLe, localeLe, Swapped(cycles, i, j))
  {
    forall n | Cyclic(g, n)
      ensures Covered(n, Swapped(cycles, i, j))
    {
      assert Covered(n, cycles);
      SwapCovers(cycles, i, j, n);
    }
    SwapDisjoint(cycles, i, j);
    SwapSorted(localeLe, cycles, i, j);
  }

  /** The contract of the analysis leaves one list exactly when no two components are tied. */
  lemma ListingUniqueIff(g: Digraph, nodeLe: (Node, Node) -> bool, localeLe: (string, string) -> bool, cycles: seq<seq<Node>>)
    requires Antisymmetric(nodeLe) && TotalPreorder(localeLe)
    requires IsCycleListing(g, nodeLe, localeLe, cycles)
    ensures (forall others :: IsCycleListing(g, nodeLe, localeLe, others) ==> others == cycles) <==> NoTies(localeLe, cycles)
  {
    if NoTies(localeLe, cycles) {
      forall others | IsCycleListing(g, nodeLe, localeLe, others)
        ensures others == cycles
      {
        ListingDependsOnEdges(g, g, nodeLe, localeLe, cycles, others);
      }
    } else {
      var i, j :| 0 <= i < j < |cycles| && Tied(localeLe, cycles[i], cycles[j]);
      TiedMaySwap(g, nodeLe, localeLe, cycles, i, j);
      ListingNoDuplicates(g, nodeLe, localeLe, cycles);
      assert Swapped(cycles, i, j)[i] == cycles[j] != cycles[i];
    }
  }

  /** A module with the empty name is enough for the underflow error, though it imports nothing. */
  method EmptyNameUnderflows(nodeLe: (Node, Node) -> bool, localeLe: (string, string) -> bool) returns (outcome: Outcome)
    requires TotalPreorder(nodeLe) && TotalPreorder(localeLe)
    ensures outcome == StackUnderflow
  {
    var graph := map["" := []];
    assert "" in graph;
    outcome := FindStronglyConnectedComponents(graph, nodeLe, localeLe);
  }
}
