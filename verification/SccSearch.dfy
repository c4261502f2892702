/** The search itself, with the mutable state of `findStronglyConnectedComponents`. */
module SccSearch {
  import opened Graph
  import opened Sorting
  import opened Tarjan

  /** Every stacked node is indexed, and indices grow from the bottom of the stack to its top. */
  ghost predicate StackOk(idx: map<Node, nat>, stack: seq<Node>) {
    && (forall n :: n in stack ==> n in idx)
    && (forall i, j :: 0 <= i < j < |stack| ==> idx[stack[i]] < idx[stack[j]])
  }

  lemma OnlyAt(idx: map<Node, nat>, stack: seq<Node>, i: nat, j: nat)
    requires StackOk(idx, stack) && i < |stack| && j < |stack| && stack[i] == stack[j]
    ensures i == j && StackOk(idx, stack[..i])
  {
    assert !(idx[stack[i]] < idx[stack[j]]);
  }

  /** `component` lists what was popped from `all`, whose first `n` nodes are still stacked. */
  ghost predicate Popped(all: seq<Node>, n: nat, component: seq<Node>)
    requires n <= |all|
  {
    && NoDuplicates(component)
    && Elems(component) == Elems(all) - Elems(all[..n])
  }

  lemma PopOne(idx: map<Node, nat>, all: seq<Node>, n: nat, component: seq<Node>)
    requires StackOk(idx, all) && 0 < n <= |all| && Popped(all, n, component)
    ensures Popped(all, n - 1, component + [all[n - 1]])
    ensures Elems(all[..n - 1]) == Elems(all[..n]) - {all[n - 1]}
    ensures all[n - 1] in Elems(all)
  {
    var member, rest := all[n - 1], all[..n - 1];
    assert all[..n] == rest + [member];
    assert Elems(all[..n]) == Elems(rest) + {member};
    assert member !in rest by {
      assert forall i :: 0 <= i < n - 1 ==> idx[all[i]] < idx[all[n - 1]];
    }
    assert member !in component by {
      assert member !in Elems(component);
    }
    assert Elems(component + [member]) == Elems(component) + {member};
  }

  /** The state of the pop loop: `stack` is what is left of `all`, and `on` its elements. */
  ghost predicate Popping(idx: map<Node, nat>, all: seq<Node>, stack: seq<Node>, on: set<Node>, component: seq<Node>) {
    && StackOk(idx, all) && stack <= all && on == Elems(stack)
    && Popped(all, |stack|, component) && "" !in component
  }

  lemma PopStart(idx: map<Node, nat>, all: seq<Node>)
    requires StackOk(idx, all)
    ensures Popping(idx, all, all, Elems(all), [])
  {
    assert all[..|all|] == all;
  }

  /** One turn of the loop. */
  lemma PopStep(idx: map<Node, nat>, all: seq<Node>, stack: seq<Node>, on: set<Node>, component: seq<Node>)
    requires Popping(idx, all, stack, on, component) && stack != []
    ensures var member := stack[|stack| - 1];
      && member in Elems(all)
      && (member != "" ==> Popping(idx, all, stack[..|stack| - 1], on - {member}, component + [member]))
  {
    var n := |stack|;
    assert stack == all[..n] && stack[n - 1] == all[n - 1] && stack[..n - 1] == all[..n - 1];
    PopOne(idx, all, n, component);
  }

  /** The loop ended at `node`, which the stack holds only once, right above `stack0`. */
  lemma PopEnd(idx: map<Node, nat>, all: seq<Node>, stack: seq<Node>, on: set<Node>, component: seq<Node>, stack0: seq<Node>, node: Node)
    requires Popping(idx, all, stack, on, component) && stack0 + [node] <= all
    requires |stack| < |all| && all[|stack|] == node
    ensures stack == stack0 && on == Elems(stack0) && StackOk(idx, stack)
    ensures NoDuplicates(component) && Elems(component) == Elems(all) - Elems(stack0)
  {
    var k := |stack0|;
    assert all[k] == node && all[..k] == stack0;
    OnlyAt(idx, all, k, |stack|);
    assert stack == all[..k];
  }

  ghost predicate KeptExcept(low0: map<Node, nat>, low: map<Node, nat>, node: Node) {
    forall n :: n in low0 && n != node ==> n in low && low[n] == low0[n]
  }

  lemma KeptThrough(low0: map<Node, nat>, index: nat, low: map<Node, nat>, node: Node)
    requires KeptExcept(low0[node := index], low, node)
    ensures KeptExcept(low0, low, node)
  {
    var low1 := low0[node := index];
    assert forall n :: n in low0 && n != node ==> n in low1 && low1[n] == low0[n];
  }

  lemma KeptAfterLower(low1: map<Node, nat>, low: map<Node, nat>, dependency: Node, node: Node, index: nat)
    requires KeptExcept(low1, low, dependency) && dependency !in low1
    ensures KeptExcept(low1, low[node := index], node)
  {
  }

  /** The nodes still to be numbered only become fewer. */
  lemma FewerLeft(g: Digraph, start: Moment, now: Moment, node: Node)
    requires Since(start, now, node)
    ensures Nodes(g) - now.indices.Keys <= Nodes(g) - start.indices.Keys
  {
  }

  lemma PushStackOk(idx: map<Node, nat>, stack: seq<Node>, node: Node, index: nat)
    requires StackOk(idx, stack) && Below(idx, index) && node !in idx
    ensures StackOk(idx[node := index], stack + [node])
    ensures Elems(stack + [node]) == Elems(stack) + {node}
  {
    assert forall n :: n in stack ==> n != node;
  }

  lemma ElemsNext(deps: seq<Node>, i: nat)
    requires i < |deps|
    ensures Elems(deps[..i + 1]) == Elems(deps[..i]) + {deps[i]}
  {
    assert deps[..i + 1] == deps[..i] + [deps[i]];
  }

  /** The mutable state of the search, at one moment. */
  datatype Moment = Moment(indices: map<Node, nat>, nextIndex: nat, stack: seq<Node>, onStack: set<Node>, lowLinks: map<Node, nat>)

  /** What the dependency loop of `node` never takes back. */
  ghost predicate Since(m: Moment, n: Moment, node: Node) {
    && m.stack <= n.stack && m.nextIndex <= n.nextIndex
    && Grown(m.indices, m.nextIndex, m.onStack, n.indices, n.onStack)
    && KeptExcept(m.lowLinks, n.lowLinks, node)
  }

  lemma SinceTwice(l: Moment, m: Moment, n: Moment, node: Node)
    requires Since(l, m, node) && Since(m, n, node)
    ensures Since(l, n, node)
  {
    GrownTwice(l.indices, l.nextIndex, l.onStack, m.indices, m.nextIndex, m.onStack, n.indices, n.onStack);
  }

  lemma GrownTwice(idx0: map<Node, nat>, next0: nat, on0: set<Node>, idx1: map<Node, nat>, next1: nat, on1: set<Node>, idx: map<Node, nat>, on: set<Node>)
    requires Grown(idx0, next0, on0, idx1, on1) && Grown(idx1, next1, on1, idx, on) && next0 <= next1
    ensures Grown(idx0, next0, on0, idx, on)
  {
    forall n | n in on - on0
      ensures n !in idx0
    {
      if n in on1 {
        assert n in on1 - on0;
      } else {
        assert n in on - on1;
      }
    }
  }

  /** Every running visit reaches a dependency of the newest one. */
  lemma StepsToDependency(g: Digraph, gray: set<Node>, idx: map<Node, nat>, on0: set<Node>, on: set<Node>, node: Node, dependency: Node)
    requires Active(g, gray, idx, on0, on, node) && Edge(g, node, dependency)
    ensures dependency in Nodes(g)
    ensures forall x :: x in gray + {node} ==> Reach(g, x, dependency)
  {
    EdgeNodes(g, node, dependency);
    ReachEdge(g, node, dependency);
    forall x | x in gray
      ensures Reach(g, x, dependency)
    {
      assert Reach(g, x, node);
      ReachTrans(g, x, node, dependency);
    }
  }

  function Min(x: nat, y: nat): nat {
    if x < y then x else y
  }

  class Search {
    const graph: Digraph
    /** The order of `component.sort()`. */
    const nodeLe: (Node, Node) -> bool

    var indices: map<Node, nat>
    var lowLinks: map<Node, nat>
    var stack: seq<Node>
    var onStack: set<Node>
    var components: seq<seq<Node>>
    var nextIndex: nat

    /** `gray` is the set of nodes whose visit is still running. */
    ghost predicate Valid(gray: set<Node>)
      reads this
    {
      && TotalPreorder(nodeLe)
      && Inv(graph, gray, indices, onStack)
      && Below(indices, nextIndex)
      && StackOk(indices, stack)
      && onStack == Elems(stack)
      && lowLinks.Keys == indices.Keys
      && CompsOk(graph, nodeLe, indices.Keys - onStack, components)
    }

    constructor (graph: Digraph, nodeLe: (Node, Node) -> bool)
      requires TotalPreorder(nodeLe)
      ensures Valid({}) && this.graph == graph && this.nodeLe == nodeLe
      ensures indices == map[] && stack == []
    {
      this.graph, this.nodeLe := graph, nodeLe;
      indices, lowLinks, stack, onStack, components, nextIndex := map[], map[], [], {}, [], 0;
    }

    /** Numbers a new node and pushes it. */
    method Enter(node: Node, ghost gray: set<Node>)
      requires Valid(gray)
      requires node in Nodes(graph) && node !in indices
      requires forall x :: x in gray ==> Reach(graph, x, node)
      modifies this
      ensures Valid(gray + {node})
      ensures indices == old(indices)[node := old(nextIndex)] && nextIndex == old(nextIndex) + 1
      ensures stack == old(stack) + [node] && onStack == old(onStack) + {node}
      ensures lowLinks == old(lowLinks)[node := old(nextIndex)]
      ensures Scanning(graph, gray, indices, old(onStack), onStack, node, lowLinks[node], {})
    {
      EnterKeepsInv(graph, gray, indices, onStack, node, nextIndex);
      ScanStart(graph, gray, indices[node := nextIndex], onStack, node);
      PushStackOk(indices, stack, node, nextIndex);
      var index := nextIndex;
      nextIndex := nextIndex + 1;
      indices := indices[node := index];
      lowLinks := lowLinks[node := index];
      stack := stack + [node];
      onStack := onStack + {node};
    }

    /**
     Visits a new node. `thrown` is the underflow error, which fires on any falsy popped
     value, and so on a node whose name is empty.
     */
    method Visit(node: Node, ghost gray: set<Node>) returns (thrown: bool)
      requires Valid(gray)
      requires node in Nodes(graph) && node !in indices
      requires forall x :: x in gray ==> Reach(graph, x, node)
      modifies this
      ensures thrown ==> "" in Nodes(graph)
      ensures !thrown ==> Valid(gray)
      ensures !thrown ==> old(stack) <= stack && old(nextIndex) <= nextIndex
      ensures !thrown ==> node in indices && Visited(graph, old(indices), old(nextIndex), old(onStack), indices, onStack, node, lowLinks[node])
      ensures !thrown ==> KeptExcept(old(lowLinks), lowLinks, node)
      decreases Nodes(graph) - indices.Keys, 0
    {
      ghost var idx0, next0, stack0, low0 := indices, nextIndex, stack, lowLinks;
      Enter(node, gray);
      thrown := ScanDependencies(node, gray, Elems(stack0));
      if !thrown {
        KeptThrough(low0, next0, lowLinks, node);
        thrown := Finish(node, gray, idx0, next0, stack0);
      }
    }

    /** The dependency loop of a visit, run when `node` has just been stacked on top of `on0`. */
    method ScanDependencies(node: Node, ghost gray: set<Node>, ghost on0: set<Node>) returns (thrown: bool)
      requires Valid(gray + {node})
      requires node in indices && Scanning(graph, gray, indices, on0, onStack, node, lowLinks[node], {})
      modifies this
      ensures thrown ==> "" in Nodes(graph)
      ensures !thrown ==>
        Looping(node, gray, on0, old(Now()), Elems(Deps(graph, node)))
      decreases Nodes(graph) - indices.Keys, 4
    {
      var deps := Deps(graph, node);
      ghost var start := Now();
      LoopBegins(node, gray, on0);
      var i := 0;
      assert Elems(deps[..i]) == {};
      while i < |deps|
        invariant i <= |deps| && Looping(node, gray, on0, start, Elems(deps[..i]))
      {
        ElemsNext(deps, i);
        FewerLeft(graph, start, Now(), node);
        thrown := ScanNext(node, gray, on0, deps[i], Elems(deps[..i]), start);
        if thrown {
          return;
        }
        i := i + 1;
      }
      assert deps[..i] == deps;
      return false;
    }

    ghost function Now(): Moment
      reads this
    {
      Moment(indices, nextIndex, stack, onStack, lowLinks)
    }

    lemma LoopBegins(node: Node, gray: set<Node>, on0: set<Node>)
      requires Valid(gray + {node})
      requires node in indices && Scanning(graph, gray, indices, on0, onStack, node, lowLinks[node], {})
      ensures Looping(node, gray, on0, Now(), {})
    {
    }

    /** The state before each turn of the dependency loop that began at `start`. */
    ghost predicate Looping(node: Node, gray: set<Node>, on0: set<Node>, start: Moment, done: set<Node>)
      reads this
    {
      && Valid(gray + {node})
      && Since(start, Now(), node)
      && node in indices && Scanning(graph, gray, indices, on0, onStack, node, lowLinks[node], done)
    }

    /** One turn of the dependency loop, seen from its beginning. */
    method ScanNext(node: Node, ghost gray: set<Node>, ghost on0: set<Node>, dependency: Node, ghost done: set<Node>, ghost start: Moment)
      returns (thrown: bool)
      requires Looping(node, gray, on0, start, done) && Edge(graph, node, dependency)
      modifies this
      ensures thrown ==> "" in Nodes(graph)
      ensures !thrown ==> Looping(node, gray, on0, start, done + {dependency})
      decreases Nodes(graph) - indices.Keys, 3
    {
      ghost var before := Now();
      thrown := ScanDependency(node, gray, on0, dependency, done);
      if !thrown {
        SinceTwice(start, before, Now(), node);
      }
    }

    /** One turn of the dependency loop; `done` holds the dependencies handled before. */
    method ScanDependency(node: Node, ghost gray: set<Node>, ghost on0: set<Node>, dependency: Node, ghost done: set<Node>) returns (thrown: bool)
      requires Valid(gray + {node}) && Edge(graph, node, dependency)
      requires node in indices && Scanning(graph, gray, indices, on0, onStack, node, lowLinks[node], done)
      modifies this
      ensures thrown ==> "" in Nodes(graph)
      ensures !thrown ==> Valid(gray + {node})
      ensures !thrown ==> old(stack) <= stack && old(nextIndex) <= nextIndex
      ensures !thrown ==> Grown(old(indices), old(nextIndex), old(onStack), indices, onStack)
      ensures !thrown ==> node in indices && Scanning(graph, gray, indices, on0, onStack, node, lowLinks[node], done + {dependency})
      ensures !thrown ==> KeptExcept(old(lowLinks), lowLinks, node)
      decreases Nodes(graph) - indices.Keys, 2
    {
      if dependency !in indices {
        thrown := ScanNewDependency(node, gray, on0, dependency, done);
      } else {
        ScanIndexed(graph, gray, indices, on0, onStack, node, lowLinks[node], done, dependency);
        if dependency in onStack {
          lowLinks := lowLinks[node := Min(lowLinks[node], indices[dependency])];
        }
        return false;
      }
    }

    /** The turn of the dependency loop that visits a node not indexed yet. */
    method ScanNewDependency(node: Node, ghost gray: set<Node>, ghost on0: set<Node>, dependency: Node, ghost done: set<Node>) returns (thrown: bool)
      requires Valid(gray + {node}) && Edge(graph, node, dependency) && dependency !in indices
      requires node in indices && Scanning(graph, gray, indices, on0, onStack, node, lowLinks[node], done)
      modifies this
      ensures thrown ==> "" in Nodes(graph)
      ensures !thrown ==> Valid(gray + {node})
      ensures !thrown ==> old(stack) <= stack && old(nextIndex) <= nextIndex
      ensures !thrown ==> Grown(old(indices), old(nextIndex), old(onStack), indices, onStack)
      ensures !thrown ==> node in indices && Scanning(graph, gray, indices, on0, onStack, node, lowLinks[node], done + {dependency})
      ensures !thrown ==> KeptExcept(old(lowLinks), lowLinks, node)
      decreases Nodes(graph) - indices.Keys, 1
    {
      ghost var idx1, next1, on1, low1 := indices, nextIndex, onStack, lowLinks;
      StepsToDependency(graph, gray, idx1, on0, on1, node, dependency);
      thrown := Visit(dependency, gray + {node});
      if !thrown {
        LowerToChild(node, gray, on0, dependency, done, idx1, next1, on1, low1);
      }
    }

    /** Takes over the low link of a dependency that was just visited. */
    method LowerToChild(node: Node, ghost gray: set<Node>, ghost on0: set<Node>, dependency: Node, ghost done: set<Node>,
                        ghost idx1: map<Node, nat>, ghost next1: nat, ghost on1: set<Node>, ghost low1: map<Node, nat>)
      requires Valid(gray + {node}) && Edge(graph, node, dependency)
      requires low1.Keys == idx1.Keys && dependency !in idx1 && node in idx1 && Below(idx1, next1)
      requires Scanning(graph, gray, idx1, on0, on1, node, low1[node], done)
      requires dependency in indices && Visited(graph, idx1, next1, on1, indices, onStack, dependency, lowLinks[dependency])
      requires KeptExcept(low1, lowLinks, dependency)
      modifies this`lowLinks
      ensures Valid(gray + {node})
      ensures Scanning(graph, gray, indices, on0, onStack, node, lowLinks[node], done + {dependency})
      ensures KeptExcept(low1, lowLinks, node)
    {
      assert lowLinks[node] == low1[node];
      KeptAfterLower(low1, lowLinks, dependency, node, Min(lowLinks[node], lowLinks[dependency]));
      ScanChild(graph, gray, idx1, next1, on0, on1, node, low1[node], done, indices, onStack, dependency, lowLinks[dependency]);
      lowLinks := lowLinks[node := Min(lowLinks[node], lowLinks[dependency])];
    }

    /** The state between the dependency loop and the end of a visit that began with `stack0`. */
    ghost predicate Scanned(node: Node, gray: set<Node>, idx0: map<Node, nat>, next0: nat, stack0: seq<Node>)
      reads this
    {
      && Valid(gray + {node})
      && Inv(graph, gray, idx0, Elems(stack0)) && Below(idx0, next0) && node !in idx0
      && Grown(idx0[node := next0], next0 + 1, Elems(stack0) + {node}, indices, onStack)
      && node in indices
      && Scanning(graph, gray, indices, Elems(stack0), onStack, node, lowLinks[node], Elems(Deps(graph, node)))
      && stack0 + [node] <= stack
    }

    lemma ScannedBounds(node: Node, gray: set<Node>, idx0: map<Node, nat>, next0: nat, stack0: seq<Node>)
      requires Scanned(node, gray, idx0, next0, stack0)
      ensures forall m :: Edge(graph, node, m) ==> m in indices
      ensures EdgesBounded(graph, indices, Elems(stack0), onStack, lowLinks[node])
    {
      assert forall m :: Edge(graph, node, m) ==> m in Elems(Deps(graph, node));
      ScanEnd(graph, gray, indices, Elems(stack0), onStack, node, lowLinks[node], Elems(Deps(graph, node)));
    }

    /** Keeps the node stacked when its low link is below its index, and pops its component otherwise. */
    method Finish(node: Node, ghost gray: set<Node>, ghost idx0: map<Node, nat>, ghost next0: nat, ghost stack0: seq<Node>) returns (thrown: bool)
      requires Scanned(node, gray, idx0, next0, stack0)
      modifies this`stack, this`onStack, this`components
      ensures thrown ==> "" in Nodes(graph)
      ensures !thrown ==> Valid(gray) && stack0 <= stack
      ensures !thrown ==> Visited(graph, idx0, next0, Elems(stack0), indices, onStack, node, lowLinks[node])
    {
      if lowLinks[node] != indices[node] {
        FinishStacked(node, gray, idx0, next0, stack0);
        return false;
      }
      thrown := CloseComponent(node, gray, idx0, next0, stack0);
    }

    lemma FinishStacked(node: Node, gray: set<Node>, idx0: map<Node, nat>, next0: nat, stack0: seq<Node>)
      requires Scanned(node, gray, idx0, next0, stack0)
      requires lowLinks[node] != indices[node]
      ensures Valid(gray)
      ensures Visited(graph, idx0, next0, Elems(stack0), indices, onStack, node, lowLinks[node])
    {
      var on0, low := Elems(stack0), lowLinks[node];
      ScannedBounds(node, gray, idx0, next0, stack0);
      VisitedStacked(graph, idx0, next0, on0, indices, onStack, node, low);
      LeaveKeepsInv(graph, gray, idx0, next0, indices, on0, onStack, node, low);
    }

    /** Pops the component of `node` and records it when it is a cycle. */
    method CloseComponent(node: Node, ghost gray: set<Node>, ghost idx0: map<Node, nat>, ghost next0: nat, ghost stack0: seq<Node>) returns (thrown: bool)
      requires Scanned(node, gray, idx0, next0, stack0)
      requires lowLinks[node] == indices[node]
      modifies this`stack, this`onStack, this`components
      ensures thrown ==> "" in Nodes(graph)
      ensures !thrown ==> Valid(gray) && stack == stack0
      ensures !thrown ==> Visited(graph, idx0, next0, Elems(stack0), indices, onStack, node, lowLinks[node])
    {
      ghost var on0, on1, comps0 := Elems(stack0), onStack, components;
      ScannedBounds(node, gray, idx0, next0, stack0);
      TopIsComponent(graph, gray, indices, on0, onStack, node);
      PopKeepsInv(graph, gray, idx0, next0, indices, on0, onStack, node);
      VisitedClosed(graph, idx0, next0, on0, indices, node);
      var component: seq<Node>;
      thrown, component := PopComponent(node, stack0);
      if thrown {
        return;
      }
      assert indices.Keys - on0 == (indices.Keys - on1) + Elems(component);
      Record(node, component, indices.Keys - on1);
    }

    /** The do-while loop that pops down to `node`; an empty or missing name is falsy. */
    method PopComponent(node: Node, ghost stack0: seq<Node>) returns (thrown: bool, component: seq<Node>)
      requires StackOk(indices, stack) && onStack == Elems(stack)
      requires stack0 + [node] <= stack && Elems(stack) <= Nodes(graph)
      modifies this`stack, this`onStack
      ensures thrown ==> "" in Nodes(graph)
      ensures !thrown ==> stack == stack0 && onStack == Elems(stack0) && StackOk(indices, stack)
      ensures !thrown ==> component != [] && NoDuplicates(component) && "" !in component
      ensures !thrown ==> Elems(component) == old(onStack) - Elems(stack0)
    {
      ghost var all := stack;
      assert all[|stack0|] == node;
      PopStart(indices, all);
      component := [];
      var member := "";
      while true
        invariant |stack0| < |stack| && Popping(indices, all, stack, onStack, component)
        decreases |stack|
      {
        thrown, member := PopMember(all, component);
        if thrown {
          return;
        }
        component := component + [member];
        if member == node {
          break;
        }
      }
      PopEnd(indices, all, stack, onStack, component, stack0, node);
      return false, component;
    }

    /** `stack.pop()`, with the test for a falsy member; the stack never runs out. */
    method PopMember(ghost all: seq<Node>, ghost component: seq<Node>) returns (thrown: bool, member: Node)
      requires Popping(indices, all, stack, onStack, component) && stack != []
      modifies this`stack, this`onStack
      ensures member == old(stack)[|old(stack)| - 1] && stack == old(stack)[..|old(stack)| - 1]
      ensures thrown == (member == "") && member in all
      ensures !thrown ==> Popping(indices, all, stack, onStack, component + [member])
    {
      PopStep(indices, all, stack, onStack, component);
      member := stack[|stack| - 1];
      stack := stack[..|stack| - 1];
      if member == "" {
        return true, member;
      }
      onStack := onStack - {member};
      return false, member;
    }

    /** Appends a popped component when it has several nodes or a self-edge. */
    method Record(ghost node: Node, component: seq<Node>, ghost closed: set<Node>)
      requires TotalPreorder(nodeLe) && CompsOk(graph, nodeLe, closed, components)
      requires node in Nodes(graph) && component != [] && NoDuplicates(component) && "" !in component
      requires Elems(component) == Scc(graph, node) && Elems(component) !! closed
      modifies this`components
      ensures CompsOk(graph, nodeLe, closed + Elems(component), components)
    {
      CyclicTest(graph, node, component);
      var selfCycle := |component| == 1 && component[0] in Deps(graph, component[0]);
      if |component| > 1 || selfCycle {
        var sorted := Sort(nodeLe, component);
        SortSorted(nodeLe, component);
        SortedIsCycle(graph, node, component, sorted);
        SameElems(component, sorted);
        RecordCycle(graph, nodeLe, closed, components, sorted);
        components := components + [sorted];
      } else {
        DropAcyclic(graph, nodeLe, closed, components, node, component);
      }
    }
  }
}
