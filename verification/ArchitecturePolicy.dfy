/** The ratchet: a snapshot of the sources compared with a recorded baseline. */
module ArchitecturePolicy {
  import opened Graph
  import opened Sorting
  import opened Tarjan
  import opened ImportCycles

  datatype TypeEscapeCounts = TypeEscapeCounts(explicitAny: nat, anyAssertions: nat, nonNullAssertions: nat, typescriptSuppressions: nat)

  datatype EscapeKey = ExplicitAny | AnyAssertions | NonNullAssertions | TypescriptSuppressions

  const TYPE_ESCAPE_KEYS := [ExplicitAny, AnyAssertions, NonNullAssertions, TypescriptSuppressions]

  function Count(counts: TypeEscapeCounts, key: EscapeKey): nat {
    match key
    case ExplicitAny => counts.explicitAny
    case AnyAssertions => counts.anyAssertions
    case NonNullAssertions => counts.nonNullAssertions
    case TypescriptSuppressions => counts.typescriptSuppressions
  }

  datatype Snapshot = Snapshot(sourceFiles: nat, cycles: seq<seq<Node>>, typeEscapes: TypeEscapeCounts, directEnvironmentModules: seq<Node>)

  datatype Baseline = Baseline(allowedCycles: seq<seq<Node>>, allowedDirectEnvironmentModules: seq<Node>, maximumTypeEscapes: TypeEscapeCounts)

  datatype Violation =
    | NewImportCycle(cycle: seq<Node>)
    | DirectEnvironmentAccess(path: Node)
    | TypeEscapeBudgetExceeded(key: EscapeKey, actual: nat, maximum: nat)

  function CreateBaseline(snapshot: Snapshot): Baseline {
    Baseline(snapshot.cycles, snapshot.directEnvironmentModules, snapshot.typeEscapes)
  }

  predicate CycleIsAllowed(cycle: seq<Node>, allowedCycles: seq<seq<Node>>) {
    exists allowed :: allowed in allowedCycles && forall m :: m in cycle ==> m in allowed
  }

  /** What each violation of a report stands for. */
  ghost predicate Justified(snapshot: Snapshot, baseline: Baseline, v: Violation) {
    match v
    case NewImportCycle(cycle) =>
      cycle in snapshot.cycles && !CycleIsAllowed(cycle, baseline.allowedCycles)
    case DirectEnvironmentAccess(path) =>
      path in snapshot.directEnvironmentModules && path !in baseline.allowedDirectEnvironmentModules
    case TypeEscapeBudgetExceeded(key, actual, maximum) =>
      var found, allowed := snapshot.typeEscapes, baseline.maximumTypeEscapes;
      actual > maximum && match key
        case ExplicitAny => actual == found.explicitAny && maximum == allowed.explicitAny
        case AnyAssertions => actual == found.anyAssertions && maximum == allowed.anyAssertions
        case NonNullAssertions => actual == found.nonNullAssertions && maximum == allowed.nonNullAssertions
        case TypescriptSuppressions => actual == found.typescriptSuppressions && maximum == allowed.typescriptSuppressions
  }

  // ---------- The report, in order ----------

  function CycleReport(cycles: seq<seq<Node>>, baseline: Baseline): seq<Violation> {
    if cycles == [] then []
    else
      var init, last := cycles[..|cycles| - 1], cycles[|cycles| - 1];
      CycleReport(init, baseline) + (if CycleIsAllowed(last, baseline.allowedCycles) then [] else [NewImportCycle(last)])
  }

  function EnvironmentReport(paths: seq<Node>, baseline: Baseline): seq<Violation> {
    if paths == [] then []
    else
      var init, last := paths[..|paths| - 1], paths[|paths| - 1];
      EnvironmentReport(init, baseline) + (if last in baseline.allowedDirectEnvironmentModules then [] else [DirectEnvironmentAccess(last)])
  }

  function EscapeReport(keys: seq<EscapeKey>, actual: TypeEscapeCounts, maximum: TypeEscapeCounts): seq<Violation> {
    if keys == [] then []
    else
      var init, key := keys[..|keys| - 1], keys[|keys| - 1];
      EscapeReport(init, actual, maximum)
      + (if Count(actual, key) > Count(maximum, key) then [TypeEscapeBudgetExceeded(key, Count(actual, key), Count(maximum, key))] else [])
  }

  function Report(snapshot: Snapshot, baseline: Baseline): seq<Violation> {
    CycleReport(snapshot.cycles, baseline)
    + EnvironmentReport(snapshot.directEnvironmentModules, baseline)
    + EscapeReport(TYPE_ESCAPE_KEYS, snapshot.typeEscapes, baseline.maximumTypeEscapes)
  }

  lemma {:induction false} CycleReportIff(cycles: seq<seq<Node>>, baseline: Baseline, v: Violation)
    ensures v in CycleReport(cycles, baseline) <==>
      v.NewImportCycle? && v.cycle in cycles && !CycleIsAllowed(v.cycle, baseline.allowedCycles)
  {
    if cycles != [] {
      CycleReportIff(cycles[..|cycles| - 1], baseline, v);
      assert cycles == cycles[..|cycles| - 1] + [cycles[|cycles| - 1]];
    }
  }

  lemma {:induction false} EnvironmentReportIff(paths: seq<Node>, baseline: Baseline, v: Violation)
    ensures v in EnvironmentReport(paths, baseline) <==>
      v.DirectEnvironmentAccess? && v.path in paths && v.path !in baseline.allowedDirectEnvironmentModules
  {
    if paths != [] {
      EnvironmentReportIff(paths[..|paths| - 1], baseline, v);
      assert paths == paths[..|paths| - 1] + [paths[|paths| - 1]];
    }
  }

  lemma {:induction false} EscapeReportIff(keys: seq<EscapeKey>, actual: TypeEscapeCounts, maximum: TypeEscapeCounts, v: Violation)
    ensures v in EscapeReport(keys, actual, maximum) <==>
      && v.TypeEscapeBudgetExceeded? && v.key in keys
      && v.actual == Count(actual, v.key) && v.maximum == Count(maximum, v.key) && v.actual > v.maximum
  {
    if keys != [] {
      EscapeReportIff(keys[..|keys| - 1], actual, maximum, v);
      assert keys == keys[..|keys| - 1] + [keys[|keys| - 1]];
    }
  }

  /** The report holds every justified violation and nothing else. */
  lemma ReportIff(snapshot: Snapshot, baseline: Baseline, v: Violation)
    ensures v in Report(snapshot, baseline) <==> Justified(snapshot, baseline, v)
  {
    CycleReportIff(snapshot.cycles, baseline, v);
    EnvironmentReportIff(snapshot.directEnvironmentModules, baseline, v);
    EscapeReportIff(TYPE_ESCAPE_KEYS, snapshot.typeEscapes, baseline.maximumTypeEscapes, v);
    assert TYPE_ESCAPE_KEYS[0] == ExplicitAny && TYPE_ESCAPE_KEYS[1] == AnyAssertions;
    assert TYPE_ESCAPE_KEYS[2] == NonNullAssertions && TYPE_ESCAPE_KEYS[3] == TypescriptSuppressions;
  }

  /** Every justified violation, once for each listed cause and in the order of the causes. */
  method EvaluateArchitecturePolicy(snapshot: Snapshot, baseline: Baseline) returns (violations: seq<Violation>)
    ensures violations == Report(snapshot, baseline)
    ensures forall v :: v in violations <==> Justified(snapshot, baseline, v)
  {
    violations := [];
    for i := 0 to |snapshot.cycles|
      invariant violations == CycleReport(snapshot.cycles[..i], baseline)
    {
      assert snapshot.cycles[..i + 1][..i] == snapshot.cycles[..i];
      if !CycleIsAllowed(snapshot.cycles[i], baseline.allowedCycles) {
        violations := violations + [NewImportCycle(snapshot.cycles[i])];
      }
    }
    assert snapshot.cycles[..|snapshot.cycles|] == snapshot.cycles;
    var paths := snapshot.directEnvironmentModules;
    ghost var sofar := violations;
    for i := 0 to |paths|
      invariant violations == sofar + EnvironmentReport(paths[..i], baseline)
    {
      assert paths[..i + 1][..i] == paths[..i];
      if paths[i] !in baseline.allowedDirectEnvironmentModules {
        violations := violations + [DirectEnvironmentAccess(paths[i])];
      }
    }
    assert paths[..|paths|] == paths;
    sofar := violations;
    for i := 0 to |TYPE_ESCAPE_KEYS|
      invariant violations == sofar + EscapeReport(TYPE_ESCAPE_KEYS[..i], snapshot.typeEscapes, baseline.maximumTypeEscapes)
    {
      assert TYPE_ESCAPE_KEYS[..i + 1][..i] == TYPE_ESCAPE_KEYS[..i];
      var key := TYPE_ESCAPE_KEYS[i];
      var actual, maximum := Count(snapshot.typeEscapes, key), Count(baseline.maximumTypeEscapes, key);
      if actual > maximum {
        violations := violations + [TypeEscapeBudgetExceeded(key, actual, maximum)];
      }
    }
    assert TYPE_ESCAPE_KEYS[..|TYPE_ESCAPE_KEYS|] == TYPE_ESCAPE_KEYS;
    forall v ensures v in violations <==> Justified(snapshot, baseline, v) {
      ReportIff(snapshot, baseline, v);
    }
  }

  // ---------- What the ratchet promises ----------

  /** A snapshot passes against the baseline written from it. */
  lemma OwnBaselinePasses(snapshot: Snapshot, v: Violation)
    ensures !Justified(snapshot, CreateBaseline(snapshot), v)
  {
    if v.NewImportCycle? && v.cycle in snapshot.cycles {
      assert CycleIsAllowed(v.cycle, snapshot.cycles);
    }
  }

  /** A walk between mutually reachable nodes never leaves their component. */
  lemma {:induction false} WalkInside(g: Digraph, h: Digraph, a: Node, p: seq<Node>, b: Node, inside: set<Node>)
    requires Walk(g, a, p, b) && Mutual(g, a, b) && a in inside
    requires forall x, y :: x in inside && Mutual(g, x, y) ==> y in inside
    requires forall x, y :: x in inside && y in inside && Edge(g, x, y) ==> Edge(h, x, y)
    ensures Walk(h, a, p, b)
    decreases |p|
  {
    if p != [] {
      var c := p[0];
      ReachEdge(g, a, c);
      assert Reach(g, c, b);
      ReachTrans(g, c, b, a);
      assert Mutual(g, a, c);
      ReachTrans(g, b, a, c);
      WalkInside(g, h, c, p[1..], b, inside);
    }
  }

  ghost predicate AddedInside(g: Digraph, h: Digraph, cycle: seq<Node>) {
    exists a, b :: a in cycle && b in cycle && Edge(h, a, b) && !Edge(g, a, b)
  }

  lemma ReachInside(g: Digraph, h: Digraph, cycle: seq<Node>, a: Node, b: Node)
    requires IsCycle(h, cycle) && !AddedInside(g, h, cycle)
    requires a in cycle && Mutual(h, a, b)
    ensures Reach(g, a, b) && b in cycle
  {
    var inside := Elems(cycle);
    assert a in inside;
    forall x, y | x in inside && Mutual(h, x, y)
      ensures y in inside
    {
      ReachTrans(h, cycle[0], x, y);
      ReachTrans(h, y, x, cycle[0]);
      CyclicIsNode(h, cycle[0]);
      ReachNode(h, cycle[0], y);
    }
    var p :| Walk(h, a, p, b);
    WalkInside(h, g, a, p, b, inside);
  }

  /** The modules of `cycle` lie on one common cycle of `g`. */
  ghost predicate OnOneCycle(g: Digraph, cycle: seq<Node>)
    requires cycle != []
  {
    Cyclic(g, cycle[0]) && forall m :: m in cycle ==> Mutual(g, cycle[0], m)
  }

  lemma MemberOfListed(g: Digraph, c: seq<Node>, n: Node, m: Node)
    requires IsCycle(g, c) && n in c
    ensures m in c <==> m in Nodes(g) && Mutual(g, n, m)
  {
    assert n in Elems(c);
    SccSame(g, c[0], n);
    assert m in Elems(c) <==> m in Scc(g, n);
  }

  lemma AllowedOnOneCycle(g: Digraph, nodeLe: (Node, Node) -> bool, localeLe: (string, string) -> bool, allowed: seq<seq<Node>>, cycle: seq<Node>)
    requires IsCycleListing(g, nodeLe, localeLe, allowed) && cycle != []
    requires CycleIsAllowed(cycle, allowed)
    ensures OnOneCycle(g, cycle)
  {
    var c :| c in allowed && forall m :: m in cycle ==> m in c;
    forall m | m in cycle
      ensures Mutual(g, cycle[0], m)
    {
      MemberOfListed(g, c, cycle[0], m);
    }
    assert cycle[0] in Elems(c);
    CyclicShared(g, c[0], cycle[0]);
  }

  lemma OneCycleAllowed(g: Digraph, nodeLe: (Node, Node) -> bool, localeLe: (string, string) -> bool, allowed: seq<seq<Node>>, cycle: seq<Node>)
    requires IsCycleListing(g, nodeLe, localeLe, allowed) && cycle != []
    requires OnOneCycle(g, cycle)
    ensures CycleIsAllowed(cycle, allowed)
  {
    var n := cycle[0];
    assert Covered(n, allowed);
    var i :| 0 <= i < |allowed| && n in allowed[i];
    CyclicIsNode(g, n);
    forall m | m in cycle
      ensures m in allowed[i]
    {
      ReachNode(g, n, m);
      MemberOfListed(g, allowed[i], n, m);
    }
    assert allowed[i] in allowed;
  }

  /** A cycle is accepted exactly when its modules already lay on one common cycle. */
  lemma AllowedIff(g: Digraph, nodeLe: (Node, Node) -> bool, localeLe: (string, string) -> bool, allowed: seq<seq<Node>>, cycle: seq<Node>)
    requires IsCycleListing(g, nodeLe, localeLe, allowed) && cycle != []
    ensures CycleIsAllowed(cycle, allowed) <==> OnOneCycle(g, cycle)
  {
    if CycleIsAllowed(cycle, allowed) {
      AllowedOnOneCycle(g, nodeLe, localeLe, allowed, cycle);
    }
    if OnOneCycle(g, cycle) {
      OneCycleAllowed(g, nodeLe, localeLe, allowed, cycle);
    }
  }

  /** The ratchet is sound: a reported cycle holds an import, between its own modules, that the baseline lacked. */
  lemma ReportedCycleHasAddedEdge(g: Digraph, h: Digraph, nodeLe: (Node, Node) -> bool, localeLe: (string, string) -> bool,
                                  allowed: seq<seq<Node>>, cycles: seq<seq<Node>>, cycle: seq<Node>)
    requires IsCycleListing(g, nodeLe, localeLe, allowed) && IsCycleListing(h, nodeLe, localeLe, cycles)
    requires cycle in cycles && !CycleIsAllowed(cycle, allowed)
    ensures AddedInside(g, h, cycle)
  {
    if !AddedInside(g, h, cycle) {
      var n := cycle[0];
      forall m | m in cycle
        ensures Mutual(g, n, m)
      {
        assert m in Elems(cycle);
        ReachInside(g, h, cycle, n, m);
        ReachInside(g, h, cycle, m, n);
      }
      assert Cyclic(g, n) by {
        if !Edge(h, n, n) {
          var m :| m != n && Mutual(h, n, m);
          ReachInside(g, h, cycle, n, m);
          assert Mutual(g, n, m);
        }
      }
      AllowedIff(g, nodeLe, localeLe, allowed, cycle);
    }
  }

  /** Removing modules or imports never produces a reported cycle. */
  lemma RemovalPasses(g: Digraph, h: Digraph, nodeLe: (Node, Node) -> bool, localeLe: (string, string) -> bool, before: Snapshot, after: Snapshot, v: Violation)
    requires EdgesWithin(h, g)
    requires IsCycleListing(g, nodeLe, localeLe, before.cycles) && IsCycleListing(h, nodeLe, localeLe, after.cycles)
    requires v.NewImportCycle?
    ensures !Justified(after, CreateBaseline(before), v)
  {
    if Justified(after, CreateBaseline(before), v) {
      ReportedCycleHasAddedEdge(g, h, nodeLe, localeLe, before.cycles, after.cycles, v.cycle);
    }
  }
}
