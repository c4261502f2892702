/** Finding the generated PostgreSQL client: upwards from one directory, then from another. */
module ClientSearch {
  import opened Wrappers

  type Directory = string

  /** `dirname` climbs towards a root, which is its own parent. */
  ghost predicate Climbs(parent: Directory -> Directory, depth: Directory -> nat) {
    forall d :: parent(d) != d ==> depth(parent(d)) < depth(d)
  }

  /** The directory and everything above it, nearest first. */
  ghost function Ancestors(d: Directory, parent: Directory -> Directory, depth: Directory -> nat): seq<Directory>
    requires Climbs(parent, depth)
    decreases depth(d)
  {
    if parent(d) == d then [d] else [d] + Ancestors(parent(d), parent, depth)
  }

  ghost function FirstMatch(dirs: seq<Directory>, holds: Directory -> bool): Option<Directory> {
    if dirs == [] then None
    else if holds(dirs[0]) then Some(dirs[0])
    else FirstMatch(dirs[1..], holds)
  }

  lemma {:induction false} FirstMatchAppend(a: seq<Directory>, b: seq<Directory>, holds: Directory -> bool)
    ensures FirstMatch(a + b, holds) == if FirstMatch(a, holds).Some? then FirstMatch(a, holds) else FirstMatch(b, holds)
  {
    if a == [] {
      assert a + b == b;
    } else {
      assert (a + b)[1..] == a[1..] + b;
      FirstMatchAppend(a[1..], b, holds);
    }
  }

  /** What the visited set means: nothing found there, and only `current` is left to look at above it. */
  ghost predicate Exhausted(visited: set<Directory>, current: Directory, parent: Directory -> Directory, holds: Directory -> bool) {
    forall d :: d in visited ==> !holds(d) && (parent(d) in visited || parent(d) == current)
  }

  /** Reaching a visited directory ends the walk early without losing a match. */
  lemma {:induction false} NothingAboveVisited(d: Directory, visited: set<Directory>, parent: Directory -> Directory, holds: Directory -> bool, depth: Directory -> nat)
    requires Climbs(parent, depth) && d in visited
    requires forall v :: v in visited ==> !holds(v) && parent(v) in visited
    ensures Nearest(d, parent, holds, depth) == None
    decreases depth(d)
  {
    if parent(d) == d {
      assert Ancestors(d, parent, depth) == [d] && [d][1..] == [] && FirstMatch([d][1..], holds) == None;
    } else {
      NothingAboveVisited(parent(d), visited, parent, holds, depth);
      assert ([d] + Ancestors(parent(d), parent, depth))[1..] == Ancestors(parent(d), parent, depth);
    }
  }

  /** The nearest directory at or above `d` that holds the client. */
  ghost function Nearest(d: Directory, parent: Directory -> Directory, holds: Directory -> bool, depth: Directory -> nat): Option<Directory>
    requires Climbs(parent, depth)
  {
    FirstMatch(Ancestors(d, parent, depth), holds)
  }

  lemma Climb(d: Directory, parent: Directory -> Directory, holds: Directory -> bool, depth: Directory -> nat)
    requires Climbs(parent, depth)
    ensures Nearest(d, parent, holds, depth) ==
      if holds(d) then Some(d) else if parent(d) == d then None else Nearest(parent(d), parent, holds, depth)
  {
    if parent(d) == d {
      assert Ancestors(d, parent, depth) == [d] && [d][1..] == [] && FirstMatch([d][1..], holds) == None;
    } else {
      assert ([d] + Ancestors(parent(d), parent, depth))[1..] == Ancestors(parent(d), parent, depth);
    }
  }

  /** All the directories to look in: those above the first start, then those above the next. */
  ghost function Candidates(starts: seq<Directory>, parent: Directory -> Directory, depth: Directory -> nat): seq<Directory>
    requires Climbs(parent, depth)
  {
    if starts == [] then [] else Ancestors(starts[0], parent, depth) + Candidates(starts[1..], parent, depth)
  }

  /** The first start with a match decides. */
  lemma {:induction false} FirstStartDecides(starts: seq<Directory>, i: nat, parent: Directory -> Directory, holds: Directory -> bool, depth: Directory -> nat)
    requires Climbs(parent, depth) && i <= |starts|
    requires forall k :: 0 <= k < i ==> Nearest(starts[k], parent, holds, depth) == None
    ensures i == |starts| ==> FirstMatch(Candidates(starts, parent, depth), holds) == None
    ensures i < |starts| && Nearest(starts[i], parent, holds, depth).Some? ==>
      FirstMatch(Candidates(starts, parent, depth), holds) == Nearest(starts[i], parent, holds, depth)
  {
    if starts != [] {
      FirstMatchAppend(Ancestors(starts[0], parent, depth), Candidates(starts[1..], parent, depth), holds);
      if i > 0 {
        assert Nearest(starts[0], parent, holds, depth) == None;
        FirstStartDecides(starts[1..], i - 1, parent, holds, depth);
      }
    }
  }

  /** The start, and the fallback when there is one. */
  function Starts(start: string, fallback: Option<string>, resolve: string -> Directory): seq<Directory> {
    if fallback.Some? && fallback.value != "" then [resolve(start), resolve(fallback.value)] else [resolve(start)]
  }

  lemma CandidatesAre(start: string, fallback: Option<string>, resolve: string -> Directory, parent: Directory -> Directory, depth: Directory -> nat)
    requires Climbs(parent, depth)
    ensures Candidates(Starts(start, fallback, resolve), parent, depth) ==
      Ancestors(resolve(start), parent, depth)
      + (if fallback == None || fallback == Some("") then [] else Ancestors(resolve(fallback.value), parent, depth))
  {
    var starts := Starts(start, fallback, resolve);
    if |starts| == 2 {
      assert starts[1..] == [starts[1]] && [starts[1]][1..] == [];
      assert Candidates([starts[1]], parent, depth) == Ancestors(starts[1], parent, depth) + [];
    } else {
      assert starts[1..] == [];
    }
  }

  /**
   * `findPostgresqlPrismaClient`. The walks share their visited set and so stop early; the answer
   * is still the first match over all ancestors of the start, then all of the fallback's, and
   * `None` is the thrown error.
   */
  method FindPostgresqlPrismaClient(start: string, fallback: Option<string>, resolve: string -> Directory, parent: Directory -> Directory, holds: Directory -> bool, ghost depth: Directory -> nat)
    returns (found: Option<Directory>)
    requires Climbs(parent, depth)
    ensures found == FirstMatch(
      Ancestors(resolve(start), parent, depth)
      + (if fallback == None || fallback == Some("") then [] else Ancestors(resolve(fallback.value), parent, depth)), holds)
  {
    var starts := Starts(start, fallback, resolve);
    CandidatesAre(start, fallback, resolve, parent, depth);
    var visited: set<Directory> := {};
    for i := 0 to |starts|
      invariant forall d :: d in visited ==> !holds(d) && parent(d) in visited
      invariant forall k :: 0 <= k < i ==> Nearest(starts[k], parent, holds, depth) == None
    {
      var current := starts[i];
      var more := true;
      while more && current !in visited
        invariant Nearest(starts[i], parent, holds, depth) == if more then Nearest(current, parent, holds, depth) else None
        invariant Exhausted(visited, current, parent, holds)
        invariant !more ==> current in visited
        decreases more, depth(current)
      {
        visited := visited + {current};
        Climb(current, parent, holds, depth);
        if holds(current) {
          FirstStartDecides(starts, i, parent, holds, depth);
          return Some(current);
        }
        if parent(current) == current {
          more := false;
        } else {
          current := parent(current);
        }
      }
      if more {
        NothingAboveVisited(current, visited, parent, holds, depth);
      }
    }
    FirstStartDecides(starts, |starts|, parent, holds, depth);
    return None;
  }
}
