/** Best-first search over one layer of the proximity graph. */
module GraphSearch {
  import opened FiniteSets
  import opened VectorGraph

  // ---------------------------------------------------------------- the two heaps

  /** A best element, and a worst one: what the heaps give, whatever they do with ties. */
  method Best(heap: set<nat>, score: nat -> int) returns (top: nat)
    requires heap != {}
    ensures top in heap && forall x :: x in heap ==> score(x) <= score(top)
  {
    top :| top in heap;
    var rest := heap - {top};
    while rest != {}
      invariant top in heap && rest <= heap && forall x :: x in heap - rest ==> score(x) <= score(top)
      decreases |rest|
    {
      var x :| x in rest;
      if score(x) > score(top) { top := x; }
      rest := rest - {x};
    }
  }

  method Worst(heap: set<nat>, score: nat -> int) returns (low: nat)
    requires heap != {}
    ensures low in heap && forall x :: x in heap ==> score(low) <= score(x)
  {
    low :| low in heap;
    var rest := heap - {low};
    while rest != {}
      invariant low in heap && rest <= heap && forall x :: x in heap - rest ==> score(low) <= score(x)
      decreases |rest|
    {
      var x :| x in rest;
      if score(x) < score(low) { low := x; }
      rest := rest - {x};
    }
  }

  /** The kept nodes, ranked. */
  method Ranking(score: nat -> int, s: set<nat>) returns (r: seq<nat>)
    ensures Image(r) == s && |r| == |s| && Ranked(score, Id, r)
    ensures forall j, k :: 0 <= j < k < |r| ==> r[j] != r[k]
  {
    var unsorted := Elements(s);
    r := Rank(score, Id, unsorted);
    SameMembers(r, unsorted);
    StillDistinct(unsorted, r);
  }

  method Elements(s: set<nat>) returns (r: seq<nat>)
    ensures |r| == |s| && (forall x :: x in r <==> x in s) && forall j, k :: 0 <= j < k < |r| ==> r[j] != r[k]
  {
    r := [];
    var rest := s;
    while rest != {}
      invariant rest <= s && |r| + |rest| == |s| && (forall x :: x in r <==> x in s - rest)
      invariant forall j, k :: 0 <= j < k < |r| ==> r[j] != r[k]
      decreases |rest|
    {
      var x :| x in rest;
      r := r + [x];
      rest := rest - {x};
    }
  }

  // ---------------------------------------------------------------- the state of a search

  /** Nothing seen and not kept beats anything kept. */
  ghost predicate KeepsTop(score: nat -> int, visited: set<nat>, results: set<nat>) {
    forall v :: v in visited && v !in results ==> NotAbove(score, v, results)
  }

  ghost predicate NotAbove(score: nat -> int, v: nat, results: set<nat>) {
    forall r :: r in results ==> score(v) <= score(r)
  }

  datatype Search = Search(candidates: set<nat>, results: set<nat>, visited: set<nat>)

  function Cap(ef: nat): nat { if ef == 0 then 1 else ef }

  /** The kept nodes are the best of those seen, as many as allowed. */
  ghost predicate Kept(score: nat -> int, ef: nat, s: Search) {
    && s.results <= s.visited && s.candidates <= s.visited && s.results != {}
    && |s.results| == (if |s.visited| < Cap(ef) then |s.visited| else Cap(ef))
    && KeepsTop(score, s.visited, s.results)
  }

  /** Look at a neighbour for the first time. */
  method Offer(score: nat -> int, ef: nat, s: Search, x: nat) returns (t: Search)
    requires Kept(score, ef, s) && x !in s.visited
    ensures Kept(score, ef, t) && t.visited == s.visited + {x}
    ensures s.candidates <= t.candidates <= s.candidates + {x}
    ensures |t.visited| <= Cap(ef) ==> x in t.candidates
  {
    t := s.(visited := s.visited + {x});
    SubsetSize(s.results, s.visited);
    var worst := Worst(s.results, score);
    if |s.results| < ef || score(x) > score(worst) {
      t := t.(candidates := s.candidates + {x}, results := s.results + {x});
      if |t.results| > ef {
        var low := Worst(t.results, score);
        t := t.(results := t.results - {low});
      }
    }
  }

  /** One look at the neighbours: the first best of those better than where we are. */
  method Improve(from: nat, neighbors: seq<nat>, score: nat -> int) returns (best: nat, changed: bool)
    ensures best == from || best in neighbors
    ensures if changed then score(best) > score(from) else best == from
    ensures forall j :: 0 <= j < |neighbors| ==> score(neighbors[j]) <= score(best)
  {
    best, changed := from, false;
    for k := 0 to |neighbors|
      invariant best == from || best in neighbors
      invariant if changed then score(best) > score(from) else best == from
      invariant forall j :: 0 <= j < k ==> score(neighbors[j]) <= score(best)
    {
      if score(neighbors[k]) > score(best) { best, changed := neighbors[k], true; }
    }
  }
}
