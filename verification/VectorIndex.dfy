/** FreshDiskAnnVectorIndex: insertion and search over the flat layered graph. */
module VectorIndex {
  import opened FiniteSets
  import opened ModFacts
  import opened VectorGraph
  import opened GraphSearch

  class FreshDiskAnn {
    const maxNeighbors: nat
    const efConstruction: nat
    /** Similarity of two documents. */
    const similarity: (nat, nat) -> int
    var nodes: seq<Node>
    var docIds: seq<nat>
    var links: seq<nat>
    var linkCounts: seq<nat>
    var entryPoint: nat
    var maxLevel: nat
    /** The live links of every layer, in layer order. */
    ghost var layers: seq<seq<nat>>

    /** The flat vectors hold a good graph, in disjoint regions of maxNeighbors cells. */
    ghost predicate Shape()
      reads `docIds, `nodes, `links, `linkCounts, `layers
    {
      |docIds| == |nodes| && WellFormed(nodes, links, linkCounts, maxNeighbors, layers)
    }

    /** The entry point of the first n nodes is one of them on the highest level. */
    ghost predicate Entered(n: nat)
      requires n <= |nodes|
      reads this
    {
      if n == 0 then entryPoint == NONE && maxLevel == 0
      else entryPoint < n && nodes[entryPoint].level == maxLevel
           && forall i :: 0 <= i < n ==> nodes[i].level <= maxLevel
    }

    ghost predicate Valid()
      reads this
    {
      Shape() && Entered(|nodes|)
    }

    ghost function Links(i: nat, level: nat): seq<nat>
      reads this
    {
      LinksOf(nodes, layers, i, level)
    }

    constructor (maxNeighbors: nat, efConstruction: nat, similarity: (nat, nat) -> int)
      ensures Valid() && nodes == []
      ensures this.maxNeighbors == if maxNeighbors < 2 then 2 else if maxNeighbors > 255 then 255 else maxNeighbors
    {
      var m := if maxNeighbors < 2 then 2 else if maxNeighbors > 255 then 255 else maxNeighbors;
      this.maxNeighbors := m;
      this.efConstruction := if efConstruction < m then m else efConstruction;
      this.similarity := similarity;
      nodes, docIds, links, linkCounts, entryPoint, maxLevel, layers := [], [], [], [], NONE, 0, [];
    }

    // -------------------------------------------------------------- addresses

    lemma {:induction false} Address(i: nat, level: nat)
      requires Offsets(nodes, maxNeighbors) && 0 < maxNeighbors && i < |nodes|
      ensures nodes[i].linkOffset + level * maxNeighbors == Times(Layer(nodes, i, level), maxNeighbors)
      ensures nodes[i].linkOffset / maxNeighbors + level == Layer(nodes, i, level)
    {
      TimesDivides(LayerStart(nodes, i), maxNeighbors);
      TimesAdds(LayerStart(nodes, i), level, maxNeighbors);
      TimesIsProduct(level, maxNeighbors);
    }

    predicate HasLevel(i: nat, level: nat)
      requires i < |nodes|
      reads `nodes
    {
      level <= nodes[i].level
    }

    function LinkOffset(i: nat, level: nat): (offset: nat)
      requires Offsets(nodes, maxNeighbors) && 0 < maxNeighbors && i < |nodes|
      reads this
      ensures offset == Times(Layer(nodes, i, level), maxNeighbors)
    {
      Address(i, level);
      TimesIsProduct(level, maxNeighbors);
      nodes[i].linkOffset + level * maxNeighbors
    }

    function LinkCountIndex(i: nat, level: nat): (index: nat)
      requires Offsets(nodes, maxNeighbors) && 0 < maxNeighbors && i < |nodes|
      reads this
      ensures index == Layer(nodes, i, level)
    {
      Address(i, level);
      nodes[i].linkOffset / maxNeighbors + level
    }

    function Neighbors(i: nat, level: nat): (r: seq<nat>)
      requires Shape() && i < |nodes|
      reads this
      ensures r == Links(i, level)
      ensures forall k :: 0 <= k < |r| ==> r[k] < |nodes| && level <= nodes[r[k]].level
    {
      if !HasLevel(i, level) then []
      else
        LayerInRange(nodes, links, linkCounts, maxNeighbors, layers, i, level);
        RegionCells(links, maxNeighbors, Layer(nodes, i, level), layers[Layer(nodes, i, level)]);
        var offset := LinkOffset(i, level);
        links[offset..offset + linkCounts[LinkCountIndex(i, level)]]
    }

    // -------------------------------------------------------------- search in one layer

    /** Follow links to better nodes as long as there is one. */
    method GreedySearchLayer(entry: nat, level: nat, score: nat -> int) returns (best: nat)
      requires Shape() && entry < |nodes| && HasLevel(entry, level)
      ensures best < |nodes| && HasLevel(best, level) && score(entry) <= score(best)
      ensures forall x :: x in Links(best, level) ==> score(x) <= score(best)
    {
      best := entry;
      while true
        invariant best < |nodes| && HasLevel(best, level) && score(entry) <= score(best)
        decreases |Better(best, score)|
      {
        var neighbors := Neighbors(best, level);
        ghost var from := best;
        var changed;
        best, changed := Improve(best, neighbors, score);
        if !changed { return; }
        BetterFalls(from, best, score);
      }
    }

    /** The nodes that score above a node. */
    ghost function Better(i: nat, score: nat -> int): set<nat>
      reads this
    {
      set x: nat | x < |nodes| && score(x) > score(i)
    }

    lemma {:induction false} BetterFalls(i: nat, j: nat, score: nat -> int)
      requires j < |nodes| && score(j) > score(i)
      ensures |Better(j, score)| < |Better(i, score)|
    {
      assert j in Better(i, score) && j !in Better(j, score);
      SubsetSize(Better(j, score), Better(i, score));
    }

    /** Where a search stands: what it has seen is reachable, what it has expanded is
        closed, and as long as nothing was turned away everything seen is expanded, waiting,
        or at hand. */
    ghost predicate Explored(score: nat -> int, ef: nat, entry: nat, level: nat, s: Search,
                             done: set<nat>, current: set<nat>)
      reads this
    {
      && Kept(score, ef, s) && entry in s.visited && done <= s.visited
      && AllSeen(entry, level, s.visited) && LinksWithin(level, done, s.visited)
      && (|s.visited| <= Cap(ef) ==> s.visited == done + s.candidates + current)
    }

    ghost predicate AllSeen(entry: nat, level: nat, visited: set<nat>)
      reads this
    {
      forall v :: v in visited ==> Seen(entry, level, v)
    }

    ghost predicate LinksWithin(level: nat, done: set<nat>, visited: set<nat>)
      reads this
    {
      forall d :: d in done ==> LinksIn(level, d, visited)
    }

    ghost predicate LinksIn(level: nat, d: nat, visited: set<nat>)
      reads this
    {
      forall x :: x in Links(d, level) ==> x in visited
    }

    ghost predicate Seen(entry: nat, level: nat, v: nat)
      reads this
    {
      v < |nodes| && level <= nodes[v].level && Reachable(nodes, layers, level, entry, v)
    }

    lemma {:induction false} SeenWithin(entry: nat, level: nat, visited: set<nat>)
      requires AllSeen(entry, level, visited)
      ensures |visited| <= |nodes|
    {
      forall v | v in visited ensures v in Below(|nodes|) { assert Seen(entry, level, v); }
      SubsetSize(visited, Below(|nodes|));
    }

    lemma {:induction false} OfferKeeps(score: nat -> int, ef: nat, entry: nat, level: nat, s: Search, t: Search,
                                        x: nat, done: set<nat>, current: nat)
      requires Explored(score, ef, entry, level, s, done, {current}) && Seen(entry, level, x) && x !in s.visited
      requires Kept(score, ef, t) && t.visited == s.visited + {x}
      requires s.candidates <= t.candidates <= s.candidates + {x}
      requires |t.visited| <= Cap(ef) ==> x in t.candidates
      ensures Explored(score, ef, entry, level, t, done, {current})
    {
    }

    lemma {:induction false} Expanded(score: nat -> int, ef: nat, entry: nat, level: nat, t: Search,
                                      done: set<nat>, current: nat)
      requires Explored(score, ef, entry, level, t, done, {current}) && current in t.visited
      requires forall x :: x in Links(current, level) ==> x in t.visited
      ensures Explored(score, ef, entry, level, t, done + {current}, {})
    {
    }

    /** Offer a neighbour unless it was seen before. */
    method OfferNew(score: nat -> int, ef: nat, entry: nat, level: nat, s: Search, x: nat,
                    ghost done: set<nat>, ghost current: nat) returns (t: Search)
      requires Explored(score, ef, entry, level, s, done, {current}) && Seen(entry, level, x)
      ensures Explored(score, ef, entry, level, t, done, {current}) && t.visited == s.visited + {x}
      ensures t.visited == s.visited ==> t == s
    {
      t := s;
      if x !in s.visited {
        t := Offer(score, ef, s, x);
        OfferKeeps(score, ef, entry, level, s, t, x, done, current);
      }
    }

    method OfferAll(score: nat -> int, ef: nat, entry: nat, level: nat, s: Search, neighbors: seq<nat>,
                    ghost done: set<nat>, ghost current: nat) returns (t: Search)
      requires Explored(score, ef, entry, level, s, done, {current})
      requires forall k :: 0 <= k < |neighbors| ==> Seen(entry, level, neighbors[k])
      ensures Explored(score, ef, entry, level, t, done, {current})
      ensures forall k :: 0 <= k < |neighbors| ==> neighbors[k] in t.visited
      ensures s.visited <= t.visited && (t.visited == s.visited ==> t == s)
    {
      hide Explored, Seen;
      t := s;
      for k := 0 to |neighbors|
        invariant Explored(score, ef, entry, level, t, done, {current})
        invariant forall j :: 0 <= j < k ==> neighbors[j] in t.visited
        invariant s.visited <= t.visited && (t.visited == s.visited ==> t == s)
      {
        t := OfferNew(score, ef, entry, level, t, neighbors[k], done, current);
      }
    }

    /** Offer every neighbour of a node. */
    method Expand(score: nat -> int, ef: nat, entry: nat, level: nat, s: Search, current: nat, ghost done: set<nat>)
      returns (t: Search)
      requires Shape() && current in s.visited && Explored(score, ef, entry, level, s, done, {current})
      ensures Explored(score, ef, entry, level, t, done + {current}, {})
      ensures |t.visited| > |s.visited| || t == s
    {
      var neighbors := Neighbors(current, level);
      forall k | 0 <= k < |neighbors| ensures Seen(entry, level, neighbors[k]) {
        NeighborSeen(entry, level, s.visited, current, neighbors[k]);
      }
      t := OfferAll(score, ef, entry, level, s, neighbors, done, current);
      Expanded(score, ef, entry, level, t, done, current);
      SubsetSize(s.visited, t.visited);
    }

    lemma {:induction false} NeighborSeen(entry: nat, level: nat, visited: set<nat>, current: nat, x: nat)
      requires Shape() && AllSeen(entry, level, visited) && current in visited && x in Links(current, level)
      ensures Seen(entry, level, x)
    {
      assert Seen(entry, level, current);
      ReachStep(nodes, layers, level, entry, current, x);
      LayersDistinct(nodes, current, level, current, level);
      assert GoodAt(nodes, layers, current, level);
    }

    /** Best-first search. It returns the best of everything it saw, ranked; and if that
        is fewer than asked for, it saw everything there is to reach. */
    method SearchLayer(entry: nat, ef: nat, level: nat, score: nat -> int)
      returns (out: seq<nat>, ghost visited: set<nat>)
      requires Shape() && entry < |nodes| && HasLevel(entry, level)
      ensures entry in visited && AllSeen(entry, level, visited)
      ensures (forall j, k :: 0 <= j < k < |out| ==> out[j] != out[k]) && Ranked(score, Id, out)
      ensures Image(out) <= visited && KeepsTop(score, visited, Image(out))
      ensures |out| == if |visited| < Cap(ef) then |visited| else Cap(ef)
      ensures |out| < ef ==> forall x :: x in out <==> Reachable(nodes, layers, level, entry, x)
    {
      var s := Search({entry}, {entry}, {entry});
      ghost var done: set<nat> := {};
      ReachSelf(nodes, layers, level, entry);
      assert Seen(entry, level, entry);
      while s.candidates != {}
        invariant Explored(score, ef, entry, level, s, done, {}) && |s.visited| <= |nodes|
        decreases |nodes| - |s.visited|, |s.candidates|
      {
        var current := Best(s.candidates, score);
        var worst := Worst(s.results, score);
        if score(current) < score(worst) {
          SubsetSize(s.results, s.visited);
          break;
        }
        s := Step(score, ef, entry, level, s, current, done);
        done := done + {current};
      }
      visited := s.visited;
      if |s.results| < ef { SawEverything(score, ef, entry, level, s, done); }
      out := Ranking(score, s.results);
      assert forall x :: x in out <==> x in Image(out);
    }

    method Step(score: nat -> int, ef: nat, entry: nat, level: nat, s: Search, current: nat, ghost done: set<nat>)
      returns (t: Search)
      requires Shape() && current in s.candidates && Explored(score, ef, entry, level, s, done, {})
      ensures Explored(score, ef, entry, level, t, done + {current}, {})
      ensures |s.visited| <= |t.visited| <= |nodes|
      ensures |t.visited| > |s.visited| || |t.candidates| < |s.candidates|
    {
      var popped := s.(candidates := s.candidates - {current});
      t := Expand(score, ef, entry, level, popped, current, done);
      SeenWithin(entry, level, t.visited);
    }

    lemma {:induction false} SawEverything(score: nat -> int, ef: nat, entry: nat, level: nat, s: Search,
                                           done: set<nat>)
      requires Explored(score, ef, entry, level, s, done, {}) && |s.results| < ef && s.candidates == {}
      ensures forall x :: x in s.results <==> Reachable(nodes, layers, level, entry, x)
    {
      SubsetSize(s.results, s.visited);
      assert Closed(nodes, layers, level, s.visited) by {
        forall a, b | a in s.visited && b in LinksOf(nodes, layers, a, level) ensures b in s.visited {
          assert b in Links(a, level);
        }
      }
      forall x ensures x in s.results <==> Reachable(nodes, layers, level, entry, x) {
        if x in s.visited { assert Seen(entry, level, x); }
        if Reachable(nodes, layers, level, entry, x) { ReachableStays(nodes, layers, level, s.visited, entry, x); }
      }
    }

    // -------------------------------------------------------------- writing links

    /** Replace a node's links on a level by the first of the given ones. */
    method SetNeighbors(i: nat, level: nat, neighbors: seq<nat>)
      requires Shape() && i < |nodes| && HasLevel(i, level) && GoodLinks(nodes, i, level, neighbors)
      modifies this`links, this`linkCounts, this`layers
      ensures Shape() && Layer(nodes, i, level) < old(|layers|)
      ensures layers == old(layers)[Layer(nodes, i, level) := FirstOf(neighbors, maxNeighbors)]
    {
      Here(i, level);
      WriteLayer(i, level, FirstOf(neighbors, maxNeighbors));
    }

    lemma {:induction false} Here(i: nat, level: nat)
      requires Shape() && i < |nodes| && HasLevel(i, level)
      ensures GoodLinks(nodes, i, level, Links(i, level)) && Layer(nodes, i, level) < |layers|
      ensures |Links(i, level)| <= maxNeighbors && layers[Layer(nodes, i, level)] == Links(i, level)
      ensures layers[Layer(nodes, i, level) := Links(i, level)] == layers
    {
      LayerInRange(nodes, links, linkCounts, maxNeighbors, layers, i, level);
    }

    /** Fill the region with unused cells, copy the links in, set the count. */
    method WriteLayer(i: nat, level: nat, live: seq<nat>)
      requires Shape() && i < |nodes| && HasLevel(i, level) && GoodLinks(nodes, i, level, live)
      requires |live| <= maxNeighbors
      modifies this`links, this`linkCounts, this`layers
      ensures Shape() && Layer(nodes, i, level) < old(|layers|)
      ensures layers == old(layers)[Layer(nodes, i, level) := live]
    {
      LayerInRange(nodes, links, linkCounts, maxNeighbors, layers, i, level);
      var offset := LinkOffset(i, level);
      var countIndex := LinkCountIndex(i, level);
      RegionWritten(links, maxNeighbors, countIndex, live);
      var after := WriteRegion(links, offset, maxNeighbors, live);
      LayerSet(nodes, links, linkCounts, maxNeighbors, layers, i, level, after, live);
      links, linkCounts, layers := after, linkCounts[countIndex := |live|], layers[countIndex := live];
    }

    /** Score of the documents against a node's. */
    function ScoreDoc(i: nat): nat -> int
      reads this`docIds
    {
      Scores()(i)
    }

    function Scores(): nat -> (nat -> int)
      reads this`docIds
    {
      var ids, sim := docIds, similarity;
      (i: nat) => (j: nat) => if i < |ids| && j < |ids| then sim(ids[i], ids[j]) else 0
    }

    /** Sort a node's live links by score. */
    method SortLayerByScore(i: nat, level: nat) returns (ghost after: seq<nat>)
      requires Shape() && i < |nodes| && HasLevel(i, level)
      modifies this`links, this`layers
      ensures Shape() && Layer(nodes, i, level) < old(|layers|)
      ensures layers == old(layers)[Layer(nodes, i, level) := after]
      ensures multiset(after) == multiset(old(Links(i, level))) && Ranked(ScoreDoc(i), Id, after)
    {
      var live := Neighbors(i, level);
      var sorted := Rank(ScoreDoc(i), Id, live);
      CopySorted(i, level, sorted);
      after := sorted;
    }

    method CopySorted(i: nat, level: nat, sorted: seq<nat>)
      requires Shape() && i < |nodes| && HasLevel(i, level)
      requires multiset(sorted) == multiset(Links(i, level)) && |sorted| == |Links(i, level)|
      modifies this`links, this`layers
      ensures Shape() && Layer(nodes, i, level) < old(|layers|)
      ensures layers == old(layers)[Layer(nodes, i, level) := sorted]
    {
      hide Times, LayerStart;
      var offset := LinkOffset(i, level);
      LayerInRange(nodes, links, linkCounts, maxNeighbors, layers, i, level);
      LiveWritten(links, maxNeighbors, Layer(nodes, i, level), Links(i, level), sorted);
      var written := links[..offset] + sorted + links[offset + |sorted|..];
      ReorderLayer(nodes, links, linkCounts, maxNeighbors, layers, i, level, written, sorted);
      links := written;
      layers := layers[Layer(nodes, i, level) := sorted];
    }

    /** Write one cell: replace a live link, or append one. */
    method WriteCell(i: nat, level: nat, k: nat, x: nat)
      requires Shape() && i < |nodes| && HasLevel(i, level)
      requires k <= |Links(i, level)| && k < maxNeighbors
      requires GoodLinks(nodes, i, level, WithLink(Links(i, level), k, x))
      modifies this`links, this`linkCounts, this`layers
      ensures Shape() && Layer(nodes, i, level) < old(|layers|)
      ensures layers == old(layers)[Layer(nodes, i, level) := WithLink(old(Links(i, level)), k, x)]
    {
      hide Offsets, GoodGraph, GoodLinks;
      var offset := LinkOffset(i, level);
      var countIndex := LinkCountIndex(i, level);
      ghost var live := WithLink(Links(i, level), k, x);
      CellSet(nodes, links, linkCounts, maxNeighbors, layers, i, level, k, x);
      var count := if k < linkCounts[countIndex] then linkCounts[countIndex] else k + 1;
      links, linkCounts := links[offset + k := x], linkCounts[countIndex := count];
      layers := layers[countIndex := live];
    }

    /** Link a neighbour back to a new node: append while there is room, else replace the
        worst link if the new one ranks before it. The best links are kept. */
    method LinkBack(i: nat, x: nat, level: nat) returns (ghost after: seq<nat>)
      requires Shape() && i < |nodes| && HasLevel(i, level)
      requires x < |nodes| && x != i && HasLevel(x, level)
      modifies this`links, this`linkCounts, this`layers
      ensures Shape() && Layer(nodes, i, level) < old(|layers|)
      ensures layers == old(layers)[Layer(nodes, i, level) := after]
      ensures BestKept(ScoreDoc(i), maxNeighbors, old(Links(i, level)), x, after)
    {
      hide WellFormed, BestKept, Links, GoodLinks, Layer;
      Here(i, level);
      var live := Neighbors(i, level);
      if x in live {
        AppendKeeps(ScoreDoc(i), maxNeighbors, live, x);
        after := live;
      } else if |live| < maxNeighbors {
        after := AppendLink(i, x, level);
      } else {
        after := LinkIfBetter(i, x, level);
      }
    }

    method AppendLink(i: nat, x: nat, level: nat) returns (ghost after: seq<nat>)
      requires Shape() && i < |nodes| && HasLevel(i, level)
      requires x < |nodes| && x != i && HasLevel(x, level)
      requires x !in Links(i, level) && |Links(i, level)| < maxNeighbors
      modifies this`links, this`linkCounts, this`layers
      ensures Shape() && Layer(nodes, i, level) < old(|layers|)
      ensures layers == old(layers)[Layer(nodes, i, level) := after]
      ensures BestKept(ScoreDoc(i), maxNeighbors, old(Links(i, level)), x, after)
    {
      hide WellFormed, BestKept;
      Here(i, level);
      ghost var live := Links(i, level);
      AppendKeeps(ScoreDoc(i), maxNeighbors, live, x);
      WriteCell(i, level, |Neighbors(i, level)|, x);
      after := live + [x];
    }

    /** Replace the worst link of a full node, if the new one ranks before it. */
    method LinkIfBetter(i: nat, x: nat, level: nat) returns (ghost after: seq<nat>)
      requires Shape() && i < |nodes| && HasLevel(i, level)
      requires x < |nodes| && x != i && HasLevel(x, level)
      requires x !in Links(i, level) && |Links(i, level)| == maxNeighbors
      modifies this`links, this`linkCounts, this`layers
      ensures Shape() && Layer(nodes, i, level) < old(|layers|)
      ensures layers == old(layers)[Layer(nodes, i, level) := after]
      ensures BestKept(ScoreDoc(i), maxNeighbors, old(Links(i, level)), x, after)
    {
      hide Stored, Offsets, GoodGraph, BestKept, Before, GoodLinks, Layer;
      Here(i, level);
      var live := Neighbors(i, level);
      var worst := WorstLink(ScoreDoc(i), live);
      if Before(ScoreDoc(i), Id, x, live[worst]) {
        after := ReplaceWorst(i, x, level, worst);
      } else {
        RefuseKeeps(ScoreDoc(i), maxNeighbors, live, x, worst);
        after := live;
      }
    }

    method ReplaceWorst(i: nat, x: nat, level: nat, worst: nat) returns (ghost after: seq<nat>)
      requires Shape() && i < |nodes| && HasLevel(i, level)
      requires x < |nodes| && x != i && HasLevel(x, level)
      requires x !in Links(i, level) && |Links(i, level)| == maxNeighbors && worst < maxNeighbors
      requires Before(ScoreDoc(i), Id, x, Links(i, level)[worst])
      requires forall k :: 0 <= k < maxNeighbors ==>
                 !Before(ScoreDoc(i), Id, Links(i, level)[worst], Links(i, level)[k])
      modifies this`links, this`linkCounts, this`layers
      ensures Shape() && Layer(nodes, i, level) < old(|layers|)
      ensures layers == old(layers)[Layer(nodes, i, level) := after]
      ensures BestKept(ScoreDoc(i), maxNeighbors, old(Links(i, level)), x, after)
    {
      hide WellFormed, BestKept;
      ghost var live := Links(i, level);
      Here(i, level);
      WriteCell(i, level, worst, x);
      Here(i, level);
      after := SortLayerByScore(i, level);
      ReplaceKeeps(ScoreDoc(i), maxNeighbors, live, x, worst, after);
    }

    // -------------------------------------------------------------- insertion

    /** Room for a node's layers, all unused. */
    method AllocateLinks(level: nat) returns (ok: bool, linkOffset: nat)
      requires Shape()
      modifies this`links, this`linkCounts, this`layers
      ensures ok <==> old(|links|) + Times(level + 1, maxNeighbors) <= NONE
      ensures ok ==> linkOffset == old(|links|) && links == old(links) + Unused(Times(level + 1, maxNeighbors))
      ensures ok ==> linkCounts == old(linkCounts) + seq(level + 1, _ => 0)
      ensures ok ==> layers == old(layers) + seq(level + 1, _ => [])
      ensures !ok ==> links == old(links) && linkCounts == old(linkCounts) && layers == old(layers)
    {
      var layerCount := level + 1;
      TimesIsProduct(layerCount, maxNeighbors);
      var slotCount := layerCount * maxNeighbors;
      linkOffset := |links|;
      if slotCount > NONE || |links| > NONE - slotCount { return false, linkOffset; }
      links := links + seq(slotCount, _ => NONE);
      linkCounts := linkCounts + seq(layerCount, _ => 0);
      layers := layers + seq(level + 1, _ => []);
      ok := true;
    }

    /** What the search found on a level can be linked to: all of it has the level, none
        of it is the new node. */
    lemma {:induction false} CandidatesGood(x: nat, level: nat, entry: nat, found: seq<nat>, visited: set<nat>)
      requires Shape() && Unlinked(nodes, layers, x, level) && entry != x && entry in visited
      requires AllSeen(entry, level, visited) && Image(found) <= visited && AllDistinct(found)
      requires |found| > 0 || |visited| == 0
      ensures GoodLinks(nodes, x, level, found) && |found| > 0
    {
      UnlinkedUnreachable(nodes, layers, level, entry, x);
      forall k | 0 <= k < |found| ensures Seen(entry, level, found[k]) && found[k] != x {
        assert found[k] in Image(found);
      }
    }

    /** The best candidates, as many as a layer has cells. */
    method SelectNeighbors(x: nat, level: nat, candidates: seq<nat>) returns (selected: seq<nat>)
      requires GoodLinks(nodes, x, level, candidates) && candidates != [] && maxNeighbors >= 2
      ensures GoodLinks(nodes, x, level, selected) && FirstOf(selected, maxNeighbors) == selected
      ensures selected != [] && Ranked(Scores()(x), Id, selected)
    {
      var sorted := Rank(Scores()(x), Id, candidates);
      GoodPermuted(nodes, x, level, candidates, sorted);
      selected := if |sorted| < maxNeighbors then sorted else sorted[..maxNeighbors];
    }

    /** Search a level for the new node's neighbours. */
    method Choose(x: nat, level: nat, entry: nat) returns (next: nat, selected: seq<nat>)
      requires Shape() && x < |nodes| && HasLevel(x, level)
      requires entry < |nodes| && entry != x && HasLevel(entry, level)
      requires Unlinked(nodes, layers, x, level)
      ensures next < |nodes| && next != x && HasLevel(next, level)
      ensures GoodLinks(nodes, x, level, selected) && FirstOf(selected, maxNeighbors) == selected
      ensures selected != [] && Ranked(Scores()(x), Id, selected)
    {
      var candidates; ghost var visited;
      candidates, visited := SearchLayer(entry, efConstruction, level, ScoreDoc(x));
      CandidatesGood(x, level, entry, candidates, visited);
      next := candidates[0];
      selected := SelectNeighbors(x, level, candidates);
    }

    /** Link every chosen node back to the new one. */
    method LinkAllBack(x: nat, level: nat, chosen: seq<nat>, ghost before: seq<seq<nat>>)
      requires Shape() && x < |nodes| && HasLevel(x, level) && GoodLinks(nodes, x, level, chosen)
      requires OthersKept(nodes, before, layers, level)
      modifies this`links, this`linkCounts, this`layers
      ensures Shape() && OthersKept(nodes, before, layers, level)
      ensures LinkedBack(nodes, old(layers), layers, maxNeighbors, level, Scores(), x, chosen, |chosen|)
    {
      for k := 0 to |chosen|
        invariant Shape() && OthersKept(nodes, before, layers, level)
        invariant LinkedBack(nodes, old(layers), layers, maxNeighbors, level, Scores(), x, chosen, k)
      {
        ghost var at := layers;
        ghost var after := LinkBack(chosen[k], x, level);
        SetKeepsOthers(nodes, before, at, chosen[k], level, after);
        LinkedOne(nodes, old(layers), at, maxNeighbors, level, Scores(), x, chosen, k, after);
      }
    }

    /** Choose the new node's links on one level, and link the chosen ones back. */
    method Connect(x: nat, level: nat, entry: nat) returns (next: nat)
      requires Shape() && x < |nodes| && HasLevel(x, level)
      requires entry < |nodes| && entry != x && HasLevel(entry, level)
      requires Unlinked(nodes, layers, x, level)
      modifies this`links, this`linkCounts, this`layers
      ensures Shape() && OthersKept(nodes, old(layers), layers, level)
      ensures next < |nodes| && next != x && HasLevel(next, level)
      ensures Joined(nodes, layers, maxNeighbors, level, Scores(), x)
    {
      var chosen;
      next, chosen := Choose(x, level, entry);
      SetNeighbors(x, level, chosen);
      SetKeepsOthers(nodes, old(layers), old(layers), x, level, chosen);
      Here(x, level);
      ghost var at := layers;
      LinkAllBack(x, level, chosen, old(layers));
      LinkedIsJoined(nodes, at, layers, maxNeighbors, level, Scores(), x, chosen);
    }

    /** Append the node with its empty layers. */
    method AppendNode(docId: nat) returns (ok: bool)
      requires Shape() && |nodes| < NONE
      modifies this`links, this`linkCounts, this`layers, this`nodes, this`docIds
      ensures Shape()
      ensures ok <==> old(|links|) + Times(RandomLevel(docId) + 1, maxNeighbors) <= NONE
      ensures !ok ==> links == old(links) && linkCounts == old(linkCounts) && layers == old(layers)
                      && nodes == old(nodes) && docIds == old(docIds)
      ensures ok ==> nodes == old(nodes) + [Node(RandomLevel(docId), old(|links|))] && docIds == old(docIds) + [docId]
      ensures ok ==> Isolated(nodes, layers, old(|nodes|))
    {
      var level := RandomLevel(docId);
      if |links| + Times(level + 1, maxNeighbors) <= NONE {
        NodeAppended(nodes, links, linkCounts, maxNeighbors, layers, level);
      }
      var linkOffset;
      ok, linkOffset := AllocateLinks(level);
      if !ok { return; }
      nodes, docIds := nodes + [Node(level, linkOffset)], docIds + [docId];
    }

    /** Find the level's starting point from above. */
    method Descend(x: nat) returns (entry: nat)
      requires Shape() && x == |nodes| - 1 && x > 0 && Entered(x)
      ensures entry < x && HasLevel(entry, Lower(maxLevel, nodes[x].level))
    {
      hide Shape, Links;
      entry := entryPoint;
      if nodes[x].level < maxLevel {
        var level: nat := maxLevel;
        while level > nodes[x].level
          invariant nodes[x].level <= level <= maxLevel && entry < x && HasLevel(entry, level)
        {
          entry := GreedySearchLayer(entry, level, ScoreDoc(x));
          level := level - 1;
        }
      }
    }

    /** Add a document. */
    method AddNode(docId: nat) returns (ok: bool)
      requires Valid()
      modifies this
      ensures Valid()
      ensures ok <==> docId <= NONE && old(|nodes|) < NONE
                      && old(|links|) + Times(RandomLevel(docId) + 1, maxNeighbors) <= NONE
      ensures ok ==> nodes == old(nodes) + [Node(RandomLevel(docId), old(|links|))] && docIds == old(docIds) + [docId]
      ensures ok && old(nodes) != [] ==> JoinedOn(old(|nodes|), 0, Lower(old(maxLevel), RandomLevel(docId)))
      ensures !ok ==> nodes == old(nodes) && docIds == old(docIds) && links == old(links)
                      && linkCounts == old(linkCounts) && entryPoint == old(entryPoint) && maxLevel == old(maxLevel)
    {
      hide Shape, Isolated, JoinedOn, Times;
      if docId > NONE || |nodes| >= NONE { return false; }
      var newNodeID := |nodes|;
      ok := AppendNode(docId);
      if !ok { return; }
      if entryPoint == NONE {
        entryPoint, maxLevel := newNodeID, nodes[newNodeID].level;
        return;
      }
      var entry := Descend(newNodeID);
      ConnectAll(newNodeID, entry);
      if nodes[newNodeID].level > maxLevel {
        entryPoint, maxLevel := newNodeID, nodes[newNodeID].level;
      }
    }

    ghost predicate UnlinkedBelow(x: nat, level: nat)
      reads this
    {
      forall m: nat :: m < level ==> Unlinked(nodes, layers, x, m)
    }

    ghost predicate JoinedOn(x: nat, low: nat, high: nat)
      reads `docIds, `nodes, `layers
    {
      forall m: nat :: low <= m <= high ==> Joined(nodes, layers, maxNeighbors, m, Scores(), x)
    }

    method ConnectLevel(x: nat, level: nat, top: nat, entry: nat) returns (next: nat)
      requires Shape() && x < |nodes| && HasLevel(x, level)
      requires entry < |nodes| && entry != x && HasLevel(entry, level)
      requires UnlinkedBelow(x, level + 1) && JoinedOn(x, level + 1, top)
      modifies this`links, this`linkCounts, this`layers
      ensures Shape() && UnlinkedBelow(x, level) && JoinedOn(x, level, top)
      ensures next < |nodes| && next != x && HasLevel(next, level)
    {
      ghost var before := layers;
      next := Connect(x, level, entry);
      forall m: nat | m < level ensures Unlinked(nodes, layers, x, m) {
        StillUnlinked(nodes, before, layers, level, x, m);
      }
      forall m: nat | level < m <= top ensures Joined(nodes, layers, maxNeighbors, m, Scores(), x) {
        StillJoined(nodes, before, layers, maxNeighbors, level, Scores(), x, m);
      }
    }

    /** Connect the new node on every level it shares with the graph, highest first. */
    method ConnectAll(x: nat, start: nat)
      requires Shape() && x < |nodes| && start < |nodes| && start != x && Isolated(nodes, layers, x)
      requires HasLevel(start, Lower(maxLevel, nodes[x].level))
      modifies this`links, this`linkCounts, this`layers
      ensures Shape() && JoinedOn(x, 0, Lower(maxLevel, nodes[x].level))
    {
      var entry: nat, top: nat := start, Lower(maxLevel, nodes[x].level);
      var left: nat := top + 1;
      while left > 0
        invariant Shape() && entry < |nodes| && entry != x && left <= top + 1
        invariant left > 0 ==> HasLevel(entry, left - 1)
        invariant UnlinkedBelow(x, left) && JoinedOn(x, left, top)
      {
        left := left - 1;
        entry := ConnectLevel(x, left, top, entry);
      }
    }

    // -------------------------------------------------------------- query

    ghost predicate NodesDistinct(ids: seq<nat>)
      reads this
    {
      AllDistinct(ids) && forall k :: 0 <= k < |ids| ==> ids[k] < |nodes|
    }

    /** What a bounded search found: the best of all it visited on the bottom level, topK of
        them; and if there are fewer, all that can be reached from where it entered. */
    ghost predicate BestFound(score: nat -> int, topK: nat, entry: nat, visited: set<nat>, hits: seq<nat>)
      reads this
    {
      && entry in visited && AllSeen(entry, 0, visited)
      && Image(hits) <= visited && KeepsTop(score, visited, Image(hits)) && |hits| == Lower(topK, |visited|)
      && (|hits| < topK ==> forall x :: x in hits <==> Reachable(nodes, layers, 0, entry, x))
    }

    /** Search for the best documents. Node ids stand for the hits: their documents are
        docIds[id], ranked by score and document. With topK 0 every node is returned once;
        otherwise the best topK of what the search visited. */
    method SearchNodes(score: nat -> int, topK: nat, efSearch: nat)
      returns (hits: seq<nat>, ghost entry: nat, ghost visited: set<nat>)
      requires Valid()
      ensures NodesDistinct(hits) && Ranked(score, DocOf(), hits)
      ensures topK == 0 ==> |hits| == |nodes| && forall i: nat :: i < |nodes| ==> i in hits
      ensures topK > 0 && nodes != [] ==> BestFound(score, topK, entry, visited, hits)
      ensures nodes != [] <==> hits != []
    {
      if |nodes| == 0 { return [], 0, {}; }
      var start := TopDown(score);
      var wanted := if topK == 0 then |nodes| else topK;
      var candidates;
      entry := start;
      candidates, visited := SearchLayer(start, if efSearch > wanted then efSearch else wanted, 0, score);
      FoundAreNodes(entry, visited, candidates);
      if topK == 0 && |candidates| < |nodes| { candidates := AddUnseen(candidates); }
      if topK == 0 { AllNodes(candidates); }
      hits := RankHits(candidates, score);
      if topK > 0 { hits := Truncate(score, hits, topK, visited); }
    }

    /** Cut the ranked hits. */
    method Truncate(score: nat -> int, ranked: seq<nat>, topK: nat, ghost visited: set<nat>) returns (hits: seq<nat>)
      requires NodesDistinct(ranked) && Ranked(score, DocOf(), ranked) && topK > 0
      requires KeepsTop(score, visited, Image(ranked))
      ensures hits == ranked[..Lower(topK, |ranked|)]
      ensures NodesDistinct(hits) && Ranked(score, DocOf(), hits) && KeepsTop(score, visited, Image(hits))
    {
      hits := if |ranked| > topK then ranked[..topK] else ranked;
      assert forall m :: 0 <= m < |hits| ==> hits[m] == ranked[m] && hits[m] in Image(hits);
      forall v | v in visited && v !in Image(hits) ensures NotAbove(score, v, Image(hits)) {
        if v in ranked {
          var k :| 0 <= k < |ranked| && ranked[k] == v;
          forall j | 0 <= j < |hits| ensures score(v) <= score(hits[j]) { RankedPair(score, DocOf(), ranked, j, k); }
        } else {
          assert NotAbove(score, v, Image(ranked));
          forall r | r in Image(hits) ensures r in Image(ranked) { }
        }
      }
    }

    /** Down the levels of the entry point to the bottom one. */
    method TopDown(score: nat -> int) returns (entry: nat)
      requires Valid() && nodes != []
      ensures entry < |nodes|
    {
      entry := entryPoint;
      var level: nat := maxLevel;
      while level > 0
        invariant level <= maxLevel && entry < |nodes| && HasLevel(entry, level)
      {
        entry := GreedySearchLayer(entry, level, score);
        level := level - 1;
      }
    }

    method RankHits(candidates: seq<nat>, score: nat -> int) returns (hits: seq<nat>)
      requires NodesDistinct(candidates)
      ensures NodesDistinct(hits) && Ranked(score, DocOf(), hits) && |hits| == |candidates|
      ensures forall x :: x in hits <==> x in candidates
    {
      hits := Rank(score, DocOf(), candidates);
      StillDistinct(candidates, hits);
      SameMembers(candidates, hits);
      forall k | 0 <= k < |hits| ensures hits[k] < |nodes| { assert hits[k] in hits; }
    }

    function DocOf(): nat -> nat
      reads this`docIds
    {
      var ids := docIds;
      (i: nat) => if i < |ids| then ids[i] else 0
    }

    lemma {:induction false} FoundAreNodes(entry: nat, visited: set<nat>, found: seq<nat>)
      requires AllSeen(entry, 0, visited) && Image(found) <= visited && AllDistinct(found)
      ensures NodesDistinct(found)
    {
      forall k | 0 <= k < |found| ensures found[k] < |nodes| {
        assert found[k] in Image(found);
        assert Seen(entry, 0, found[k]);
      }
    }

    /** Nodes the search did not reach, behind those it did. */
    method AddUnseen(candidates: seq<nat>) returns (r: seq<nat>)
      requires NodesDistinct(candidates)
      ensures NodesDistinct(r) && |r| == |nodes|
    {
      r := candidates;
      for nodeID := 0 to |nodes|
        invariant NodesDistinct(r) && candidates <= r && forall i: nat :: i < nodeID ==> i in r
        invariant forall x :: x in r ==> x in candidates || x < nodeID
      {
        if nodeID !in candidates { r := r + [nodeID]; }
      }
      ImageSize(r);
      forall i: nat | i in Below(|nodes|) ensures i in Image(r) { }
      forall x | x in Image(r) ensures x in Below(|nodes|) { }
      assert Image(r) == Below(|nodes|);
    }

    /** As many distinct nodes as there are: all of them. */
    lemma {:induction false} AllNodes(ids: seq<nat>)
      requires NodesDistinct(ids) && |ids| >= |nodes|
      ensures |ids| == |nodes| && forall i: nat :: i < |nodes| ==> i in ids
    {
      ImageSize(ids);
      SubsetSize(Image(ids), Below(|nodes|));
      forall i: nat | i < |nodes| ensures i in ids { assert i in Below(|nodes|) && i in Image(ids); }
    }
  }

  function Lower(a: nat, b: nat): nat { if a < b then a else b }

  /** Level of a document: two low zero bits of its hash per level, at most 16. */
  function RandomLevel(docId: nat): (level: nat)
    ensures level <= 16
  {
    LevelFrom((docId * 11400714819323198485 + 0x9e3779b97f4a7c15) % 0x1_0000_0000_0000_0000, 0)
  }

  function LevelFrom(hash: nat, level: nat): (r: nat)
    requires level <= 16
    ensures r <= 16
    decreases 16 - level
  {
    if hash % 4 == 0 && level < 16 then LevelFrom(hash / 4, level + 1) else level
  }
}
