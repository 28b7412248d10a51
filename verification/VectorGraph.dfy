/** The proximity graph: layered adjacency lists kept in flat vectors. */
module VectorGraph {
  import opened ModFacts
  import opened FiniteSets

  /** An unused link cell, and the entry point of an empty graph. */
  const NONE: nat := 0xFFFF_FFFF

  datatype Node = Node(level: nat, linkOffset: nat)

  // ---------------------------------------------------------------- flat regions

  /** Region c of `width` cells holds `live` and is unused behind it. */
  ghost predicate Region(links: seq<nat>, width: nat, c: nat, live: seq<nat>) {
    && |live| <= width && Times(c, width) + width <= |links|
    && forall k :: Times(c, width) <= k < Times(c, width) + width ==> links[k] == Cell(live, k - Times(c, width))
  }

  function Unused(n: nat): seq<nat> { seq(n, _ => NONE) }

  function Cell(live: seq<nat>, k: nat): nat { if k < |live| then live[k] else NONE }

  lemma {:induction false} RegionsApart(a: nat, b: nat, width: nat)
    requires a < b
    ensures Times(a, width) + width <= Times(b, width)
  {
    TimesMonotone(a + 1, b, width);
  }

  /** Overwriting the cells of one region leaves every other as it was. */
  lemma {:induction false} OtherRegion(links: seq<nat>, after: seq<nat>, width: nat, c: nat, other: nat, live: seq<nat>)
    requires Region(links, width, other, live) && other != c && |after| == |links|
    requires forall k :: 0 <= k < |links| && !(Times(c, width) <= k < Times(c, width) + width) ==> after[k] == links[k]
    ensures Region(after, width, other, live)
  {
    if other < c { RegionsApart(other, c, width); } else { RegionsApart(c, other, width); }
    var at := Times(other, width);
    assert after[at..at + width] == links[at..at + width];
  }

  lemma {:induction false} RegionCells(links: seq<nat>, width: nat, c: nat, live: seq<nat>)
    requires Region(links, width, c, live)
    ensures links[Times(c, width)..Times(c, width) + |live|] == live
  {
  }

  /** The flat vectors hold the layers, one region each. */
  ghost predicate Stored(links: seq<nat>, counts: seq<nat>, width: nat, layers: seq<seq<nat>>) {
    && |counts| == |layers| && |links| == Times(|layers|, width)
    && forall c :: 0 <= c < |layers| ==> LayerStored(links, counts, width, layers, c)
  }

  ghost predicate LayerStored(links: seq<nat>, counts: seq<nat>, width: nat, layers: seq<seq<nat>>, c: nat)
    requires c < |layers| == |counts|
  {
    counts[c] == |layers[c]| && Region(links, width, c, layers[c])
  }

  ghost predicate SameOutside(links: seq<nat>, after: seq<nat>, offset: nat, width: nat) {
    |after| == |links| && forall k :: 0 <= k < |links| && !(offset <= k < offset + width) ==> after[k] == links[k]
  }

  /** One region and its count rewritten. */
  lemma {:induction false} StoreLayer(links: seq<nat>, counts: seq<nat>, width: nat, layers: seq<seq<nat>>,
                                      c: nat, after: seq<nat>, live: seq<nat>)
    requires Stored(links, counts, width, layers) && c < |layers|
    requires SameOutside(links, after, Times(c, width), width) && Region(after, width, c, live)
    ensures Stored(after, counts[c := |live|], width, layers[c := live])
  {
    var counts', layers' := counts[c := |live|], layers[c := live];
    forall d | 0 <= d < |layers| ensures LayerStored(after, counts', width, layers', d) {
      assert LayerStored(links, counts, width, layers, d);
      if d != c { OtherRegion(links, after, width, c, d, layers[d]); }
    }
  }

  /** New empty layers behind the others. */
  lemma {:induction false} StoreMore(links: seq<nat>, counts: seq<nat>, width: nat, layers: seq<seq<nat>>, more: nat)
    requires Stored(links, counts, width, layers)
    ensures Stored(links + Unused(Times(more, width)), counts + seq(more, _ => 0), width, layers + seq(more, _ => []))
  {
    TimesAdds(|layers|, more, width);
    var links', counts', layers' :=
      links + Unused(Times(more, width)), counts + seq(more, _ => 0), layers + seq(more, _ => []);
    forall d | 0 <= d < |layers'| ensures LayerStored(links', counts', width, layers', d) {
      RegionsApart(d, |layers'|, width);
      if d < |layers| {
        assert LayerStored(links, counts, width, layers, d);
      } else {
        TimesMonotone(|layers|, d, width);
      }
    }
  }

  function WriteRegion(links: seq<nat>, offset: nat, width: nat, live: seq<nat>): seq<nat>
    requires offset + width <= |links| && |live| <= width
  {
    links[..offset] + live + Unused(width - |live|) + links[offset + width..]
  }

  lemma {:induction false} RegionWritten(links: seq<nat>, width: nat, c: nat, live: seq<nat>)
    requires Times(c, width) + width <= |links| && |live| <= width
    ensures SameOutside(links, WriteRegion(links, Times(c, width), width, live), Times(c, width), width)
    ensures Region(WriteRegion(links, Times(c, width), width, live), width, c, live)
  {
  }

  /** One cell written: a live link replaced, or one more appended. */
  lemma {:induction false} CellWritten(links: seq<nat>, width: nat, c: nat, live: seq<nat>, k: nat, x: nat)
    requires Region(links, width, c, live) && k <= |live| && k < width
    ensures SameOutside(links, links[Times(c, width) + k := x], Times(c, width), width)
    ensures Region(links[Times(c, width) + k := x], width, c, if k < |live| then live[k := x] else live + [x])
  {
  }

  /** The live cells rewritten in another order. */
  lemma {:induction false} LiveWritten(links: seq<nat>, width: nat, c: nat, live: seq<nat>, after: seq<nat>)
    requires Region(links, width, c, live) && |after| == |live|
    ensures var at := Times(c, width); var written := links[..at] + after + links[at + |live|..];
            SameOutside(links, written, at, width) && Region(written, width, c, after)
  {
  }

  // ---------------------------------------------------------------- layers of the nodes

  /** Number of layers of the nodes before i: the first layer of node i. */
  function LayerStart(nodes: seq<Node>, i: nat): nat
    requires i <= |nodes|
  {
    if i == 0 then 0 else LayerStart(nodes, i - 1) + nodes[i - 1].level + 1
  }

  lemma {:induction false} LayerStartMonotone(nodes: seq<Node>, i: nat, j: nat)
    requires i < j <= |nodes|
    ensures LayerStart(nodes, i) + nodes[i].level + 1 <= LayerStart(nodes, j)
  {
    if i < j - 1 { LayerStartMonotone(nodes, i, j - 1); }
  }

  lemma {:induction false} LayerStartAppend(nodes: seq<Node>, node: Node, i: nat)
    requires i <= |nodes|
    ensures LayerStart(nodes + [node], i) == LayerStart(nodes, i)
  {
    if i > 0 { LayerStartAppend(nodes, node, i - 1); }
  }

  ghost function Layer(nodes: seq<Node>, i: nat, level: nat): nat
    requires i < |nodes|
  {
    LayerStart(nodes, i) + level
  }

  /** No two layers of any nodes are the same one. */
  lemma {:induction false} LayersDistinct(nodes: seq<Node>, i: nat, l: nat, j: nat, m: nat)
    requires i < |nodes| && j < |nodes| && l <= nodes[i].level && m <= nodes[j].level
    ensures Layer(nodes, i, l) == Layer(nodes, j, m) ==> i == j && l == m
    ensures Layer(nodes, i, l) < LayerStart(nodes, |nodes|)
  {
    LayerStartMonotone(nodes, i, |nodes|);
    if i < j { LayerStartMonotone(nodes, i, j); }
    if j < i { LayerStartMonotone(nodes, j, i); }
  }

  // ---------------------------------------------------------------- well-formed adjacency

  /** Live links of node i on a level: distinct, not i itself, to nodes that have the level. */
  ghost predicate GoodLinks(nodes: seq<Node>, i: nat, level: nat, live: seq<nat>) {
    && (forall k :: 0 <= k < |live| ==> live[k] < |nodes| && live[k] != i && level <= nodes[live[k]].level)
    && (forall j, k :: 0 <= j < k < |live| ==> live[j] != live[k])
  }

  ghost predicate GoodGraph(nodes: seq<Node>, layers: seq<seq<nat>>) {
    && |layers| == LayerStart(nodes, |nodes|)
    && forall i: nat, l: nat :: i < |nodes| && l <= nodes[i].level ==> GoodAt(nodes, layers, i, l)
  }

  ghost predicate GoodAt(nodes: seq<Node>, layers: seq<seq<nat>>, i: nat, level: nat)
    requires i < |nodes|
  {
    Layer(nodes, i, level) < |layers| && GoodLinks(nodes, i, level, layers[Layer(nodes, i, level)])
  }

  /** Changing one node's links on one level to good ones keeps the graph good. */
  lemma {:induction false} SetKeepsGraph(nodes: seq<Node>, layers: seq<seq<nat>>, i: nat, l: nat, live: seq<nat>)
    requires GoodGraph(nodes, layers) && i < |nodes| && l <= nodes[i].level && GoodLinks(nodes, i, l, live)
    ensures Layer(nodes, i, l) < |layers| && GoodGraph(nodes, layers[Layer(nodes, i, l) := live])
  {
    LayersDistinct(nodes, i, l, i, l);
    var layers' := layers[Layer(nodes, i, l) := live];
    forall j: nat, m: nat | j < |nodes| && m <= nodes[j].level ensures GoodAt(nodes, layers', j, m) {
      assert GoodAt(nodes, layers, j, m);
      LayersDistinct(nodes, i, l, j, m);
    }
  }

  /** A new node starts with empty layers behind all others. */
  lemma {:induction false} AppendKeepsGraph(nodes: seq<Node>, layers: seq<seq<nat>>, node: Node)
    requires GoodGraph(nodes, layers)
    ensures GoodGraph(nodes + [node], layers + seq(node.level + 1, _ => []))
    ensures forall i, l :: 0 <= i < |nodes| && 0 <= l <= nodes[i].level ==>
              Layer(nodes + [node], i, l) == Layer(nodes, i, l) < |layers|
    ensures LayerStart(nodes + [node], |nodes|) == |layers|
  {
    var nodes', layers' := nodes + [node], layers + seq(node.level + 1, _ => []);
    forall i | 0 <= i <= |nodes| ensures LayerStart(nodes', i) == LayerStart(nodes, i) {
      LayerStartAppend(nodes, node, i);
    }
    forall i: nat, l: nat | i < |nodes'| && l <= nodes'[i].level ensures GoodAt(nodes', layers', i, l) {
      LayersDistinct(nodes', i, l, i, l);
      if i < |nodes| { assert GoodAt(nodes, layers, i, l); }
    }
    forall i, l | 0 <= i < |nodes| && 0 <= l <= nodes[i].level
      ensures Layer(nodes', i, l) == Layer(nodes, i, l) < |layers|
    {
      assert GoodAt(nodes, layers, i, l);
    }
  }

  // ---------------------------------------------------------------- ranking

  /** Ties between nodes are broken by their ids. */
  function Id(x: nat): nat { x }

  /** Better score first; of equal scores the smaller key. */
  predicate Before(score: nat -> int, key: nat -> nat, a: nat, b: nat) {
    score(a) > score(b) || (score(a) == score(b) && key(a) < key(b))
  }

  ghost predicate Ranked(score: nat -> int, key: nat -> nat, ids: seq<nat>) {
    forall k :: 1 <= k < |ids| ==> !Before(score, key, ids[k], ids[k - 1])
  }

  /** A library sort by score, then key. */
  method Rank(score: nat -> int, key: nat -> nat, ids: seq<nat>) returns (r: seq<nat>)
    ensures multiset(r) == multiset(ids) && |r| == |ids| && Ranked(score, key, r)
  {
    hide Before;
    r := [];
    for i := 0 to |ids|
      invariant multiset(r) == multiset(ids[..i]) && |r| == i && Ranked(score, key, r)
    {
      var at: nat := |r|;
      while at > 0 && Before(score, key, ids[i], r[at - 1])
        invariant at <= |r| && (at < |r| ==> Before(score, key, ids[i], r[at]))
      {
        at := at - 1;
      }
      assert ids[..i + 1] == ids[..i] + [ids[i]];
      RankInsert(score, key, r, at, ids[i]);
      InsertCounts(r, at, ids[i]);
      r := r[..at] + [ids[i]] + r[at..];
    }
    assert ids[..|ids|] == ids;
  }

  lemma {:induction false} RankInsert(score: nat -> int, key: nat -> nat, r: seq<nat>, at: nat, x: nat)
    requires at <= |r| && Ranked(score, key, r)
    requires at > 0 ==> !Before(score, key, x, r[at - 1])
    requires at < |r| ==> Before(score, key, x, r[at])
    ensures Ranked(score, key, r[..at] + [x] + r[at..])
  {
  }

  /** A ranked list is ordered across any distance. */
  lemma {:induction false} RankedPair(score: nat -> int, key: nat -> nat, r: seq<nat>, j: nat, k: nat)
    requires Ranked(score, key, r) && j < k < |r|
    ensures !Before(score, key, r[k], r[j])
  {
    if j < k - 1 { RankedPair(score, key, r, j, k - 1); }
  }

  lemma {:induction false} DistinctByCount(a: seq<nat>)
    ensures (forall j, k :: 0 <= j < k < |a| ==> a[j] != a[k]) <==> forall x :: multiset(a)[x] <= 1
  {
    if a != [] {
      var last := |a| - 1;
      var b := a[..last];
      DistinctByCount(b);
      assert a == b + [a[last]];
      if forall j, k :: 0 <= j < k < |a| ==> a[j] != a[k] {
        assert a[last] !in b;
      }
      if forall x :: multiset(a)[x] <= 1 {
        forall x ensures multiset(b)[x] <= 1 { assert multiset(b)[x] <= multiset(a)[x] <= 1; }
        assert multiset(a)[a[last]] <= 1;
        assert multiset(b)[a[last]] == 0;
        assert a[last] !in b;
      }
    }
  }

  /** Sorting distinct ids keeps them distinct. */
  lemma {:induction false} StillDistinct(a: seq<nat>, b: seq<nat>)
    requires multiset(a) == multiset(b) && forall j, k :: 0 <= j < k < |a| ==> a[j] != a[k]
    ensures forall j, k :: 0 <= j < k < |b| ==> b[j] != b[k]
  {
    DistinctByCount(a);
    DistinctByCount(b);
  }

  // ---------------------------------------------------------------- reachability

  /** The live links of a node on a level; none on a level it does not have. */
  ghost function LinksOf(nodes: seq<Node>, layers: seq<seq<nat>>, i: nat, level: nat): seq<nat> {
    if i < |nodes| && level <= nodes[i].level && Layer(nodes, i, level) < |layers| then layers[Layer(nodes, i, level)]
    else []
  }

  ghost predicate IsPath(nodes: seq<Node>, layers: seq<seq<nat>>, level: nat, p: seq<nat>) {
    p != [] && forall k :: 0 <= k < |p| - 1 ==> p[k + 1] in LinksOf(nodes, layers, p[k], level)
  }

  ghost predicate Reachable(nodes: seq<Node>, layers: seq<seq<nat>>, level: nat, a: nat, b: nat) {
    exists p :: IsPath(nodes, layers, level, p) && p[0] == a && p[|p| - 1] == b
  }

  lemma {:induction false} ReachSelf(nodes: seq<Node>, layers: seq<seq<nat>>, level: nat, a: nat)
    ensures Reachable(nodes, layers, level, a, a)
  {
    assert IsPath(nodes, layers, level, [a]);
  }

  lemma {:induction false} ReachStep(nodes: seq<Node>, layers: seq<seq<nat>>, level: nat, a: nat, b: nat, c: nat)
    requires Reachable(nodes, layers, level, a, b) && c in LinksOf(nodes, layers, b, level)
    ensures Reachable(nodes, layers, level, a, c)
  {
    var p :| IsPath(nodes, layers, level, p) && p[0] == a && p[|p| - 1] == b;
    assert IsPath(nodes, layers, level, p + [c]);
  }

  ghost predicate Closed(nodes: seq<Node>, layers: seq<seq<nat>>, level: nat, s: set<nat>) {
    forall a, b :: a in s && b in LinksOf(nodes, layers, a, level) ==> b in s
  }

  lemma {:induction false} PathStays(nodes: seq<Node>, layers: seq<seq<nat>>, level: nat, s: set<nat>, p: seq<nat>)
    requires Closed(nodes, layers, level, s) && IsPath(nodes, layers, level, p) && p[0] in s
    ensures p[|p| - 1] in s
  {
    if |p| > 1 {
      PathStays(nodes, layers, level, s, p[..|p| - 1]);
      assert p[|p| - 2] in s;
    }
  }

  /** A closed set around the entry holds everything reachable from it. */
  lemma {:induction false} ReachableStays(nodes: seq<Node>, layers: seq<seq<nat>>, level: nat, s: set<nat>,
                                          a: nat, b: nat)
    requires Closed(nodes, layers, level, s) && a in s && Reachable(nodes, layers, level, a, b)
    ensures b in s
  {
    var p :| IsPath(nodes, layers, level, p) && p[0] == a && p[|p| - 1] == b;
    PathStays(nodes, layers, level, s, p);
  }

  // ---------------------------------------------------------------- replacing the worst link

  /** The link that ranks last: the lowest score, of equal scores the largest id. */
  method WorstLink(score: nat -> int, live: seq<nat>) returns (worst: nat)
    requires live != []
    ensures worst < |live| && forall k :: 0 <= k < |live| ==> !Before(score, Id, live[worst], live[k])
  {
    worst := 0;
    for k := 1 to |live|
      invariant worst < |live| && forall j :: 0 <= j < k ==> !Before(score, Id, live[worst], live[j])
    {
      if Before(score, Id, live[worst], live[k]) { worst := k; }
    }
  }

  /** Of the old links and a new one, the kept ones: the best `width`, none beaten by the
      one dropped. */
  ghost predicate BestKept(score: nat -> int, width: nat, live: seq<nat>, x: nat, after: seq<nat>) {
    && (forall y :: y in after ==> y in live || y == x)
    && (forall y :: (y in live || y == x) && y !in after ==> AllBefore(score, after, y))
    && |after| == (if x in live then |live| else if |live| < width then |live| + 1 else |live|)
    && AllDistinct(after) && (x in after || |after| == width)
  }

  ghost predicate AllBefore(score: nat -> int, kept: seq<nat>, y: nat) {
    forall z :: z in kept ==> Before(score, Id, z, y)
  }

  ghost predicate AllDistinct(s: seq<nat>) {
    forall j, k :: 0 <= j < k < |s| ==> s[j] != s[k]
  }

  /** Replacing the worst by something better keeps the best. */
  lemma {:induction false} ReplaceKeeps(score: nat -> int, width: nat, live: seq<nat>, x: nat, worst: nat,
                                        after: seq<nat>)
    requires AllDistinct(live) && x !in live && |live| == width && worst < |live|
    requires forall k :: 0 <= k < |live| ==> !Before(score, Id, live[worst], live[k])
    requires Before(score, Id, x, live[worst])
    requires multiset(after) == multiset(live[worst := x])
    ensures BestKept(score, width, live, x, after)
  {
    var changed := live[worst := x];
    SameMembers(after, changed);
    assert AllDistinct(changed);
    StillDistinct(changed, after);
    assert |after| == |multiset(after)| == |changed|;
    assert changed[worst] == x && x in after;
    forall k | 0 <= k < |live| && k != worst ensures live[k] in changed { assert live[k] == changed[k]; }
    forall y | (y in live || y == x) && y !in after ensures AllBefore(score, after, y) {
      var a :| 0 <= a < |live| && live[a] == y;
      forall z | z in after ensures Before(score, Id, z, y) { var b :| 0 <= b < |changed| && changed[b] == z; }
    }
    forall y | y in after ensures y in live || y == x {
      var b :| 0 <= b < |changed| && changed[b] == y;
    }
  }

  /** With room, or with the link there already, nothing is dropped. */
  lemma {:induction false} AppendKeeps(score: nat -> int, width: nat, live: seq<nat>, x: nat)
    requires AllDistinct(live)
    ensures x in live ==> BestKept(score, width, live, x, live)
    ensures x !in live && |live| < width ==> BestKept(score, width, live, x, live + [x])
  {
  }

  lemma {:induction false} RefuseKeeps(score: nat -> int, width: nat, live: seq<nat>, x: nat, worst: nat)
    requires AllDistinct(live) && x !in live && |live| == width && worst < |live|
    requires forall k :: 0 <= k < |live| ==> !Before(score, Id, live[worst], live[k])
    requires !Before(score, Id, x, live[worst])
    ensures BestKept(score, width, live, x, live)
  {
  }

  function FirstOf(s: seq<nat>, n: nat): seq<nat> { if |s| < n then s else s[..n] }

  // ---------------------------------------------------------------- the whole structure

  /** Every node's layers start where its link offset says. */
  ghost predicate Offsets(nodes: seq<Node>, width: nat) {
    |nodes| <= NONE && forall i :: 0 <= i < |nodes| ==> nodes[i].linkOffset == Times(LayerStart(nodes, i), width)
  }

  /** Flat vectors, offsets and adjacency fit together. */
  ghost predicate WellFormed(nodes: seq<Node>, links: seq<nat>, counts: seq<nat>, width: nat, layers: seq<seq<nat>>) {
    && 2 <= width <= 255 && Stored(links, counts, width, layers) && |links| <= NONE
    && Offsets(nodes, width) && GoodGraph(nodes, layers)
  }

  lemma {:induction false} LayerInRange(nodes: seq<Node>, links: seq<nat>, counts: seq<nat>, width: nat,
                                        layers: seq<seq<nat>>, i: nat, level: nat)
    requires WellFormed(nodes, links, counts, width, layers) && i < |nodes| && level <= nodes[i].level
    ensures var c := Layer(nodes, i, level);
      c < |layers| && layers[c] == LinksOf(nodes, layers, i, level) && GoodLinks(nodes, i, level, layers[c])
      && LayerStored(links, counts, width, layers, c)
  {
    LayersDistinct(nodes, i, level, i, level);
    assert LayerStored(links, counts, width, layers, Layer(nodes, i, level));
    assert GoodAt(nodes, layers, i, level);
  }

  /** One layer rewritten to good links. */
  lemma {:induction false} LayerSet(nodes: seq<Node>, links: seq<nat>, counts: seq<nat>, width: nat,
                                    layers: seq<seq<nat>>, i: nat, level: nat, after: seq<nat>, live: seq<nat>)
    requires WellFormed(nodes, links, counts, width, layers) && i < |nodes| && level <= nodes[i].level
    requires GoodLinks(nodes, i, level, live)
    requires SameOutside(links, after, Times(Layer(nodes, i, level), width), width)
    requires Region(after, width, Layer(nodes, i, level), live)
    ensures var c := Layer(nodes, i, level);
      c < |layers| && WellFormed(nodes, after, counts[c := |live|], width, layers[c := live])
  {
    LayerInRange(nodes, links, counts, width, layers, i, level);
    StoreLayer(links, counts, width, layers, Layer(nodes, i, level), after, live);
    SetKeepsGraph(nodes, layers, i, level, live);
  }

  lemma {:induction false} GoodPermuted(nodes: seq<Node>, i: nat, level: nat, live: seq<nat>, sorted: seq<nat>)
    requires GoodLinks(nodes, i, level, live) && multiset(sorted) == multiset(live) && |sorted| == |live|
    ensures GoodLinks(nodes, i, level, sorted)
  {
    SameMembers(live, sorted);
    StillDistinct(live, sorted);
    forall k | 0 <= k < |sorted| ensures sorted[k] in live { assert sorted[k] in sorted; }
  }

  /** A layer's live links rewritten in another order. */
  lemma {:induction false} ReorderLayer(nodes: seq<Node>, links: seq<nat>, counts: seq<nat>, width: nat,
                                        layers: seq<seq<nat>>, i: nat, level: nat, written: seq<nat>, sorted: seq<nat>)
    requires WellFormed(nodes, links, counts, width, layers) && i < |nodes| && level <= nodes[i].level
    requires var live := LinksOf(nodes, layers, i, level); multiset(sorted) == multiset(live) && |sorted| == |live|
    requires SameOutside(links, written, Times(Layer(nodes, i, level), width), width)
    requires Region(written, width, Layer(nodes, i, level), sorted)
    ensures Layer(nodes, i, level) < |layers|
    ensures WellFormed(nodes, written, counts, width, layers[Layer(nodes, i, level) := sorted])
  {
    LayerInRange(nodes, links, counts, width, layers, i, level);
    GoodPermuted(nodes, i, level, LinksOf(nodes, layers, i, level), sorted);
    SameCount(counts, Layer(nodes, i, level), |sorted|);
    LayerSet(nodes, links, counts, width, layers, i, level, written, sorted);
  }

  lemma {:induction false} SameCount(counts: seq<nat>, c: nat, n: nat)
    requires c < |counts| && counts[c] == n
    ensures counts[c := n] == counts
  {
  }

  ghost function WithLink(live: seq<nat>, k: nat, x: nat): seq<nat>
    requires k <= |live|
  {
    if k < |live| then live[k := x] else live + [x]
  }

  lemma {:induction false} CellSet(nodes: seq<Node>, links: seq<nat>, counts: seq<nat>, width: nat,
                                   layers: seq<seq<nat>>, i: nat, level: nat, k: nat, x: nat)
    requires WellFormed(nodes, links, counts, width, layers) && i < |nodes| && level <= nodes[i].level
    requires k <= |LinksOf(nodes, layers, i, level)| && k < width
    requires GoodLinks(nodes, i, level, WithLink(LinksOf(nodes, layers, i, level), k, x))
    ensures var c := Layer(nodes, i, level); var live := WithLink(LinksOf(nodes, layers, i, level), k, x);
      c < |layers| && Times(c, width) + k < |links| && counts[c] == |LinksOf(nodes, layers, i, level)|
      && WellFormed(nodes, links[Times(c, width) + k := x], counts[c := |live|], width, layers[c := live])
  {
    LayerInRange(nodes, links, counts, width, layers, i, level);
    var live, c := LinksOf(nodes, layers, i, level), Layer(nodes, i, level);
    CellWritten(links, width, c, live, k, x);
    LayerSet(nodes, links, counts, width, layers, i, level, links[Times(c, width) + k := x], WithLink(live, k, x));
  }

  /** Links after one layer is rewritten. */
  lemma {:induction false} LinksAfterSet(nodes: seq<Node>, layers: seq<seq<nat>>, i: nat, level: nat,
                                         live: seq<nat>, j: nat, m: nat)
    requires GoodGraph(nodes, layers) && i < |nodes| && level <= nodes[i].level
    requires Layer(nodes, i, level) < |layers|
    ensures LinksOf(nodes, layers[Layer(nodes, i, level) := live], j, m)
            == if i == j && level == m then live else LinksOf(nodes, layers, j, m)
  {
    if j < |nodes| && m <= nodes[j].level { LayersDistinct(nodes, i, level, j, m); }
  }

  /** A node that nothing links to on a level. */
  ghost predicate Unlinked(nodes: seq<Node>, layers: seq<seq<nat>>, x: nat, level: nat) {
    forall i :: 0 <= i < |nodes| ==> x !in LinksOf(nodes, layers, i, level)
  }

  lemma {:induction false} UnlinkedUnreachable(nodes: seq<Node>, layers: seq<seq<nat>>, level: nat, entry: nat, x: nat)
    requires Unlinked(nodes, layers, x, level) && entry != x
    ensures !Reachable(nodes, layers, level, entry, x)
  {
    if Reachable(nodes, layers, level, entry, x) {
      var p :| IsPath(nodes, layers, level, p) && p[0] == entry && p[|p| - 1] == x;
      LastStep(nodes, layers, level, p);
    }
  }

  lemma {:induction false} LastStep(nodes: seq<Node>, layers: seq<seq<nat>>, level: nat, p: seq<nat>)
    requires IsPath(nodes, layers, level, p) && |p| > 1
    ensures p[|p| - 2] < |nodes| && p[|p| - 1] in LinksOf(nodes, layers, p[|p| - 2], level)
  {
    var k := |p| - 2;
    assert p[k + 1] in LinksOf(nodes, layers, p[k], level);
  }

  /** A node just appended has no links to it anywhere. */
  lemma {:induction false} NewUnlinked(nodes: seq<Node>, layers: seq<seq<nat>>, node: Node, level: nat)
    requires GoodGraph(nodes, layers)
    ensures Unlinked(nodes + [node], layers + seq(node.level + 1, _ => []), |nodes|, level)
  {
    var nodes', layers' := nodes + [node], layers + seq(node.level + 1, _ => []);
    AppendKeepsGraph(nodes, layers, node);
    forall i | 0 <= i < |nodes'| ensures |nodes| !in LinksOf(nodes', layers', i, level) {
      if i < |nodes| && level <= nodes[i].level { assert GoodAt(nodes, layers, i, level); }
    }
  }

  /** Only links on one level may have changed. */
  ghost predicate OthersKept(nodes: seq<Node>, before: seq<seq<nat>>, after: seq<seq<nat>>, level: nat) {
    forall j: nat, m: nat :: m != level ==> LinksOf(nodes, after, j, m) == LinksOf(nodes, before, j, m)
  }

  lemma {:induction false} SetKeepsOthers(nodes: seq<Node>, before: seq<seq<nat>>, layers: seq<seq<nat>>,
                                          i: nat, level: nat, live: seq<nat>)
    requires GoodGraph(nodes, layers) && i < |nodes| && level <= nodes[i].level
    requires Layer(nodes, i, level) < |layers| && OthersKept(nodes, before, layers, level)
    ensures OthersKept(nodes, before, layers[Layer(nodes, i, level) := live], level)
  {
    var layers' := layers[Layer(nodes, i, level) := live];
    forall j: nat, m: nat | m != level ensures LinksOf(nodes, layers', j, m) == LinksOf(nodes, before, j, m) {
      LinksAfterSet(nodes, layers, i, level, live, j, m);
    }
  }

  lemma {:induction false} StillUnlinked(nodes: seq<Node>, before: seq<seq<nat>>, after: seq<seq<nat>>,
                                         level: nat, x: nat, m: nat)
    requires OthersKept(nodes, before, after, level) && m != level && Unlinked(nodes, before, x, m)
    ensures Unlinked(nodes, after, x, m)
  {
  }

  /** The links of the first k chosen nodes after x is linked back from them; those of the
      other nodes are as before. */
  ghost predicate LinkedBack(nodes: seq<Node>, before: seq<seq<nat>>, after: seq<seq<nat>>, width: nat, level: nat,
                             score: nat -> (nat -> int), x: nat, chosen: seq<nat>, k: nat)
    requires k <= |chosen|
  {
    && (forall j :: 0 <= j < k ==> BestKept(score(chosen[j]), width, LinksOf(nodes, before, chosen[j], level), x,
                                            LinksOf(nodes, after, chosen[j], level)))
    && (forall i: nat :: i !in chosen[..k] ==> LinksOf(nodes, after, i, level) == LinksOf(nodes, before, i, level))
  }

  lemma {:induction false} LinkedOne(nodes: seq<Node>, before: seq<seq<nat>>, layers: seq<seq<nat>>, width: nat,
                                     level: nat, score: nat -> (nat -> int), x: nat, chosen: seq<nat>, k: nat,
                                     live: seq<nat>)
    requires k < |chosen| && LinkedBack(nodes, before, layers, width, level, score, x, chosen, k)
    requires AllDistinct(chosen) && GoodGraph(nodes, layers) && chosen[k] < |nodes| && level <= nodes[chosen[k]].level
    requires Layer(nodes, chosen[k], level) < |layers|
    requires BestKept(score(chosen[k]), width, LinksOf(nodes, layers, chosen[k], level), x, live)
    ensures var after := layers[Layer(nodes, chosen[k], level) := live];
            LinkedBack(nodes, before, after, width, level, score, x, chosen, k + 1)
  {
    var layers' := layers[Layer(nodes, chosen[k], level) := live];
    forall i: nat
      ensures LinksOf(nodes, layers', i, level) == if i == chosen[k] then live else LinksOf(nodes, layers, i, level)
    {
      LinksAfterSet(nodes, layers, chosen[k], level, live, i, level);
    }
    assert chosen[k] !in chosen[..k];
    assert chosen[..k + 1] == chosen[..k] + [chosen[k]];
  }

  /** A new node with empty layers behind everything. */
  lemma {:induction false} NodeAppended(nodes: seq<Node>, links: seq<nat>, counts: seq<nat>, width: nat,
                                        layers: seq<seq<nat>>, level: nat)
    requires WellFormed(nodes, links, counts, width, layers) && |nodes| < NONE
    requires |links| + Times(level + 1, width) <= NONE
    ensures WellFormed(nodes + [Node(level, |links|)], links + Unused(Times(level + 1, width)),
                       counts + seq(level + 1, _ => 0), width, layers + seq(level + 1, _ => []))
    ensures Isolated(nodes + [Node(level, |links|)], layers + seq(level + 1, _ => []), |nodes|)
  {
    var node := Node(level, |links|);
    AppendKeepsGraph(nodes, layers, node);
    StoreMore(links, counts, width, layers, level + 1);
    OffsetsAppended(nodes, width, node);
    IsolatedAppended(nodes, layers, node);
  }

  lemma {:induction false} OffsetsAppended(nodes: seq<Node>, width: nat, node: Node)
    requires Offsets(nodes, width) && |nodes| < NONE
    requires node.linkOffset == Times(LayerStart(nodes, |nodes|), width)
    ensures Offsets(nodes + [node], width)
  {
    hide LayerStart, Times;
    var nodes' := nodes + [node];
    forall i | 0 <= i < |nodes'| ensures nodes'[i].linkOffset == Times(LayerStart(nodes', i), width) {
      LayerStartAppend(nodes, node, i);
    }
  }

  lemma {:induction false} IsolatedAppended(nodes: seq<Node>, layers: seq<seq<nat>>, node: Node)
    requires GoodGraph(nodes, layers)
    ensures Isolated(nodes + [node], layers + seq(node.level + 1, _ => []), |nodes|)
  {
    var nodes', layers' := nodes + [node], layers + seq(node.level + 1, _ => []);
    forall m: nat ensures Unlinked(nodes', layers', |nodes|, m) { NewUnlinked(nodes, layers, node, m); }
  }

  /** A node has links on a level, best first; and every node it links to links back,
      unless that node is full of links that all rank before it. */
  ghost predicate Joined(nodes: seq<Node>, layers: seq<seq<nat>>, width: nat, level: nat,
                         score: nat -> (nat -> int), x: nat) {
    && LinksOf(nodes, layers, x, level) != [] && Ranked(score(x), Id, LinksOf(nodes, layers, x, level))
    && forall y :: y in LinksOf(nodes, layers, x, level) ==> LinksBack(nodes, layers, width, level, score, x, y)
  }

  ghost predicate LinksBack(nodes: seq<Node>, layers: seq<seq<nat>>, width: nat, level: nat,
                            score: nat -> (nat -> int), x: nat, y: nat) {
    || x in LinksOf(nodes, layers, y, level)
    || (|LinksOf(nodes, layers, y, level)| == width
        && AllBefore(score(y), LinksOf(nodes, layers, y, level), x))
  }

  lemma {:induction false} LinkedIsJoined(nodes: seq<Node>, before: seq<seq<nat>>, after: seq<seq<nat>>, width: nat,
                                          level: nat, score: nat -> (nat -> int), x: nat, chosen: seq<nat>)
    requires LinkedBack(nodes, before, after, width, level, score, x, chosen, |chosen|)
    requires chosen != [] && x !in chosen && LinksOf(nodes, before, x, level) == chosen
    requires Ranked(score(x), Id, chosen)
    ensures Joined(nodes, after, width, level, score, x)
  {
  }

  lemma {:induction false} StillJoined(nodes: seq<Node>, before: seq<seq<nat>>, after: seq<seq<nat>>, width: nat,
                                       level: nat, score: nat -> (nat -> int), x: nat, m: nat)
    requires OthersKept(nodes, before, after, level) && m != level && Joined(nodes, before, width, m, score, x)
    ensures Joined(nodes, after, width, m, score, x)
  {
  }

  /** A node that nothing links to on any level. */
  ghost predicate Isolated(nodes: seq<Node>, layers: seq<seq<nat>>, x: nat) {
    forall m: nat :: Unlinked(nodes, layers, x, m)
  }
}
