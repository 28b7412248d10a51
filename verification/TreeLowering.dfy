/** From a query tree to a tree of readers over the pages of an index. */
module TreeLowering {
  import opened DocSets
  import opened Readers
  import opened QueryCompiler
  import opened Options
  import opened Bytes
  import opened TermTable
  import opened MergeSpec
  import opened Merge
  import opened MergeRead
  import opened TreePruning

  /** An index on disk, built or merged, how its readers score, and how trees are lowered
      over it. */
  datatype DiskIndex = DiskIndex(table: Table, pages: seq<Page>, score: (Key, nat, Byte) -> int,
                                 mode: BuildMode, docCount: nat)

  /** The index says exactly `terms`; its lists can be read, and none is under the empty key. */
  ghost predicate GoodIndex(ix: DiskIndex, terms: seq<Term>) {
    Indexes(ix.table, ix.pages, terms) && ReadableTerms(terms) && Lookup(terms, []) == None
  }

  ghost predicate ReadableTerms(terms: seq<Term>) {
    forall i :: 0 <= i < |terms| ==> Readable(terms[i].ps)
  }

  /** The tree whose documents the index's build mode finds. */
  ghost function Meaning(node: EvalNode, ix: DiskIndex, terms: seq<Term>): EvalNode {
    Lowered(node, ix.mode, ix.docCount, terms)
  }

  ghost function MeaningAll(nodes: seq<EvalNode>, ix: DiskIndex, terms: seq<Term>): (r: seq<EvalNode>)
    ensures |r| == |nodes|
  {
    LoweredAll(nodes, ix.mode, ix.docCount, terms)
  }

  /** A reader, just built, whose documents are those of the tree. */
  ghost predicate Reads(r: Reader, node: EvalNode, terms: seq<Term>)
    reads r.Repr, r
  {
    && Built(r)
    && forall d :: d in r.rest <==> Matches(node, TermIndex(terms), d)
  }

  /** The source bit of a stream, by the last byte of the key. */
  function SourceMaskForKey(key: Key): SourceMask {
    if key == [] then {}
    else
      var stream := key[|key| - 1];
      if stream == 65 then {0}       // A, anchor
      else if stream == 85 then {1}  // U, url
      else if stream == 84 then {2}  // T, title
      else if stream == 66 then {3}  // B, body
      else if stream == 86 then {4} // V, vector
      else {}
  }

  /** Look the key up, open its posting reader, and stand before its whole list. */
  method OpenAdvancedReader(key: Key, ix: DiskIndex, ghost terms: seq<Term>) returns (r: Reader)
    requires GoodIndex(ix, terms)
    ensures fresh(r.Repr) && Built(r) && r.kind == Advanced && r.initial == PostingsOf(Lookup(terms, key))
    ensures r.rest == DocsOf(PostingsOf(Lookup(terms, key)))
  {
    hide Readable, Indexes, DocsOf;
    LookupReadable(terms, key);
    var posting := OpenIndexed(ix.table, ix.pages, key, terms);
    r := new Reader.FromPosting(posting, (d: nat, tf: Byte) => ix.score(key, d, tf), SourceMaskForKey(key));
  }

  /** The reader of the empty key has no documents. */
  method OpenEmpty(ix: DiskIndex, ghost terms: seq<Term>) returns (r: Reader)
    requires GoodIndex(ix, terms)
    ensures fresh(r.Repr) && Built(r) && r.rest == []
  {
    r := OpenAdvancedReader([], ix, terms);
  }

  lemma {:induction false} LookupReadable(terms: seq<Term>, key: Key)
    requires ReadableTerms(terms)
    ensures Readable(PostingsOf(Lookup(terms, key))) && AscendingTerms(terms)
  {
    LookupIs(terms, key);
  }

  /** Lower a tree. The readers of its children share nothing, so neither do theirs. */
  method BuildIndexReader(node: EvalNode, ix: DiskIndex, ghost terms: seq<Term>) returns (r: Reader)
    requires GoodIndex(ix, terms)
    ensures fresh(r.Repr) && Reads(r, Meaning(node, ix, terms), terms)
    decreases Size(node), 3
  {
    match node
    case Term(key, _) => r := OpenAdvancedReader(key, ix, terms);
    case And(_) => r := BuildAnd(node, ix, terms);
    case Or(_) => r := BuildOr(node, ix, terms);
    case WeakAnd(_, _) => r := BuildWeakAnd(node, ix, terms);
    case Not(_, _) => r := BuildNot(node, ix, terms);
    case Boost(_, _, _) => r := BuildBoost(node, ix, terms);
  }

  method BuildNot(node: EvalNode, ix: DiskIndex, ghost terms: seq<Term>) returns (r: Reader)
    requires GoodIndex(ix, terms) && node.Not?
    ensures fresh(r.Repr) && Reads(r, Meaning(node, ix, terms), terms)
    decreases Size(node), 2
  {
    hide GoodIndex, Reader.Valid, Reader.Shape, Reader.JustBuilt;
    var base := BuildIndexReader(node.base, ix, terms);
    var exclude := BuildIndexReader(node.exclude, ix, terms);
    r := NotOver(base, exclude);
  }

  method NotOver(base: Reader, exclude: Reader) returns (r: Reader)
    requires Built(base) && Built(exclude) && base.Repr !! exclude.Repr
    modifies base.Repr, exclude.Repr
    ensures fresh(r) && Built(r) && r.Repr == {r} + base.Repr + exclude.Repr
    ensures forall d :: d in r.rest <==> d in old(base.rest) && d !in old(exclude.rest)
  {
    PairSeparate(base, exclude);
    r := new Reader.NotOf(base, exclude);
  }

  method BuildBoost(node: EvalNode, ix: DiskIndex, ghost terms: seq<Term>) returns (r: Reader)
    requires GoodIndex(ix, terms) && node.Boost?
    ensures fresh(r.Repr) && Reads(r, Meaning(node, ix, terms), terms)
    decreases Size(node), 2
  {
    hide GoodIndex, Reader.Valid, Reader.Shape, Reader.JustBuilt;
    var base := BuildIndexReader(node.base, ix, terms);
    if base.IsEnd() { return base; }
    var boost := BuildIndexReader(node.boost, ix, terms);
    if boost.IsEnd() { return base; }
    r := BoostOver(base, boost, node.weight);
  }

  method BoostOver(base: Reader, boost: Reader, weight: int) returns (r: Reader)
    requires Built(base) && Built(boost) && base.Repr !! boost.Repr
    ensures fresh(r) && Built(r) && r.Repr == {r} + base.Repr + boost.Repr && r.rest == base.rest
  {
    PairSeparate(base, boost);
    r := new Reader.BoostOf(base, boost, weight);
  }

  /** The readers of the first n children, one each. */
  ghost predicate ReadAll(cs: seq<Reader>, nodes: seq<EvalNode>, n: nat, terms: seq<Term>)
    requires n <= |nodes|
    reads AllRepr(cs)
  {
    |cs| == n && Separate(cs) && forall i :: 0 <= i < n ==> ReadsOne(cs[i], nodes[i], terms)
  }

  ghost predicate ReadsOne(r: Reader, node: EvalNode, terms: seq<Term>)
    reads r
  {
    forall d :: d in r.rest <==> Matches(node, TermIndex(terms), d)
  }

  method BuildChildren(nodes: seq<EvalNode>, ix: DiskIndex, ghost terms: seq<Term>) returns (cs: seq<Reader>)
    requires GoodIndex(ix, terms)
    ensures fresh(AllRepr(cs)) && ReadAll(cs, MeaningAll(nodes, ix, terms), |nodes|, terms)
    decreases SizeAll(nodes), 4
  {
    hide GoodIndex, Reads, ReadAll, Lowered, LoweredAll;
    ghost var all := MeaningAll(nodes, ix, terms);
    cs := [];
    NoReaders(all, terms);
    for i := 0 to |nodes|
      invariant fresh(AllRepr(cs)) && ReadAll(cs, all, i, terms)
    {
      SizeAt(nodes, i);
      LoweredAt(nodes, ix.mode, ix.docCount, terms, i);
      var c := BuildIndexReader(nodes[i], ix, terms);
      ReadMore(cs, c, all, i, terms);
      cs := cs + [c];
    }
  }

  /** The children that have documents. */
  method BuildAlive(nodes: seq<EvalNode>, ix: DiskIndex, ghost terms: seq<Term>) returns (cs: seq<Reader>)
    requires GoodIndex(ix, terms)
    ensures fresh(AllRepr(cs)) && ReadEach(cs, Alive(MeaningAll(nodes, ix, terms), terms), terms)
    decreases SizeAll(nodes), 4
  {
    hide GoodIndex, ReadAll, Lowered, LoweredAll, Reader.JustBuilt;
    ghost var all := MeaningAll(nodes, ix, terms);
    cs := [];
    NoReaders(all, terms);
    for i := 0 to |nodes|
      invariant fresh(AllRepr(cs)) && ReadEach(cs, Alive(all[..i], terms), terms)
    {
      SizeAt(nodes, i);
      LoweredAt(nodes, ix.mode, ix.docCount, terms, i);
      var c := BuildIndexReader(nodes[i], ix, terms);
      KeepIfAlive(cs, c, all, i, terms);
      if !c.IsEnd() { cs := cs + [c]; }
    }
    assert all[..|nodes|] == all;
  }

  lemma {:induction false} NoReaders(nodes: seq<EvalNode>, terms: seq<Term>)
    ensures AllRepr([]) == {} && ReadAll([], nodes, 0, terms) && ReadSome([], nodes, 0, terms)
    ensures ReadEach([], [], terms)
  {
  }

  /** One reader for each of the nodes. */
  ghost predicate ReadEach(cs: seq<Reader>, nodes: seq<EvalNode>, terms: seq<Term>)
    reads AllRepr(cs)
  {
    ReadAll(cs, nodes, |nodes|, terms)
  }

  lemma {:induction false} KeepIfAlive(cs: seq<Reader>, c: Reader, nodes: seq<EvalNode>, i: nat, terms: seq<Term>)
    requires i < |nodes| && ReadEach(cs, Alive(nodes[..i], terms), terms)
    requires Reads(c, nodes[i], terms) && AllRepr(cs) !! c.Repr
    ensures c.rest == [] ==> ReadEach(cs, Alive(nodes[..i + 1], terms), terms)
    ensures c.rest != [] ==> ReadEach(cs + [c], Alive(nodes[..i + 1], terms), terms)
    ensures AllRepr(cs + [c]) == AllRepr(cs) + c.Repr
  {
    var before, after := Alive(nodes[..i], terms), Alive(nodes[..i + 1], terms);
    assert nodes[..i + 1][..i] == nodes[..i];
    if c.rest != [] {
      assert c.rest[0] in c.rest;
      assert IsAlive(nodes[i], terms) && after == before + [nodes[i]];
      assert ReadAll(cs, after, |before|, terms);
      ReadMore(cs, c, after, |before|, terms);
    } else {
      AppendRepr(cs, c);
      assert !IsAlive(nodes[i], terms);
    }
  }

  lemma {:induction false} ReadMore(cs: seq<Reader>, c: Reader, nodes: seq<EvalNode>, i: nat, terms: seq<Term>)
    requires i < |nodes| && ReadAll(cs, nodes, i, terms) && Reads(c, nodes[i], terms) && AllRepr(cs) !! c.Repr
    ensures ReadAll(cs + [c], nodes, i + 1, terms) && AllRepr(cs + [c]) == AllRepr(cs) + c.Repr
  {
  }

  lemma {:induction false} AppendRepr(cs: seq<Reader>, c: Reader)
    ensures AllRepr(cs + [c]) == AllRepr(cs) + c.Repr
  {
    var all := cs + [c];
    forall x | x in AllRepr(cs) ensures x in AllRepr(all) {
      var i :| 0 <= i < |cs| && x in cs[i].Repr;
      assert all[i] == cs[i];
    }
    forall x | x in c.Repr ensures x in AllRepr(all) { assert all[|cs|] == c; }
  }

  ghost predicate Built(c: Reader)
    reads c.Repr, c
  {
    c in c.Repr && c.Shape() && c.Valid() && c.JustBuilt()
  }

  lemma {:induction false} AppendSeparate(cs: seq<Reader>, c: Reader)
    requires Separate(cs) && Built(c) && AllRepr(cs) !! c.Repr
    ensures Separate(cs + [c]) && AllRepr(cs + [c]) == AllRepr(cs) + c.Repr
  {
    AppendRepr(cs, c);
    var all := cs + [c];
    forall i | 0 <= i < |all| ensures Built(all[i]) { if i < |cs| { assert all[i] == cs[i]; } }
    forall i, j | 0 <= i < j < |all| ensures all[i].Repr !! all[j].Repr {
      if j == |cs| { PartOf(cs, i); }
    }
  }

  /** Two readers that share nothing. */
  lemma {:induction false} PairSeparate(a: Reader, b: Reader)
    requires Built(a) && Built(b) && a.Repr !! b.Repr
    ensures Separate([a, b]) && AllRepr([a, b]) == a.Repr + b.Repr
  {
    AppendRepr([], a);
    AppendRepr([a], b);
    assert [] + [a] == [a] && [a] + [b] == [a, b];
    var all := [a, b];
    forall i | 0 <= i < 2 ensures Built(all[i]) { }
  }

  lemma {:induction false} PartOf(cs: seq<Reader>, i: nat)
    requires i < |cs|
    ensures cs[i].Repr <= AllRepr(cs)
  {
  }

  method BuildAnd(node: EvalNode, ix: DiskIndex, ghost terms: seq<Term>) returns (r: Reader)
    requires GoodIndex(ix, terms) && node.And?
    ensures fresh(r.Repr) && Reads(r, Meaning(node, ix, terms), terms)
    decreases Size(node), 2
  {
    hide GoodIndex, Intersects, Intersection, Built;
    var cs := BuildChildren(node.children, ix, terms);
    ghost var means := Meaning(node, ix, terms);
    AndMeans(cs, means, terms);
    ghost var rests := RestsOf(cs);
    if exists i :: 0 <= i < |cs| && cs[i].IsEnd() {
      ghost var i :| 0 <= i < |cs| && cs[i].IsEnd();
      NothingCommon(rests, i);
      r := OpenEmpty(ix, terms);
    } else if |cs| == 1 {
      OneReader(cs);
      r := cs[0];
    } else {
      r := AndOver(cs);
    }
    IntersectionReads(r, rests, means, terms);
  }

  lemma {:induction false} NothingCommon(rests: seq<seq<nat>>, i: nat)
    requires i < |rests| && rests[i] == []
    ensures Intersection(rests, [])
  {
  }

  lemma {:induction false} IntersectionReads(r: Reader, rests: seq<seq<nat>>, node: EvalNode, terms: seq<Term>)
    requires Built(r) && Intersects(rests, node, terms) && Intersection(rests, r.rest)
    ensures Reads(r, node, terms)
  {
  }

  method AndOver(cs: seq<Reader>) returns (r: Reader)
    requires Separate(cs)
    modifies AllRepr(cs)
    ensures fresh(r) && Built(r) && r.Repr == {r} + AllRepr(cs)
    ensures Intersection(old(RestsOf(cs)), r.rest)
  {
    r := new Reader.AndOf(cs);
  }

  /** A single reader. */
  lemma {:induction false} OneReader(cs: seq<Reader>)
    requires Separate(cs) && |cs| == 1
    ensures Built(cs[0]) && cs[0].Repr <= AllRepr(cs) && RestsOf(cs) == [cs[0].rest]
    ensures Intersection(RestsOf(cs), cs[0].rest) && DocSets.Union(RestsOf(cs), cs[0].rest)
    ensures forall d :: Count(RestsOf(cs), d) == if d in cs[0].rest then 1 else 0
  {
    PartOf(cs, 0);
    assert RestsOf(cs)[0] == cs[0].rest;
    forall d ensures Count(RestsOf(cs), d) == if d in cs[0].rest then 1 else 0 { CountAll(RestsOf(cs), d); }
  }

  lemma {:induction false} AndMeans(cs: seq<Reader>, node: EvalNode, terms: seq<Term>)
    requires node.And? && ReadAll(cs, node.children, |node.children|, terms)
    ensures Intersects(RestsOf(cs), node, terms)
  {
    forall d
      ensures Matches(node, TermIndex(terms), d)
              <==> RestsOf(cs) != [] && forall i :: 0 <= i < |cs| ==> d in RestsOf(cs)[i]
    {
      forall i | 0 <= i < |cs| ensures d in RestsOf(cs)[i] <==> Matches(node.children[i], TermIndex(terms), d) {
        assert ReadsOne(cs[i], node.children[i], terms);
      }
    }
  }

  ghost predicate Intersects(rests: seq<seq<nat>>, node: EvalNode, terms: seq<Term>) {
    forall d :: Matches(node, TermIndex(terms), d) <==> rests != [] && forall i :: 0 <= i < |rests| ==> d in rests[i]
  }

  /** Or keeps the children that have documents at all. */
  ghost predicate ReadSome(cs: seq<Reader>, nodes: seq<EvalNode>, n: nat, terms: seq<Term>)
    requires n <= |nodes|
    reads AllRepr(cs)
  {
    && Separate(cs)
    && forall d :: Union1(RestsOf(cs), d) <==> exists i :: 0 <= i < n && Matches(nodes[i], TermIndex(terms), d)
  }

  ghost predicate Union1(rests: seq<seq<nat>>, d: nat) { exists i :: 0 <= i < |rests| && d in rests[i] }

  method BuildSome(nodes: seq<EvalNode>, ix: DiskIndex, ghost terms: seq<Term>) returns (cs: seq<Reader>)
    requires GoodIndex(ix, terms)
    ensures fresh(AllRepr(cs)) && ReadSome(cs, MeaningAll(nodes, ix, terms), |nodes|, terms)
    decreases SizeAll(nodes), 4
  {
    hide GoodIndex, ReadSome, Lowered, LoweredAll, Reader.JustBuilt;
    ghost var all := MeaningAll(nodes, ix, terms);
    cs := [];
    NoReaders(all, terms);
    for i := 0 to |nodes|
      invariant fresh(AllRepr(cs)) && ReadSome(cs, all, i, terms)
    {
      SizeAt(nodes, i);
      LoweredAt(nodes, ix.mode, ix.docCount, terms, i);
      var c := BuildIndexReader(nodes[i], ix, terms);
      OneMore(cs, c, all, i, terms);
      if !c.IsEnd() { cs := cs + [c]; }
    }
  }

  method BuildOr(node: EvalNode, ix: DiskIndex, ghost terms: seq<Term>) returns (r: Reader)
    requires GoodIndex(ix, terms) && node.Or?
    ensures fresh(r.Repr) && Reads(r, Meaning(node, ix, terms), terms)
    decreases Size(node), 2
  {
    hide GoodIndex, Reader.Valid, Reader.Shape, Reader.JustBuilt;
    var cs := BuildSome(node.children, ix, terms);
    ghost var means := Meaning(node, ix, terms);
    OrMeans(cs, means, terms);
    ghost var rests := RestsOf(cs);
    if |cs| == 0 {
      r := OpenEmpty(ix, terms);
    } else if |cs| == 1 {
      OneReader(cs);
      r := cs[0];
    } else {
      r := OrOver(cs);
    }
    assert DocSets.Union(rests, r.rest);
  }

  method OrOver(cs: seq<Reader>) returns (r: Reader)
    requires Separate(cs)
    modifies AllRepr(cs)
    ensures fresh(r) && Built(r) && r.Repr == {r} + AllRepr(cs)
    ensures DocSets.Union(old(RestsOf(cs)), r.rest)
  {
    r := new Reader.OrOf(cs);
  }

  lemma {:induction false} OrMeans(cs: seq<Reader>, node: EvalNode, terms: seq<Term>)
    requires node.Or? && ReadSome(cs, node.children, |node.children|, terms)
    ensures forall d :: Matches(node, TermIndex(terms), d) <==> Union1(RestsOf(cs), d)
  {
  }

  lemma {:induction false} OneMore(cs: seq<Reader>, c: Reader, nodes: seq<EvalNode>, i: nat, terms: seq<Term>)
    requires i < |nodes| && ReadSome(cs, nodes, i, terms) && Reads(c, nodes[i], terms) && AllRepr(cs) !! c.Repr
    ensures ReadSome(cs + [c], nodes, i + 1, terms) && AllRepr(cs + [c]) == AllRepr(cs) + c.Repr
    ensures c.rest == [] ==> ReadSome(cs, nodes, i + 1, terms)
  {
    AppendSeparate(cs, c);
    var rests, more := RestsOf(cs), RestsOf(cs + [c]);
    assert more == rests + [c.rest];
    forall d ensures Union1(more, d) <==> Union1(rests, d) || d in c.rest {
      if Union1(rests, d) { var k :| 0 <= k < |rests| && d in rests[k]; assert d in more[k]; }
      if d in c.rest { assert more[|rests|] == c.rest; }
    }
  }

  // ---------------------------------------------------------------- weak-and

  /** The estimate of a node's document frequency, by lookups in the index. */
  method EstimateDocFreq(node: EvalNode, ix: DiskIndex, ghost terms: seq<Term>) returns (docFreq: nat)
    requires GoodIndex(ix, terms)
    ensures docFreq == DocFreq(node, terms)
    decreases node, 0
  {
    match node
    case Term(key, _) => docFreq := LookupDocFreq(ix.table, ix.pages, key, terms);
    case Or(cs) =>
      var total := 0;
      for i := 0 to |cs|
        invariant total == DocFreqs(cs[..i], terms)
      {
        var more := EstimateDocFreq(cs[i], ix, terms);
        total := total + more;
        assert cs[..i + 1][..i] == cs[..i];
      }
      assert cs[..|cs|] == cs;
      docFreq := if total < U32 then total else U32 - 1;
    case _ => docFreq := 0;
  }

  method FlattenWeakAndNodes(nodes: seq<EvalNode>, ix: DiskIndex, allowHighDf: bool, ghost terms: seq<Term>)
    returns (output: seq<EvalNode>)
    requires GoodIndex(ix, terms)
    ensures output == FlatNodes(nodes, ix.docCount, allowHighDf, terms)
    decreases nodes, 1
  {
    output := [];
    for i := 0 to |nodes|
      invariant output == FlatNodes(nodes[..i], ix.docCount, allowHighDf, terms)
    {
      var node := nodes[i];
      assert nodes[..i + 1][..i] == nodes[..i];
      if node.Or? {
        var more := FlattenWeakAndNodes(node.children, ix, allowHighDf, terms);
        output := output + more;
      } else {
        var docFreq := EstimateDocFreq(node, ix, terms);
        if allowHighDf || !HighDf(docFreq, ix.docCount) { output := output + [node]; }
      }
    }
    assert nodes[..|nodes|] == nodes;
  }

  /** The readers a weak-and counts, by mode. */
  method BuildCounted(node: EvalNode, ix: DiskIndex, ghost terms: seq<Term>) returns (cs: seq<Reader>)
    requires GoodIndex(ix, terms) && node.WeakAnd?
    ensures fresh(AllRepr(cs)) && ReadEach(cs, Counted(node.children, ix.mode, ix.docCount, terms), terms)
    decreases Size(node), 1
  {
    match ix.mode
    case OrChildren => cs := BuildChildren(node.children, ix, terms);
    case OrChildrenPruned => cs := BuildAlive(node.children, ix, terms);
    case FlatPruned =>
      FlatNodesSize(node.children, ix.docCount, false, terms);
      FlatNodesSize(node.children, ix.docCount, true, terms);
      var nodes := FlattenWeakAndNodes(node.children, ix, false, terms);
      cs := BuildAlive(nodes, ix, terms);
      if |cs| == 0 {
        nodes := FlattenWeakAndNodes(node.children, ix, true, terms);
        cs := BuildAlive(nodes, ix, terms);
      }
  }

  method BuildWeakAnd(node: EvalNode, ix: DiskIndex, ghost terms: seq<Term>) returns (r: Reader)
    requires GoodIndex(ix, terms) && node.WeakAnd?
    ensures fresh(r.Repr) && Reads(r, Meaning(node, ix, terms), terms)
    decreases Size(node), 2
  {
    hide GoodIndex, Reads, Separate, ReadsOne, LoweredAll, Counted;
    var cs := BuildCounted(node, ix, terms);
    var m := if ix.mode.FlatPruned? then MinShouldMatch(|cs|) else AtMost(node.minShouldMatch, |cs|);
    ghost var low := LoweredWeakAnd(node.children, node.minShouldMatch, ix.mode, ix.docCount, terms);
    r := BuildOverCounted(cs, m, ix, low, terms);
  }

  method BuildOverCounted(cs: seq<Reader>, m: nat, ix: DiskIndex, ghost low: EvalNode, ghost terms: seq<Term>)
    returns (r: Reader)
    requires GoodIndex(ix, terms) && low.WeakAnd? && ReadEach(cs, low.children, terms)
    requires m == low.minShouldMatch && (|cs| <= 1 ==> m <= 1)
    modifies AllRepr(cs)
    ensures fresh(r.Repr - AllRepr(cs)) && Reads(r, low, terms)
  {
    hide GoodIndex, Reader.Valid, Reader.Shape, Reader.JustBuilt;
    CountsAgree(cs, low, terms);
    ghost var rests := RestsOf(cs);
    if |cs| == 0 {
      NoneCounted(m);
      r := OpenEmpty(ix, terms);
    } else if |cs| == 1 {
      OneReader(cs);
      r := cs[0];
    } else {
      r := WeakAndOver(cs, m);
    }
    assert Enough(rests, m, r.rest);
  }

  /** The documents that m, but at least one, of the children have. */
  ghost predicate Enough(rests: seq<seq<nat>>, m: nat, r: seq<nat>) {
    forall d :: d in r <==> Count(rests, d) >= if m == 0 then 1 else m
  }

  lemma {:induction false} NoneCounted(m: nat)
    ensures Enough([], m, [])
  {
  }

  method WeakAndOver(cs: seq<Reader>, m: nat) returns (r: Reader)
    requires Separate(cs)
    modifies AllRepr(cs)
    ensures fresh(r) && Built(r) && r.Repr == {r} + AllRepr(cs)
    ensures Enough(old(RestsOf(cs)), m, r.rest)
  {
    r := new Reader.WeakAndOf(cs, m);
  }

  lemma {:induction false} CountsAgree(cs: seq<Reader>, node: EvalNode, terms: seq<Term>)
    requires node.WeakAnd? && ReadAll(cs, node.children, |node.children|, terms)
    ensures forall d :: Count(RestsOf(cs), d) == MatchCount(node, |cs|, TermIndex(terms), d)
  {
    forall d ensures Count(RestsOf(cs), d) == MatchCount(node, |cs|, TermIndex(terms), d) {
      CountPrefix(cs, node, terms, |cs|, d);
      assert RestsOf(cs)[..|cs|] == RestsOf(cs);
    }
  }

  lemma {:induction false} CountPrefix(cs: seq<Reader>, node: EvalNode, terms: seq<Term>, n: nat, d: nat)
    requires node.WeakAnd? && n <= |cs| && ReadAll(cs, node.children, |node.children|, terms)
    ensures Count(RestsOf(cs)[..n], d) == MatchCount(node, n, TermIndex(terms), d)
  {
    if n > 0 {
      var prefix := RestsOf(cs)[..n];
      CountPrefix(cs, node, terms, n - 1, d);
      CountLast(prefix, d);
      assert prefix[..n - 1] == RestsOf(cs)[..n - 1];
      assert ReadsOne(cs[n - 1], node.children[n - 1], terms);
    }
  }
}
