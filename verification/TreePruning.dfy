/** What the build modes make of a query tree: which children of a weak-and are read, and how
    many matches are asked of them. */
module TreePruning {
  import opened TermTable
  import opened MergeSpec
  import opened MergeRead
  import opened DocSets
  import opened QueryCompiler

  /** Weak-and children as they are; those that have documents; or those under nested
      disjunctions, without terms of high document frequency. */
  datatype BuildMode = OrChildren | OrChildrenPruned | FlatPruned

  /** The documents of an index, by key. */
  ghost function TermIndex(terms: seq<Term>): Index {
    (key: Key, doc: nat) => doc in DocsOf(PostingsOf(Lookup(terms, key)))
  }

  // ---------------------------------------------------------------- sizes

  function Size(node: EvalNode): (n: nat)
    ensures n > 0
    decreases node, 0
  {
    match node
    case Term(_, _) => 1
    case And(cs) => 1 + SizeAll(cs)
    case Or(cs) => 1 + SizeAll(cs)
    case WeakAnd(cs, _) => 1 + SizeAll(cs)
    case Not(base, exclude) => 1 + Size(base) + Size(exclude)
    case Boost(base, boost, _) => 1 + Size(base) + Size(boost)
  }

  function SizeAll(nodes: seq<EvalNode>): nat
    decreases nodes, 1
  {
    if nodes == [] then 0 else SizeAll(nodes[..|nodes| - 1]) + Size(nodes[|nodes| - 1])
  }

  lemma {:induction false} SizeAt(nodes: seq<EvalNode>, i: nat)
    requires i < |nodes|
    ensures Size(nodes[i]) <= SizeAll(nodes)
  {
    if i < |nodes| - 1 { SizeAt(nodes[..|nodes| - 1], i); }
  }

  lemma {:induction false} SizeConcat(a: seq<EvalNode>, b: seq<EvalNode>)
    ensures SizeAll(a + b) == SizeAll(a) + SizeAll(b)
  {
    if b == [] {
      assert a + b == a;
    } else {
      var last := |b| - 1;
      assert (a + b)[..|a + b| - 1] == a + b[..last];
      SizeConcat(a, b[..last]);
    }
  }

  // ---------------------------------------------------------------- document frequency

  /** The estimate of a node's document frequency; zero for what is not a term or a
      disjunction. */
  function DocFreq(node: EvalNode, terms: seq<Term>): nat
    decreases node, 0
  {
    match node
    case Term(key, _) => if Lookup(terms, key).Some? then Lookup(terms, key).value.df else 0
    case Or(cs) => if DocFreqs(cs, terms) < U32 then DocFreqs(cs, terms) else U32 - 1
    case _ => 0
  }

  function DocFreqs(nodes: seq<EvalNode>, terms: seq<Term>): nat
    decreases nodes, 1
  {
    if nodes == [] then 0 else DocFreqs(nodes[..|nodes| - 1], terms) + DocFreq(nodes[|nodes| - 1], terms)
  }

  predicate HighDf(docFreq: nat, docCount: nat) {
    docCount > 0 && docFreq > 0 && docFreq > 100000 && docFreq > docCount / 5
  }

  /** The nodes under nested disjunctions, without those of high document frequency. */
  function FlatNodes(nodes: seq<EvalNode>, docCount: nat, allowHighDf: bool, terms: seq<Term>): seq<EvalNode>
    decreases nodes, 1
  {
    if nodes == [] then []
    else
      var node := nodes[|nodes| - 1];
      FlatNodes(nodes[..|nodes| - 1], docCount, allowHighDf, terms)
      + if node.Or? then FlatNodes(node.children, docCount, allowHighDf, terms)
        else if allowHighDf || !HighDf(DocFreq(node, terms), docCount) then [node] else []
  }

  lemma {:induction false} FlatNodesSize(nodes: seq<EvalNode>, docCount: nat, allowHighDf: bool, terms: seq<Term>)
    ensures SizeAll(FlatNodes(nodes, docCount, allowHighDf, terms)) <= SizeAll(nodes)
    decreases nodes, 1
  {
    if nodes != [] {
      var node, before := nodes[|nodes| - 1], nodes[..|nodes| - 1];
      FlatNodesSize(before, docCount, allowHighDf, terms);
      if node.Or? { FlatNodesSize(node.children, docCount, allowHighDf, terms); }
      var kept := if node.Or? then FlatNodes(node.children, docCount, allowHighDf, terms)
                  else if allowHighDf || !HighDf(DocFreq(node, terms), docCount) then [node] else [];
      assert [node][..0] == [] && SizeAll([node]) == Size(node);
      SizeConcat(FlatNodes(before, docCount, allowHighDf, terms), kept);
    }
  }

  // ---------------------------------------------------------------- the lowered tree

  ghost predicate IsAlive(node: EvalNode, terms: seq<Term>) {
    exists d: nat :: Matches(node, TermIndex(terms), d)
  }

  /** The nodes that have documents. */
  ghost function Alive(nodes: seq<EvalNode>, terms: seq<Term>): (r: seq<EvalNode>)
    ensures |r| <= |nodes|
  {
    if nodes == [] then []
    else
      Alive(nodes[..|nodes| - 1], terms)
      + if IsAlive(nodes[|nodes| - 1], terms) then [nodes[|nodes| - 1]] else []
  }

  function AtMost(m: nat, n: nat): nat { if m < n then m else n }

  /** The tree whose documents a build in the mode finds. */
  ghost function Lowered(node: EvalNode, mode: BuildMode, docCount: nat, terms: seq<Term>): (r: EvalNode)
    ensures node.WeakAnd? <==> r.WeakAnd?
    decreases Size(node), 0
  {
    match node
    case Term(_, _) => node
    case And(cs) => And(LoweredAll(cs, mode, docCount, terms))
    case Or(cs) => Or(LoweredAll(cs, mode, docCount, terms))
    case Not(base, exclude) =>
      Not(Lowered(base, mode, docCount, terms), Lowered(exclude, mode, docCount, terms))
    case Boost(base, boost, weight) =>
      Boost(Lowered(base, mode, docCount, terms), Lowered(boost, mode, docCount, terms), weight)
    case WeakAnd(cs, m) => LoweredWeakAnd(cs, m, mode, docCount, terms)
  }

  ghost function LoweredWeakAnd(cs: seq<EvalNode>, m: nat, mode: BuildMode, docCount: nat, terms: seq<Term>)
    : (r: EvalNode)
    ensures r.WeakAnd?
    decreases SizeAll(cs), 2
  {
    var ks := Counted(cs, mode, docCount, terms);
    WeakAnd(ks, if mode.FlatPruned? then MinShouldMatch(|ks|) else AtMost(m, |ks|))
  }

  /** The children that are counted. */
  ghost function Counted(cs: seq<EvalNode>, mode: BuildMode, docCount: nat, terms: seq<Term>): seq<EvalNode>
    decreases SizeAll(cs), 1, 1
  {
    FlatNodesSize(cs, docCount, false, terms);
    FlatNodesSize(cs, docCount, true, terms);
    match mode
    case OrChildren => LoweredAll(cs, mode, docCount, terms)
    case OrChildrenPruned => Alive(LoweredAll(cs, mode, docCount, terms), terms)
    case FlatPruned =>
      var rare := Alive(LoweredAll(FlatNodes(cs, docCount, false, terms), mode, docCount, terms), terms);
      if rare != [] then rare
      else Alive(LoweredAll(FlatNodes(cs, docCount, true, terms), mode, docCount, terms), terms)
  }

  ghost function LoweredAll(nodes: seq<EvalNode>, mode: BuildMode, docCount: nat, terms: seq<Term>): (r: seq<EvalNode>)
    ensures |r| == |nodes|
    decreases SizeAll(nodes), 1, 0
  {
    if nodes == [] then []
    else
      LoweredAll(nodes[..|nodes| - 1], mode, docCount, terms) + [Lowered(nodes[|nodes| - 1], mode, docCount, terms)]
  }

  lemma {:induction false} LoweredAt(nodes: seq<EvalNode>, mode: BuildMode, docCount: nat, terms: seq<Term>, i: nat)
    requires i < |nodes|
    ensures LoweredAll(nodes, mode, docCount, terms)[i] == Lowered(nodes[i], mode, docCount, terms)
  {
    if i < |nodes| - 1 { LoweredAt(nodes[..|nodes| - 1], mode, docCount, terms, i); }
  }

  // ---------------------------------------------------------------- when it is the tree itself

  /** A mode leaves a tree as it is: every mode one without a weak-and, and the mode that
      takes the children as they are one that asks for no more matches than there are children. */
  predicate Exact(node: EvalNode, mode: BuildMode) { Plain(node) || (mode.OrChildren? && Sane(node)) }

  lemma {:induction false} ExactIsItself(node: EvalNode, mode: BuildMode, docCount: nat, terms: seq<Term>)
    requires Exact(node, mode)
    ensures Lowered(node, mode, docCount, terms) == node
    decreases Size(node), 0
  {
    match node
    case Term(_, _) =>
    case And(cs) => AllExact(cs, mode, docCount, terms);
    case Or(cs) => AllExact(cs, mode, docCount, terms);
    case Not(base, exclude) =>
      ExactIsItself(base, mode, docCount, terms);
      ExactIsItself(exclude, mode, docCount, terms);
    case Boost(base, boost, _) =>
      ExactIsItself(base, mode, docCount, terms);
      ExactIsItself(boost, mode, docCount, terms);
    case WeakAnd(cs, m) =>
      AllExact(cs, mode, docCount, terms);
      assert Counted(cs, mode, docCount, terms) == cs;
      assert LoweredWeakAnd(cs, m, mode, docCount, terms) == node;
  }

  lemma {:induction false} AllExact(nodes: seq<EvalNode>, mode: BuildMode, docCount: nat, terms: seq<Term>)
    requires forall i :: 0 <= i < |nodes| ==> Exact(nodes[i], mode)
    ensures LoweredAll(nodes, mode, docCount, terms) == nodes
    decreases SizeAll(nodes), 1
  {
    if nodes != [] {
      AllExact(nodes[..|nodes| - 1], mode, docCount, terms);
      ExactIsItself(nodes[|nodes| - 1], mode, docCount, terms);
    }
  }

  /** A dead child never counts. */
  lemma {:induction false} AliveCounts(node: EvalNode, alive: EvalNode, n: nat, terms: seq<Term>, doc: nat)
    requires node.WeakAnd? && alive.WeakAnd? && n <= |node.children|
    requires alive.children == Alive(node.children[..n], terms)
    ensures MatchCount(alive, |alive.children|, TermIndex(terms), doc) == MatchCount(node, n, TermIndex(terms), doc)
    decreases n
  {
    if n > 0 {
      var cs, before := node.children[..n], WeakAnd(Alive(node.children[..n - 1], terms), 0);
      assert cs[..n - 1] == node.children[..n - 1];
      AliveCounts(node, before, n - 1, terms, doc);
      SamePrefix(before, alive, |before.children|, TermIndex(terms), doc);
      if IsAlive(cs[n - 1], terms) { assert alive.children[|before.children|] == cs[n - 1]; }
    }
  }

  lemma {:induction false} SamePrefix(a: EvalNode, b: EvalNode, n: nat, index: Index, doc: nat)
    requires a.WeakAnd? && b.WeakAnd? && n <= |a.children| && a.children <= b.children
    ensures MatchCount(a, n, index, doc) == MatchCount(b, n, index, doc)
  {
    if n > 0 { SamePrefix(a, b, n - 1, index, doc); }
  }

  ghost predicate SameMatches(a: EvalNode, b: EvalNode, terms: seq<Term>) {
    forall d: nat :: Matches(a, TermIndex(terms), d) <==> Matches(b, TermIndex(terms), d)
  }

  ghost predicate HasAll(node: EvalNode, terms: seq<Term>, d: nat)
    requires node.WeakAnd?
  {
    MatchCount(node, |node.children|, TermIndex(terms), d) == |node.children|
  }

  /** Dropping the dead children of a weak-and, and asking for no more matches than there are
      children left, changes its documents exactly when fewer are left than were asked for
      and some document has all that are left. */
  lemma {:induction false} PrunedIsSameIff(cs: seq<EvalNode>, m: nat, terms: seq<Term>)
    requires m > 0
    ensures var ks, all := Alive(cs, terms), WeakAnd(cs, m);
            var pruned := WeakAnd(ks, AtMost(m, |ks|));
            SameMatches(pruned, all, terms) <==> |ks| >= m || ks == [] || !exists d: nat :: HasAll(pruned, terms, d)
  {
    var ks, all := Alive(cs, terms), WeakAnd(cs, m);
    var pruned := WeakAnd(ks, AtMost(m, |ks|));
    assert cs[..|cs|] == cs;
    forall d
      ensures MatchCount(pruned, |ks|, TermIndex(terms), d) == MatchCount(all, |cs|, TermIndex(terms), d) <= |ks|
    {
      AliveCounts(all, pruned, |cs|, terms, d);
      CountAtMost(pruned, |ks|, TermIndex(terms), d);
    }
    if |ks| < m && ks != [] && exists d: nat :: HasAll(pruned, terms, d) {
      var d: nat :| HasAll(pruned, terms, d);
      assert Matches(pruned, TermIndex(terms), d) && !Matches(all, TermIndex(terms), d);
    } else {
      forall d: nat ensures Matches(pruned, TermIndex(terms), d) <==> Matches(all, TermIndex(terms), d) {
        assert |ks| < m && ks != [] ==> !HasAll(pruned, terms, d);
      }
    }
  }

  lemma {:induction false} CountAtMost(node: EvalNode, n: nat, index: Index, doc: nat)
    requires node.WeakAnd? && n <= |node.children|
    ensures MatchCount(node, n, index, doc) <= n
  {
    if n > 0 { CountAtMost(node, n - 1, index, doc); }
  }
}
