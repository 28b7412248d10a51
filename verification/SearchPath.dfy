/** The whole path, from written documents to the documents a query finds: writer, store,
    pages, term table, merge, posting readers, reader tree. */
module SearchPath {
  import opened Options
  import opened Bytes
  import opened Postings
  import opened TermTable
  import opened PostingStore
  import opened IndexBuilder
  import opened MergeSpec
  import opened Merge
  import opened MergeRead
  import opened DocSets
  import opened Readers
  import opened StreamIndex
  import opened QueryCompiler
  import opened BigramArm
  import opened QueryParser
  import opened TreePruning
  import opened TreeLowering

  /** The index finds under each key what the history of writes put there. */
  ghost predicate Says(terms: seq<Term>, h: seq<WriteOp>) {
    forall key, doc :: TermIndex(terms)(key, doc) <==> IndexOf(h)(key, doc)
  }

  /** Written document ids lie in [lo, hi). */
  ghost predicate Numbered(h: seq<WriteOp>, lo: nat, hi: nat) {
    forall k :: 0 <= k < |h| ==> lo <= h[k].doc < hi
  }

  // ---------------------------------------------------------------- building

  /** The lists a writer leaves in its store can be built from. */
  lemma {:induction false} WrittenIsGood(lists: Lists, h: seq<WriteOp>, lo: nat, hi: nat)
    requires SortedLists(lists) && Records(lists, h) && Numbered(h, lo, hi) && hi <= U64
    ensures GoodStore(lists) && forall key :: key in lists ==> IdsWithin(lists[key], lo, hi)
  {
    forall key | key in lists ensures IdsWithin(lists[key], lo, hi) && InRange(lists[key]) {
      forall i | 0 <= i < |lists[key]| ensures lo <= lists[key][i].doc < hi {
        var e := lists[key][i];
        assert Entered(lists, key, e.doc, e.tf);
        assert Has(h, key, e.doc);
      }
    }
  }

  lemma {:induction false} QuantisedDocs(es: seq<IndexEntry>, tf8: nat -> Byte, doc: nat)
    ensures doc in DocsOf(Quantise(es, tf8)) <==> exists tf :: IndexEntry(doc, tf) in es
  {
    if es != [] {
      QuantisedDocs(es[1..], tf8, doc);
      assert es == [es[0]] + es[1..];
      if es[0].doc == doc { assert IndexEntry(doc, es[0].tf) in es; }
    }
  }

  /** What was written is what the built index says. */
  lemma {:induction false} BuiltSays(terms: seq<Term>, lists: Lists, tf8: nat -> Byte, h: seq<WriteOp>)
    requires Records(lists, h)
    requires forall key :: Indexable(lists, key) <==> Lookup(terms, key).Some?
    requires forall key :: Indexable(lists, key) ==> Lookup(terms, key).value.ps == Quantise(lists[key], tf8)
    ensures Says(terms, h) && Lookup(terms, []) == None
  {
    forall key, doc ensures TermIndex(terms)(key, doc) <==> IndexOf(h)(key, doc) {
      KeySays(lists, tf8, key, doc);
      assert HasDoc(lists, key, doc) <==> Has(h, key, doc);
    }
    if Indexable(lists, []) {
      var e := lists[[]][0];
      assert Entered(lists, [], e.doc, e.tf);
      assert HasDoc(lists, [], e.doc);
    }
  }

  lemma {:induction false} KeySays(lists: Lists, tf8: nat -> Byte, key: Key, doc: nat)
    ensures |key| <= KEY_MAX && HasDoc(lists, key, doc)
            <==> Indexable(lists, key) && doc in DocsOf(Quantise(lists[key], tf8))
  {
    QuantisedDocs(ListOf(lists, key), tf8, doc);
    if HasDoc(lists, key, doc) { var tf :| Entered(lists, key, doc, tf); }
    if key in lists && doc in DocsOf(Quantise(lists[key], tf8)) {
      var tf :| IndexEntry(doc, tf) in lists[key];
      assert Entered(lists, key, doc, tf);
    }
  }

  /** Write, then build: an index that says exactly what was written. */
  lemma {:induction false} BuiltIndexSays(b: Built, groups: seq<seq<Entry>>, lists: Lists, h: seq<WriteOp>,
                                          tf8: nat -> Byte, cap: nat, lo: nat, hi: nat) returns (terms: seq<Term>)
    requires SortedLists(lists) && Records(lists, h) && Numbered(h, lo, hi) && hi <= NO_MORE_DOCS
    requires IsIndexOf(b, groups, lists, tf8, cap) && AllFit(Entries(groups))
    ensures Indexes(b.table, b.pages, terms) && SortedTerms(terms) && ReadableTerms(terms)
    ensures Says(terms, h) && Lookup(terms, []) == None
    ensures AreOf(terms, lists, tf8)
  {
    hide Indexes, IsIndexOf, SortedTerms, Records, AllFit;
    WrittenIsGood(lists, h, lo, hi);
    terms := BuiltIsIndex(b, groups, lists, tf8, cap);
    forall i | 0 <= i < |terms| ensures Readable(terms[i].ps) {
      assert terms[i] in terms;
      QuantisedWithin(lists[terms[i].key], tf8, lo, hi);
    }
    BuiltSays(terms, lists, tf8, h);
  }

  lemma {:induction false} QuantisedWithin(es: seq<IndexEntry>, tf8: nat -> Byte, lo: nat, hi: nat)
    requires IdsWithin(es, lo, hi)
    ensures forall i :: 0 <= i < |es| ==> lo <= Quantise(es, tf8)[i].doc < hi
  {
    if es != [] { QuantisedWithin(es[1..], tf8, lo, hi); }
  }

  // ---------------------------------------------------------------- merging

  lemma {:induction false} DocsOfConcat(a: seq<Posting>, b: seq<Posting>)
    ensures DocsOf(a + b) == DocsOf(a) + DocsOf(b)
  {
    if a == [] {
      assert a + b == b;
    } else {
      assert (a + b)[1..] == a[1..] + b;
      DocsOfConcat(a[1..], b);
    }
  }

  lemma {:induction false} HasConcat(h: seq<WriteOp>, g: seq<WriteOp>, key: Key, doc: nat)
    ensures Has(h + g, key, doc) <==> Has(h, key, doc) || Has(g, key, doc)
  {
    var all := h + g;
    if k :| 0 <= k < |h| && h[k].doc == doc && Writes(h[k], key) { assert all[k] == h[k]; }
    if k :| 0 <= k < |g| && g[k].doc == doc && Writes(g[k], key) { assert all[|h| + k] == g[k]; }
    if k :| 0 <= k < |all| && all[k].doc == doc && Writes(all[k], key) {
      assert if k < |h| then all[k] == h[k] else all[k] == g[k - |h|];
    }
  }

  /** A merged index says what the two histories, one after the other, would leave. */
  lemma {:induction false} MergedSays(a: seq<Term>, b: seq<Term>, h: seq<WriteOp>, g: seq<WriteOp>, split: nat, hi: nat)
    requires SortedTerms(a) && SortedTerms(b) && Says(a, h) && Says(b, g)
    requires GoodTerms(a, 0, split) && GoodTerms(b, split, hi) && split <= hi <= NO_MORE_DOCS
    requires Lookup(a, []) == Lookup(b, []) == None
    ensures Says(MergeTerms(a, b), h + g) && SortedTerms(MergeTerms(a, b)) && GoodTerms(MergeTerms(a, b), 0, hi)
    ensures ReadableTerms(MergeTerms(a, b)) && Lookup(MergeTerms(a, b), []) == None
  {
    var m := MergeTerms(a, b);
    MergeIsGood(a, b, split, hi);
    MergeIsSortedUnion(a, b, []);
    forall i | 0 <= i < |m| ensures Readable(m[i].ps) { assert GoodTerm(m[i], 0, hi); }
    forall key, doc ensures TermIndex(m)(key, doc) <==> IndexOf(h + g)(key, doc) {
      MergeIsSortedUnion(a, b, key);
      HasConcat(h, g, key, doc);
      DocsOfConcat(PostingsOf(Lookup(a, key)), PostingsOf(Lookup(b, key)));
      assert TermIndex(a)(key, doc) <==> IndexOf(h)(key, doc);
      assert TermIndex(b)(key, doc) <==> IndexOf(g)(key, doc);
    }
  }

  // ---------------------------------------------------------------- searching

  /** A tree means the same over indexes that say the same. */
  lemma {:induction false} SameMeaning(node: EvalNode, i: Index, j: Index, doc: nat)
    requires forall key :: i(key, doc) <==> j(key, doc)
    ensures Matches(node, i, doc) <==> Matches(node, j, doc)
    decreases node, 0
  {
    match node
    case Term(_, _) =>
    case And(cs) =>
      forall k | 0 <= k < |cs| ensures Matches(cs[k], i, doc) <==> Matches(cs[k], j, doc) {
        SameMeaning(cs[k], i, j, doc);
      }
    case Or(cs) =>
      forall k | 0 <= k < |cs| ensures Matches(cs[k], i, doc) <==> Matches(cs[k], j, doc) {
        SameMeaning(cs[k], i, j, doc);
      }
    case Not(base, exclude) =>
      SameMeaning(base, i, j, doc);
      SameMeaning(exclude, i, j, doc);
    case WeakAnd(cs, _) => SameCount(node, |cs|, i, j, doc);
    case Boost(base, _, _) => SameMeaning(base, i, j, doc);
  }

  lemma {:induction false} SameCount(node: EvalNode, n: nat, i: Index, j: Index, doc: nat)
    requires node.WeakAnd? && n <= |node.children| && forall key :: i(key, doc) <==> j(key, doc)
    ensures MatchCount(node, n, i, doc) == MatchCount(node, n, j, doc)
    decreases node, 0, n
  {
    if n > 0 {
      SameCount(node, n - 1, i, j, doc);
      SameMeaning(node.children[n - 1], i, j, doc);
    }
  }

  /** Lower a tree over an index that says what was written, in any build mode: the reader
      finds exactly the written documents of the tree the mode makes of it -- of the tree
      itself, if the mode leaves it as it is. */
  method Search(ix: DiskIndex, node: EvalNode, ghost terms: seq<Term>, ghost h: seq<WriteOp>) returns (r: Reader)
    requires GoodIndex(ix, terms) && Says(terms, h)
    ensures fresh(r.Repr) && TreeLowering.Built(r)
    ensures forall d :: d in r.rest <==> Matches(Meaning(node, ix, terms), IndexOf(h), d)
    ensures Exact(node, ix.mode) ==> forall d :: d in r.rest <==> Matches(node, IndexOf(h), d)
  {
    r := BuildIndexReader(node, ix, terms);
    ghost var lowered := Meaning(node, ix, terms);
    forall d ensures Matches(lowered, TermIndex(terms), d) <==> Matches(lowered, IndexOf(h), d) {
      SameMeaning(lowered, TermIndex(terms), IndexOf(h), d);
    }
    if Exact(node, ix.mode) { ExactIsItself(node, ix.mode, ix.docCount, terms); }
  }

  /** A mode leaves compiled queries as they are. */
  predicate ExactFor(ix: DiskIndex, mode: Mode) { ix.mode.OrChildren? || mode.Default? }

  /** A whole query: the reader finds exactly the written documents of the tree the build
      mode makes of it, and none at all for a query without a tree. When weak-and children
      are read as they are, or in default mode under any build mode, that is the query. */
  method Answer(ix: DiskIndex, items: seq<Item>, mode: Mode, weight: int, ghost terms: seq<Term>, ghost h: seq<WriteOp>)
    returns (r: Reader)
    requires GoodIndex(ix, terms) && Says(terms, h)
    ensures fresh(r.Repr) && TreeLowering.Built(r)
    ensures var node := Compiled(items, mode, true, weight);
            if node.None? then r.rest == []
            else forall d :: d in r.rest <==> Matches(Meaning(node.value, ix, terms), IndexOf(h), d)
    ensures ExactFor(ix, mode) ==>
      forall d :: d in r.rest <==> MatchesAny(Compiled(items, mode, true, weight), IndexOf(h), d)
  {
    CompiledIsSane(items, mode, true, weight);
    if mode.Default? { CompiledIsPlain(items, true, weight); }
    var node := ParseExpression(items, mode, true, weight);
    if node.None? {
      r := OpenEmpty(ix, terms);
    } else {
      r := Search(ix, node.value, terms, h);
    }
  }

  /** A base index and a delta index, not yet merged: a disjunction of the two answers. */
  method AnswerWithDelta(base: DiskIndex, delta: DiskIndex, items: seq<Item>, mode: Mode, weight: int,
                         ghost a: seq<Term>, ghost b: seq<Term>, ghost h: seq<WriteOp>, ghost g: seq<WriteOp>)
    returns (r: Reader)
    requires GoodIndex(base, a) && Says(a, h) && GoodIndex(delta, b) && Says(b, g)
    requires ExactFor(base, mode) && ExactFor(delta, mode)
    ensures fresh(r.Repr) && TreeLowering.Built(r)
    ensures var node := Compiled(items, mode, true, weight);
            forall d :: d in r.rest <==> MatchesAny(node, IndexOf(h), d) || MatchesAny(node, IndexOf(g), d)
  {
    hide GoodIndex, Says, Compiled, MatchesAny, ExactFor, Reader.Valid, Reader.Shape;
    var x := Answer(base, items, mode, weight, a, h);
    var y := Answer(delta, items, mode, weight, b, g);
    r := OrOver(x, y);
  }

  method OrOver(x: Reader, y: Reader) returns (r: Reader)
    requires TreeLowering.Built(x) && TreeLowering.Built(y) && x.Repr !! y.Repr
    modifies x.Repr, y.Repr
    ensures fresh(r) && TreeLowering.Built(r) && r.Repr == {r} + x.Repr + y.Repr
    ensures forall d :: d in r.rest <==> d in old(x.rest) || d in old(y.rest)
  {
    hide Reader.Valid, Reader.Shape;
    PairSeparate(x, y);
    ghost var rests := RestsOf([x, y]);
    assert rests == [x.rest, y.rest];
    r := new Reader.OrOf([x, y]);
    assert forall d :: (exists i :: 0 <= i < |rests| && d in rests[i]) <==> d in rests[0] || d in rests[1];
  }
}
