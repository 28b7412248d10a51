/** Built indexes are inputs of the merge, and merged indexes read back as the union. */
module MergeRead {
  import opened Options
  import opened Bytes
  import opened Postings
  import opened Layout
  import opened TermTable
  import opened PostingReader
  import opened PostingStore
  import opened IndexBuilder
  import opened MergeSpec
  import opened Merge
  import opened MergeLoop

  // ---------------------------------------------------------------- what a build delivers

  /** The terms of a built index, in table order. */
  function TermsOf(es: seq<Entry>, store: Lists, tf8: nat -> Byte): seq<Term>
    requires forall i :: 0 <= i < |es| ==> es[i].key in store
  {
    seq(|es|, i requires 0 <= i < |es| => Term(es[i].key, |store[es[i].key]|, Quantise(store[es[i].key], tf8)))
  }

  /** The merge's hypotheses on a store: ids in [lo, hi), stored frequency bytes below 0x80. */
  ghost predicate MergeableStore(store: Lists, tf8: nat -> Byte, lo: nat, hi: nat) {
    && GoodStore(store)
    && forall key :: key in store ==> |store[key]| < U32 && IdsWithin(store[key], lo, hi) && TfsBelow(store[key], tf8)
  }

  ghost predicate IdsWithin(es: seq<IndexEntry>, lo: nat, hi: nat) {
    forall i :: 0 <= i < |es| ==> lo <= es[i].doc < hi
  }

  /** The frequencies of a list are quantised below 0x80. */
  ghost predicate TfsBelow(es: seq<IndexEntry>, tf8: nat -> Byte) {
    forall i :: 0 <= i < |es| ==> tf8(es[i].tf) < 0x80
  }

  lemma {:induction false} QuantiseGood(es: seq<IndexEntry>, tf8: nat -> Byte, lo: nat, hi: nat)
    requires IdsWithin(es, lo, hi) && TfsBelow(es, tf8)
    ensures LowTf(Quantise(es, tf8))
    ensures forall i :: 0 <= i < |es| ==> lo <= Quantise(es, tf8)[i].doc < hi
  {
    if es != [] { QuantiseGood(es[1..], tf8, lo, hi); }
  }

  /** Terms of the store, with their whole lists. */
  ghost predicate AreOf(terms: seq<Term>, store: Lists, tf8: nat -> Byte) {
    forall t :: t in terms ==> Indexable(store, t.key) && t == Term(t.key, |store[t.key]|, Quantise(store[t.key], tf8))
  }

  /** A finished build whose record fields are wide enough is an index of the store's terms. */
  lemma {:induction false} BuiltIsIndex(b: Built, groups: seq<seq<Entry>>, store: Lists, tf8: nat -> Byte, cap: nat)
    returns (terms: seq<Term>)
    requires IsIndexOf(b, groups, store, tf8, cap) && GoodStore(store) && AllFit(Entries(groups))
    ensures Indexes(b.table, b.pages, terms) && SortedTerms(terms) && AscendingTerms(terms)
    ensures forall key :: Indexable(store, key) <==> Lookup(terms, key).Some?
    ensures forall key :: Indexable(store, key) ==> Lookup(terms, key).value.ps == Quantise(store[key], tf8)
    ensures AreOf(terms, store, tf8)
  {
    var es := Entries(groups);
    forall i | 0 <= i < |es| ensures EntryServes(b.pages, es[i], store, tf8, cap) {
      assert EntryServes(b.pages, es[i], store, tf8, cap);
    }
    terms := TermsOf(es, store, tf8);
    forall i | 0 <= i < |es| ensures Represents(b.pages, es[i], terms[i]) && Ascending(terms[i].ps) {
      assert EntryServes(b.pages, es[i], store, tf8, cap);
      QuantiseAscending(store[es[i].key], tf8);
    }
    TermsFound(es, store, tf8);
    assert IsIndex(b.table, b.pages, groups, terms);
    IndexSorted(b.table, b.pages, groups, terms);
  }

  lemma {:induction false} TermsFound(es: seq<Entry>, store: Lists, tf8: nat -> Byte)
    requires forall i :: 0 <= i < |es| ==> es[i].key in store
    requires forall key :: Indexable(store, key) <==> exists e :: e in es && e.key == key
    ensures var terms := TermsOf(es, store, tf8);
            forall key :: (Indexable(store, key) <==> Lookup(terms, key).Some?)
                          && (Indexable(store, key) ==> Lookup(terms, key).value.ps == Quantise(store[key], tf8))
  {
    var terms := TermsOf(es, store, tf8);
    forall key
      ensures Indexable(store, key) <==> Lookup(terms, key).Some?
      ensures Indexable(store, key) ==> Lookup(terms, key).value.ps == Quantise(store[key], tf8)
    {
      LookupIs(terms, key);
      if Indexable(store, key) {
        var i :| 0 <= i < |es| && es[i].key == key;
        assert terms[i].key == key;
      }
    }
  }

  /** And of terms the merge can take, if the store has such. */
  lemma {:induction false} BuiltIsMergeable(terms: seq<Term>, store: Lists, tf8: nat -> Byte, lo: nat, hi: nat)
    requires MergeableStore(store, tf8, lo, hi)
    requires AreOf(terms, store, tf8)
    ensures GoodTerms(terms, lo, hi)
  {
    forall i | 0 <= i < |terms| ensures GoodTerm(terms[i], lo, hi) {
      assert terms[i] in terms;
      QuantiseAscending(store[terms[i].key], tf8);
      QuantiseGood(store[terms[i].key], tf8, lo, hi);
    }
  }

  lemma {:induction false} LookupIs(ts: seq<Term>, key: Key)
    ensures Lookup(ts, key).Some? ==> Lookup(ts, key).value in ts && Lookup(ts, key).value.key == key
    ensures Lookup(ts, key).None? ==> forall i :: 0 <= i < |ts| ==> ts[i].key != key
  {
    if ts != [] && ts[0].key != key { LookupIs(ts[1..], key); }
  }

  // ---------------------------------------------------------------- reading an index

  function PostingsOf(t: Option<Term>): seq<Posting> {
    if t.None? then [] else t.value.ps
  }

  lemma {:induction false} EntryFound(pages: seq<Page>, es: seq<Entry>, i: nat, t: Term)
    requires Sorted(es) && i < |es| && Fits(es[i].loc) && Represents(pages, es[i], t)
    ensures Find(es, t.key) == Some(es[i].loc) && Located(pages, es[i].loc, t.ps) && es[i].loc.docFreq == t.df
  {
    FindAt(es, i);
  }

  /** The table's answer to a lookup locates the term's postings. */
  lemma {:induction false} IndexFind(pages: seq<Page>, es: seq<Entry>, ts: seq<Term>, key: Key)
    requires Sorted(es) && AllFit(es) && RepresentsAll(pages, es, ts) && AscendingTerms(ts)
    ensures Find(es, key).None? <==> Lookup(ts, key).None?
    ensures Find(es, key).Some? ==> Located(pages, Find(es, key).value, PostingsOf(Lookup(ts, key)))
    ensures Find(es, key).Some? ==> Find(es, key).value.docFreq == Lookup(ts, key).value.df
    ensures Ascending(PostingsOf(Lookup(ts, key)))
  {
    LookupIs(ts, key);
    if Lookup(ts, key).Some? {
      var t := Lookup(ts, key).value;
      var i :| 0 <= i < |ts| && ts[i] == t;
      assert Represents(pages, es[i], t) && Fits(es[i].loc);
      EntryFound(pages, es, i, t);
    } else {
      forall i | 0 <= i < |es| ensures es[i].key != key { assert Represents(pages, es[i], ts[i]); }
      FindNone(es, key);
    }
  }

  /** Looking a key up in any index and draining the reader yields the key's postings. */
  method OpenIndexed(table: Table, pages: seq<Page>, key: Key, ghost terms: seq<Term>)
    returns (reader: AdvancedIndexReader)
    requires Indexes(table, pages, terms) && AscendingTerms(terms)
    ensures fresh(reader) && fresh(reader.decoder) && reader.Settled()
    ensures reader.Remaining() == PostingsOf(Lookup(terms, key))
  {
    ghost var groups :| IsIndex(table, pages, groups, terms);
    var location := FindTermData(table, key, groups);
    IndexFind(pages, Entries(groups), terms, key);
    ghost var ps, segs := PostingsOf(Lookup(terms, key)), [];
    if location.Some? { segs :| Holds(pages, location.value, segs) && Flatten(segs) == ps; }
    reader := new AdvancedIndexReader.Open(pages, location, segs);
  }

  /** The document frequency the index records for a key. */
  method LookupDocFreq(table: Table, pages: seq<Page>, key: Key, ghost terms: seq<Term>) returns (docFreq: nat)
    requires Indexes(table, pages, terms) && AscendingTerms(terms)
    ensures docFreq == if Lookup(terms, key).Some? then Lookup(terms, key).value.df else 0
  {
    ghost var groups :| IsIndex(table, pages, groups, terms);
    var location := FindTermData(table, key, groups);
    IndexFind(pages, Entries(groups), terms, key);
    docFreq := if location.Some? then location.value.docFreq else 0;
  }

  /** A merged index reads every key back as its base postings, then its delta postings. */
  method OpenMerged(table: Table, pages: seq<Page>, key: Key,
                    ghost a: seq<Term>, ghost b: seq<Term>, ghost split: nat) returns (reader: AdvancedIndexReader)
    requires SortedTerms(a) && SortedTerms(b)
    requires GoodTerms(a, 0, split) && GoodTerms(b, split, U64) && split <= U64
    requires Indexes(table, pages, MergeTerms(a, b))
    ensures fresh(reader) && fresh(reader.decoder) && reader.Settled()
    ensures reader.Remaining() == PostingsOf(Lookup(a, key)) + PostingsOf(Lookup(b, key))
  {
    MergeIsGood(a, b, split, U64);
    MergeIsSortedUnion(a, b, key);
    reader := OpenIndexed(table, pages, key, MergeTerms(a, b));
    assert PostingsOf(Lookup(a, key)) + [] == PostingsOf(Lookup(a, key));
    assert [] + PostingsOf(Lookup(b, key)) == PostingsOf(Lookup(b, key));
  }
}
