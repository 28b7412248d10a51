/** Writing documents: words and adjacent pairs under stream keys. */
module StreamIndex {
  import opened Bytes
  import opened TermTable
  import opened PostingStore

  /** Words as the bytes of their text. */
  type Word = seq<Byte>

  /** The separator of a pair; no tokenizer produces it. */
  const BIGRAM_SEP: Byte := 0x1F

  datatype WriteOp = WriteOp(words: seq<Word>, doc: nat, stream: Byte)

  function Bigram(a: Word, b: Word): Word { a + [BIGRAM_SEP] + b }

  function StreamKey(term: Word, stream: Byte): Key { term + [stream] }

  /** A pair the index can hold: two words, and a key that is not too long. */
  predicate Storable(a: Word, b: Word) { a != [] && b != [] && |a| + |b| + 2 <= KEY_MAX }

  predicate Clean(w: Word) { BIGRAM_SEP !in w }

  ghost predicate CleanOp(op: WriteOp) { forall i :: 0 <= i < |op.words| ==> Clean(op.words[i]) }

  ghost predicate CleanHistory(h: seq<WriteOp>) { forall k :: 0 <= k < |h| ==> CleanOp(h[k]) }

  // ---------------------------------------------------------------- term counts

  /** Occurrences of a term among the first n words. */
  function WordCount(words: seq<Word>, n: nat, term: Word): nat
    requires n <= |words|
  {
    if n == 0 then 0
    else WordCount(words, n - 1, term) + if words[n - 1] != [] && words[n - 1] == term then 1 else 0
  }

  /** Occurrences of a term among the pairs that end before word n. */
  function PairCount(words: seq<Word>, n: nat, term: Word): nat
    requires n <= |words|
  {
    if n <= 1 then 0
    else PairCount(words, n - 1, term)
         + if words[n - 2] != [] && words[n - 1] != [] && Bigram(words[n - 2], words[n - 1]) == term then 1 else 0
  }

  function TermFreq(words: seq<Word>, term: Word): nat {
    WordCount(words, |words|, term) + PairCount(words, |words|, term)
  }

  function OneMore(termTf: map<Word, nat>, term: Word): map<Word, nat> {
    termTf[term := (if term in termTf then termTf[term] else 0) + 1]
  }

  /** The terms among the first i words and the pairs that end before word n, with their counts. */
  ghost predicate Tallied(words: seq<Word>, i: nat, n: nat, termTf: map<Word, nat>)
    requires i <= |words| && n <= |words|
  {
    forall t :: var count := WordCount(words, i, t) + PairCount(words, n, t);
      (t in termTf <==> count > 0) && (t in termTf ==> termTf[t] == count)
  }

  lemma {:induction false} WordTallied(words: seq<Word>, i: nat, termTf: map<Word, nat>)
    requires i < |words| && Tallied(words, i, 0, termTf)
    ensures Tallied(words, i + 1, 0, if words[i] != [] then OneMore(termTf, words[i]) else termTf)
  {
  }

  lemma {:induction false} PairTallied(words: seq<Word>, n: nat, termTf: map<Word, nat>)
    requires n < |words| && Tallied(words, |words|, n, termTf)
    ensures var counted := n > 0 && words[n - 1] != [] && words[n] != [];
            Tallied(words, |words|, n + 1,
                    if counted then OneMore(termTf, Bigram(words[n - 1], words[n])) else termTf)
  {
    hide Bigram;
  }

  lemma {:induction false} WordOccurs(words: seq<Word>, n: nat, term: Word)
    requires n <= |words|
    ensures WordCount(words, n, term) > 0 <==> term != [] && term in words[..n]
  {
    if n > 0 {
      WordOccurs(words, n - 1, term);
      assert words[..n] == words[..n - 1] + [words[n - 1]];
    }
  }

  ghost predicate PairAt(words: seq<Word>, i: nat, term: Word) {
    i + 1 < |words| && words[i] != [] && words[i + 1] != [] && Bigram(words[i], words[i + 1]) == term
  }

  lemma {:induction false} PairOccurs(words: seq<Word>, n: nat, term: Word)
    requires n <= |words|
    ensures PairCount(words, n, term) > 0 <==> exists i: nat :: i + 1 < n && PairAt(words, i, term)
  {
    if n > 1 {
      PairOccurs(words, n - 1, term);
      if PairCount(words, n, term) > PairCount(words, n - 1, term) { assert PairAt(words, n - 2, term); }
      if i: nat :| i + 1 < n && PairAt(words, i, term) {
        if i + 1 < n - 1 { assert PairCount(words, n - 1, term) > 0; }
      }
    }
  }

  // ---------------------------------------------------------------- what a history leaves

  /** A document is under a key when some write of it on that stream had the term. */
  ghost predicate Has(h: seq<WriteOp>, key: Key, doc: nat) {
    exists k :: 0 <= k < |h| && h[k].doc == doc && Writes(h[k], key)
  }

  ghost predicate Writes(op: WriteOp, key: Key) {
    key != [] && key[|key| - 1] == op.stream && TermFreq(op.words, key[..|key| - 1]) > 0
  }

  /** What a query finds: the index built of a history leaves out keys that are too long. */
  ghost predicate Indexed(h: seq<WriteOp>, key: Key, doc: nat) { |key| <= KEY_MAX && Has(h, key, doc) }

  /** A separator splits a pair in one way only. */
  lemma {:induction false} BigramInjective(a: Word, b: Word, p: Word, q: Word)
    requires Clean(a) && Clean(p) && Bigram(a, b) == Bigram(p, q)
    ensures a == p && b == q
  {
    var x, y := Bigram(a, b), Bigram(p, q);
    assert x[|a|] == BIGRAM_SEP && y[|p|] == BIGRAM_SEP;
    assert forall i :: 0 <= i < |a| ==> x[i] == a[i] && a[i] in a;
    assert forall i :: 0 <= i < |p| ==> y[i] == p[i] && p[i] in p;
    assert |a| == |p|;
    assert a == x[..|a|] && p == y[..|p|];
    assert b == x[|a| + 1..] && q == y[|p| + 1..];
  }

  /** A write that has a pair under a stream has both its words under that stream. */
  lemma {:induction false} PairWritesWords(op: WriteOp, a: Word, b: Word, s: Byte)
    requires CleanOp(op) && Clean(a) && Clean(b) && Writes(op, StreamKey(Bigram(a, b), s))
    ensures a != [] && b != [] && Writes(op, StreamKey(a, s)) && Writes(op, StreamKey(b, s))
  {
    var key, term := StreamKey(Bigram(a, b), s), Bigram(a, b);
    assert key[..|key| - 1] == term;
    WordOccurs(op.words, |op.words|, term);
    PairOccurs(op.words, |op.words|, term);
    assert op.words[..|op.words|] == op.words;
    assert term[|a|] == BIGRAM_SEP;
    var i: nat :| i + 1 < |op.words| && PairAt(op.words, i, term);
    BigramInjective(a, b, op.words[i], op.words[i + 1]);
    WordOccurs(op.words, |op.words|, a);
    WordOccurs(op.words, |op.words|, b);
    assert StreamKey(a, s)[..|a|] == a && StreamKey(b, s)[..|b|] == b;
  }

  /** After any history of writes of clean words, the documents the index has under a pair
      are among those it has under each of its words, on every stream. */
  lemma {:induction false} PairsWithinWords(h: seq<WriteOp>, a: Word, b: Word, s: Byte, doc: nat)
    requires CleanHistory(h) && Clean(a) && Clean(b) && Indexed(h, StreamKey(Bigram(a, b), s), doc)
    ensures Storable(a, b) && Indexed(h, StreamKey(a, s), doc) && Indexed(h, StreamKey(b, s), doc)
  {
    var k :| 0 <= k < |h| && h[k].doc == doc && Writes(h[k], StreamKey(Bigram(a, b), s));
    PairWritesWords(h[k], a, b, s);
  }

  // ---------------------------------------------------------------- the writer

  /** The key belongs to the stream and its term is one of `done`. */
  ghost predicate Of(key: Key, stream: Byte, done: set<Word>) {
    key != [] && key[|key| - 1] == stream && key[..|key| - 1] in done
  }

  /** The document has joined the lists of the terms in `done`, and nothing else changed. */
  ghost predicate Joined(before: Lists, now: Lists, doc: nat, stream: Byte, termTf: map<Word, nat>, done: set<Word>) {
    && done <= termTf.Keys
    && forall key, d, tf :: Entered(now, key, d, tf) <==>
         if d == doc && Of(key, stream, done) then tf == termTf[key[..|key| - 1]] else Entered(before, key, d, tf)
  }

  lemma {:induction false} JoinOne(before: Lists, now: Lists, next: Lists, doc: nat, stream: Byte,
                                   termTf: map<Word, nat>, done: set<Word>, term: Word)
    requires Joined(before, now, doc, stream, termTf, done) && term in termTf
    requires Added(now, next, StreamKey(term, stream), doc, termTf[term])
    ensures Joined(before, next, doc, stream, termTf, done + {term})
  {
    var k := StreamKey(term, stream);
    assert k[..|k| - 1] == term;
    AddedEntries(now, next, k, doc, termTf[term]);
    forall key | Of(key, stream, done + {term}) && key[..|key| - 1] == term ensures key == k {
      assert key == key[..|key| - 1] + [key[|key| - 1]];
    }
  }

  class AdvancedIndexWriter {
    const store: Store
    ghost var history: seq<WriteOp>

    ghost predicate Valid()
      reads this, store
    {
      store.Valid() && Records(store.postings, history)
    }

    constructor (store: Store)
      requires store.Valid() && store.postings == map[]
      ensures Valid() && history == [] && this.store == store
    {
      this.store, history := store, [];
    }

    /** Count the words, then the adjacent pairs. */
    static method CountTerms(words: seq<Word>) returns (termTf: map<Word, nat>)
      ensures forall t :: t in termTf <==> TermFreq(words, t) > 0
      ensures forall t :: t in termTf ==> termTf[t] == TermFreq(words, t)
    {
      termTf := map[];
      for i := 0 to |words|
        invariant Tallied(words, i, 0, termTf)
      {
        var w := words[i];
        WordTallied(words, i, termTf);
        if w != [] { termTf := OneMore(termTf, w); }
      }
      for n := 0 to |words|
        invariant Tallied(words, |words|, n, termTf)
      {
        PairTallied(words, n, termTf);
        if n > 0 && words[n - 1] != [] && words[n] != [] {
          termTf := OneMore(termTf, Bigram(words[n - 1], words[n]));
        }
      }
    }

    /** Write a document's words on a stream: the document joins the lists of exactly its
        words and adjacent pairs, with their counts; no other list changes. */
    method Write(words: seq<Word>, doc: nat, stream: Byte)
      requires Valid()
      modifies this, store
      ensures Valid() && history == old(history) + [WriteOp(words, doc, stream)]
      ensures forall key, d, tf :: Entered(store.postings, key, d, tf) <==>
                if d == doc && Writes(WriteOp(words, doc, stream), key) then tf == TermFreq(words, key[..|key| - 1])
                else Entered(old(store.postings), key, d, tf)
    {
      var termTf := CountTerms(words);
      ghost var before, op := store.postings, WriteOp(words, doc, stream);
      var todo := termTf.Keys;
      while todo != {}
        invariant todo <= termTf.Keys && history == old(history) && store.Valid()
        invariant Joined(before, store.postings, doc, stream, termTf, termTf.Keys - todo)
        decreases |todo|
      {
        var term :| term in todo;
        ghost var now := store.postings;
        store.AddPosting(StreamKey(term, stream), doc, termTf[term]);
        JoinOne(before, now, store.postings, doc, stream, termTf, termTf.Keys - todo, term);
        assert termTf.Keys - (todo - {term}) == termTf.Keys - todo + {term};
        todo := todo - {term};
      }
      assert termTf.Keys - todo == termTf.Keys;
      history := history + [op];
      RecordsGrow(before, store.postings, old(history), op, termTf);
    }
  }

  /** A store with the documents of a history under its keys. */
  ghost predicate Records(lists: Lists, h: seq<WriteOp>) {
    forall key, doc :: HasDoc(lists, key, doc) <==> Has(h, key, doc)
  }

  lemma {:induction false} RecordsGrow(before: Lists, now: Lists, h: seq<WriteOp>, op: WriteOp, termTf: map<Word, nat>)
    requires Records(before, h) && Joined(before, now, op.doc, op.stream, termTf, termTf.Keys)
    requires forall t :: t in termTf <==> TermFreq(op.words, t) > 0
    ensures Records(now, h + [op])
  {
    HistoryGrows(h, op);
    forall key, doc ensures HasDoc(now, key, doc) <==> Has(h + [op], key, doc) {
      if doc == op.doc && Of(key, op.stream, termTf.Keys) {
        assert Entered(now, key, doc, termTf[key[..|key| - 1]]);
      } else {
        assert forall tf :: Entered(now, key, doc, tf) <==> Entered(before, key, doc, tf);
      }
    }
  }

  lemma {:induction false} HistoryGrows(h: seq<WriteOp>, op: WriteOp)
    ensures forall key, doc :: Has(h + [op], key, doc) <==> Has(h, key, doc) || (doc == op.doc && Writes(op, key))
  {
    var g := h + [op];
    forall key, doc ensures Has(g, key, doc) <==> Has(h, key, doc) || (doc == op.doc && Writes(op, key)) {
      if Has(h, key, doc) {
        var k :| 0 <= k < |h| && h[k].doc == doc && Writes(h[k], key);
        assert g[k] == h[k];
      }
      if doc == op.doc && Writes(op, key) { assert g[|h|] == op; }
    }
  }
}
