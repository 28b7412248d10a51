/** What merging two sorted dictionaries means. */
module MergeSpec {
  import opened Options
  import opened Postings
  import opened TermTable

  datatype Term = Term(key: Key, df: nat, ps: seq<Posting>)

  const U32: nat := 0x1_0000_0000

  ghost predicate SortedTerms(ts: seq<Term>) {
    forall i, j :: 0 <= i < j < |ts| ==> Less(ts[i].key, ts[j].key)
  }

  /** A term in both inputs: base postings, then delta postings, frequencies summed in
      32 bits. */
  function Both(x: Term, y: Term): Term {
    Term(x.key, (x.df + y.df) % U32, x.ps + y.ps)
  }

  /** The two-way merge in key order. */
  function MergeTerms(a: seq<Term>, b: seq<Term>): seq<Term>
    decreases |a| + |b|
  {
    if a == [] then b
    else if b == [] then a
    else if Less(a[0].key, b[0].key) then [a[0]] + MergeTerms(a[1..], b)
    else if Less(b[0].key, a[0].key) then [b[0]] + MergeTerms(a, b[1..])
    else [Both(a[0], b[0])] + MergeTerms(a[1..], b[1..])
  }

  // ---------------------------------------------------------------- the union

  function Lookup(ts: seq<Term>, key: Key): Option<Term> {
    if ts == [] then None else if ts[0].key == key then Some(ts[0]) else Lookup(ts[1..], key)
  }

  function Union(x: Option<Term>, y: Option<Term>): Option<Term> {
    if x.None? then y else if y.None? then x else Some(Both(x.value, y.value))
  }

  ghost predicate AllAbove(ts: seq<Term>, key: Key) {
    forall i :: 0 <= i < |ts| ==> Less(key, ts[i].key)
  }

  lemma {:induction false} LookupAbove(ts: seq<Term>, key: Key)
    requires forall i :: 0 <= i < |ts| ==> ts[i].key != key
    ensures Lookup(ts, key) == None
  {
    if ts != [] { LookupAbove(ts[1..], key); }
  }

  lemma {:induction false} TailAbove(ts: seq<Term>)
    requires SortedTerms(ts) && ts != []
    ensures SortedTerms(ts[1..]) && AllAbove(ts[1..], ts[0].key)
    ensures Lookup(ts[1..], ts[0].key) == None
  {
    LessIrreflexive(ts[0].key);
    LookupAbove(ts[1..], ts[0].key);
  }

  lemma {:induction false} AboveTrans(ts: seq<Term>, key: Key, low: Key)
    requires SortedTerms(ts) && ts != [] && ts[0].key == key && Less(low, key)
    ensures AllAbove(ts, low) && Lookup(ts, low) == None
  {
    forall i | 0 <= i < |ts| ensures Less(low, ts[i].key) {
      if i > 0 { LessTrans(low, key, ts[i].key); }
    }
    LessIrreflexive(low);
    LookupAbove(ts, low);
  }

  lemma {:induction false} MergeAbove(a: seq<Term>, b: seq<Term>, low: Key)
    requires AllAbove(a, low) && AllAbove(b, low)
    ensures AllAbove(MergeTerms(a, b), low)
    decreases |a| + |b|
  {
    if a != [] && b != [] {
      if Less(a[0].key, b[0].key) { MergeAbove(a[1..], b, low); }
      else if Less(b[0].key, a[0].key) { MergeAbove(a, b[1..], low); }
      else { MergeAbove(a[1..], b[1..], low); }
    }
  }

  lemma {:induction false} SortedCons(t: Term, ts: seq<Term>)
    requires SortedTerms(ts) && AllAbove(ts, t.key)
    ensures SortedTerms([t] + ts)
  {
  }

  /** The merge of sorted dictionaries is sorted, and looks every key up as the union of
      the two inputs would. */
  lemma {:induction false} MergeIsSortedUnion(a: seq<Term>, b: seq<Term>, key: Key)
    requires SortedTerms(a) && SortedTerms(b)
    ensures SortedTerms(MergeTerms(a, b))
    ensures Lookup(MergeTerms(a, b), key) == Union(Lookup(a, key), Lookup(b, key))
    decreases |a| + |b|
  {
    if a != [] && b != [] {
      var x, y := a[0], b[0];
      TailAbove(a);
      TailAbove(b);
      if Less(x.key, y.key) {
        MergeIsSortedUnion(a[1..], b, key);
        AboveTrans(b, y.key, x.key);
        MergeAbove(a[1..], b, x.key);
        SortedCons(x, MergeTerms(a[1..], b));
      } else if Less(y.key, x.key) {
        MergeIsSortedUnion(a, b[1..], key);
        AboveTrans(a, x.key, y.key);
        MergeAbove(a, b[1..], y.key);
        SortedCons(y, MergeTerms(a, b[1..]));
      } else {
        LessTotal(x.key, y.key);
        MergeIsSortedUnion(a[1..], b[1..], key);
        MergeAbove(a[1..], b[1..], x.key);
        SortedCons(Both(x, y), MergeTerms(a[1..], b[1..]));
      }
    }
  }

  // ---------------------------------------------------------------- well-formed terms

  /** Non-empty, ids strictly ascending in [lo, hi), frequencies below 0x80. */
  ghost predicate GoodTerm(t: Term, lo: nat, hi: nat) {
    && t.ps != [] && Ascending(t.ps) && LowTf(t.ps) && |t.key| <= KEY_MAX && t.df < U32
    && forall i :: 0 <= i < |t.ps| ==> lo <= t.ps[i].doc < hi
  }

  ghost predicate GoodTerms(ts: seq<Term>, lo: nat, hi: nat) {
    forall i :: 0 <= i < |ts| ==> GoodTerm(ts[i], lo, hi)
  }

  /** Lists a reader can walk. */
  ghost predicate AscendingTerms(ts: seq<Term>) {
    forall i :: 0 <= i < |ts| ==> Ascending(ts[i].ps)
  }

  lemma {:induction false} AscendingConcat(a: seq<Posting>, b: seq<Posting>)
    requires Ascending(a) && Ascending(b)
    requires a != [] && b != [] ==> a[|a| - 1].doc < b[0].doc
    ensures Ascending(a + b)
  {
    if a == [] {
      assert a + b == b;
    } else {
      assert (a + b)[1..] == a[1..] + b;
      AscendingConcat(a[1..], b);
    }
  }

  /** Because base ids all lie below `split` and delta ids from it on, every merged term
      is again a good term. */
  lemma {:induction false} MergeIsGood(a: seq<Term>, b: seq<Term>, split: nat, hi: nat)
    requires GoodTerms(a, 0, split) && GoodTerms(b, split, hi) && split <= hi
    ensures GoodTerms(MergeTerms(a, b), 0, hi)
    decreases |a| + |b|
  {
    if a != [] && b != [] {
      if Less(a[0].key, b[0].key) { MergeIsGood(a[1..], b, split, hi); }
      else if Less(b[0].key, a[0].key) { MergeIsGood(a, b[1..], split, hi); }
      else {
        MergeIsGood(a[1..], b[1..], split, hi);
        var x, y := a[0], b[0];
        assert GoodTerm(x, 0, split) && GoodTerm(y, split, hi);
        AscendingConcat(x.ps, y.ps);
        assert GoodTerm(Both(x, y), 0, hi);
      }
    }
  }
}
