/** The in-memory index: one list per key, sorted by document id, with any order of
    additions, and its encoding. */
module PostingStore {
  import opened Options
  import opened Bytes
  import opened Postings
  import opened TermTable

  datatype IndexEntry = IndexEntry(doc: nat, tf: nat)

  type Lists = map<Key, seq<IndexEntry>>

  function ListOf(lists: Lists, key: Key): seq<IndexEntry> { if key in lists then lists[key] else [] }

  ghost predicate Entered(lists: Lists, key: Key, doc: nat, tf: nat) { IndexEntry(doc, tf) in ListOf(lists, key) }

  ghost predicate HasDoc(lists: Lists, key: Key, doc: nat) { exists tf :: Entered(lists, key, doc, tf) }

  ghost predicate SortedList(es: seq<IndexEntry>) {
    forall i, j :: 0 <= i < j < |es| ==> es[i].doc < es[j].doc
  }

  ghost predicate InRange(es: seq<IndexEntry>) {
    forall i :: 0 <= i < |es| ==> es[i].doc < U64
  }

  function Quantise(es: seq<IndexEntry>, tf8: nat -> Byte): (ps: seq<Posting>)
    ensures |ps| == |es|
  {
    if es == [] then [] else [Posting(es[0].doc, tf8(es[0].tf))] + Quantise(es[1..], tf8)
  }

  lemma {:induction false} QuantiseAscending(es: seq<IndexEntry>, tf8: nat -> Byte)
    requires SortedList(es) && InRange(es)
    ensures Ascending(Quantise(es, tf8))
  {
    if es != [] {
      QuantiseAscending(es[1..], tf8);
      if |es| > 1 { assert es[0].doc < es[1].doc; }
    }
  }

  lemma {:induction false} QuantiseStep(es: seq<IndexEntry>, k: nat, tf8: nat -> Byte)
    requires k < |es|
    ensures Quantise(es[..k + 1], tf8) == Quantise(es[..k], tf8) + [Posting(es[k].doc, tf8(es[k].tf))]
  {
    if k > 0 {
      QuantiseStep(es[1..], k - 1, tf8);
      assert es[..k + 1][1..] == es[1..][..k] && es[..k][1..] == es[1..][..k - 1];
    } else {
      assert es[..1][1..] == [];
    }
  }

  /** The encoder's loop over the entries. */
  method Encode(es: seq<IndexEntry>, tf8: nat -> Byte) returns (bytes: seq<Byte>)
    ensures bytes == Enc(Quantise(es, tf8))
  {
    bytes := [];
    for k := 0 to |es|
      invariant bytes == Enc(Quantise(es[..k], tf8))
    {
      ghost var p := Posting(es[k].doc, tf8(es[k].tf));
      bytes := VbWrite(es[k].doc, bytes);
      bytes := bytes + [tf8(es[k].tf)];
      QuantiseStep(es, k, tf8);
      EncConcat(Quantise(es[..k], tf8), [p]);
      assert [p][1..] == [];
      assert Enc([p]) == EncOne(p);
    }
    assert es[..|es|] == es;
  }

  /** A sorted list is determined by its entries. */
  lemma {:induction false} EntriesDetermineList(a: seq<IndexEntry>, b: seq<IndexEntry>)
    requires SortedList(a) && SortedList(b) && forall e :: e in a <==> e in b
    ensures a == b
  {
    assert b != [] ==> b[0] in b;
    if a != [] {
      assert a[0] in a;
      var j :| 0 <= j < |b| && b[j] == a[0];
      assert b[0] in b;
      var i :| 0 <= i < |a| && a[i] == b[0];
      assert i == 0 && j == 0;
      var a', b' := a[1..], b[1..];
      forall e ensures e in a' <==> e in b' {
        if e in a' { TailMember(a, b, e); }
        if e in b' { TailMember(b, a, e); }
      }
      EntriesDetermineList(a', b');
    }
  }

  lemma {:induction false} TailMember(a: seq<IndexEntry>, b: seq<IndexEntry>, e: IndexEntry)
    requires SortedList(a) && a != [] && b != [] && a[0] == b[0] && e in a[1..] && e in b
    ensures e in b[1..]
  {
  }

  /** First position whose id is not below `doc`. */
  method LowerBound(es: seq<IndexEntry>, doc: nat) returns (at: nat)
    requires SortedList(es)
    ensures at <= |es|
    ensures forall i :: 0 <= i < at ==> es[i].doc < doc
    ensures forall i :: at <= i < |es| ==> doc <= es[i].doc
  {
    var lo, hi := 0, |es|;
    while lo < hi
      invariant lo <= hi <= |es|
      invariant forall i :: 0 <= i < lo ==> es[i].doc < doc
      invariant forall i :: hi <= i < |es| ==> doc <= es[i].doc
    {
      var mid := lo + (hi - lo) / 2;
      if es[mid].doc < doc { lo := mid + 1; } else { hi := mid; }
    }
    at := lo;
  }

  /** `after` is `before` with the frequency of `doc` set to `tf`. */
  ghost predicate IsSet(before: seq<IndexEntry>, after: seq<IndexEntry>, doc: nat, tf: nat) {
    && SortedList(after)
    && forall e :: e in after <==> e == IndexEntry(doc, tf) || (e in before && e.doc != doc)
  }

  lemma {:induction false} InsertSets(es: seq<IndexEntry>, at: nat, doc: nat, tf: nat)
    requires SortedList(es) && at <= |es|
    requires forall i :: 0 <= i < at ==> es[i].doc < doc
    requires forall i :: at <= i < |es| ==> doc < es[i].doc
    ensures IsSet(es, es[..at] + [IndexEntry(doc, tf)] + es[at..], doc, tf)
  {
  }

  lemma {:induction false} ReplaceSets(es: seq<IndexEntry>, at: nat, doc: nat, tf: nat)
    requires SortedList(es) && at < |es| && es[at].doc == doc
    ensures IsSet(es, es[at := IndexEntry(doc, tf)], doc, tf)
  {
    var r := es[at := IndexEntry(doc, tf)];
    assert forall i :: 0 <= i < |r| ==> r[i].doc == es[i].doc && (i != at ==> r[i] == es[i]);
    forall e | e in es && e.doc != doc ensures e in r {
      var i :| 0 <= i < |es| && es[i] == e;
      assert r[i] == e;
    }
    forall e | e in r ensures e == IndexEntry(doc, tf) || (e in es && e.doc != doc) {
      var i :| 0 <= i < |r| && r[i] == e;
    }
    assert r[at] in r;
  }

  /** Append, overwrite the last, overwrite in the middle, or insert. */
  method SetEntry(es: seq<IndexEntry>, doc: nat, tf: nat) returns (r: seq<IndexEntry>)
    requires SortedList(es)
    ensures IsSet(es, r, doc, tf)
  {
    if es == [] || es[|es| - 1].doc < doc {
      InsertSets(es, |es|, doc, tf);
      r := es + [IndexEntry(doc, tf)];
      assert es[..|es|] + [IndexEntry(doc, tf)] + es[|es|..] == r;
    } else if es[|es| - 1].doc == doc {
      ReplaceSets(es, |es| - 1, doc, tf);
      r := es[|es| - 1 := IndexEntry(doc, tf)];
    } else {
      var at := LowerBound(es, doc);
      if at < |es| && es[at].doc == doc {
        ReplaceSets(es, at, doc, tf);
        r := es[at := IndexEntry(doc, tf)];
      } else {
        InsertSets(es, at, doc, tf);
        r := es[..at] + [IndexEntry(doc, tf)] + es[at..];
      }
    }
  }

  // ---------------------------------------------------------------- the store

  /** `after` is `before` with the frequency of `doc` under `key` set to `tf`. */
  ghost predicate Added(before: Lists, after: Lists, key: Key, doc: nat, tf: nat) {
    key in after && IsSet(ListOf(before, key), after[key], doc, tf) && after - {key} == before - {key}
  }

  lemma {:induction false} AddedEntries(before: Lists, after: Lists, key: Key, doc: nat, tf: nat)
    requires Added(before, after, key, doc, tf)
    ensures forall k, d, f :: Entered(after, k, d, f) <==>
              if k == key && d == doc then f == tf else Entered(before, k, d, f)
    ensures forall k :: k != key ==> (k in after <==> k in before) && ListOf(after, k) == ListOf(before, k)
  {
    forall k | k != key ensures (k in after <==> k in before) && ListOf(after, k) == ListOf(before, k) {
      assert k in after <==> k in after - {key};
      assert k in before <==> k in before - {key};
      if k in after { assert (after - {key})[k] == (before - {key})[k]; }
    }
  }

  ghost predicate SortedLists(lists: Lists) {
    forall key :: key in lists ==> SortedList(lists[key])
  }

  class Store {
    var postings: Lists

    ghost predicate Valid()
      reads this
    {
      SortedLists(postings)
    }

    constructor ()
      ensures Valid() && postings == map[]
    {
      postings := map[];
    }

    /** Whatever the order of additions, the key's list stays sorted and ends up being
        what it was with doc -> tf set; no other key changes. */
    method AddPosting(key: Key, doc: nat, tf: nat)
      requires Valid()
      modifies this
      ensures Valid() && Added(old(postings), postings, key, doc, tf)
    {
      var es := if key in postings then postings[key] else [];
      var r := SetEntry(es, doc, tf);
      postings := postings[key := r];
    }
  }

  // ---------------------------------------------------------------- the order of additions

  datatype Addition = Addition(key: Key, doc: nat, tf: nat)

  /** The frequency last added for a document under a key. */
  function LastTf(adds: seq<Addition>, key: Key, doc: nat): Option<nat> {
    if adds == [] then None
    else
      var last := adds[|adds| - 1];
      if last.key == key && last.doc == doc then Some(last.tf) else LastTf(adds[..|adds| - 1], key, doc)
  }

  /** The states of a store that starts empty and takes the additions one by one. */
  ghost predicate IsRun(adds: seq<Addition>, states: seq<Lists>) {
    && |states| == |adds| + 1 && states[0] == map[]
    && forall k :: 0 <= k < |adds| ==> Added(states[k], states[k + 1], adds[k].key, adds[k].doc, adds[k].tf)
  }

  /** A store holds exactly the frequencies last added, its lists are sorted, and none is empty. */
  lemma {:induction false} RunHolds(adds: seq<Addition>, states: seq<Lists>)
    requires IsRun(adds, states)
    ensures var lists := states[|adds|];
            && SortedLists(lists) && [] !in lists.Values
            && forall key, doc, tf: nat :: Entered(lists, key, doc, tf) <==> LastTf(adds, key, doc) == Some(tf)
  {
    if adds != [] {
      var n := |adds| - 1;
      RunHolds(adds[..n], states[..n + 1]);
      var last, before, after := adds[n], states[n], states[n + 1];
      assert Added(before, after, last.key, last.doc, last.tf);
      AddedEntries(before, after, last.key, last.doc, last.tf);
      assert Entered(after, last.key, last.doc, last.tf);
      forall key | key in after ensures SortedList(after[key]) && after[key] != [] {
        if key != last.key { assert after[key] == before[key] && before[key] in before.Values; }
      }
    }
  }

  /** Two runs of additions that end with the same frequencies end in the same store. */
  lemma {:induction false} OrderDoesNotMatter(a: seq<Addition>, b: seq<Addition>, s: seq<Lists>, t: seq<Lists>)
    requires IsRun(a, s) && IsRun(b, t)
    requires forall key, doc :: LastTf(a, key, doc) == LastTf(b, key, doc)
    ensures s[|a|] == t[|b|]
  {
    var p, q := s[|a|], t[|b|];
    RunHolds(a, s);
    RunHolds(b, t);
    forall key ensures ListOf(p, key) == ListOf(q, key) {
      forall e ensures e in ListOf(p, key) <==> e in ListOf(q, key) {
        assert e == IndexEntry(e.doc, e.tf);
        assert Entered(p, key, e.doc, e.tf) <==> Entered(q, key, e.doc, e.tf);
      }
      EntriesDetermineList(ListOf(p, key), ListOf(q, key));
    }
    forall key ensures key in p <==> key in q {
      if key in p { assert p[key] in p.Values; }
      if key in q { assert q[key] in q.Values; }
      assert ListOf(p, key) == ListOf(q, key);
    }
    assert forall key :: key in p ==> p[key] == ListOf(p, key) == ListOf(q, key) == q[key];
  }
}
