/** Top-k selection: a bounded heap against sorting everything. */
module TopK {
  import opened FiniteSets
  import opened DocSets
  import opened Readers

  datatype Hit = Hit(doc: nat, sources: SourceMask, score: int)

  /** Result order: better score first, of equal scores the smaller document. */
  predicate Ahead(a: Hit, b: Hit) { a.score > b.score || (a.score == b.score && a.doc < b.doc) }

  predicate Higher(a: Hit, b: Hit) { a.score > b.score }

  ghost predicate Sorted(before: (Hit, Hit) -> bool, hits: seq<Hit>) {
    forall k :: 1 <= k < |hits| ==> !before(hits[k], hits[k - 1])
  }

  ghost predicate OnePerDoc(hits: seq<Hit>) {
    forall j, k :: 0 <= j < k < |hits| ==> hits[j].doc != hits[k].doc
  }

  /** Whatever is not kept ranks behind everything kept. */
  ghost predicate KeepsBest(all: seq<Hit>, kept: seq<Hit>) {
    forall a :: a in all && a !in kept ==> AllAhead(kept, a)
  }

  ghost predicate AllAhead(kept: seq<Hit>, a: Hit) { forall z :: z in kept ==> Ahead(z, a) }

  /** Whatever is not kept scores no higher than anything kept. */
  ghost predicate KeepsHighest(all: seq<Hit>, kept: seq<Hit>) {
    forall a :: a in all && a !in kept ==> NoneBelow(kept, a)
  }

  ghost predicate NoneBelow(kept: seq<Hit>, a: Hit) { forall z :: z in kept ==> z.score >= a.score }

  // ---------------------------------------------------------------- library sort

  ghost predicate Asymmetric(before: (Hit, Hit) -> bool) {
    forall a, b :: before(a, b) ==> !before(b, a)
  }

  method Sort(before: (Hit, Hit) -> bool, hits: seq<Hit>) returns (r: seq<Hit>)
    requires Asymmetric(before)
    ensures multiset(r) == multiset(hits) && |r| == |hits| && Sorted(before, r)
  {
    r := [];
    for i := 0 to |hits|
      invariant multiset(r) == multiset(hits[..i]) && |r| == i && Sorted(before, r)
    {
      var at: nat := |r|;
      while at > 0 && before(hits[i], r[at - 1])
        invariant at <= |r| && (at < |r| ==> before(hits[i], r[at]))
      {
        at := at - 1;
      }
      assert hits[..i + 1] == hits[..i] + [hits[i]];
      InsertSorted(before, r, at, hits[i]);
      InsertCounts(r, at, hits[i]);
      r := r[..at] + [hits[i]] + r[at..];
    }
    assert hits[..|hits|] == hits;
  }

  lemma {:induction false} InsertSorted(before: (Hit, Hit) -> bool, r: seq<Hit>, at: nat, x: Hit)
    requires Asymmetric(before) && at <= |r| && Sorted(before, r)
    requires at > 0 ==> !before(x, r[at - 1])
    requires at < |r| ==> before(x, r[at])
    ensures Sorted(before, r[..at] + [x] + r[at..])
  {
  }

  /** Hits of distinct documents are distinct, in any order. */
  lemma {:induction false} SortedOnce(a: seq<Hit>, b: seq<Hit>)
    requires multiset(a) == multiset(b) && |a| == |b| && OnePerDoc(a)
    ensures OnePerDoc(b)
  {
    SameMembers(a, b);
    ImageSize(a);
    assert Image(a) == Image(b);
    forall j, k | 0 <= j < k < |b| ensures b[j].doc != b[k].doc {
      if b[j] == b[k] {
        var rest := b[..k] + b[k + 1..];
        ImageAtMost(rest);
        forall x | x in b ensures x in rest {
          var m :| 0 <= m < |b| && b[m] == x;
          if m < k { assert rest[m] == x; } else if m > k { assert rest[m - 1] == x; } else { assert rest[j] == x; }
        }
        SubsetSize(Image(b), Image(rest));
      }
      assert b[j] in a && b[k] in a;
    }
  }

  lemma {:induction false} ImageAtMost(a: seq<Hit>)
    ensures |Image(a)| <= |a|
  {
    if a != [] {
      var last := |a| - 1;
      ImageAtMost(a[..last]);
      assert a == a[..last] + [a[last]];
      assert Image(a) == Image(a[..last]) + {a[last]};
    }
  }

  lemma {:induction false} SortedPair(hits: seq<Hit>, j: nat, k: nat)
    requires j < k < |hits|
    ensures Sorted(Ahead, hits) ==> !Ahead(hits[k], hits[j])
    ensures Sorted(Higher, hits) ==> !Higher(hits[k], hits[j])
  {
    if j < k - 1 { SortedPair(hits, j, k - 1); }
  }

  // ---------------------------------------------------------------- what selection means

  /** The full result: every hit, in result order. */
  ghost predicate Full(all: seq<Hit>, full: seq<Hit>) {
    && |full| == |all| && OnePerDoc(full) && Sorted(Ahead, full) && forall x :: x in full <==> x in all
  }

  function Cut(topK: nat, n: nat): nat { if topK > 0 && topK < n then topK else n }

  /** Keeping the best k in order is taking the first k of the full result. */
  lemma {:induction false} BestIsPrefix(all: seq<Hit>, full: seq<Hit>, kept: seq<Hit>)
    requires Full(all, full) && OnePerDoc(kept) && Sorted(Ahead, kept) && KeepsBest(all, kept)
    requires |kept| <= |full| && forall x :: x in kept ==> x in all
    ensures kept == full[..|kept|]
  {
    var n := |kept|;
    forall i | 0 <= i < n ensures kept[i] == full[i] { BestAt(all, full, kept, i); }
  }

  lemma {:induction false} BestAt(all: seq<Hit>, full: seq<Hit>, kept: seq<Hit>, i: nat)
    requires Full(all, full) && OnePerDoc(kept) && Sorted(Ahead, kept) && KeepsBest(all, kept)
    requires |kept| <= |full| && forall x :: x in kept ==> x in all
    requires i < |kept|
    ensures kept[i] == full[i]
    decreases i
  {
    forall j | 0 <= j < i ensures kept[j] == full[j] { BestAt(all, full, kept, j); }
    var x, y := kept[i], full[i];
    assert x in full && y in full;
    var a :| 0 <= a < |full| && full[a] == x;
    NoEarlier(kept, full, i, a);
    if i < a { SortedPair(full, i, a); }
    assert !Ahead(x, y);
    assert y !in kept ==> AllAhead(kept, y);
    var b :| 0 <= b < |kept| && kept[b] == y;
    NoEarlier(full, kept, i, b);
    if i < b { SortedPair(kept, i, b); }
  }

  /** Behind a common prefix, an element of one list is not in the other's prefix. */
  lemma {:induction false} NoEarlier(p: seq<Hit>, q: seq<Hit>, i: nat, a: nat)
    requires OnePerDoc(p) && i < |p| && i <= |q| && a < |q| && p[i] == q[a]
    requires forall j :: 0 <= j < i ==> p[j] == q[j]
    ensures i <= a
  {
  }

  /** Two selections of the same size that both keep the highest scores have the same
      scores in order, whatever they did with ties. */
  lemma {:induction false} SameScores(all: seq<Hit>, p: seq<Hit>, q: seq<Hit>, i: nat)
    requires OnePerDoc(p) && OnePerDoc(q) && |p| == |q| && i < |p|
    requires KeepsHighest(all, q) && Sorted(Higher, p) && Sorted(Higher, q)
    requires forall x :: x in p ==> x in all
    ensures p[i].score <= q[i].score
  {
    if p[i].score > q[i].score {
      forall x | x in p[..i + 1] ensures x in q[..i] {
        var j :| 0 <= j < i + 1 && p[j] == x;
        if j < i { SortedPair(p, j, i); }
        assert x in p;
        assert q[i] in q;
        assert x !in q ==> NoneBelow(q, x);
        var k :| 0 <= k < |q| && q[k] == x;
        if i < k { SortedPair(q, i, k); }
        assert q[..i][k] == x;
      }
      ImageSize(p[..i + 1]);
      ImageSize(q[..i]);
      SubsetSize(Image(p[..i + 1]), Image(q[..i]));
    }
  }

  // ---------------------------------------------------------------- the bounded heaps

  /** Selected from the hits seen so far, as many as allowed. */
  ghost predicate Chosen(seen: seq<Hit>, heap: seq<Hit>, limit: nat) {
    && OnePerDoc(seen) && OnePerDoc(heap) && (forall x :: x in heap ==> x in seen)
    && |heap| == if |seen| < limit then |seen| else limit
  }

  /** Without a bound, everything seen. */
  ghost predicate Collected(seen: seq<Hit>, heap: seq<Hit>, topK: nat) {
    if topK > 0 then Chosen(seen, heap, topK) else heap == seen && OnePerDoc(seen)
  }

  /** As many as were seen: all of them. */
  lemma {:induction false} AllChosen(seen: seq<Hit>, heap: seq<Hit>, limit: nat)
    requires Chosen(seen, heap, limit) && |heap| == |seen|
    ensures forall x :: x in seen ==> x in heap
  {
    ImageSize(seen);
    ImageSize(heap);
    SubsetSize(Image(heap), Image(seen));
    forall x | x in seen ensures x in heap { assert x in Image(seen) && x in Image(heap); }
  }

  /** The heap's front: of all kept the one that ranks last. */
  method Front(heap: seq<Hit>) returns (at: nat)
    requires heap != []
    ensures at < |heap| && forall k :: 0 <= k < |heap| ==> !Ahead(heap[at], heap[k])
  {
    at := 0;
    for k := 1 to |heap|
      invariant at < |heap| && forall j :: 0 <= j < k ==> !Ahead(heap[at], heap[j])
    {
      if Ahead(heap[at], heap[k]) { at := k; }
    }
  }

  /** A lowest score of all kept; which one, of several, is up to the heap. */
  method Lowest(heap: seq<Hit>) returns (at: nat)
    requires heap != []
    ensures at < |heap| && forall k :: 0 <= k < |heap| ==> heap[at].score <= heap[k].score
  {
    at := 0;
    for k := 1 to |heap|
      invariant at < |heap| && forall j :: 0 <= j < k ==> heap[at].score <= heap[j].score
    {
      if heap[k].score < heap[at].score { at := k; }
    }
  }

  ghost predicate NewDoc(seen: seq<Hit>, x: Hit) { forall s :: s in seen ==> s.doc != x.doc }

  lemma {:induction false} Push(seen: seq<Hit>, heap: seq<Hit>, limit: nat, x: Hit)
    requires Chosen(seen, heap, limit) && NewDoc(seen, x) && |heap| < limit
    ensures Chosen(seen + [x], heap + [x], limit)
    ensures KeepsBest(seen + [x], heap + [x]) && KeepsHighest(seen + [x], heap + [x])
  {
    forall k | 0 <= k < |heap| ensures heap[k].doc != x.doc { assert heap[k] in heap; }
    forall k | 0 <= k < |seen| ensures seen[k].doc != x.doc { assert seen[k] in seen; }
    AllChosen(seen, heap, limit);
  }

  /** Pop one and push another. */
  function Replaced(heap: seq<Hit>, at: nat, x: Hit): seq<Hit>
    requires at < |heap|
  {
    heap[..at] + heap[at + 1..] + [x]
  }

  lemma {:induction false} ReplacedIs(heap: seq<Hit>, at: nat, x: Hit)
    requires at < |heap| && OnePerDoc(heap)
    ensures |Replaced(heap, at, x)| == |heap|
    ensures forall z :: z in Replaced(heap, at, x) <==> z == x || (z in heap && z != heap[at])
    ensures (forall z :: z in heap ==> z.doc != x.doc) ==> OnePerDoc(Replaced(heap, at, x))
  {
  }

  lemma {:induction false} Swap(seen: seq<Hit>, heap: seq<Hit>, limit: nat, at: nat, x: Hit)
    requires Chosen(seen, heap, limit) && NewDoc(seen, x) && |heap| == limit > 0 && at < |heap|
    ensures Chosen(seen + [x], heap, limit) && Chosen(seen + [x], Replaced(heap, at, x), limit)
  {
  }

  lemma {:induction false} SwapBest(seen: seq<Hit>, heap: seq<Hit>, limit: nat, at: nat, x: Hit)
    requires Chosen(seen, heap, limit) && NewDoc(seen, x) && at < |heap| && KeepsBest(seen, heap)
    requires forall k :: 0 <= k < |heap| ==> !Ahead(heap[at], heap[k])
    ensures Ahead(x, heap[at]) ==> KeepsBest(seen + [x], Replaced(heap, at, x))
    ensures !Ahead(x, heap[at]) ==> KeepsBest(seen + [x], heap)
  {
    ReplacedIs(heap, at, x);
    assert heap[at] in heap;
    forall z | z in heap && z != heap[at] ensures Ahead(z, heap[at]) {
      var k :| 0 <= k < |heap| && heap[k] == z;
    }
    if Ahead(x, heap[at]) {
      forall a | a in seen + [x] && a !in Replaced(heap, at, x) ensures AllAhead(Replaced(heap, at, x), a) {
        if a !in heap { assert AllAhead(heap, a); }
      }
    } else {
      forall a | a in seen + [x] && a !in heap ensures AllAhead(heap, a) { }
    }
  }

  lemma {:induction false} SwapHighest(seen: seq<Hit>, heap: seq<Hit>, limit: nat, at: nat, x: Hit)
    requires Chosen(seen, heap, limit) && NewDoc(seen, x) && at < |heap| && KeepsHighest(seen, heap)
    requires forall k :: 0 <= k < |heap| ==> heap[at].score <= heap[k].score
    ensures x.score > heap[at].score ==> KeepsHighest(seen + [x], Replaced(heap, at, x))
    ensures x.score <= heap[at].score ==> KeepsHighest(seen + [x], heap)
  {
  }

  // ---------------------------------------------------------------- execution

  /** The hits of the documents, each with its sources and score. */
  ghost function HitsOf(docs: seq<nat>, hit: nat -> Hit): seq<Hit> {
    seq(|docs|, i requires 0 <= i < |docs| => hit(docs[i]))
  }

  lemma {:induction false} HitsStep(docs: seq<nat>, hit: nat -> Hit, n: nat)
    requires Docs(docs) && n < |docs| && forall d :: hit(d).doc == d
    ensures HitsOf(docs[..n + 1], hit) == HitsOf(docs[..n], hit) + [hit(docs[n])]
    ensures NewDoc(HitsOf(docs[..n], hit), hit(docs[n]))
    ensures OnePerDoc(HitsOf(docs, hit))
  {
  }

  /** A document's hit, fixed when the reader was built: its sources, and its full score, the
      reader's and what the document adds by itself. */
  ghost function HitAt(reader: Reader, prior: nat -> int): nat -> Hit
    requires reader.Shape()
  {
    (d: nat) => Hit(d, reader.MaskAt(d), reader.ScoreAt(d) + prior(d))
  }

  /** Score the reader's document, ask for its sources, and move on. */
  method ReadHit(reader: Reader, prior: nat -> int) returns (hit: Hit)
    requires reader.Shape() && reader.Valid() && reader.rest != []
    modifies reader.Repr
    ensures reader.Valid() && reader.rest == old(reader.rest)[1..]
    ensures hit == HitAt(reader, prior)(old(reader.rest)[0])
  {
    var doc := reader.GetDocumentID();
    var score := reader.GetScore();
    var sources := reader.GetSourceMask();
    hit := Hit(doc, sources, score + prior(doc));
    reader.GoNext();
  }

  /** The C++ executor: ties decided by document. With a bound the result is the first k
      of the result without one. */
  method Execute(reader: Reader, topK: nat, prior: nat -> int) returns (results: seq<Hit>)
    requires reader.Shape() && reader.Valid()
    modifies reader.Repr
    ensures OnePerDoc(results) && Sorted(Ahead, results)
    ensures var all := HitsOf(old(reader.rest), HitAt(reader, prior));
            |results| == Cut(topK, |all|) && (forall x :: x in results ==> x in all) && KeepsBest(all, results)
  {
    ghost var docs, hit := reader.rest, HitAt(reader, prior);
    ghost var rests := reader.Open();
    var heap: seq<Hit> := [];
    ghost var n := 0;
    while !reader.IsEnd()
      invariant reader.Valid() && n <= |docs| && reader.rest == docs[n..]
      invariant Collected(HitsOf(docs[..n], hit), heap, topK) && KeepsBest(HitsOf(docs[..n], hit), heap)
      decreases |reader.rest|
    {
      var result := ReadHit(reader, prior);
      HitsStep(docs, hit, n);
      heap := Collect(heap, result, topK, HitsOf(docs[..n], hit));
      n := n + 1;
    }
    assert docs[..n] == docs;
    results := SortAndTruncate(heap, topK, HitsOf(docs, hit));
  }

  method Collect(heap: seq<Hit>, result: Hit, topK: nat, ghost seen: seq<Hit>) returns (after: seq<Hit>)
    requires NewDoc(seen, result)
    requires Collected(seen, heap, topK) && KeepsBest(seen, heap)
    ensures Collected(seen + [result], after, topK) && KeepsBest(seen + [result], after)
  {
    if topK == 0 || |heap| < topK {
      after := heap + [result];
      Push(seen, heap, if topK > 0 then topK else |seen| + 1, result);
    } else {
      var at := Front(heap);
      Swap(seen, heap, topK, at, result);
      SwapBest(seen, heap, topK, at, result);
      after := if Ahead(result, heap[at]) then Replaced(heap, at, result) else heap;
    }
  }

  method SortAndTruncate(heap: seq<Hit>, topK: nat, ghost all: seq<Hit>) returns (results: seq<Hit>)
    requires OnePerDoc(heap) && (forall x :: x in heap ==> x in all) && KeepsBest(all, heap)
    ensures OnePerDoc(results) && Sorted(Ahead, results) && |results| == Cut(topK, |heap|)
    ensures (forall x :: x in results ==> x in all) && KeepsBest(all, results)
  {
    results := Sort(Ahead, heap);
    SortedOnce(heap, results);
    SameMembers(heap, results);
    forall a | a in all && a !in results ensures AllAhead(results, a) { assert AllAhead(heap, a); }
    if topK > 0 && |results| > topK {
      PrefixKeepsBest(all, results, topK);
      results := results[..topK];
    }
  }

  lemma {:induction false} PrefixKeepsBest(all: seq<Hit>, kept: seq<Hit>, n: nat)
    requires OnePerDoc(kept) && Sorted(Ahead, kept) && KeepsBest(all, kept) && n <= |kept|
    ensures KeepsBest(all, kept[..n])
  {
    forall m | 0 <= m < n ensures kept[m] in kept[..n] { assert kept[..n][m] == kept[m]; }
    forall a | a in all && a !in kept[..n] ensures AllAhead(kept[..n], a) {
      if a in kept {
        var k :| 0 <= k < |kept| && kept[k] == a;
        assert n <= k;
        forall z | z in kept[..n] ensures Ahead(z, a) {
          var j :| 0 <= j < n && kept[j] == z;
          SortedPair(kept, j, k);
        }
      } else {
        assert AllAhead(kept, a);
      }
    }
  }

  /** The Rust executor: only the score decides, on entry and in the final sort. */
  method ExecuteWithVector(reader: Reader, topK: nat, prior: nat -> int) returns (results: seq<Hit>)
    requires reader.Shape() && reader.Valid()
    modifies reader.Repr
    ensures OnePerDoc(results) && Sorted(Higher, results)
    ensures var all := HitsOf(old(reader.rest), HitAt(reader, prior));
            |results| == Cut(topK, |all|) && (forall x :: x in results ==> x in all) && KeepsHighest(all, results)
  {
    ghost var docs, hit := reader.rest, HitAt(reader, prior);
    ghost var rests := reader.Open();
    var heap: seq<Hit> := [];
    ghost var n := 0;
    while !reader.IsEnd()
      invariant reader.Valid() && n <= |docs| && reader.rest == docs[n..]
      invariant Collected(HitsOf(docs[..n], hit), heap, topK) && KeepsHighest(HitsOf(docs[..n], hit), heap)
      decreases |reader.rest|
    {
      var result := ReadHit(reader, prior);
      HitsStep(docs, hit, n);
      heap := CollectByScore(heap, result, topK, HitsOf(docs[..n], hit));
      n := n + 1;
    }
    assert docs[..n] == docs;
    results := SortByScore(heap, topK, HitsOf(docs, hit));
  }

  method CollectByScore(heap: seq<Hit>, result: Hit, topK: nat, ghost seen: seq<Hit>) returns (after: seq<Hit>)
    requires NewDoc(seen, result)
    requires Collected(seen, heap, topK) && KeepsHighest(seen, heap)
    ensures Collected(seen + [result], after, topK) && KeepsHighest(seen + [result], after)
  {
    if topK == 0 || |heap| < topK {
      after := heap + [result];
      Push(seen, heap, if topK > 0 then topK else |seen| + 1, result);
    } else {
      var at := Lowest(heap);
      Swap(seen, heap, topK, at, result);
      SwapHighest(seen, heap, topK, at, result);
      after := if result.score > heap[at].score then Replaced(heap, at, result) else heap;
    }
  }

  method SortByScore(heap: seq<Hit>, topK: nat, ghost all: seq<Hit>) returns (results: seq<Hit>)
    requires OnePerDoc(heap) && (forall x :: x in heap ==> x in all) && KeepsHighest(all, heap)
    ensures OnePerDoc(results) && Sorted(Higher, results) && |results| == Cut(topK, |heap|)
    ensures (forall x :: x in results ==> x in all) && KeepsHighest(all, results)
  {
    results := Sort(Higher, heap);
    SortedOnce(heap, results);
    SameMembers(heap, results);
    forall a | a in all && a !in results ensures NoneBelow(results, a) { assert NoneBelow(heap, a); }
    if topK > 0 && |results| > topK {
      PrefixKeepsHighest(all, results, topK);
      results := results[..topK];
    }
  }

  lemma {:induction false} PrefixKeepsHighest(all: seq<Hit>, kept: seq<Hit>, n: nat)
    requires Sorted(Higher, kept) && KeepsHighest(all, kept) && n <= |kept|
    ensures KeepsHighest(all, kept[..n])
  {
    forall m | 0 <= m < n ensures kept[m] in kept[..n] { assert kept[..n][m] == kept[m]; }
    forall a | a in all && a !in kept[..n] ensures NoneBelow(kept[..n], a) {
      if a in kept {
        var k :| 0 <= k < |kept| && kept[k] == a;
        assert n <= k;
        forall z | z in kept[..n] ensures z.score >= a.score {
          var j :| 0 <= j < n && kept[j] == z;
          SortedPair(kept, j, k);
        }
      } else {
        assert NoneBelow(kept, a);
      }
    }
  }

  // ---------------------------------------------------------------- what the two return

  /** The bounded C++ result is a prefix of the unbounded one. */
  lemma {:induction false} BoundedIsPrefix(all: seq<Hit>, full: seq<Hit>, bounded: seq<Hit>, topK: nat)
    requires OnePerDoc(all)
    requires OnePerDoc(full) && Sorted(Ahead, full) && |full| == |all| && forall x :: x in full ==> x in all
    requires OnePerDoc(bounded) && Sorted(Ahead, bounded) && |bounded| == Cut(topK, |all|)
    requires (forall x :: x in bounded ==> x in all) && KeepsBest(all, bounded)
    ensures bounded == full[..Cut(topK, |full|)]
  {
    AllChosen(all, full, |all|);
    BestIsPrefix(all, full, bounded);
  }

  /** The Rust result has the scores of the C++ result, place by place. */
  lemma {:induction false} ScoresAgree(all: seq<Hit>, p: seq<Hit>, q: seq<Hit>, i: nat)
    requires OnePerDoc(p) && Sorted(Ahead, p) && KeepsBest(all, p) && forall x :: x in p ==> x in all
    requires OnePerDoc(q) && Sorted(Higher, q) && KeepsHighest(all, q) && forall x :: x in q ==> x in all
    requires |p| == |q| && i < |p|
    ensures p[i].score == q[i].score
  {
    assert Sorted(Higher, p) by {
      forall k | 1 <= k < |p| ensures !Higher(p[k], p[k - 1]) { assert !Ahead(p[k], p[k - 1]); }
    }
    forall a | a in all && a !in p ensures NoneBelow(p, a) { assert AllAhead(p, a); }
    SameScores(all, p, q, i);
    SameScores(all, q, p, i);
  }
}
