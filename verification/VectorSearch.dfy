/** A vector query as a leaf of the reader tree: the documents of the nodes the graph search
    found, in order of document. */
module VectorSearch {
  import opened Bytes
  import opened DocSets
  import opened Readers
  import opened VectorGraph
  import opened VectorIndex

  datatype VectorSearchResult = VectorSearchResult(docId: nat, score: int)

  /** A document's score among the results, for a document that is one of them. */
  function ScoreIn(results: seq<VectorSearchResult>, doc: nat): int {
    if results == [] then 0
    else if results[0].docId == doc then results[0].score
    else ScoreIn(results[1..], doc)
  }

  lemma {:induction false} ScoreOfResult(results: seq<VectorSearchResult>, k: nat)
    requires Docs(DocIdsOf(results)) && k < |results|
    ensures ScoreIn(results, results[k].docId) == results[k].score
  {
    var docs := DocIdsOf(results);
    if k > 0 {
      assert docs[0] < docs[k] && DocIdsOf(results[1..]) == docs[1..];
      ScoreOfResult(results[1..], k - 1);
    }
  }

  function DocIdsOf(results: seq<VectorSearchResult>): (docs: seq<nat>)
    ensures |docs| == |results|
  {
    seq(|results|, k requires 0 <= k < |results| => results[k].docId)
  }

  /** Results in order of document, as a leaf. */
  method LeafOver(results: seq<VectorSearchResult>) returns (r: Reader)
    requires Docs(DocIdsOf(results))
    ensures fresh(r.Repr) && r.Shape() && r.Valid() && r.JustBuilt() && r.rest == DocIdsOf(results)
    ensures forall k :: 0 <= k < |results| ==> r.ScoreAt(results[k].docId) == results[k].score
    ensures forall d :: r.MaskAt(d) == {4}
  {
    var docs := DocIdsOf(results);
    r := new Reader.FromDocs(docs, (d: nat, tf: Byte) => ScoreIn(results, d), {4});
    forall k | 0 <= k < |results| ensures r.ScoreAt(results[k].docId) == results[k].score {
      assert forall i :: 0 <= i < |results| ==> docs[i] == results[i].docId;
      ScoreOfResult(results, k);
    }
  }

  /** The results of the nodes `ids`. */
  function ResultsOf(ids: seq<nat>, docIds: seq<nat>, score: nat -> int): (r: seq<VectorSearchResult>)
    requires forall k :: 0 <= k < |ids| ==> ids[k] < |docIds|
    ensures |r| == |ids|
  {
    seq(|ids|, k requires 0 <= k < |ids| => VectorSearchResult(docIds[ids[k]], score(ids[k])))
  }

  /** The hits sorted by document make a leaf: it visits the documents of exactly the nodes
      found, each with its score. The index has each document once, so the sort has no ties. */
  method BuildVectorIndexReader(ann: FreshDiskAnn, score: nat -> int, efSearch: nat)
    returns (r: Reader, ghost hits: seq<nat>, ghost entry: nat, ghost visited: set<nat>)
    requires ann.Valid() && AllDistinct(ann.docIds)
    requires forall i :: 0 <= i < |ann.docIds| ==> ann.docIds[i] < NO_MORE_DOCS
    ensures fresh(r.Repr) && r.Shape() && r.Valid() && r.JustBuilt()
    ensures ann.NodesDistinct(hits)
    ensures ann.nodes != [] ==> ann.BestFound(score, if efSearch == 0 then 1 else efSearch, entry, visited, hits)
    ensures forall d :: d in r.rest <==> exists i :: i in hits && ann.docIds[i] == d
    ensures forall i :: i in hits ==> r.ScoreAt(ann.docIds[i]) == score(i)
    ensures forall d :: r.MaskAt(d) == {4}
  {
    hide FreshDiskAnn.BestFound, Reader.Valid, Reader.Shape, Reader.JustBuilt, Reader.ScoreAt, Reader.MaskAt;
    var found;
    found, entry, visited := ann.SearchNodes(score, if efSearch == 0 then 1 else efSearch, efSearch);
    hits := found;
    var byDocument := (i: nat) => 0;
    var order := ann.RankHits(found, byDocument);
    SortedHits(ann, order, byDocument);
    var results := ResultsOf(order, ann.docIds, score);
    r := LeafOver(results);
    ResultsOfHits(ann, found, order, score);
    forall i | i in hits ensures r.ScoreAt(ann.docIds[i]) == score(i) {
      var k :| 0 <= k < |order| && order[k] == i;
      assert results[k] == VectorSearchResult(ann.docIds[i], score(i));
    }
  }

  /** The documents of the results are those of the hits. */
  lemma {:induction false} ResultsOfHits(ann: FreshDiskAnn, hits: seq<nat>, order: seq<nat>, score: nat -> int)
    requires forall k :: 0 <= k < |order| ==> order[k] < |ann.docIds|
    requires forall i :: i in hits <==> i in order
    ensures var docs := DocIdsOf(ResultsOf(order, ann.docIds, score));
            forall d :: d in docs <==> exists i :: i in hits && ann.docIds[i] == d
  {
    var docs := DocIdsOf(ResultsOf(order, ann.docIds, score));
    forall i | i in hits ensures ann.docIds[i] in docs {
      var k :| 0 <= k < |order| && order[k] == i;
      assert docs[k] == ann.docIds[i];
    }
    forall d | d in docs ensures exists i :: i in hits && ann.docIds[i] == d {
      var k :| 0 <= k < |docs| && docs[k] == d;
      assert order[k] in hits && ann.docIds[order[k]] == d;
    }
  }

  /** Distinct nodes of distinct documents, ranked by document alone, are in strictly
      ascending order of document. */
  lemma {:induction false} SortedHits(ann: FreshDiskAnn, order: seq<nat>, level: nat -> int)
    requires |ann.docIds| == |ann.nodes| && AllDistinct(ann.docIds) && ann.NodesDistinct(order)
    requires (forall i :: level(i) == 0) && Ranked(level, ann.DocOf(), order)
    ensures forall j, k :: 0 <= j < k < |order| ==> ann.docIds[order[j]] < ann.docIds[order[k]]
  {
    forall j, k | 0 <= j < k < |order| ensures ann.docIds[order[j]] < ann.docIds[order[k]] {
      RankedPair(level, ann.DocOf(), order, j, k);
    }
  }
}
