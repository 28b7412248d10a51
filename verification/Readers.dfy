/** The document-at-a-time readers: a tree of cursors, each owning its children. One
    class carries the fields of all the kinds, and each operation dispatches on the kind. */
module Readers {
  import opened Bytes
  import opened Postings
  import opened Layout
  import opened DocSets
  import opened PostingReader

  /** Vector and Advanced are leaves: sorted results, and a posting list read from its pages. */
  datatype Kind = Vector | Advanced | And | Or | WeakAnd | Not | Boost

  /** Bits that say which sources a document was found in. */
  type SourceMask = set<nat>

  class Reader {
    const kind: Kind
    /** Vector: the documents, and the position in them. */
    const results: seq<nat>
    var pos: nat
    /** Advanced: the posting reader, what it has left, and what it had at first. */
    const posting: AdvancedIndexReader?
    ghost var left: seq<Posting>
    ghost const initial: seq<Posting>
    /** Not and Boost: the base, then the exclusion or boost. */
    const children: seq<Reader>
    const minShouldMatch: nat
    /** Leaves: the score of a document with a term frequency, and where it is from;
        Boost: what a match adds. */
    const score: (nat, Byte) -> int
    const sourceMask: SourceMask
    const weight: int
    /** Or and WeakAnd: cached documents of the children, and which of them match. */
    var childDocs: seq<nat>
    var matching: seq<nat>
    /** Or, WeakAnd and Boost: cached document; Boost: cached document of the boost. */
    var currentDoc: nat
    var boostDoc: nat

    ghost const height: nat
    ghost const Repr: set<object>
    /** Every document the reader started with, and those from its position on. */
    ghost const all: set<nat>
    ghost var rest: seq<nat>

    // -------------------------------------------------------------- ownership

    ghost predicate Owns(c: Reader) {
      c in c.Repr && c.Repr <= Repr && this !in c.Repr && c.height < height
    }

    /** Children are owned, apart from each other. */
    ghost predicate Shape()
      decreases height
    {
      && this in Repr
      && (forall i :: 0 <= i < |children| ==> Owns(children[i]) && children[i].Shape())
      && (forall i, j :: 0 <= i < j < |children| ==> children[i].Repr !! children[j].Repr)
      && (kind == Not || kind == Boost ==> |children| == 2) && (kind == Vector || kind == Advanced ==> children == [])
      && (kind == Advanced ==> posting != null && posting in Repr && posting.decoder in Repr)
      && minShouldMatch >= 1
    }

    ghost function Rests(): (r: seq<seq<nat>>)
      requires Shape()
      reads Repr - {this}
    {
      seq(|children|, i requires 0 <= i < |children| reads Repr - {this} => children[i].rest)
    }

    ghost function Alls(): seq<set<nat>> {
      seq(|children|, i requires 0 <= i < |children| => children[i].all)
    }

    // -------------------------------------------------------------- state

    /** Readers that count the children having a document. */
    predicate Counts() { kind == And || kind == Or || kind == WeakAnd }

    /** Children that must have a document. */
    ghost function Need(): (n: nat)
      requires Shape()
      ensures n >= 1
    {
      if kind == And && |children| > 0 then |children| else if kind == WeakAnd then minShouldMatch else 1
    }

    /** The meaning of what is left, by kind: intersection, union, at least m children,
        difference, base. */
    ghost predicate Means(rests: seq<seq<nat>>, r: seq<nat>)
      requires Shape() && |rests| == |children|
      reads this`pos, this`left
    {
      match kind
      case Vector => pos <= |results| && Docs(results) && r == results[pos..]
      case Advanced => Standing(initial, left, r)
      case Not => Without(rests[0], rests[1], r)
      case Boost => r == rests[0]
      case _ => AtLeast(rests, Need(), r)
    }

    /** The caches agree with the children. */
    ghost predicate Cached(rests: seq<seq<nat>>, r: seq<nat>)
      requires Shape() && |rests| == |children|
      reads this
    {
      match kind
      case Vector => true
      case Advanced => true
      case And => Together(rests)
      case Not => rests[0] != [] ==> rests[0][0] !in rests[1]
      case Boost => currentDoc == HeadDoc(r) && boostDoc == HeadDoc(rests[1])
      case _ => childDocs == Heads(rests) && currentDoc == HeadDoc(r) == Least(childDocs)
                && matching == if r == [] then [] else Positions(childDocs, currentDoc)
    }

    /** Own documents `r` against the children's. */
    ghost predicate Agrees(rests: seq<seq<nat>>, r: seq<nat>)
      requires Shape() && |rests| == |children|
      reads this`pos, this`left
    {
      Docs(r) && (forall d :: d in r ==> d in all) && Means(rests, r) && AllAhead(rests, Alls(), r)
    }

    /** Children are valid and have `rests` left. */
    ghost predicate At(rests: seq<seq<nat>>)
      requires Shape()
      reads Repr - {this}, this`left
      decreases height, 0
    {
      && |rests| == |children|
      && (forall i :: 0 <= i < |children| ==> children[i].Valid() && children[i].rest == rests[i])
      && (kind == Advanced ==> PostingAt())
    }

    ghost predicate PostingAt()
      requires Shape() && kind == Advanced
      reads Repr - {this}, this`left
    {
      posting.Settled() && posting.Remaining() == left
    }

    /** The whole state, given what the children have left. */
    ghost predicate Good(rests: seq<seq<nat>>)
      requires Shape()
      reads Repr
      decreases height, 1
    {
      At(rests) && Agrees(rests, rest) && Cached(rests, rest)
    }

    ghost predicate Valid()
      requires Shape()
      reads Repr
      decreases height, 2
    {
      Good(Rests())
    }

    lemma {:induction false} AtRests(rests: seq<seq<nat>>)
      requires Shape() && At(rests)
      ensures Rests() == rests && AllDocs(rests)
    {
      forall i | 0 <= i < |rests| ensures Docs(rests[i]) {
        assert children[i].Valid() && children[i].Good(children[i].Rests());
      }
    }

    /** What a valid reader's state is. */
    lemma {:induction false} Open() returns (rests: seq<seq<nat>>)
      requires Shape() && Valid()
      ensures rests == Rests() && At(rests) && AllDocs(rests) && Agrees(rests, rest) && Cached(rests, rest)
    {
      rests := Rests();
      assert Good(rests);
      AtRests(rests);
    }

    // -------------------------------------------------------------- queries

    /** The first document of an intersection whose children stand together. */
    lemma {:induction false} AndHead(rests: seq<seq<nat>>, r: seq<nat>)
      requires Shape() && kind == And && |rests| == |children| && AllDocs(rests)
      requires Agrees(rests, r) && Together(rests)
      ensures r == [] <==> |rests| == 0 || exists i :: 0 <= i < |rests| && rests[i] == []
      ensures r != [] ==> rests[0] != [] && r[0] == rests[0][0]
    {
      if i :| 0 <= i < |rests| && rests[i] == [] {
        ExhaustedChild(rests, r, i);
      } else if |rests| > 0 {
        AlignedHead(rests, r, rests[0][0]);
      } else if r != [] {
        HeadIsIn(r);
      }
    }

    /** The base's document is not excluded, so it is the difference's first. */
    lemma {:induction false} NotHead(rests: seq<seq<nat>>, r: seq<nat>)
      requires Shape() && kind == Not && |rests| == 2 && AllDocs(rests)
      requires Agrees(rests, r) && Cached(rests, r)
      ensures HeadDoc(r) == HeadDoc(rests[0]) && (r == [] <==> rests[0] == [])
    {
      if rests[0] != [] {
        HeadIsIn(rests[0]);
        HeadIsLeast(r, rests[0][0]);
        HeadIsLeast(rests[0], r[0]);
      } else if r != [] {
        HeadIsIn(r);
      }
    }

    predicate IsEnd()
      requires Shape() && Valid()
      reads Repr
      ensures IsEnd() <==> rest == []
      decreases height, 3
    {
      assert Good(Rests());
      AtRests(Rests());
      match kind
      case Vector => pos >= |results|
      case Advanced => posting.IsEnd()
      case And =>
        AndHead(Rests(), rest);
        |children| == 0 || exists i :: 0 <= i < |children| && children[i].IsEnd()
      case Not =>
        NotHead(Rests(), rest);
        children[0].IsEnd()
      case _ => currentDoc == NO_MORE_DOCS
    }

    /** At their end these kinds return the end marker. A posting reader, and a difference
        over one, return the document decoded last. */
    predicate MarksEnd()
      requires Shape()
      decreases height
    {
      kind != Advanced && (kind == Not ==> children[0].MarksEnd())
    }

    function GetDocumentID(): (doc: nat)
      requires Shape() && Valid()
      reads Repr
      ensures rest != [] ==> doc == rest[0]
      ensures rest == [] && MarksEnd() ==> doc == NO_MORE_DOCS
      ensures kind == Advanced ==> doc == posting.decoder.currentDoc
      decreases height, 4
    {
      assert Good(Rests());
      AtRests(Rests());
      match kind
      case Vector => if IsEnd() then NO_MORE_DOCS else results[pos]
      case Advanced => posting.GetDocumentID()
      case And =>
        AndHead(Rests(), rest);
        if IsEnd() then NO_MORE_DOCS else children[0].GetDocumentID()
      case Not =>
        NotHead(Rests(), rest);
        children[0].GetDocumentID()
      case _ => currentDoc
    }

    // -------------------------------------------------------------- moving one child

    method MoveChild(i: nat, target: nat, ghost rests: seq<seq<nat>>)
      requires Shape() && At(rests) && i < |children|
      modifies children[i].Repr
      ensures At(rests[i := Seek(rests[i], target)])
      decreases height, 0
    {
      children[i].GoUntil(target);
    }

    method StepChild(i: nat, ghost rests: seq<seq<nat>>)
      requires Shape() && At(rests) && i < |children|
      modifies children[i].Repr
      ensures At(rests[i := Next(rests[i])])
      decreases height, 0
    {
      children[i].GoNext();
    }

    /** The child's current document, as Or and WeakAnd cache it. */
    method UpdateChildDoc(i: nat, ghost rests: seq<seq<nat>>)
      requires Shape() && At(rests) && i < |children| == |childDocs|
      modifies this`childDocs
      ensures childDocs == old(childDocs)[i := HeadDoc(rests[i])]
    {
      childDocs := childDocs[i := if children[i].IsEnd() then NO_MORE_DOCS else children[i].GetDocumentID()];
    }

    lemma {:induction false} CountsSeek(rests: seq<seq<nat>>, r: seq<nat>, t: nat)
      requires Shape() && Counts() && |rests| == |children| && AllDocs(rests) && Agrees(rests, r)
      ensures AllDocs(SeekAll(rests, t)) && Agrees(SeekAll(rests, t), Seek(r, t))
    {
      SeekAllAtLeast(rests, Need(), r, t);
      SeekAllAhead(rests, Alls(), r, t);
      SeekFacts(r, t);
    }

    // -------------------------------------------------------------- the interface

    method GoNext()
      requires Shape() && Valid()
      modifies Repr
      ensures Valid() && rest == Next(old(rest))
      decreases height, 6
    {
      match kind
      case Vector => GoNextVector();
      case Advanced => GoNextAdvanced();
      case And => GoNextAnd();
      case Or => GoNextCached();
      case WeakAnd => GoNextCached();
      case Not => GoNextNot();
      case Boost => GoNextBoost();
    }

    method GoUntil(target: nat)
      requires Shape() && Valid()
      modifies Repr
      ensures Valid() && rest == Seek(old(rest), target)
      decreases height, 6
    {
      match kind
      case Vector => GoUntilVector(target);
      case Advanced => GoUntilAdvanced(target);
      case And => GoUntilAnd(target);
      case Or => GoUntilCached(target);
      case WeakAnd => GoUntilCached(target);
      case Not => GoUntilNot(target);
      case Boost => GoUntilBoost(target);
    }

    // -------------------------------------------------------------- leaves

    method GoNextVector()
      requires Shape() && Valid() && kind == Vector
      modifies this
      ensures Valid() && rest == Next(old(rest))
    {
      if pos < |results| { StepVector(0); }
    }

    method StepVector(ghost target: nat)
      requires Shape() && Valid() && kind == Vector && pos < |results|
      modifies this`pos, this`rest
      ensures Valid() && pos == old(pos) + 1 && rest == Next(old(rest))
      ensures results[old(pos)] < target ==> Seek(rest, target) == Seek(old(rest), target)
    {
      NextIsSeek(rest);
      pos := pos + 1;
      rest := rest[1..];
    }

    method GoUntilVector(target: nat)
      requires Shape() && Valid() && kind == Vector
      modifies this
      ensures Valid() && rest == Seek(old(rest), target)
    {
      hide Docs;
      while pos < |results| && results[pos] < target
        invariant Valid() && Seek(rest, target) == Seek(old(rest), target)
        decreases |results| - pos
      {
        StepVector(target);
      }
    }

    lemma {:induction false} AdvancedValid()
      requires Shape() && kind == Advanced && PostingAt() && Standing(initial, left, rest) && Docs(rest)
      requires forall d :: d in rest ==> d in all
      ensures Valid()
    {
      assert Rests() == [] && Alls() == [];
      assert Agrees([], rest);
      assert At([]);
      assert Good([]);
    }

    method GoNextAdvanced()
      requires Shape() && Valid() && kind == Advanced
      modifies Repr
      ensures Valid() && rest == Next(old(rest))
    {
      hide Docs, AdvancedIndexReader.Settled, AdvancedIndexReader.Remaining;
      ghost var rests := Open();
      StandingNext(initial, left, rest);
      StepPosting(posting);
      left, rest := if left == [] then [] else left[1..], Next(rest);
      AdvancedValid();
    }

    method GoUntilAdvanced(target: nat)
      requires Shape() && Valid() && kind == Advanced
      modifies Repr
      ensures Valid() && rest == Seek(old(rest), target)
    {
      hide Docs, AdvancedIndexReader.Settled, AdvancedIndexReader.Remaining;
      ghost var rests := Open();
      StandingSeek(initial, left, rest, target);
      posting.GoUntil(target);
      left, rest := DropBelow(left, target), Seek(rest, target);
      AdvancedValid();
    }

    // -------------------------------------------------------------- intersection

    /** The largest of the children's documents. */
    method Pivot(ghost rests: seq<seq<nat>>) returns (pivot: nat, ghost top: nat)
      requires Shape() && At(rests) && |children| > 0
      requires forall i :: 0 <= i < |rests| ==> rests[i] != []
      ensures top < |rests| && rests[top][0] == pivot
      ensures forall i :: 0 <= i < |rests| ==> rests[i][0] <= pivot
    {
      pivot, top := 0, 0;
      for i := 0 to |children|
        invariant top < |rests| && (i > 0 ==> rests[top][0] == pivot)
        invariant forall j :: 0 <= j < i ==> rests[j][0] <= pivot
      {
        var doc := children[i].GetDocumentID();
        if i == 0 || doc > pivot { pivot, top := doc, i; }
      }
    }

    method MoveToPivot(i: nat, pivot: nat, ghost top: nat, ghost rests: seq<seq<nat>>)
      returns (ghost after: seq<seq<nat>>)
      requires Shape() && kind == And && At(rests) && Agrees(rests, rest) && i < |children|
      requires top < |rests| && rests[top] != [] && rests[top][0] == pivot
      modifies children[i].Repr
      ensures after == rests[i := Seek(rests[i], pivot)] && At(after) && Agrees(after, rest)
      ensures |after[i]| <= |rests[i]| && (HeadDoc(rests[i]) == pivot ==> after[i] == rests[i])
      ensures after[i] != [] ==> after[i][0] >= pivot
      ensures HeadDoc(rests[i]) < pivot ==> |after[i]| < |rests[i]|
      decreases height, 1
    {
      AtRests(rests);
      SeekFacts(rests[i], pivot);
      PivotKeepsAll(rests, rest, i, pivot, top);
      MoveChild(i, pivot, rests);
      after := rests[i := Seek(rests[i], pivot)];
    }

    /** One pass that drives the children to the pivot, given up at the first that runs out
        or lands beyond it. */
    method Sweep(pivot: nat, ghost top: nat, ghost rests: seq<seq<nat>>)
      returns (done: bool, ghost after: seq<seq<nat>>)
      requires Shape() && kind == And && |children| > 0 && At(rests) && Agrees(rests, rest)
      requires forall i :: 0 <= i < |rests| ==> rests[i] != [] && rests[i][0] <= pivot
      requires top < |rests| && rests[top][0] == pivot
      modifies Repr - {this}
      ensures At(after) && Agrees(after, rest)
      ensures done ==> Together(after)
      ensures !done ==> Left(after) < Left(rests)
      decreases height, 2
    {
      hide Docs, Agrees, Seek;
      after := rests;
      done := true;
      for i := 0 to |children|
        invariant At(after) && Agrees(after, rest) && done
        invariant forall j :: 0 <= j < i ==> after[j] != [] && after[j][0] == pivot
        invariant forall j :: i <= j < |children| ==> after[j] == rests[j]
        invariant forall j :: 0 <= j < |children| ==> |after[j]| <= |rests[j]|
        invariant after[top] == rests[top]
      {
        if children[i].GetDocumentID() != pivot {
          after := MoveToPivot(i, pivot, top, after);
          if children[i].IsEnd() { return; }
          if children[i].GetDocumentID() != pivot {
            LeftFalls(rests, after);
            return false, after;
          }
        }
      }
    }

    lemma {:induction false} PivotKeepsAll(rests: seq<seq<nat>>, r: seq<nat>, i: nat, pivot: nat, top: nat)
      requires Shape() && kind == And && |rests| == |children| && AllDocs(rests) && Agrees(rests, r)
      requires i < |rests| && top < |rests| && rests[top] != [] && pivot == rests[top][0]
      ensures Agrees(rests[i := Seek(rests[i], pivot)], r)
    {
      PivotKeeps(rests, r, i, pivot, top);
      if r != [] {
        HeadIsIn(r);
        CountAll(rests, r[0]);
        HeadIsLeast(rests[top], r[0]);
      }
      assert Seek(r, 0) == r;
      SeekAhead(rests[i], Alls()[i], r, 0, pivot);
    }

    method AlignToPivot(ghost rests: seq<seq<nat>>)
      requires Shape() && kind == And && At(rests) && Agrees(rests, rest)
      modifies Repr - {this}
      ensures Valid()
      decreases height, 3
    {
      ghost var cur := rests;
      while true
        invariant At(cur) && Agrees(cur, rest)
        decreases Left(cur)
      {
        AtRests(cur);
        if |children| == 0 || exists i :: 0 <= i < |children| && children[i].IsEnd() { return; }
        var pivot; ghost var top;
        pivot, top := Pivot(cur);
        var done;
        done, cur := Sweep(pivot, top, cur);
        AtRests(cur);
        if done { return; }
      }
    }

    /** Step every child off the common document. */
    method StepAligned(doc: nat, ghost rests: seq<seq<nat>>)
      requires Shape() && At(rests) && forall i :: 0 <= i < |rests| ==> rests[i] != [] && rests[i][0] == doc
      modifies Repr - {this}
      ensures At(SeekAll(rests, doc + 1))
      decreases height, 1
    {
      ghost var cur := rests;
      AtRests(rests);
      for i := 0 to |children|
        invariant At(cur)
        invariant forall j :: 0 <= j < i ==> cur[j] == Seek(rests[j], doc + 1)
        invariant forall j :: i <= j < |children| ==> cur[j] == rests[j]
      {
        if !children[i].IsEnd() && children[i].GetDocumentID() == doc {
          NextIsSeek(rests[i]);
          StepChild(i, cur);
          cur := cur[i := Next(rests[i])];
        }
      }
      assert cur == SeekAll(rests, doc + 1);
    }

    method GoNextAnd()
      requires Shape() && Valid() && kind == And
      modifies Repr
      ensures Valid() && rest == Next(old(rest))
      decreases height, 5
    {
      hide AtLeast, Docs, AllAhead;
      if IsEnd() { return; }
      var doc := GetDocumentID();
      ghost var rests := Open();
      AndHead(rests, rest);
      StepAligned(doc, rests);
      NextIsSeek(rest);
      CountsSeek(rests, rest, doc + 1);
      rest := Next(rest);
      AlignToPivot(SeekAll(rests, doc + 1));
    }

    method GoUntilAnd(target: nat)
      requires Shape() && Valid() && kind == And
      modifies Repr
      ensures Valid() && rest == Seek(old(rest), target)
      decreases height, 5
    {
      ghost var rests := Open();
      ghost var cur := rests;
      for i := 0 to |children|
        invariant At(cur) && rest == old(rest) && pos == old(pos)
        invariant forall j :: 0 <= j < |children| ==> cur[j] == if j < i then Seek(rests[j], target) else rests[j]
      {
        MoveChild(i, target, cur);
        cur := cur[i := Seek(rests[i], target)];
      }
      CountsSeek(rests, rest, target);
      assert cur == SeekAll(rests, target);
      rest := Seek(rest, target);
      AlignToPivot(cur);
    }

    // -------------------------------------------------------------- union, at least m

    /** The caches of Or and WeakAnd agree with the children, but for the current document. */
    ghost predicate DocsCached(rests: seq<seq<nat>>)
      requires Shape()
      reads Repr
    {
      && (kind == Or || kind == WeakAnd) && At(rests) && Agrees(rests, rest) && childDocs == Heads(rests)
    }

    method MinDoc(docs: seq<nat>) returns (doc: nat)
      ensures doc == Least(docs)
    {
      doc := NO_MORE_DOCS;
      LeastFacts(docs, 0);
      for i := 0 to |docs|
        invariant doc <= NO_MORE_DOCS
        invariant var later := LeastFrom(docs, i); (if doc < later then doc else later) == Least(docs)
      {
        if docs[i] < doc { doc := docs[i]; }
      }
    }

    method MatchingChildren(docs: seq<nat>, doc: nat) returns (found: seq<nat>)
      ensures found == Positions(docs, doc)
    {
      found := [];
      for i := 0 to |docs|
        invariant found + PositionsFrom(docs, doc, i) == Positions(docs, doc)
      {
        if docs[i] == doc { found := found + [i]; }
      }
    }

    lemma {:induction false} HeadsUpdate(rests: seq<seq<nat>>, i: nat, s: seq<nat>)
      requires i < |rests|
      ensures Heads(rests[i := s]) == Heads(rests)[i := HeadDoc(s)]
    {
    }

    /** Step the children that stand on the smallest document. */
    method StepMatching(todo: seq<nat>, ghost doc: nat, ghost rests: seq<seq<nat>>)
      requires Shape() && At(rests) && childDocs == Heads(rests) && todo == Positions(childDocs, doc)
      requires forall i :: 0 <= i < |rests| ==> doc <= HeadDoc(rests[i])
      modifies Repr - {this}, this`childDocs
      ensures At(SeekAll(rests, doc + 1)) && childDocs == Heads(SeekAll(rests, doc + 1))
      decreases height, 1
    {
      ghost var cur := rests;
      AtRests(rests);
      for k := 0 to |todo|
        invariant At(cur) && childDocs == Heads(cur) && Stepped(rests, cur, todo, k)
      {
        var index := todo[k];
        StepOneMore(rests, cur, doc, k);
        StepChild(index, cur);
        HeadsUpdate(cur, index, Next(cur[index]));
        cur := cur[index := Next(cur[index])];
        UpdateChildDoc(index, cur);
      }
      PassMatching(rests, cur, doc);
    }

    /** Seek in the children that are still below the target. */
    method SeekBelow(target: nat, ghost rests: seq<seq<nat>>)
      requires Shape() && At(rests) && childDocs == Heads(rests)
      modifies Repr - {this}, this`childDocs
      ensures At(SeekAll(rests, target)) && childDocs == Heads(SeekAll(rests, target))
      decreases height, 1
    {
      ghost var cur := rests;
      for i := 0 to |children|
        invariant At(cur) && childDocs == Heads(cur)
        invariant forall j :: 0 <= j < i ==> cur[j] == Seek(rests[j], target)
        invariant forall j :: i <= j < |children| ==> cur[j] == rests[j]
      {
        if childDocs[i] < target {
          MoveChild(i, target, cur);
          HeadsUpdate(cur, i, Seek(rests[i], target));
          cur := cur[i := Seek(rests[i], target)];
          UpdateChildDoc(i, cur);
        }
      }
      assert cur == SeekAll(rests, target);
    }

    lemma {:induction false} CachedValid(rests: seq<seq<nat>>)
      requires Shape() && DocsCached(rests) && currentDoc == HeadDoc(rest) == Least(childDocs)
      requires matching == if rest == [] then [] else Positions(childDocs, currentDoc)
      ensures Valid()
    {
      AtRests(rests);
      assert Good(rests);
    }

    lemma {:induction false} OrHead(rests: seq<seq<nat>>, doc: nat)
      requires Shape() && kind == Or && DocsCached(rests) && doc == Least(childDocs)
      ensures doc == HeadDoc(rest) && (doc == NO_MORE_DOCS <==> rest == [])
    {
      AtRests(rests);
      LeastHead(rests, 1, rest, doc);
    }

    method RefreshCurrentDoc(ghost rests: seq<seq<nat>>)
      requires Shape() && kind == Or && DocsCached(rests)
      modifies this`currentDoc, this`matching
      ensures Valid()
    {
      hide At, Agrees, Valid, HeadDoc, Positions, Least;
      currentDoc := MinDoc(childDocs);
      matching := [];
      OrHead(rests, currentDoc);
      if currentDoc != NO_MORE_DOCS { matching := MatchingChildren(childDocs, currentDoc); }
      CachedValid(rests);
    }

    /** Skip documents that too few children have. Each one skipped leaves fewer documents
        in the children. */
    method AlignToMatch(ghost rests: seq<seq<nat>>)
      requires Shape() && kind == WeakAnd && DocsCached(rests)
      modifies Repr - {this}, this`childDocs, this`currentDoc, this`matching
      ensures Valid()
      decreases height, 3
    {
      ghost var cur := rests;
      while true
        invariant DocsCached(cur)
        decreases Left(cur)
      {
        var doc := MinDoc(childDocs);
        var settled := SettleAt(doc, cur);
        if settled { return; }
        cur := SkipLeast(doc, cur);
      }
    }

    lemma {:induction false} CountedHead(rests: seq<seq<nat>>, doc: nat)
      requires Shape() && kind == WeakAnd && DocsCached(rests) && doc == Least(childDocs)
      ensures doc == NO_MORE_DOCS ==> HeadDoc(rest) == doc && rest == []
      ensures doc != NO_MORE_DOCS && |Positions(childDocs, doc)| >= minShouldMatch ==>
        HeadDoc(rest) == doc && rest != []
      ensures doc != NO_MORE_DOCS && |Positions(childDocs, doc)| < minShouldMatch ==>
        doc < NO_MORE_DOCS && Seek(rest, doc + 1) == rest
    {
      AtRests(rests);
      LeastHead(rests, Need(), rest, doc);
    }

    /** Stand on the smallest document if enough children have it, or at the end. */
    method SettleAt(doc: nat, ghost rests: seq<seq<nat>>) returns (settled: bool)
      requires Shape() && kind == WeakAnd && DocsCached(rests) && doc == Least(childDocs)
      modifies this`currentDoc, this`matching
      ensures settled ==> Valid()
      ensures !settled ==> DocsCached(rests) && doc < NO_MORE_DOCS && Seek(rest, doc + 1) == rest
      ensures !settled ==> matching == Positions(childDocs, doc)
    {
      hide At, Agrees, Valid, HeadDoc, Positions, Least;
      CountedHead(rests, doc);
      if doc == NO_MORE_DOCS {
        currentDoc, matching := NO_MORE_DOCS, [];
        CachedValid(rests);
        return true;
      }
      matching := MatchingChildren(childDocs, doc);
      settled := |matching| >= minShouldMatch;
      if settled {
        currentDoc := doc;
        CachedValid(rests);
      }
    }

    /** Pass a document that is no result. */
    method SkipLeast(doc: nat, ghost rests: seq<seq<nat>>) returns (ghost after: seq<seq<nat>>)
      requires Shape() && kind == WeakAnd && DocsCached(rests) && doc < NO_MORE_DOCS
      requires doc == Least(childDocs) && matching == Positions(childDocs, doc) && Seek(rest, doc + 1) == rest
      modifies Repr - {this}, this`childDocs
      ensures DocsCached(after) && Left(after) < Left(rests)
      decreases height, 2
    {
      AtRests(rests);
      after := SeekAll(rests, doc + 1);
      CountsSeek(rests, rest, doc + 1);
      HeadsAbove(rests);
      LeastPassed(rests, doc);
      StepMatching(matching, doc, rests);
    }

    method Settle(ghost rests: seq<seq<nat>>)
      requires Shape() && DocsCached(rests)
      modifies Repr - {this}, this`childDocs, this`currentDoc, this`matching
      ensures Valid()
      decreases height, 4
    {
      if kind == Or { RefreshCurrentDoc(rests); } else { AlignToMatch(rests); }
    }

    lemma {:induction false} CachedNext(rests: seq<seq<nat>>)
      requires Shape() && (kind == Or || kind == WeakAnd) && |rests| == |children| && AllDocs(rests)
      requires Agrees(rests, rest) && Cached(rests, rest) && rest != []
      ensures Agrees(SeekAll(rests, currentDoc + 1), Next(rest))
      ensures forall i :: 0 <= i < |rests| ==> currentDoc <= HeadDoc(rests[i])
    {
      HeadsAbove(rests);
      NextIsSeek(rest);
      CountsSeek(rests, rest, currentDoc + 1);
    }

    method GoNextCached()
      requires Shape() && Valid() && (kind == Or || kind == WeakAnd)
      modifies Repr
      ensures Valid() && rest == Next(old(rest))
      decreases height, 5
    {
      if IsEnd() { return; }
      ghost var rests := Open();
      rests := PassCurrent(rests);
      Settle(rests);
    }

    /** Step every child off the current document. */
    method PassCurrent(ghost rests: seq<seq<nat>>) returns (ghost after: seq<seq<nat>>)
      requires Shape() && Good(rests) && AllDocs(rests) && (kind == Or || kind == WeakAnd) && rest != []
      modifies Repr - {this}, this`childDocs, this`rest
      ensures DocsCached(after) && rest == Next(old(rest))
      decreases height, 4
    {
      hide AtLeast, Docs, AllAhead;
      after := SeekAll(rests, currentDoc + 1);
      CachedNext(rests);
      StepMatching(matching, currentDoc, rests);
      rest := Next(rest);
    }

    method GoUntilCached(target: nat)
      requires Shape() && Valid() && (kind == Or || kind == WeakAnd)
      modifies Repr
      ensures Valid() && rest == Seek(old(rest), target)
      decreases height, 5
    {
      ghost var rests := Open();
      CountsSeek(rests, rest, target);
      SeekBelow(target, rests);
      rest := Seek(rest, target);
      Settle(SeekAll(rests, target));
    }

    // -------------------------------------------------------------- difference

    /** Pass base documents that the exclusion has. */
    method SkipExcluded(ghost rests: seq<seq<nat>>)
      requires Shape() && kind == Not && At(rests) && Agrees(rests, rest)
      modifies Repr - {this}
      ensures Valid()
      decreases height, 3
    {
      ghost var cur := rests;
      while !children[0].IsEnd()
        invariant At(cur) && Agrees(cur, rest)
        decreases |cur[0]|
      {
        AtRests(cur);
        var doc := children[0].GetDocumentID();
        ExclusionKeeps(cur, rest, doc);
        SeekFacts(cur[1], doc);
        MoveChild(1, doc, cur);
        cur := cur[1 := Seek(cur[1], doc)];
        AtRests(cur);
        ExcludedHead(cur, rest, doc);
        if !children[1].IsEnd() && children[1].GetDocumentID() == doc {
          StepChild(0, cur);
          cur := cur[0 := Next(cur[0])];
        } else {
          break;
        }
      }
      AtRests(cur);
    }

    lemma {:induction false} ExclusionKeeps(rests: seq<seq<nat>>, r: seq<nat>, doc: nat)
      requires Shape() && kind == Not && |rests| == 2 && AllDocs(rests) && Agrees(rests, r)
      requires rests[0] != [] && doc == rests[0][0]
      ensures Agrees(rests[1 := Seek(rests[1], doc)], r)
    {
      assert Seek(rests[0], 0) == rests[0] && Seek(r, 0) == r;
      SeekWithout(rests[0], rests[1], r, 0, doc);
      if r != [] { HeadIsIn(r); HeadIsLeast(rests[0], r[0]); }
      SeekAhead(rests[1], Alls()[1], r, 0, doc);
    }

    /** An exclusion that has caught up tells by its head whether the base's is excluded. */
    lemma {:induction false} ExcludedHead(rests: seq<seq<nat>>, r: seq<nat>, doc: nat)
      requires Shape() && kind == Not && |rests| == 2 && AllDocs(rests) && Agrees(rests, r)
      requires rests[0] != [] && doc == rests[0][0] && (rests[1] != [] ==> doc <= rests[1][0])
      ensures HeadDoc(rests[1]) == doc ==> Agrees(rests[0 := Next(rests[0])], r)
      ensures HeadDoc(rests[1]) != doc ==> doc !in rests[1]
    {
      HeadIsIn(rests[0]);
      HeadIsLeast(rests[0], doc);
      if doc in rests[1] { HeadIsLeast(rests[1], doc); }
      if HeadDoc(rests[1]) == doc {
        HeadIsIn(rests[1]);
        NextIsSeek(rests[0]);
        assert Ahead(Next(rests[0]), Alls()[0], r);
      }
    }

    method GoNextNot()
      requires Shape() && Valid() && kind == Not
      modifies Repr
      ensures Valid() && rest == Next(old(rest))
      decreases height, 5
    {
      ghost var rests := Open();
      NotHead(rests, rest);
      if rest != [] {
        NextIsSeek(rest);
        NextIsSeek(rests[0]);
        BaseSeek(rests, rest, rest[0] + 1);
      }
      StepChild(0, rests);
      rest := Next(rest);
      SkipExcluded(rests[0 := Next(rests[0])]);
    }

    lemma {:induction false} BaseSeek(rests: seq<seq<nat>>, r: seq<nat>, t: nat)
      requires Shape() && kind == Not && |rests| == 2 && AllDocs(rests) && Agrees(rests, r)
      ensures Agrees(rests[0 := Seek(rests[0], t)], Seek(r, t))
    {
      assert Seek(rests[1], 0) == rests[1];
      SeekWithout(rests[0], rests[1], r, t, 0);
      SeekFacts(r, t);
      SeekAhead(rests[1], Alls()[1], r, t, 0);
      if Seek(r, t) != [] { HeadIsIn(Seek(r, t)); }
      SeekAhead(rests[0], Alls()[0], r, t, t);
    }

    method GoUntilNot(target: nat)
      requires Shape() && Valid() && kind == Not
      modifies Repr
      ensures Valid() && rest == Seek(old(rest), target)
      decreases height, 5
    {
      ghost var rests := Open();
      BaseSeek(rests, rest, target);
      MoveChild(0, target, rests);
      rest := Seek(rest, target);
      SkipExcluded(rests[0 := Seek(rests[0], target)]);
    }

    // -------------------------------------------------------------- boost

    method BaseDoc(ghost rests: seq<seq<nat>>)
      requires Shape() && kind == Boost && At(rests) && Agrees(rests, rest) && boostDoc == HeadDoc(rests[1])
      modifies this`currentDoc
      ensures Valid()
    {
      AtRests(rests);
      currentDoc := if children[0].IsEnd() then NO_MORE_DOCS else children[0].GetDocumentID();
    }

    lemma {:induction false} BoostSeek(rests: seq<seq<nat>>, r: seq<nat>, t: nat)
      requires Shape() && kind == Boost && |rests| == 2 && AllDocs(rests) && Agrees(rests, r)
      ensures Agrees(rests[0 := Seek(rests[0], t)], Seek(r, t))
    {
      assert Seek(rests[1], 0) == rests[1];
      SeekFacts(r, t);
      SeekAhead(rests[1], Alls()[1], r, t, 0);
      assert Ahead(Seek(r, t), Alls()[0], Seek(r, t));
    }

    method GoNextBoost()
      requires Shape() && Valid() && kind == Boost
      modifies Repr
      ensures Valid() && rest == Next(old(rest))
      decreases height, 5
    {
      if IsEnd() { return; }
      ghost var rests := Open();
      NextIsSeek(rest);
      BoostSeek(rests, rest, rest[0] + 1);
      StepChild(0, rests);
      rest := Next(rest);
      BaseDoc(rests[0 := Next(rests[0])]);
    }

    method GoUntilBoost(target: nat)
      requires Shape() && Valid() && kind == Boost
      modifies Repr
      ensures Valid() && rest == Seek(old(rest), target)
      decreases height, 5
    {
      ghost var rests := Open();
      BoostSeek(rests, rest, target);
      MoveChild(0, target, rests);
      rest := Seek(rest, target);
      BaseDoc(rests[0 := Seek(rests[0], target)]);
    }

    lemma {:induction false} BoostKeeps(rests: seq<seq<nat>>, r: seq<nat>)
      requires Shape() && kind == Boost && |rests| == 2 && AllDocs(rests) && Agrees(rests, r) && r != []
      ensures Agrees(rests[1 := Seek(rests[1], r[0])], r)
    {
      assert Seek(r, 0) == r;
      SeekAhead(rests[1], Alls()[1], r, 0, r[0]);
    }

    /** A child that has caught up tells by its document whether it ever had ours. */
    lemma {:induction false} ChildHas(rests: seq<seq<nat>>, r: seq<nat>, i: nat)
      requires Shape() && |rests| == |children| && i < |children| && At(rests) && Agrees(rests, r)
      requires r != [] && r[0] <= HeadDoc(rests[i])
      ensures r[0] in children[i].all <==> HeadDoc(rests[i]) == r[0]
    {
      HeadIsIn(r);
      AtRests(rests);
      HeadIsLeast(r, r[0]);
      assert Ahead(rests[i], Alls()[i], r) && children[i].Good(children[i].Rests());
      if rests[i] != [] { HeadIsIn(rests[i]); }
      if r[0] in rests[i] { HeadIsLeast(rests[i], r[0]); }
    }

    /** Whether the boost has the current document. The boost catches up only here. */
    method BoostMatchesBase() returns (matches: bool)
      requires Shape() && Valid() && kind == Boost
      modifies Repr
      ensures Valid() && rest == old(rest)
      ensures matches <==> rest != [] && rest[0] in children[1].all
      ensures matches ==> boostDoc == rest[0]
      decreases height, 5
    {
      ghost var rests := Open();
      if boostDoc == NO_MORE_DOCS || IsEnd() {
        if rest != [] { HeadIsLeast(rest, rest[0]); ChildHas(rests, rest, 1); }
        return false;
      }
      if boostDoc < currentDoc {
        BoostKeeps(rests, rest);
        SeekFacts(rests[1], currentDoc);
        MoveChild(1, currentDoc, rests);
        rests := rests[1 := Seek(rests[1], currentDoc)];
        AtRests(rests);
        boostDoc := if children[1].IsEnd() then NO_MORE_DOCS else children[1].GetDocumentID();
      }
      HeadIsLeast(rest, rest[0]);
      ChildHas(rests, rest, 1);
      matches := boostDoc == currentDoc;
    }

    // -------------------------------------------------------------- scores

    /** The score of a document, fixed when the tree was built: nothing about how the
        cursor got there enters. */
    ghost function ScoreAt(d: nat): int
      requires Shape()
      decreases height, 0
    {
      match kind
      case Vector => score(d, 1)
      case Advanced => score(d, TfAt(initial, d))
      case Not => children[0].ScoreAt(d)
      case Boost => children[0].ScoreAt(d) + if d in children[1].all then weight else 0
      case _ => SumFrom(0, d)
    }

    /** The sum over the children that have the document. */
    ghost function SumFrom(from: nat, d: nat): int
      requires Shape() && from <= |children|
      decreases height - 1, |children| - from
    {
      if from == |children| then 0
      else (if d in children[from].all then children[from].ScoreAt(d) else 0) + SumFrom(from + 1, d)
    }

    method GetScore() returns (total: int)
      requires Shape() && Valid() && rest != []
      modifies Repr
      ensures Valid() && rest == old(rest) && total == ScoreAt(rest[0])
      decreases height, 6
    {
      match kind
      case Vector =>
        ghost var rests := Open();
        total := score(results[pos], 1);
      case Advanced =>
        ghost var rests := Open();
        total := score(posting.GetDocumentID(), posting.GetTermFreq());
      case And => total := GetScoreAnd();
      case Or => total := GetScoreMatching();
      case WeakAnd => total := GetScoreMatching();
      case Not =>
        ghost var rests := Open();
        NotHead(rests, rest);
        total := ScoreChild(0, rests);
        AtRests(rests);
      case Boost =>
        ghost var rests := Open();
        total := ScoreChild(0, rests);
        AtRests(rests);
        var matches := BoostMatchesBase();
        if matches { total := total + weight; }
    }

    method ScoreChild(i: nat, ghost rests: seq<seq<nat>>) returns (total: int)
      requires Shape() && At(rests) && i < |children| && rests[i] != []
      modifies children[i].Repr
      ensures At(rests) && total == children[i].ScoreAt(rests[i][0])
      decreases height, 0
    {
      total := children[i].GetScore();
    }

    method GetScoreAnd() returns (total: int)
      requires Shape() && Valid() && kind == And && rest != []
      modifies Repr
      ensures Valid() && rest == old(rest) && total == SumFrom(0, rest[0])
      decreases height, 5
    {
      ghost var rests := Open();
      AndHead(rests, rest);
      total := 0;
      for i := 0 to |children|
        invariant Good(rests) && rest == old(rest)
        invariant total + SumFrom(i, rest[0]) == SumFrom(0, rest[0])
      {
        ChildHas(rests, rest, i);
        var s := ScoreChild(i, rests);
        total := total + s;
      }
      AtRests(rests);
    }

    /** The sum over the matching children. */
    ghost function SumOver(todo: seq<nat>, d: nat): int
      requires Shape() && forall k :: 0 <= k < |todo| ==> todo[k] < |children|
    {
      if todo == [] then 0 else children[todo[0]].ScoreAt(d) + SumOver(todo[1..], d)
    }

    lemma {:induction false} MatchingSum(rests: seq<seq<nat>>, from: nat)
      requires Shape() && (kind == Or || kind == WeakAnd) && At(rests) && Agrees(rests, rest)
      requires Cached(rests, rest) && rest != [] && from <= |children|
      ensures var todo := PositionsFrom(childDocs, currentDoc, from);
              forall k :: 0 <= k < |todo| ==> todo[k] < |children|
      ensures SumOver(PositionsFrom(childDocs, currentDoc, from), currentDoc) == SumFrom(from, currentDoc)
      decreases |children| - from
    {
      hide AtLeast, Docs, At;
      if from < |children| {
        HeadsAbove(rests);
        ChildHas(rests, rest, from);
        MatchingSum(rests, from + 1);
        assert Heads(rests)[from] == HeadDoc(rests[from]);
      }
    }

    /** These children stand on the document. */
    ghost predicate AllOn(todo: seq<nat>, rests: seq<seq<nat>>, doc: nat) {
      && |rests| == |children|
      && forall k :: 0 <= k < |todo| ==> todo[k] < |rests| && rests[todo[k]] != [] && rests[todo[k]][0] == doc
    }

    lemma {:induction false} MatchingStand(rests: seq<seq<nat>>)
      requires Shape() && (kind == Or || kind == WeakAnd) && |rests| == |children|
      requires Agrees(rests, rest) && Cached(rests, rest) && rest != []
      ensures AllOn(matching, rests, rest[0])
    {
      HeadIsLeast(rest, rest[0]);
      PositionsFacts(childDocs, currentDoc, 0);
      forall k | 0 <= k < |matching|
        ensures matching[k] < |rests| && rests[matching[k]] != [] && rests[matching[k]][0] == rest[0]
      {
        assert matching[k] in matching && Heads(rests)[matching[k]] == rest[0];
      }
    }

    method GetScoreMatching() returns (total: int)
      requires Shape() && Valid() && (kind == Or || kind == WeakAnd) && rest != []
      modifies Repr
      ensures Valid() && rest == old(rest) && total == SumFrom(0, rest[0])
      decreases height, 5
    {
      ghost var rests := Open();
      MatchingSum(rests, 0);
      MatchingStand(rests);
      total := ScoreChildren(matching, rests, rest[0]);
      AtRests(rests);
    }

    method ScoreChildren(todo: seq<nat>, ghost rests: seq<seq<nat>>, ghost doc: nat) returns (total: int)
      requires Shape() && At(rests) && AllOn(todo, rests, doc)
      modifies Repr - {this}
      ensures At(rests) && total == SumOver(todo, doc)
      decreases height, 1
    {
      total := 0;
      for k := 0 to |todo|
        invariant At(rests) && total + SumOver(todo[k..], doc) == SumOver(todo, doc)
      {
        var s := ScoreChild(todo[k], rests);
        assert todo[k..][1..] == todo[k + 1..];
        total := total + s;
      }
    }

    // -------------------------------------------------------------- sources

    /** The sources of a document, fixed when the tree was built. */
    ghost function MaskAt(d: nat): SourceMask
      requires Shape()
      decreases height, 0
    {
      match kind
      case Vector => sourceMask
      case Advanced => sourceMask
      case Not => children[0].MaskAt(d)
      case Boost => children[0].MaskAt(d) + if d in children[1].all then children[1].MaskAt(d) else {}
      case _ => MaskFrom(0, d)
    }

    /** The sources of all the children that have the document. */
    ghost function MaskFrom(from: nat, d: nat): SourceMask
      requires Shape() && from <= |children|
      decreases height - 1, |children| - from
    {
      if from == |children| then {}
      else (if d in children[from].all then children[from].MaskAt(d) else {}) + MaskFrom(from + 1, d)
    }

    method GetSourceMask() returns (mask: SourceMask)
      requires Shape() && Valid() && rest != []
      modifies Repr
      ensures Valid() && rest == old(rest) && mask == MaskAt(rest[0])
      decreases height, 6
    {
      match kind
      case Vector => mask := sourceMask;
      case Advanced => mask := sourceMask;
      case And => mask := GetMaskAnd();
      case Or => mask := GetMaskMatching();
      case WeakAnd => mask := GetMaskMatching();
      case Not =>
        ghost var rests := Open();
        NotHead(rests, rest);
        mask := MaskChild(0, rests);
        AtRests(rests);
      case Boost => mask := GetMaskBoost();
    }

    method MaskChild(i: nat, ghost rests: seq<seq<nat>>) returns (mask: SourceMask)
      requires Shape() && At(rests) && i < |children| && rests[i] != []
      modifies children[i].Repr
      ensures At(rests) && mask == children[i].MaskAt(rests[i][0])
      decreases height, 0
    {
      mask := children[i].GetSourceMask();
    }

    method GetMaskBoost() returns (mask: SourceMask)
      requires Shape() && Valid() && kind == Boost && rest != []
      modifies Repr
      ensures Valid() && rest == old(rest) && mask == MaskAt(rest[0])
      decreases height, 5
    {
      ghost var rests := Open();
      mask := MaskChild(0, rests);
      AtRests(rests);
      var matches := BoostMatchesBase();
      if matches { mask := BoostMask(mask); }
    }

    /** The boost stands on the current document, so it can be asked. */
    method BoostMask(base: SourceMask) returns (mask: SourceMask)
      requires Shape() && Valid() && kind == Boost && rest != [] && boostDoc == rest[0]
      modifies Repr
      ensures Valid() && rest == old(rest) && mask == base + children[1].MaskAt(rest[0])
      decreases height, 4
    {
      ghost var rests := Open();
      HeadIsLeast(rest, rest[0]);
      var more := MaskChild(1, rests);
      AtRests(rests);
      mask := base + more;
    }

    method GetMaskAnd() returns (mask: SourceMask)
      requires Shape() && Valid() && kind == And && rest != []
      modifies Repr
      ensures Valid() && rest == old(rest) && mask == MaskFrom(0, rest[0])
      decreases height, 5
    {
      ghost var rests := Open();
      AndHead(rests, rest);
      var doc := GetDocumentID();
      mask := {};
      for i := 0 to |children|
        invariant Good(rests) && rest == old(rest)
        invariant mask + MaskFrom(i, rest[0]) == MaskFrom(0, rest[0])
      {
        var more := MaskIfAt(i, doc, rests);
        MaskAssociative(mask, more, MaskFrom(i + 1, rest[0]));
        mask := mask + more;
      }
      AtRests(rests);
    }

    /** A child's sources, if it stands on the document. */
    method MaskIfAt(i: nat, doc: nat, ghost rests: seq<seq<nat>>) returns (mask: SourceMask)
      requires Shape() && At(rests) && Agrees(rests, rest) && i < |children|
      requires rest != [] && doc == rest[0] <= HeadDoc(rests[i])
      modifies children[i].Repr
      ensures At(rests) && mask == if doc in children[i].all then children[i].MaskAt(doc) else {}
      decreases height, 1
    {
      AtRests(rests);
      HeadIsLeast(rest, doc);
      ChildHas(rests, rest, i);
      mask := {};
      if !children[i].IsEnd() && children[i].GetDocumentID() == doc { mask := MaskChild(i, rests); }
    }

    /** The sources of the matching children. */
    ghost function MaskOver(todo: seq<nat>, d: nat): SourceMask
      requires Shape() && forall k :: 0 <= k < |todo| ==> todo[k] < |children|
    {
      if todo == [] then {} else children[todo[0]].MaskAt(d) + MaskOver(todo[1..], d)
    }

    lemma {:induction false} MatchingMask(rests: seq<seq<nat>>, from: nat)
      requires Shape() && (kind == Or || kind == WeakAnd) && At(rests) && Agrees(rests, rest)
      requires Cached(rests, rest) && rest != [] && from <= |children|
      ensures var todo := PositionsFrom(childDocs, currentDoc, from);
              forall k :: 0 <= k < |todo| ==> todo[k] < |children|
      ensures MaskOver(PositionsFrom(childDocs, currentDoc, from), currentDoc) == MaskFrom(from, currentDoc)
      decreases |children| - from
    {
      hide AtLeast, Docs, At;
      if from < |children| {
        HeadsAbove(rests);
        ChildHas(rests, rest, from);
        MatchingMask(rests, from + 1);
        assert Heads(rests)[from] == HeadDoc(rests[from]);
      }
    }

    method GetMaskMatching() returns (mask: SourceMask)
      requires Shape() && Valid() && (kind == Or || kind == WeakAnd) && rest != []
      modifies Repr
      ensures Valid() && rest == old(rest) && mask == MaskFrom(0, rest[0])
      decreases height, 5
    {
      ghost var rests := Open();
      MatchingMask(rests, 0);
      MatchingStand(rests);
      mask := MaskChildren(matching, rests, rest[0]);
      AtRests(rests);
    }

    method MaskChildren(todo: seq<nat>, ghost rests: seq<seq<nat>>, ghost doc: nat) returns (mask: SourceMask)
      requires Shape() && At(rests) && AllOn(todo, rests, doc)
      modifies Repr - {this}
      ensures At(rests) && mask == MaskOver(todo, doc)
      decreases height, 1
    {
      mask := {};
      for k := 0 to |todo|
        invariant At(rests) && mask + MaskOver(todo[k..], doc) == MaskOver(todo, doc)
      {
        var more := MaskChild(todo[k], rests);
        assert todo[k..][1..] == todo[k + 1..];
        MaskAssociative(mask, more, MaskOver(todo[k + 1..], doc));
        mask := mask + more;
      }
    }

    // -------------------------------------------------------------- building a tree

    constructor FromPosting(posting: AdvancedIndexReader, score: (nat, Byte) -> int, sourceMask: SourceMask)
      requires posting.Settled() && Readable(posting.Remaining())
      ensures Shape() && Valid() && JustBuilt() && Repr == {this, posting, posting.decoder}
      ensures rest == DocsOf(posting.Remaining()) && kind == Advanced && initial == posting.Remaining()
      ensures this.posting == posting && this.score == score && this.sourceMask == sourceMask
    {
      ghost var docs := DocsOf(posting.Remaining());
      kind, results, children, minShouldMatch, weight := Advanced, [], [], 1, 0;
      this.posting, this.score, this.sourceMask := posting, score, sourceMask;
      pos, childDocs, matching, currentDoc, boostDoc := 0, [], [], 0, 0;
      left, initial := posting.Remaining(), posting.Remaining();
      height, Repr, all, rest := 0, {this, posting, posting.decoder}, (set d | d in docs), docs;
      new;
      ReadableStands(initial);
      assert Good([]);
    }

    constructor FromDocs(docs: seq<nat>, score: (nat, Byte) -> int, sourceMask: SourceMask)
      requires Docs(docs)
      ensures Shape() && Valid() && Repr == {this} && rest == docs && JustBuilt()
      ensures kind == Vector && this.score == score && this.sourceMask == sourceMask
    {
      kind, results, children, minShouldMatch, weight := Vector, docs, [], 1, 0;
      this.posting, this.score, this.sourceMask, left, initial := null, score, sourceMask, [], [];
      pos, childDocs, matching, currentDoc, boostDoc := 0, [], [], 0, 0;
      height, Repr, all, rest := 0, {this}, (set d | d in docs), docs;
      new;
      assert Good([]);
    }

    /** A new reader over separate children is well shaped, and stands where they stand. */
    lemma {:induction false} Assembled()
      requires Separate(children) && this !in AllRepr(children) && Repr == {this} + AllRepr(children)
      requires height > Tallest(children) && minShouldMatch >= 1 && kind != Vector && kind != Advanced
      requires kind == Not || kind == Boost ==> |children| == 2
      ensures Shape() && Rests() == RestsOf(children) && At(Rests()) && AllDocs(Rests())
    {
      forall i | 0 <= i < |children| ensures Owns(children[i]) && children[i].Shape() {
        TallestAt(children, i);
        assert children[i].Repr <= AllRepr(children);
      }
      AtRests(RestsOf(children));
    }

    /** A new reader agrees with its children: nothing has been passed. */
    lemma {:induction false} NothingPassed(rests: seq<seq<nat>>)
      requires Separate(children) && this !in AllRepr(children) && Repr == {this} + AllRepr(children)
      requires height > Tallest(children) && minShouldMatch >= 1 && kind != Vector && kind != Advanced
      requires kind == Not || kind == Boost ==> |children| == 2
      requires rests == RestsOf(children) && Docs(rest) && JustBuilt() && (Shape() ==> Means(rests, rest))
      ensures Shape() && At(rests) && AllDocs(rests) && Agrees(rests, rest)
    {
      Assembled();
      forall i | 0 <= i < |rests| ensures Ahead(rests[i], Alls()[i], rest) { assert children[i].JustBuilt(); }
    }

    constructor AndOf(children: seq<Reader>)
      requires Separate(children)
      modifies AllRepr(children)
      ensures Shape() && Valid() && Repr == {this} + AllRepr(children) && JustBuilt()
      ensures kind == And && this.children == children
      ensures Intersection(old(RestsOf(children)), rest)
    {
      hide Valid, Good, At, Agrees, Separate, AtLeast, Docs, AllDocs, Tallest;
      ghost var rests := RestsOf(children);
      SeparateDocs(children);
      ghost var r := Combine(rests, if |children| == 0 then 1 else |children|);
      kind, results, this.children, minShouldMatch, weight := And, [], children, 1, 0;
      posting, score, sourceMask, left, initial := null, (_, _) => 0, {}, [], [];
      pos, childDocs, matching, currentDoc, boostDoc := 0, [], [], 0, 0;
      height, Repr := Tallest(children) + 1, {this} + AllRepr(children);
      all, rest := (set d | d in r), r;
      new;
      NothingPassed(rests);
      AlignToPivot(rests);
      AllIsIntersection(rests, r);
    }

    constructor OrOf(children: seq<Reader>)
      requires Separate(children)
      modifies AllRepr(children)
      ensures Shape() && Valid() && Repr == {this} + AllRepr(children) && JustBuilt()
      ensures kind == Or && this.children == children
      ensures Union(old(RestsOf(children)), rest)
    {
      hide Valid, Good, At, Agrees, Separate, AtLeast, Docs, AllDocs, Tallest;
      ghost var rests := RestsOf(children);
      SeparateDocs(children);
      ghost var r := Combine(rests, 1);
      kind, results, this.children, minShouldMatch, weight := Or, [], children, 1, 0;
      posting, score, sourceMask, left, initial := null, (_, _) => 0, {}, [], [];
      pos, childDocs, matching, currentDoc, boostDoc := 0, [], [], 0, 0;
      height, Repr := Tallest(children) + 1, {this} + AllRepr(children);
      all, rest := (set d | d in r), r;
      new;
      Start(rests);
      SomeIsUnion(rests, r);
    }

    constructor WeakAndOf(children: seq<Reader>, minShouldMatch: nat)
      requires Separate(children)
      modifies AllRepr(children)
      ensures Shape() && Valid() && Repr == {this} + AllRepr(children) && JustBuilt()
      ensures kind == WeakAnd && this.children == children
      ensures AtLeast(old(RestsOf(children)), if minShouldMatch == 0 then 1 else minShouldMatch, rest)
    {
      hide Valid, Good, At, Agrees, Separate, AtLeast, Docs, AllDocs, Tallest;
      ghost var rests := RestsOf(children);
      SeparateDocs(children);
      var least := if minShouldMatch == 0 then 1 else minShouldMatch;
      ghost var r := Combine(rests, least);
      kind, results, this.children, this.minShouldMatch, weight := WeakAnd, [], children, least, 0;
      posting, score, sourceMask, left, initial := null, (_, _) => 0, {}, [], [];
      pos, childDocs, matching, currentDoc, boostDoc := 0, [], [], 0, 0;
      height, Repr := Tallest(children) + 1, {this} + AllRepr(children);
      all, rest := (set d | d in r), r;
      new;
      Start(rests);
    }

    constructor NotOf(base: Reader, exclude: Reader)
      requires Separate([base, exclude])
      modifies AllRepr([base, exclude])
      ensures Shape() && Valid() && Repr == {this} + AllRepr([base, exclude]) && JustBuilt()
      ensures kind == Not && this.children == [base, exclude]
      ensures forall d :: d in rest <==> d in old(base.rest) && d !in old(exclude.rest)
    {
      hide Valid, Good, At, Agrees, Separate, Docs, Tallest;
      ghost var cs := [base, exclude];
      ghost var rests := RestsOf(cs);
      SeparateDocs(cs);
      ghost var r := Difference(rests[0], rests[1]);
      kind, results, this.children, minShouldMatch, weight := Not, [], [base, exclude], 1, 0;
      posting, score, sourceMask, left, initial := null, (_, _) => 0, {}, [], [];
      pos, childDocs, matching, currentDoc, boostDoc := 0, [], [], 0, 0;
      height, Repr := Tallest(cs) + 1, {this} + AllRepr(cs);
      all, rest := (set d | d in r), r;
      new;
      NothingPassed(rests);
      SkipExcluded(rests);
    }

    constructor BoostOf(base: Reader, boost: Reader, boostWeight: int)
      requires Separate([base, boost])
      ensures Shape() && Valid() && Repr == {this} + AllRepr([base, boost]) && JustBuilt()
      ensures kind == Boost && this.children == [base, boost] && weight == boostWeight && rest == base.rest
    {
      hide Valid, Good, At, Agrees, Tallest;
      ghost var cs := [base, boost];
      ghost var rests := RestsOf(cs);
      SeparateDocs(cs);
      kind, results, this.children, minShouldMatch, weight := Boost, [], [base, boost], 1, boostWeight;
      posting, score, sourceMask, left, initial := null, (_, _) => 0, {}, [], [];
      pos, childDocs, matching, currentDoc, boostDoc := 0, [], [], 0, 0;
      height, Repr := Tallest(cs) + 1, {this} + AllRepr(cs);
      all, rest := (set d | d in base.rest), base.rest;
      new;
      assert rest == rests[0];
      StartBoost(rests);
    }

    /** Nothing has been passed yet. */
    ghost predicate JustBuilt()
      reads this
    {
      forall d :: d in all <==> d in rest
    }

    /** Fill the caches and stand on the first document. */
    method Start(ghost rests: seq<seq<nat>>)
      requires Separate(children) && this !in AllRepr(children) && Repr == {this} + AllRepr(children)
      requires height > Tallest(children) && minShouldMatch >= 1 && (kind == Or || kind == WeakAnd)
      requires rests == RestsOf(children) && Docs(rest) && JustBuilt()
      requires AtLeast(rests, if kind == Or then 1 else minShouldMatch, rest)
      modifies AllRepr(children), this`childDocs, this`currentDoc, this`matching
      ensures Shape() && Valid()
      decreases height, 5
    {
      hide Docs, AllDocs;
      NothingPassed(rests);
      InitializeChildDocs(rests);
      Settle(rests);
    }

    /** Cache the documents that the base and the boost stand on. */
    method StartBoost(ghost rests: seq<seq<nat>>)
      requires Separate(children) && this !in AllRepr(children) && Repr == {this} + AllRepr(children)
      requires height > Tallest(children) && minShouldMatch >= 1 && kind == Boost && |children| == 2
      requires rests == RestsOf(children) && Docs(rest) && JustBuilt() && rest == rests[0]
      modifies this`currentDoc, this`boostDoc
      ensures Shape() && Valid()
    {
      hide Docs, AllDocs, Separate;
      NothingPassed(rests);
      boostDoc := if children[1].IsEnd() then NO_MORE_DOCS else children[1].GetDocumentID();
      BaseDoc(rests);
    }

    method InitializeChildDocs(ghost rests: seq<seq<nat>>)
      requires Shape() && At(rests)
      modifies this`childDocs
      ensures childDocs == Heads(rests)
    {
      childDocs := [];
      for i := 0 to |children|
        invariant childDocs == Heads(rests)[..i]
      {
        childDocs := childDocs + [if children[i].IsEnd() then NO_MORE_DOCS else children[i].GetDocumentID()];
      }
    }
  }

  ghost function RestsOf(cs: seq<Reader>): seq<seq<nat>>
    reads cs
  {
    seq(|cs|, i requires 0 <= i < |cs| reads cs => cs[i].rest)
  }

  ghost function AllRepr(cs: seq<Reader>): set<object> {
    set i, c | 0 <= i < |cs| && c in cs[i].Repr :: c
  }

  // ---------------------------------------------------------------- posting leaves

  /** Stepped off the last posting of its list, a posting reader is at its end, but still
      returns that posting's document. */
  method StaleDocument(posting: AdvancedIndexReader) returns (leaf: Reader)
    requires posting.Settled() && Readable(posting.Remaining()) && |posting.Remaining()| == 1
    modifies posting, posting.decoder
    ensures leaf.Shape() && leaf.Valid() && leaf.IsEnd()
    ensures leaf.GetDocumentID() == old(posting.Remaining())[0].doc != NO_MORE_DOCS
  {
    StepPosting(posting);
    leaf := new Reader.FromPosting(posting, (_, _) => 0, {});
  }

  /** A difference returns what its base does, at the end too. */
  lemma {:induction false} DifferenceDocument(r: Reader)
    requires r.Shape() && r.Valid() && r.kind == Not
    ensures r.children[0].Valid() && r.GetDocumentID() == r.children[0].GetDocumentID()
    ensures r.IsEnd() <==> r.children[0].IsEnd()
  {
    var rests := r.Open();
    r.NotHead(rests, r.rest);
  }

  method StepPosting(posting: AdvancedIndexReader)
    requires posting.Settled()
    modifies posting, posting.decoder
    ensures posting.Settled()
    ensures posting.Remaining() == if old(posting.Remaining()) == [] then [] else old(posting.Remaining())[1..]
    ensures |old(posting.Remaining())| == 1 ==> posting.decoder.currentDoc == old(posting.Remaining())[0].doc
  {
    posting.GoNext();
  }

  /** Postings a reader may stand on: ascending, none the end marker. */
  ghost predicate Readable(ps: seq<Posting>) {
    Ascending(ps) && forall i :: 0 <= i < |ps| ==> ps[i].doc < NO_MORE_DOCS
  }

  /** The frequency of a document in a list. */
  function TfAt(ps: seq<Posting>, d: nat): Byte {
    if ps == [] then 0 else if ps[0].doc == d then ps[0].tf else TfAt(ps[1..], d)
  }

  /** What is left of a list: readable, with the frequencies of the list, and these documents. */
  ghost predicate Standing(initial: seq<Posting>, left: seq<Posting>, r: seq<nat>) {
    Readable(left) && r == DocsOf(left) && forall i :: 0 <= i < |left| ==> TfAt(initial, left[i].doc) == left[i].tf
  }

  lemma {:induction false} ReadableStands(ps: seq<Posting>)
    requires Readable(ps)
    ensures Standing(ps, ps, DocsOf(ps)) && Docs(DocsOf(ps))
  {
    PostingCursor(ps, 0);
    forall i | 0 <= i < |ps| ensures TfAt(ps, ps[i].doc) == ps[i].tf { TfFound(ps, i); }
  }

  lemma {:induction false} TfFound(ps: seq<Posting>, i: nat)
    requires Ascending(ps) && i < |ps|
    ensures TfAt(ps, ps[i].doc) == ps[i].tf
  {
    AscendingFromHead(ps);
    if i > 0 { TfFound(ps[1..], i - 1); }
  }

  /** Next of the postings is next of the documents. */
  lemma {:induction false} StandingNext(initial: seq<Posting>, left: seq<Posting>, r: seq<nat>)
    requires Standing(initial, left, r)
    ensures Standing(initial, if left == [] then [] else left[1..], Next(r)) && Docs(Next(r))
    ensures forall d :: d in Next(r) ==> d in r
  {
    PostingCursor(left, 0);
    if left != [] { NextIsSeek(r); }
  }

  /** Seek of the postings is seek of the documents. */
  lemma {:induction false} StandingSeek(initial: seq<Posting>, left: seq<Posting>, r: seq<nat>, t: nat)
    requires Standing(initial, left, r)
    ensures Standing(initial, DropBelow(left, t), Seek(r, t)) && Docs(Seek(r, t))
    ensures forall d :: d in Seek(r, t) ==> d in r
  {
    PostingCursor(left, t);
    SeekFacts(r, t);
    DropBelowReadable(initial, left, t);
  }

  lemma {:induction false} DropBelowReadable(initial: seq<Posting>, left: seq<Posting>, t: nat)
    requires Standing(initial, left, DocsOf(left))
    ensures Standing(initial, DropBelow(left, t), DocsOf(DropBelow(left, t)))
  {
    if left != [] && left[0].doc < t { DropBelowReadable(initial, left[1..], t); }
  }

  lemma {:induction false} MaskAssociative(a: SourceMask, b: SourceMask, c: SourceMask)
    ensures (a + b) + c == a + (b + c)
  {
  }

  ghost function Tallest(cs: seq<Reader>): nat {
    if cs == [] then 0
    else
      var last := |cs| - 1;
      var h := Tallest(cs[..last]);
      if cs[last].height > h then cs[last].height else h
  }

  lemma {:induction false} TallestAt(cs: seq<Reader>, i: nat)
    requires i < |cs|
    ensures cs[i].height <= Tallest(cs)
  {
    var last := |cs| - 1;
    if i < last { TallestAt(cs[..last], i); }
  }

  /** Readers just built that share nothing. */
  ghost predicate Separate(cs: seq<Reader>)
    reads AllRepr(cs)
  {
    && (forall i :: 0 <= i < |cs| ==> cs[i] in cs[i].Repr && cs[i].Shape() && cs[i].Valid() && cs[i].JustBuilt())
    && (forall i, j :: 0 <= i < j < |cs| ==> cs[i].Repr !! cs[j].Repr)
  }

  lemma {:induction false} SeparateDocs(cs: seq<Reader>)
    requires Separate(cs)
    ensures AllDocs(RestsOf(cs))
  {
    forall i | 0 <= i < |cs| ensures Docs(RestsOf(cs)[i]) {
      var rests := cs[i].Open();
    }
  }

  ghost predicate Together(rests: seq<seq<nat>>) {
    (exists i :: 0 <= i < |rests| && rests[i] == [])
    || forall i :: 0 <= i < |rests| ==> rests[i][0] == rests[0][0]
  }
}
