/** Sorted document ids and what the composite readers compute from them. */
module DocSets {
  import opened Postings
  import opened Layout

  const NO_MORE_DOCS: nat := 0xFFFF_FFFF_FFFF_FFFF

  /** Strictly ascending document ids. */
  ghost predicate Docs(s: seq<nat>) {
    && (forall i, j :: 0 <= i < j < |s| ==> s[i] < s[j])
    && forall i :: 0 <= i < |s| ==> s[i] < NO_MORE_DOCS
  }

  function HeadDoc(s: seq<nat>): nat { if s == [] then NO_MORE_DOCS else s[0] }

  function Next(s: seq<nat>): seq<nat> { if s == [] then [] else s[1..] }

  /** What is left once every id below `t` is passed. */
  function Seek(s: seq<nat>, t: nat): seq<nat> {
    if s == [] || s[0] >= t then s else Seek(s[1..], t)
  }

  lemma {:induction false} SeekFacts(s: seq<nat>, t: nat)
    requires Docs(s)
    ensures Docs(Seek(s, t)) && |Seek(s, t)| <= |s|
    ensures s != [] && s[0] < t ==> |Seek(s, t)| < |s|
    ensures Seek(s, t) != [] ==> t <= Seek(s, t)[0]
    ensures forall d :: d in Seek(s, t) <==> d in s && t <= d
  {
    if s != [] && s[0] < t {
      SeekFacts(s[1..], t);
      assert forall d :: d in s <==> d == s[0] || d in s[1..];
    } else if s != [] {
      forall d | d in s ensures t <= d { HeadIsLeast(s, d); }
    }
  }

  lemma {:induction false} HeadIsLeast(s: seq<nat>, d: nat)
    requires Docs(s) && d in s
    ensures s[0] <= d < NO_MORE_DOCS
  {
  }

  lemma {:induction false} HeadIsIn(s: seq<nat>)
    requires s != []
    ensures s[0] in s
  {
  }

  lemma {:induction false} NextIsSeek(s: seq<nat>)
    requires Docs(s) && s != []
    ensures Next(s) == Seek(s, s[0] + 1) && Docs(Next(s))
    ensures forall d :: d in Next(s) <==> d in s && d != s[0]
  {
  }

  /** Sorted ids are determined by their members. */
  lemma {:induction false} SameDocs(a: seq<nat>, b: seq<nat>)
    requires Docs(a) && Docs(b) && forall d :: d in a <==> d in b
    ensures a == b
  {
    if a != [] { HeadIsIn(a); }
    if b != [] { HeadIsIn(b); }
    if a != [] && b != [] {
      HeadIsLeast(a, b[0]);
      HeadIsLeast(b, a[0]);
      NextIsSeek(a);
      NextIsSeek(b);
      SameDocs(a[1..], b[1..]);
    }
  }

  /** Seeking twice is seeking to the larger target. */
  lemma {:induction false} SeekTwice(s: seq<nat>, t: nat, u: nat)
    requires Docs(s)
    ensures Seek(Seek(s, t), u) == Seek(s, if t < u then u else t)
  {
    if s != [] && s[0] < t { SeekTwice(s[1..], t, u); }
  }

  /** The ids of a set, in order. */
  lemma {:induction false} Sort(s: set<nat>) returns (r: seq<nat>)
    requires forall d :: d in s ==> d < NO_MORE_DOCS
    ensures Docs(r) && forall d :: d in r <==> d in s
    decreases |s|
  {
    if s == {} {
      r := [];
    } else {
      var top := Largest(s);
      var below := Sort(s - {top});
      r := below + [top];
      forall i | 0 <= i < |below| ensures below[i] < top { assert below[i] in below; }
      assert forall d :: d in s <==> d == top || d in s - {top};
    }
  }

  lemma {:induction false} Largest(s: set<nat>) returns (top: nat)
    requires s != {}
    ensures top in s && forall d :: d in s ==> d <= top
    decreases |s|
  {
    var x :| x in s;
    var others := s - {x};
    assert forall d :: d in s ==> d == x || d in others;
    if others == {} {
      top := x;
    } else {
      var y := Largest(others);
      top := if x < y then y else x;
    }
  }

  // ---------------------------------------------------------------- several children

  /** How many children have the document. */
  function Count(rests: seq<seq<nat>>, d: nat): (n: nat)
    ensures n <= |rests|
  {
    if rests == [] then 0 else (if d in rests[0] then 1 else 0) + Count(rests[1..], d)
  }

  lemma {:induction false} CountAll(rests: seq<seq<nat>>, d: nat)
    ensures Count(rests, d) == |rests| <==> forall i :: 0 <= i < |rests| ==> d in rests[i]
  {
    if rests != [] {
      CountAll(rests[1..], d);
      assert forall i :: 0 < i < |rests| ==> rests[i] == rests[1..][i - 1];
    }
  }

  lemma {:induction false} CountSome(rests: seq<seq<nat>>, d: nat)
    ensures Count(rests, d) >= 1 <==> exists i :: 0 <= i < |rests| && d in rests[i]
  {
    if rests != [] {
      CountSome(rests[1..], d);
      assert forall i :: 0 < i < |rests| ==> rests[i] == rests[1..][i - 1];
    }
  }

  lemma {:induction false} CountLast(rests: seq<seq<nat>>, d: nat)
    requires rests != []
    ensures Count(rests, d) == Count(rests[..|rests| - 1], d) + if d in rests[|rests| - 1] then 1 else 0
  {
    if |rests| > 1 {
      CountLast(rests[1..], d);
      assert rests[1..][..|rests| - 2] == rests[..|rests| - 1][1..];
    }
  }

  lemma {:induction false} CountSame(a: seq<seq<nat>>, b: seq<seq<nat>>, d: nat)
    requires |a| == |b| && forall i :: 0 <= i < |a| ==> (d in a[i] <==> d in b[i])
    ensures Count(a, d) == Count(b, d)
  {
    if a != [] { CountSame(a[1..], b[1..], d); }
  }

  ghost predicate AllDocs(rests: seq<seq<nat>>) {
    forall i :: 0 <= i < |rests| ==> Docs(rests[i])
  }

  /** `r` is, in order, the documents that at least `need` children have. */
  ghost predicate AtLeast(rests: seq<seq<nat>>, need: nat, r: seq<nat>) {
    Docs(r) && forall d :: d in r <==> Count(rests, d) >= need
  }

  ghost predicate Intersection(rests: seq<seq<nat>>, r: seq<nat>) {
    forall d :: d in r <==> rests != [] && forall i :: 0 <= i < |rests| ==> d in rests[i]
  }

  ghost predicate Union(rests: seq<seq<nat>>, r: seq<nat>) {
    forall d :: d in r <==> exists i :: 0 <= i < |rests| && d in rests[i]
  }

  lemma {:induction false} AllIsIntersection(rests: seq<seq<nat>>, r: seq<nat>)
    requires AtLeast(rests, if rests == [] then 1 else |rests|, r)
    ensures Intersection(rests, r)
  {
    forall d: nat
      ensures d in r <==> rests != [] && forall i :: 0 <= i < |rests| ==> d in rests[i]
    {
      CountAll(rests, d);
      assert d in r <==> Count(rests, d) >= if rests == [] then 1 else |rests|;
    }
  }

  lemma {:induction false} SomeIsUnion(rests: seq<seq<nat>>, r: seq<nat>)
    requires AtLeast(rests, 1, r)
    ensures Union(rests, r)
  {
    forall d: nat ensures d in r <==> exists i :: 0 <= i < |rests| && d in rests[i] { CountSome(rests, d); }
  }

  function Members(rests: seq<seq<nat>>): set<nat> {
    if rests == [] then {} else (set d | d in rests[0]) + Members(rests[1..])
  }

  lemma {:induction false} CountedIsMember(rests: seq<seq<nat>>, d: nat)
    requires AllDocs(rests) && Count(rests, d) >= 1
    ensures d in Members(rests) && d < NO_MORE_DOCS
  {
    if d in rests[0] { HeadIsLeast(rests[0], d); } else { CountedIsMember(rests[1..], d); }
  }

  /** The documents that enough children have can be listed. */
  lemma {:induction false} Combine(rests: seq<seq<nat>>, need: nat) returns (r: seq<nat>)
    requires AllDocs(rests) && need >= 1
    ensures AtLeast(rests, need, r)
  {
    var s := set d | d in Members(rests) && Count(rests, d) >= need;
    forall d: nat | Count(rests, d) >= need ensures d in Members(rests) && d < NO_MORE_DOCS {
      CountedIsMember(rests, d);
    }
    r := Sort(s);
  }

  function SeekAll(rests: seq<seq<nat>>, t: nat): seq<seq<nat>> {
    seq(|rests|, i requires 0 <= i < |rests| => Seek(rests[i], t))
  }

  /** Seeking in every child seeks in their combination. */
  lemma {:induction false} SeekAllAtLeast(rests: seq<seq<nat>>, need: nat, r: seq<nat>, t: nat)
    requires AllDocs(rests) && AtLeast(rests, need, r) && need >= 1
    ensures AtLeast(SeekAll(rests, t), need, Seek(r, t)) && AllDocs(SeekAll(rests, t))
  {
    SeekFacts(r, t);
    forall i | 0 <= i < |rests| ensures Docs(SeekAll(rests, t)[i]) { SeekFacts(rests[i], t); }
    forall d ensures d in Seek(r, t) <==> Count(SeekAll(rests, t), d) >= need {
      forall i | 0 <= i < |rests| ensures d in SeekAll(rests, t)[i] <==> d in rests[i] && t <= d {
        SeekFacts(rests[i], t);
      }
      if t <= d { CountSame(rests, SeekAll(rests, t), d); } else { CountSome(SeekAll(rests, t), d); }
    }
  }

  /** Number of documents left in all children. */
  function Left(rests: seq<seq<nat>>): nat {
    if rests == [] then 0 else |rests[0]| + Left(rests[1..])
  }

  lemma {:induction false} LeftFalls(a: seq<seq<nat>>, b: seq<seq<nat>>)
    requires |a| == |b| && forall i :: 0 <= i < |a| ==> |b[i]| <= |a[i]|
    ensures Left(b) <= Left(a)
    ensures (exists i :: 0 <= i < |a| && |b[i]| < |a[i]|) ==> Left(b) < Left(a)
  {
    if a != [] {
      LeftFalls(a[1..], b[1..]);
      assert forall i :: 0 < i < |a| ==> a[i] == a[1..][i - 1] && b[i] == b[1..][i - 1];
    }
  }

  // ---------------------------------------------------------------- intersection

  /** One child seeks to a pivot that no common document precedes: nothing common is lost. */
  lemma {:induction false} PivotKeeps(rests: seq<seq<nat>>, r: seq<nat>, i: nat, pivot: nat, top: nat)
    requires AllDocs(rests) && AtLeast(rests, |rests|, r) && i < |rests| && top < |rests|
    requires rests[top] != [] && pivot <= rests[top][0]
    ensures AllDocs(rests[i := Seek(rests[i], pivot)])
    ensures AtLeast(rests[i := Seek(rests[i], pivot)], |rests|, r)
  {
    var rests' := rests[i := Seek(rests[i], pivot)];
    SeekFacts(rests[i], pivot);
    forall d ensures Count(rests', d) == |rests| <==> Count(rests, d) == |rests| {
      CountAll(rests, d);
      CountAll(rests', d);
      if Count(rests, d) == |rests| {
        HeadIsLeast(rests[top], d);
        assert forall j :: 0 <= j < |rests| ==> d in rests'[j];
      }
      if Count(rests', d) == |rests| {
        assert forall j :: 0 <= j < |rests| ==> d in rests'[j] ==> d in rests[j];
      }
    }
  }

  /** Children that all stand on one document: it is the first common one. */
  lemma {:induction false} AlignedHead(rests: seq<seq<nat>>, r: seq<nat>, doc: nat)
    requires AllDocs(rests) && AtLeast(rests, |rests|, r) && rests != []
    requires forall i :: 0 <= i < |rests| ==> rests[i] != [] && rests[i][0] == doc
    ensures r != [] && r[0] == doc
  {
    assert forall i :: 0 <= i < |rests| ==> rests[i][0] in rests[i];
    CountAll(rests, doc);
    assert doc in r;
    CountAll(rests, r[0]);
    HeadIsLeast(rests[0], r[0]);
    HeadIsLeast(r, doc);
  }

  lemma {:induction false} ExhaustedChild(rests: seq<seq<nat>>, r: seq<nat>, i: nat)
    requires AtLeast(rests, |rests|, r) && i < |rests| && rests[i] == []
    ensures r == []
  {
    if r != [] {
      HeadIsIn(r);
      CountAll(rests, r[0]);
    }
  }

  // ---------------------------------------------------------------- union, at least m

  function Heads(rests: seq<seq<nat>>): seq<nat> {
    seq(|rests|, i requires 0 <= i < |rests| => HeadDoc(rests[i]))
  }

  /** The smallest of the children's current documents. */
  function Least(docs: seq<nat>): nat { LeastFrom(docs, 0) }

  function LeastFrom(docs: seq<nat>, from: nat): nat
    decreases |docs| - from
  {
    if from >= |docs| then NO_MORE_DOCS
    else
      var later := LeastFrom(docs, from + 1);
      if docs[from] < later then docs[from] else later
  }

  lemma {:induction false} LeastFacts(docs: seq<nat>, from: nat)
    ensures LeastFrom(docs, from) <= NO_MORE_DOCS
    ensures forall i :: from <= i < |docs| ==> LeastFrom(docs, from) <= docs[i]
    ensures LeastFrom(docs, from) < NO_MORE_DOCS ==> LeastFrom(docs, from) in docs
    decreases |docs| - from
  {
    if from < |docs| { LeastFacts(docs, from + 1); }
  }

  /** Positions of `doc`, in order. */
  function Positions(docs: seq<nat>, doc: nat): seq<nat> { PositionsFrom(docs, doc, 0) }

  function PositionsFrom(docs: seq<nat>, doc: nat, from: nat): seq<nat>
    decreases |docs| - from
  {
    if from >= |docs| then []
    else if docs[from] == doc then [from] + PositionsFrom(docs, doc, from + 1)
    else PositionsFrom(docs, doc, from + 1)
  }

  lemma {:induction false} PositionsFacts(docs: seq<nat>, doc: nat, from: nat)
    ensures forall i: nat :: i in PositionsFrom(docs, doc, from) <==> from <= i < |docs| && docs[i] == doc
    decreases |docs| - from
  {
    if from < |docs| { PositionsFacts(docs, doc, from + 1); }
  }

  lemma {:induction false} PositionsDistinct(docs: seq<nat>, doc: nat, from: nat, k: nat)
    requires k < |PositionsFrom(docs, doc, from)|
    ensures PositionsFrom(docs, doc, from)[k] !in PositionsFrom(docs, doc, from)[..k]
    decreases |docs| - from
  {
    if docs[from] != doc {
      PositionsDistinct(docs, doc, from + 1, k);
    } else if k > 0 {
      var later := PositionsFrom(docs, doc, from + 1);
      PositionsDistinct(docs, doc, from + 1, k - 1);
      PositionsFacts(docs, doc, from + 1);
      assert later[k - 1] in later;
      assert PositionsFrom(docs, doc, from)[..k] == [from] + later[..k - 1];
    }
  }

  /** The children standing on the smallest document are the children that have it. */
  lemma {:induction false} MatchingCount(rests: seq<seq<nat>>, doc: nat, from: nat)
    requires AllDocs(rests) && doc < NO_MORE_DOCS && forall i :: 0 <= i < |rests| ==> doc <= HeadDoc(rests[i])
    requires from <= |rests|
    ensures |PositionsFrom(Heads(rests), doc, from)| == Count(rests[from..], doc)
    decreases |rests| - from
  {
    if from < |rests| {
      MatchingCount(rests, doc, from + 1);
      assert rests[from..][1..] == rests[from + 1..];
      if doc in rests[from] { HeadIsLeast(rests[from], doc); }
    }
  }

  /** No document below the smallest head is in any child. */
  lemma {:induction false} NothingBelow(rests: seq<seq<nat>>, need: nat, r: seq<nat>, doc: nat)
    requires AllDocs(rests) && AtLeast(rests, need, r) && need >= 1
    requires forall i :: 0 <= i < |rests| ==> doc <= HeadDoc(rests[i])
    ensures forall d :: d in r ==> doc <= d
  {
    forall d | d in r ensures doc <= d {
      CountSome(rests, d);
      var i :| 0 <= i < |rests| && d in rests[i];
      HeadIsLeast(rests[i], d);
    }
  }

  lemma {:induction false} HeadsAbove(rests: seq<seq<nat>>)
    ensures forall i :: 0 <= i < |rests| ==> Least(Heads(rests)) <= HeadDoc(rests[i])
  {
    LeastFacts(Heads(rests), 0);
    forall i | 0 <= i < |rests| ensures Least(Heads(rests)) <= HeadDoc(rests[i]) {
      assert Heads(rests)[i] == HeadDoc(rests[i]);
    }
  }

  /** Enough children on the smallest document: it is the next result. Too few: it is
      none, and passing it loses nothing. */
  lemma {:induction false} LeastHead(rests: seq<seq<nat>>, need: nat, r: seq<nat>, doc: nat)
    requires AllDocs(rests) && AtLeast(rests, need, r) && need >= 1
    requires doc == Least(Heads(rests))
    ensures doc == NO_MORE_DOCS ==> r == []
    ensures doc < NO_MORE_DOCS ==> |Positions(Heads(rests), doc)| >= 1
    ensures doc < NO_MORE_DOCS && |Positions(Heads(rests), doc)| >= need ==> r != [] && r[0] == doc
    ensures doc < NO_MORE_DOCS && |Positions(Heads(rests), doc)| < need ==> Seek(r, doc + 1) == r
  {
    HeadsAbove(rests);
    NothingBelow(rests, need, r, doc);
    if doc < NO_MORE_DOCS {
      MatchingCount(rests, doc, 0);
      assert rests[0..] == rests;
      LeastFacts(Heads(rests), 0);
      PositionsFacts(Heads(rests), doc, 0);
      var i: nat :| i < |rests| && Heads(rests)[i] == doc;
      assert i in Positions(Heads(rests), doc);
      if r != [] { assert r[0] in r; }
      if doc in r { HeadIsLeast(r, doc); }
    } else if r != [] {
      assert r[0] in r;
    }
  }

  /** Passing the smallest document moves exactly the children that stand on it. */
  lemma {:induction false} PassLeast(s: seq<nat>, doc: nat)
    requires Docs(s) && doc <= HeadDoc(s)
    ensures Seek(s, doc + 1) == if HeadDoc(s) == doc then Next(s) else s
  {
  }

  /** The first k of `todo` have been stepped. */
  ghost predicate Stepped(rests: seq<seq<nat>>, cur: seq<seq<nat>>, todo: seq<nat>, k: nat)
    requires k <= |todo|
  {
    |cur| == |rests| && forall i: nat :: i < |rests| ==> cur[i] == if i in todo[..k] then Next(rests[i]) else rests[i]
  }

  lemma {:induction false} StepOneMore(rests: seq<seq<nat>>, cur: seq<seq<nat>>, doc: nat, k: nat)
    requires k < |Positions(Heads(rests), doc)| && Stepped(rests, cur, Positions(Heads(rests), doc), k)
    ensures var todo := Positions(Heads(rests), doc);
            todo[k] < |rests| && cur[todo[k]] == rests[todo[k]]
            && Stepped(rests, cur[todo[k] := Next(cur[todo[k]])], todo, k + 1)
  {
    var todo := Positions(Heads(rests), doc);
    var index := todo[k];
    assert index in todo;
    PositionsDistinct(Heads(rests), doc, 0, k);
    PositionsFacts(Heads(rests), doc, 0);
    assert forall i: nat :: i in todo[..k + 1] <==> i in todo[..k] || i == index;
  }

  lemma {:induction false} PassMatching(rests: seq<seq<nat>>, cur: seq<seq<nat>>, doc: nat)
    requires AllDocs(rests) && forall i :: 0 <= i < |rests| ==> doc <= HeadDoc(rests[i])
    requires var todo := Positions(Heads(rests), doc); Stepped(rests, cur, todo, |todo|)
    ensures cur == SeekAll(rests, doc + 1)
  {
    var todo := Positions(Heads(rests), doc);
    assert todo[..|todo|] == todo;
    PositionsFacts(Heads(rests), doc, 0);
    forall i: nat | i < |rests| ensures cur[i] == Seek(rests[i], doc + 1) {
      PassLeast(rests[i], doc);
      assert i in todo <==> Heads(rests)[i] == doc;
    }
  }

  lemma {:induction false} LeastPassed(rests: seq<seq<nat>>, doc: nat)
    requires AllDocs(rests) && doc == Least(Heads(rests)) && doc < NO_MORE_DOCS
    ensures Left(SeekAll(rests, doc + 1)) < Left(rests)
  {
    forall i | 0 <= i < |rests| ensures |SeekAll(rests, doc + 1)[i]| <= |rests[i]| {
      SeekFacts(rests[i], doc + 1);
    }
    LeastFacts(Heads(rests), 0);
    var i :| 0 <= i < |rests| && Heads(rests)[i] == doc;
    SeekFacts(rests[i], doc + 1);
    LeftFalls(rests, SeekAll(rests, doc + 1));
  }

  // ---------------------------------------------------------------- difference

  /** `r` is, in order, the documents of `base` that `exclude` does not have. */
  ghost predicate Without(base: seq<nat>, exclude: seq<nat>, r: seq<nat>) {
    Docs(r) && forall d :: d in r <==> d in base && d !in exclude
  }

  lemma {:induction false} Difference(base: seq<nat>, exclude: seq<nat>) returns (r: seq<nat>)
    requires Docs(base)
    ensures Without(base, exclude, r)
  {
    forall d | d in base ensures d < NO_MORE_DOCS { HeadIsLeast(base, d); }
    r := Sort(set d | d in base && d !in exclude);
  }

  /** Seeking in the base seeks in the difference; the exclusion may lag behind, or run up
      to the base's position, without any effect. */
  lemma {:induction false} SeekWithout(base: seq<nat>, exclude: seq<nat>, r: seq<nat>, t: nat, u: nat)
    requires Docs(base) && Docs(exclude) && Without(base, exclude, r)
    requires Seek(base, t) != [] ==> u <= Seek(base, t)[0]
    ensures Without(Seek(base, t), Seek(exclude, u), Seek(r, t))
  {
    SeekFacts(base, t);
    SeekFacts(exclude, u);
    SeekFacts(r, t);
    forall d | d in Seek(base, t) ensures d in Seek(exclude, u) <==> d in exclude { HeadIsLeast(Seek(base, t), d); }
  }

  // ---------------------------------------------------------------- no lookahead past a result

  /** Documents still to come have not been passed by the child. */
  ghost predicate Ahead(rest: seq<nat>, all: set<nat>, r: seq<nat>) {
    forall d :: d in r && d in all ==> d in rest
  }

  ghost predicate AllAhead(rests: seq<seq<nat>>, alls: seq<set<nat>>, r: seq<nat>) {
    |rests| == |alls| && forall i :: 0 <= i < |rests| ==> Ahead(rests[i], alls[i], r)
  }

  lemma {:induction false} SeekAhead(rest: seq<nat>, all: set<nat>, r: seq<nat>, t: nat, u: nat)
    requires Docs(rest) && Docs(r) && Ahead(rest, all, r)
    requires Seek(r, t) != [] ==> u <= Seek(r, t)[0]
    ensures Ahead(Seek(rest, u), all, Seek(r, t))
  {
    SeekFacts(rest, u);
    SeekFacts(r, t);
    forall d | d in Seek(r, t) && d in all ensures d in Seek(rest, u) { HeadIsLeast(Seek(r, t), d); }
  }

  lemma {:induction false} SeekAllAhead(rests: seq<seq<nat>>, alls: seq<set<nat>>, r: seq<nat>, t: nat)
    requires AllDocs(rests) && Docs(r) && AllAhead(rests, alls, r)
    ensures AllAhead(SeekAll(rests, t), alls, Seek(r, t))
  {
    SeekFacts(r, t);
    if Seek(r, t) != [] { HeadIsIn(Seek(r, t)); }
    forall i | 0 <= i < |rests| ensures Ahead(SeekAll(rests, t)[i], alls[i], Seek(r, t)) {
      SeekAhead(rests[i], alls[i], r, t, t);
    }
  }

  // ---------------------------------------------------------------- the leaf reader

  function DocsOf(ps: seq<Posting>): seq<nat> {
    if ps == [] then [] else [ps[0].doc] + DocsOf(ps[1..])
  }

  lemma {:induction false} DocsOfAt(ps: seq<Posting>)
    ensures |DocsOf(ps)| == |ps| && forall i :: 0 <= i < |ps| ==> DocsOf(ps)[i] == ps[i].doc
  {
    if ps != [] { DocsOfAt(ps[1..]); }
  }

  lemma {:induction false} AscendingFromHead(ps: seq<Posting>)
    requires Ascending(ps) && ps != []
    ensures forall i :: 0 < i < |ps| ==> ps[0].doc < ps[i].doc
  {
    if |ps| > 1 {
      AscendingFromHead(ps[1..]);
      forall i | 0 < i < |ps| ensures ps[0].doc < ps[i].doc { assert ps[1..][i - 1] == ps[i]; }
    }
  }

  lemma {:induction false} DocsCons(d: nat, s: seq<nat>)
    requires Docs(s) && d < NO_MORE_DOCS && forall i :: 0 <= i < |s| ==> d < s[i]
    ensures Docs([d] + s)
  {
  }

  /** The posting reader's cursor is a cursor in this sense: next is next, seek is seek. */
  lemma {:induction false} PostingCursor(ps: seq<Posting>, t: nat)
    requires Ascending(ps) && forall i :: 0 <= i < |ps| ==> ps[i].doc < NO_MORE_DOCS
    ensures Docs(DocsOf(ps)) && DocsOf(DropBelow(ps, t)) == Seek(DocsOf(ps), t)
    ensures ps != [] ==> DocsOf(ps[1..]) == Next(DocsOf(ps))
  {
    if ps != [] {
      PostingCursor(ps[1..], t);
      AscendingFromHead(ps);
      DocsOfAt(ps[1..]);
      DocsCons(ps[0].doc, DocsOf(ps[1..]));
      assert DocsOf(ps)[1..] == DocsOf(ps[1..]);
    }
  }
}
