/** The bigram arm ranks: when it does not change which documents match, exactly. */
module BigramArm {
  import opened Options
  import opened Bytes
  import opened TermTable
  import opened StreamIndex
  import opened QueryCompiler

  /** Documents of an optional tree; no tree matches nothing. */
  predicate MatchesAny(node: Option<EvalNode>, index: Index, doc: nat) {
    node.Some? && Matches(node.value, index, doc)
  }

  /** A place whose pair the index can have documents for. */
  predicate Live(terms: seq<QueryTerm>, p: nat) {
    Place(terms, p) && terms[p].streams != [] && Storable(terms[p].term, terms[p + 1].term)
  }

  predicate InPair(terms: seq<QueryTerm>, p: nat, i: nat)
    requires p + 1 < |terms| && i < |terms|
  {
    terms[i].term == terms[p].term || terms[i].term == terms[p + 1].term
  }

  // ---------------------------------------------------------------- default mode

  /** A document of the pair is one of term i: it is a word of the pair, on all its streams. */
  predicate Covers(terms: seq<QueryTerm>, p: nat, i: nat)
    requires i < |terms|
  {
    Place(terms, p) && InPair(terms, p, i) && forall s :: s in terms[p].streams ==> s in terms[i].streams
  }

  ghost predicate CoveredAt(terms: seq<QueryTerm>, i: nat)
    requires i < |terms|
  {
    exists p: nat :: Covers(terms, p, i)
  }

  ghost predicate Covered(terms: seq<QueryTerm>) {
    forall i :: 0 <= i < |terms| ==> CoveredAt(terms, i)
  }

  ghost predicate NoPlace(terms: seq<QueryTerm>) { forall p: nat :: !Place(terms, p) }

  /** No pairs at all; or a pair the index cannot hold, so that no document has them all; or
      every term covered by a pair. */
  ghost predicate DefaultHarmless(terms: seq<QueryTerm>) {
    NoPlace(terms) || (exists p: nat :: Place(terms, p) && !Live(terms, p)) || Covered(terms)
  }

  ghost predicate Uniform(terms: seq<QueryTerm>) {
    forall i :: 0 <= i < |terms| ==> terms[i].streams == terms[0].streams
  }

  lemma {:induction false} UniformIsHarmless(terms: seq<QueryTerm>)
    requires Uniform(terms)
    ensures DefaultHarmless(terms)
  {
    if |terms| >= 2 {
      forall i | 0 <= i < |terms| ensures CoveredAt(terms, i) {
        var p: nat := if i + 1 < |terms| then i else i - 1;
        assert Covers(terms, p, i);
      }
    }
  }

  lemma {:induction false} NoPlaceNoGroup(terms: seq<QueryTerm>)
    ensures BigramGroups(terms) == [] <==> NoPlace(terms)
  {
    if BigramGroups(terms) != [] { var p := GroupPlace(terms, 0); }
    if p: nat :| Place(terms, p) { var g := PlaceGroup(terms, p); }
  }

  /** The arm of default mode asks for every pair. */
  lemma {:induction false} DefaultArm(index: Index, terms: seq<QueryTerm>, doc: nat)
    ensures BuildBigramQuery(terms).Some? <==> !NoPlace(terms)
    ensures MatchesAny(BuildBigramQuery(terms), index, doc)
            <==> !NoPlace(terms) && forall p: nat :: Place(terms, p) ==> Matches(PairGroup(terms, p), index, doc)
  {
    hide PairGroup;
    var groups := BigramGroups(terms);
    NoPlaceNoGroup(terms);
    if |groups| > 1 { assert And(groups).children == groups; }
    forall p: nat | Place(terms, p) ensures PairGroup(terms, p) in groups { var g := PlaceGroup(terms, p); }
    forall g | 0 <= g < |groups| ensures exists p: nat :: Place(terms, p) && groups[g] == PairGroup(terms, p) {
      var p := GroupPlace(terms, g);
    }
  }

  /** A document of the bigram arm is one of the unigram arm. */
  lemma {:induction false} DefaultArmWithin(index: Index, terms: seq<QueryTerm>, doc: nat)
    requires PairsWithin(index, terms) && DefaultHarmless(terms)
    requires MatchesAny(BuildBigramQuery(terms), index, doc)
    ensures terms != [] && Matches(UnigramBase(terms), index, doc)
  {
    DefaultArm(index, terms, doc);
    forall p: nat | Place(terms, p) ensures Live(terms, p) { var s := PairMatches(index, terms, p, doc); }
    forall i | 0 <= i < |terms| ensures Matches(UnigramGroups(terms)[i], index, doc) {
      assert CoveredAt(terms, i);
      var p: nat :| Covers(terms, p, i);
      var s := PairMatches(index, terms, p, doc);
      GroupMatches(terms[i].term, terms[i].streams, 1, index, doc);
    }
    if |terms| > 1 { assert And(UnigramGroups(terms)).children == UnigramGroups(terms); }
  }

  // ---------------------------------------------------------------- weak-and mode

  /** How many of the first n terms a document has that has the pair on stream s. */
  function Support(terms: seq<QueryTerm>, p: nat, s: Byte, n: nat): nat
    requires p + 1 < |terms| && n <= |terms|
  {
    if n == 0 then 0
    else Support(terms, p, s, n - 1) + if InPair(terms, p, n - 1) && s in terms[n - 1].streams then 1 else 0
  }

  /** Every pair the index can hold brings along as many terms as are asked for. */
  ghost predicate WeakAndHarmless(terms: seq<QueryTerm>) {
    forall p: nat, s :: Live(terms, p) && s in terms[p].streams
      ==> Support(terms, p, s, |terms|) >= MinShouldMatch(|terms|)
  }

  /** The arm of weak-and mode asks for one pair. */
  lemma {:induction false} WeakAndArm(index: Index, terms: seq<QueryTerm>, doc: nat)
    ensures BuildAnyBigramQuery(terms).Some? <==> !NoPlace(terms)
    ensures MatchesAny(BuildAnyBigramQuery(terms), index, doc)
            <==> exists p: nat :: Place(terms, p) && Matches(PairGroup(terms, p), index, doc)
  {
    hide PairGroup;
    var groups := BigramGroups(terms);
    NoPlaceNoGroup(terms);
    if |groups| > 1 { assert Or(groups).children == groups; }
    forall p: nat | Place(terms, p) ensures PairGroup(terms, p) in groups { var g := PlaceGroup(terms, p); }
    forall g | 0 <= g < |groups| ensures exists p: nat :: Place(terms, p) && groups[g] == PairGroup(terms, p) {
      var p := GroupPlace(terms, g);
    }
  }

  lemma {:induction false} SupportMatches(node: EvalNode, terms: seq<QueryTerm>, p: nat, s: Byte, n: nat,
                                          index: Index, doc: nat)
    requires node.WeakAnd? && node.children == UnigramGroups(terms) && p + 1 < |terms| && n <= |terms|
    requires index(StreamKey(terms[p].term, s), doc) && index(StreamKey(terms[p + 1].term, s), doc)
    ensures MatchCount(node, n, index, doc) >= Support(terms, p, s, n)
  {
    if n > 0 {
      SupportMatches(node, terms, p, s, n - 1, index, doc);
      GroupMatches(terms[n - 1].term, terms[n - 1].streams, 1, index, doc);
    }
  }

  /** A document of one pair has the matches the weak-and asks for. */
  lemma {:induction false} WeakAndArmWithin(index: Index, terms: seq<QueryTerm>, doc: nat)
    requires PairsWithin(index, terms) && WeakAndHarmless(terms)
    requires MatchesAny(BuildAnyBigramQuery(terms), index, doc)
    ensures terms != [] && Matches(WeakAndBase(terms), index, doc)
  {
    WeakAndArm(index, terms, doc);
    var p: nat :| Place(terms, p) && Matches(PairGroup(terms, p), index, doc);
    var s := PairMatches(index, terms, p, doc);
    assert Live(terms, p);
    SupportMatches(WeakAndBase(terms), terms, p, s, |terms|, index, doc);
  }

  lemma {:induction false} SupportMonotone(terms: seq<QueryTerm>, p: nat, s: Byte, m: nat, n: nat)
    requires p + 1 < |terms| && m <= n <= |terms|
    ensures Support(terms, p, s, m) <= Support(terms, p, s, n)
  {
    if m < n { SupportMonotone(terms, p, s, m, n - 1); }
  }

  /** A pair brings its own two terms, so up to five terms are always harmless. */
  lemma {:induction false} FewTermsAreHarmless(terms: seq<QueryTerm>)
    requires |terms| <= 5
    ensures WeakAndHarmless(terms)
  {
    forall p: nat, s | Live(terms, p) && s in terms[p].streams
      ensures Support(terms, p, s, |terms|) >= MinShouldMatch(|terms|)
    {
      SupportMonotone(terms, p, s, p + 2, |terms|);
    }
  }

  // ---------------------------------------------------------------- one run of terms

  /** What a run of terms must meet for its arm to be without effect. */
  ghost predicate Harmless(tokens: seq<QueryTerm>, mode: Mode) {
    match mode
    case Default => DefaultHarmless(tokens)
    case WeakAndBigram => WeakAndHarmless(FilterTerms(tokens))
    case WeakAndBigramBoost => true
  }

  ghost predicate PairsOk(index: Index, tokens: seq<QueryTerm>) {
    PairsWithin(index, tokens) && PairsWithin(index, FilterTerms(tokens))
  }

  lemma {:induction false} OrOfTwo(a: EvalNode, b: EvalNode, index: Index, doc: nat)
    ensures Matches(Or([a, b]), index, doc) <==> Matches(a, index, doc) || Matches(b, index, doc)
  {
    var cs := Or([a, b]).children;
    assert cs[0] == a && cs[1] == b;
  }

  /** What the arm adds, by mode. */
  ghost function ArmOf(tokens: seq<QueryTerm>, mode: Mode): Option<EvalNode> {
    match mode
    case Default => BuildBigramQuery(tokens)
    case WeakAndBigram => BuildAnyBigramQuery(FilterTerms(tokens))
    case WeakAndBigramBoost => None
  }

  /** With its arm, a run of terms has the documents of the arm besides its own. */
  lemma {:induction false} ArmAdds(index: Index, tokens: seq<QueryTerm>, mode: Mode, weight: int, doc: nat)
    ensures MatchesAny(ImplicitExpression(tokens, mode, true, weight), index, doc)
            <==> MatchesAny(ImplicitExpression(tokens, mode, false, weight), index, doc)
                 || MatchesAny(ArmOf(tokens, mode), index, doc)
    ensures ImplicitExpression(tokens, mode, true, weight).Some?
            <==> ImplicitExpression(tokens, mode, false, weight).Some?
  {
    var arm := ArmOf(tokens, mode);
    if arm.Some? {
      var terms := if mode.Default? then tokens else FilterTerms(tokens);
      assert terms != [];
      OrOfTwo(arm.value, UnigramBase(terms), index, doc);
      OrOfTwo(WeakAndBase(terms), arm.value, index, doc);
    }
  }

  /** With or without the arm, a run of terms has the same documents. */
  lemma {:induction false} ArmAddsNothing(index: Index, tokens: seq<QueryTerm>, mode: Mode, weight: int, doc: nat)
    requires PairsOk(index, tokens) && Harmless(tokens, mode)
    ensures MatchesAny(ImplicitExpression(tokens, mode, true, weight), index, doc)
            <==> MatchesAny(ImplicitExpression(tokens, mode, false, weight), index, doc)
    ensures ImplicitExpression(tokens, mode, true, weight).Some?
            <==> ImplicitExpression(tokens, mode, false, weight).Some?
  {
    ArmAdds(index, tokens, mode, weight, doc);
    if MatchesAny(ArmOf(tokens, mode), index, doc) {
      match mode
      case Default => DefaultArmWithin(index, tokens, doc);
      case WeakAndBigram => WeakAndArmWithin(index, FilterTerms(tokens), doc);
      case WeakAndBigramBoost =>
    }
  }

  /** Excluded terms included. */
  lemma {:induction false} MinusUnchanged(index: Index, positive: seq<QueryTerm>, negative: seq<QueryTerm>,
                                          mode: Mode, weight: int, doc: nat)
    requires PairsOk(index, positive) && Harmless(positive, mode)
    requires PairsOk(index, negative) && Harmless(negative, mode)
    ensures MatchesAny(MinusExpression(positive, negative, mode, true, weight), index, doc)
            <==> MatchesAny(MinusExpression(positive, negative, mode, false, weight), index, doc)
  {
    ArmAddsNothing(index, positive, mode, weight, doc);
    ArmAddsNothing(index, negative, mode, weight, doc);
  }

  // ---------------------------------------------------------------- after any history of writes

  ghost function IndexOf(h: seq<WriteOp>): Index { (key: Key, doc: nat) => Indexed(h, key, doc) }

  ghost predicate CleanTerms(terms: seq<QueryTerm>) {
    forall i :: 0 <= i < |terms| ==> Clean(terms[i].term)
  }

  lemma {:induction false} WrittenPairsWithin(h: seq<WriteOp>, terms: seq<QueryTerm>)
    requires CleanHistory(h) && CleanTerms(terms)
    ensures PairsWithin(IndexOf(h), terms)
  {
    forall i | 0 <= i < |terms| - 1 ensures PairWithin(IndexOf(h), terms[i].term, terms[i + 1].term) {
      var a, b := terms[i].term, terms[i + 1].term;
      forall s, doc | IndexOf(h)(StreamKey(Bigram(a, b), s), doc)
        ensures Storable(a, b) && IndexOf(h)(StreamKey(a, s), doc) && IndexOf(h)(StreamKey(b, s), doc)
      {
        PairsWithinWords(h, a, b, s, doc);
      }
    }
  }

  /** Shortest term the filter keeps: two bytes, if there is any such term. */
  ghost function Shortest(tokens: seq<QueryTerm>): nat {
    if exists t :: t in tokens && |t.term| >= 2 then 2 else 1
  }

  /** Each token that is long enough survives once, in the order of first occurrence. */
  lemma {:induction false} FilterFacts(tokens: seq<QueryTerm>)
    ensures forall t :: t in FilterTerms(tokens) <==> t in tokens && |t.term| >= Shortest(tokens)
    ensures InFirstOrder(FilterTerms(tokens), tokens)
  {
    SelectFacts(tokens, 2);
    SelectFacts(tokens, 1);
    DedupeFacts(Select(tokens, 2));
    DedupeFacts(Select(tokens, 1));
    var long := Dedupe(Select(tokens, 2));
    if t :| t in tokens && |t.term| >= 2 { assert t in long; }
    if long != [] { assert long[0] in long; }
    var n := Shortest(tokens);
    forall i, j | 0 <= i < j < |FilterTerms(tokens)|
      ensures FirstAt(tokens, FilterTerms(tokens)[i]) < FirstAt(tokens, FilterTerms(tokens)[j])
    {
      var x, y := FilterTerms(tokens)[i], FilterTerms(tokens)[j];
      assert x in FilterTerms(tokens) && y in FilterTerms(tokens);
      SelectOrder(tokens, n, x, y);
    }
  }

  /** Where a token first occurs. */
  function FirstAt(tokens: seq<QueryTerm>, t: QueryTerm): nat {
    if tokens == [] || tokens[0] == t then 0 else 1 + FirstAt(tokens[1..], t)
  }

  ghost predicate InFirstOrder(kept: seq<QueryTerm>, tokens: seq<QueryTerm>) {
    forall i, j :: 0 <= i < j < |kept| ==> FirstAt(tokens, kept[i]) < FirstAt(tokens, kept[j])
  }

  lemma {:induction false} SelectFacts(tokens: seq<QueryTerm>, atLeast: nat)
    ensures forall t :: t in Select(tokens, atLeast) <==> t in tokens && |t.term| >= atLeast
  {
    if tokens != [] { SelectFacts(tokens[1..], atLeast); }
  }

  lemma {:induction false} SelectOrder(tokens: seq<QueryTerm>, atLeast: nat, x: QueryTerm, y: QueryTerm)
    requires x in tokens && y in tokens && |x.term| >= atLeast && |y.term| >= atLeast
    requires FirstAt(Select(tokens, atLeast), x) < FirstAt(Select(tokens, atLeast), y)
    ensures FirstAt(tokens, x) < FirstAt(tokens, y)
  {
    var rest := Select(tokens[1..], atLeast);
    if |tokens[0].term| >= atLeast {
      assert Select(tokens, atLeast)[1..] == rest;
    } else {
      assert Select(tokens, atLeast) == rest;
    }
    if x != tokens[0] && y != tokens[0] { SelectOrder(tokens[1..], atLeast, x, y); }
  }

  lemma {:induction false} FirstAtAppend(tokens: seq<QueryTerm>, more: seq<QueryTerm>, t: QueryTerm)
    ensures t in tokens ==> FirstAt(tokens + more, t) == FirstAt(tokens, t) < |tokens|
    ensures t !in tokens ==> FirstAt(tokens + more, t) == |tokens| + FirstAt(more, t)
  {
    if tokens == [] {
      assert tokens + more == more;
    } else {
      assert (tokens + more)[1..] == tokens[1..] + more;
      FirstAtAppend(tokens[1..], more, t);
    }
  }

  lemma {:induction false} DedupeFacts(tokens: seq<QueryTerm>)
    ensures forall t :: t in Dedupe(tokens) <==> t in tokens
    ensures InFirstOrder(Dedupe(tokens), tokens)
  {
    if tokens != [] {
      var last := |tokens| - 1;
      var before := Dedupe(tokens[..last]);
      DedupeFacts(tokens[..last]);
      assert tokens == tokens[..last] + [tokens[last]];
      forall i | 0 <= i < |before|
        ensures before[i] in tokens[..last] && FirstAt(tokens, before[i]) == FirstAt(tokens[..last], before[i]) < last
      {
        assert before[i] in before;
        FirstAtAppend(tokens[..last], [tokens[last]], before[i]);
      }
      if tokens[last] !in before { FirstAtAppend(tokens[..last], [tokens[last]], tokens[last]); }
    }
  }

  lemma {:induction false} FilterPairsOk(h: seq<WriteOp>, tokens: seq<QueryTerm>)
    requires CleanHistory(h) && CleanTerms(tokens)
    ensures CleanTerms(FilterTerms(tokens)) && PairsOk(IndexOf(h), tokens)
  {
    FilterFacts(tokens);
    var terms := FilterTerms(tokens);
    forall i | 0 <= i < |terms| ensures Clean(terms[i].term) { assert terms[i] in terms && terms[i] in tokens; }
    WrittenPairsWithin(h, tokens);
    WrittenPairsWithin(h, terms);
  }

  /** With and without the arm, the same documents, after any history of clean writes. */
  ghost predicate AlwaysSame(tokens: seq<QueryTerm>, mode: Mode) {
    forall h, doc :: CleanHistory(h) ==> SameAfter(h, tokens, mode, doc)
  }

  ghost predicate SameAfter(h: seq<WriteOp>, tokens: seq<QueryTerm>, mode: Mode, doc: nat) {
    MatchesAny(ImplicitExpression(tokens, mode, true, 0), IndexOf(h), doc)
    <==> MatchesAny(ImplicitExpression(tokens, mode, false, 0), IndexOf(h), doc)
  }

  lemma {:induction false} HarmlessIsSame(tokens: seq<QueryTerm>, mode: Mode)
    requires CleanTerms(tokens) && Harmless(tokens, mode)
    ensures AlwaysSame(tokens, mode)
  {
    forall h, doc | CleanHistory(h) ensures SameAfter(h, tokens, mode, doc) {
      FilterPairsOk(h, tokens);
      ArmAddsNothing(IndexOf(h), tokens, mode, 0, doc);
    }
  }

  // ---------------------------------------------------------------- histories that tell them apart

  lemma {:induction false} BigramNotClean(a: Word, b: Word)
    ensures !Clean(Bigram(a, b))
  {
    assert Bigram(a, b)[|a|] == BIGRAM_SEP;
  }

  /** A write of two words has their pair on its stream, and no clean term but the two. */
  lemma {:induction false} WriteOfTwo(op: WriteOp, a: Word, b: Word)
    requires op.words == [a, b] && a != [] && b != [] && Clean(a) && Clean(b)
    ensures Writes(op, StreamKey(Bigram(a, b), op.stream))
    ensures forall t, s :: Clean(t) && Writes(op, StreamKey(t, s)) ==> s == op.stream && (t == a || t == b)
  {
    var words, key := op.words, StreamKey(Bigram(a, b), op.stream);
    assert key[..|key| - 1] == Bigram(a, b);
    assert PairAt(words, 0, Bigram(a, b));
    PairOccurs(words, 2, Bigram(a, b));
    forall t, s | Clean(t) && Writes(op, StreamKey(t, s)) ensures s == op.stream && (t == a || t == b) {
      assert StreamKey(t, s)[..|StreamKey(t, s)| - 1] == t;
      WordOccurs(words, 2, t);
      PairOccurs(words, 2, t);
      BigramNotClean(a, b);
      assert words[..2] == words;
    }
  }

  /** A stream of the pair that term i, if it is a word of the pair, is not asked on. */
  ghost predicate Apart(terms: seq<QueryTerm>, p: nat, i: nat, s: Byte)
    requires p + 1 < |terms| && i < |terms|
  {
    s in terms[p].streams && (InPair(terms, p, i) ==> s !in terms[i].streams)
  }

  /** The write for place p: its pair, on a stream apart from term i. */
  ghost predicate WritesPair(op: WriteOp, terms: seq<QueryTerm>, p: nat, i: nat)
    requires i < |terms|
  {
    && op.doc == 0
    && if Place(terms, p) then op.words == [terms[p].term, terms[p + 1].term] && Apart(terms, p, i, op.stream)
       else op.words == []
  }

  lemma {:induction false} PairWrites(terms: seq<QueryTerm>, i: nat, n: nat) returns (h: seq<WriteOp>)
    requires i < |terms| && n <= |terms| && CleanTerms(terms)
    requires forall p: nat :: Place(terms, p) ==> Live(terms, p) && !Covers(terms, p, i)
    ensures |h| == n && CleanHistory(h)
    ensures forall p :: 0 <= p < n ==> WritesPair(h[p], terms, p, i)
  {
    if n == 0 { return []; }
    h := PairWrites(terms, i, n - 1);
    var p := n - 1;
    if Place(terms, p) {
      assert Live(terms, p) && !Covers(terms, p, i);
      assert InPair(terms, p, i) ==> exists s :: s in terms[p].streams && s !in terms[i].streams;
      assert terms[p].streams[0] in terms[p].streams;
      var s :| s in terms[p].streams && (InPair(terms, p, i) ==> s !in terms[i].streams);
      h := h + [WriteOp([terms[p].term, terms[p + 1].term], 0, s)];
    } else {
      h := h + [WriteOp([], 0, 0)];
    }
  }

  /** The document of those writes has every pair, and not term i. */
  lemma {:induction false} PairsWithoutTerm(terms: seq<QueryTerm>, i: nat, h: seq<WriteOp>)
    requires i < |terms| && CleanTerms(terms) && |h| == |terms|
    requires forall p :: 0 <= p < |h| ==> WritesPair(h[p], terms, p, i)
    requires forall p: nat :: Place(terms, p) ==> Live(terms, p)
    ensures forall p: nat :: Place(terms, p) ==> Matches(PairGroup(terms, p), IndexOf(h), 0)
    ensures !Matches(UnigramGroups(terms)[i], IndexOf(h), 0)
  {
    forall p: nat | Place(terms, p) ensures Matches(PairGroup(terms, p), IndexOf(h), 0) {
      var a, b := terms[p].term, terms[p + 1].term;
      assert Live(terms, p) && WritesPair(h[p], terms, p, i);
      WriteOfTwo(h[p], a, b);
      assert IndexOf(h)(StreamKey(Bigram(a, b), h[p].stream), 0);
      GroupMatches(Bigram(a, b), terms[p].streams, 2, IndexOf(h), 0);
    }
    var t := terms[i];
    GroupMatches(t.term, t.streams, 1, IndexOf(h), 0);
    if s :| s in t.streams && IndexOf(h)(StreamKey(t.term, s), 0) {
      var k :| 0 <= k < |h| && h[k].doc == 0 && Writes(h[k], StreamKey(t.term, s));
      assert WritesPair(h[k], terms, k, i);
      if Place(terms, k) {
        assert Live(terms, k);
        WriteOfTwo(h[k], terms[k].term, terms[k + 1].term);
      }
    }
  }

  /** In default mode a run that is not harmless has a history the arm changes. */
  lemma {:induction false} DefaultDiffers(tokens: seq<QueryTerm>) returns (h: seq<WriteOp>)
    requires CleanTerms(tokens) && !DefaultHarmless(tokens)
    ensures CleanHistory(h) && !SameAfter(h, tokens, Default, 0)
  {
    var i: nat :| i < |tokens| && !CoveredAt(tokens, i);
    h := PairWrites(tokens, i, |tokens|);
    PairsWithoutTerm(tokens, i, h);
    DefaultArm(IndexOf(h), tokens, 0);
    ArmAdds(IndexOf(h), tokens, Default, 0, 0);
    assert |tokens| > 1;
    assert And(UnigramGroups(tokens)).children == UnigramGroups(tokens);
  }

  /** A document of nothing but a pair's two words matches no group of another term. */
  lemma {:induction false} OnlyPairMatches(terms: seq<QueryTerm>, p: nat, i: nat, h: seq<WriteOp>)
    requires p + 1 < |terms| && i < |terms| && CleanTerms(terms) && Storable(terms[p].term, terms[p + 1].term)
    requires |h| == 1 && h[0].words == [terms[p].term, terms[p + 1].term]
    ensures Matches(UnigramGroups(terms)[i], IndexOf(h), 0) ==> InPair(terms, p, i) && h[0].stream in terms[i].streams
  {
    hide StreamKey, Writes, TermGroup;
    var t := terms[i];
    GroupMatches(t.term, t.streams, 1, IndexOf(h), 0);
    if s :| s in t.streams && IndexOf(h)(StreamKey(t.term, s), 0) {
      var k :| 0 <= k < |h| && h[k].doc == 0 && Writes(h[k], StreamKey(t.term, s));
      WriteOfTwo(h[k], terms[p].term, terms[p + 1].term);
    }
  }

  lemma {:induction false} OnlySupportMatches(node: EvalNode, terms: seq<QueryTerm>, p: nat, n: nat, h: seq<WriteOp>)
    requires node.WeakAnd? && node.children == UnigramGroups(terms) && p + 1 < |terms| && n <= |terms|
    requires CleanTerms(terms) && Storable(terms[p].term, terms[p + 1].term)
    requires |h| == 1 && h[0].words == [terms[p].term, terms[p + 1].term]
    ensures MatchCount(node, n, IndexOf(h), 0) <= Support(terms, p, h[0].stream, n)
  {
    hide UnigramGroups, IndexOf;
    if n > 0 {
      OnlySupportMatches(node, terms, p, n - 1, h);
      OnlyPairMatches(terms, p, n - 1, h);
    }
  }

  lemma {:induction false} PairInIndex(terms: seq<QueryTerm>, p: nat, h: seq<WriteOp>)
    requires Live(terms, p) && CleanTerms(terms)
    requires |h| == 1 && h[0].doc == 0 && h[0].words == [terms[p].term, terms[p + 1].term]
    requires h[0].stream in terms[p].streams
    ensures Matches(PairGroup(terms, p), IndexOf(h), 0)
  {
    var a, b := terms[p].term, terms[p + 1].term;
    WriteOfTwo(h[0], a, b);
    assert IndexOf(h)(StreamKey(Bigram(a, b), h[0].stream), 0);
    GroupMatches(Bigram(a, b), terms[p].streams, 2, IndexOf(h), 0);
  }

  /** One write of a pair that brings too few terms along. */
  lemma {:induction false} TooFewTerms(terms: seq<QueryTerm>) returns (h: seq<WriteOp>)
    requires CleanTerms(terms) && !WeakAndHarmless(terms)
    ensures CleanHistory(h) && MatchesAny(BuildAnyBigramQuery(terms), IndexOf(h), 0)
    ensures terms != [] && !Matches(WeakAndBase(terms), IndexOf(h), 0)
  {
    hide MatchCount, StreamKey;
    var p: nat, s :| Live(terms, p) && s in terms[p].streams
                     && Support(terms, p, s, |terms|) < MinShouldMatch(|terms|);
    var a, b := terms[p].term, terms[p + 1].term;
    h := [WriteOp([a, b], 0, s)];
    PairInIndex(terms, p, h);
    WeakAndArm(IndexOf(h), terms, 0);
    OnlySupportMatches(WeakAndBase(terms), terms, p, |terms|, h);
  }

  lemma {:induction false} WeakAndDiffers(tokens: seq<QueryTerm>) returns (h: seq<WriteOp>)
    requires CleanTerms(tokens) && !WeakAndHarmless(FilterTerms(tokens))
    ensures CleanHistory(h) && !SameAfter(h, tokens, WeakAndBigram, 0)
  {
    FilterPairsOk([], tokens);
    h := TooFewTerms(FilterTerms(tokens));
    ArmAdds(IndexOf(h), tokens, WeakAndBigram, 0, 0);
  }

  // ---------------------------------------------------------------- exactly when

  /** In every mode the arm of a run of terms is without effect, after every history of
      writes, exactly when the run is harmless. */
  lemma {:induction false} UnchangedIff(tokens: seq<QueryTerm>, mode: Mode)
    requires CleanTerms(tokens)
    ensures AlwaysSame(tokens, mode) <==> Harmless(tokens, mode)
  {
    if Harmless(tokens, mode) {
      HarmlessIsSame(tokens, mode);
    } else if mode == Default {
      var h := DefaultDiffers(tokens);
    } else {
      var h := WeakAndDiffers(tokens);
    }
  }

  /** Default mode, all terms on the same streams: the arm changes no query's documents. */
  lemma {:induction false} DefaultUnchanged(tokens: seq<QueryTerm>)
    requires CleanTerms(tokens) && Uniform(tokens)
    ensures AlwaysSame(tokens, Default)
  {
    UniformIsHarmless(tokens);
    HarmlessIsSame(tokens, Default);
  }

  /** Filtered terms on the same streams are different words, so a pair brings two. */
  lemma {:induction false} UniformSupport(terms: seq<QueryTerm>, p: nat, s: Byte, n: nat)
    requires Uniform(terms) && p + 1 < |terms| && n <= |terms| && s in terms[p].streams
    requires forall i, j :: 0 <= i < j < |terms| ==> terms[i] != terms[j]
    ensures Support(terms, p, s, n) == (if p < n then 1 else 0) + (if p + 1 < n then 1 else 0)
  {
    if n > 0 {
      UniformSupport(terms, p, s, n - 1);
      assert terms[n - 1].streams == terms[p].streams == terms[p + 1].streams;
    }
  }

  /** Weak-and mode, all terms on the same streams: without effect exactly up to five
      filtered terms, or when no adjacent pair of them can be in the index. */
  lemma {:induction false} WeakAndUnchangedIff(tokens: seq<QueryTerm>)
    requires CleanTerms(tokens) && Uniform(tokens)
    ensures AlwaysSame(tokens, WeakAndBigram)
            <==> |FilterTerms(tokens)| <= 5 || forall p: nat :: !Live(FilterTerms(tokens), p)
  {
    var terms := FilterTerms(tokens);
    FilterFacts(tokens);
    UnchangedIff(tokens, WeakAndBigram);
    forall i | 0 <= i < |terms| ensures terms[i].streams == tokens[0].streams { assert terms[i] in terms; }
    assert forall i, j :: 0 <= i < j < |terms| ==> FirstAt(tokens, terms[i]) < FirstAt(tokens, terms[j]);
    if |terms| <= 5 {
      FewTermsAreHarmless(terms);
    } else if p: nat :| Live(terms, p) {
      var s := terms[p].streams[0];
      UniformSupport(terms, p, s, |terms|);
      assert Live(terms, p) && s in terms[p].streams;
    }
  }

  /** On mixed streams the arm of default mode can add documents: x in the title, a and b
      in the body. */
  lemma {:induction false} MixedStreamsDiffer() returns (h: seq<WriteOp>, tokens: seq<QueryTerm>)
    ensures CleanHistory(h) && CleanTerms(tokens)
    ensures MatchesAny(ImplicitExpression(tokens, Default, true, 0), IndexOf(h), 0)
    ensures !MatchesAny(ImplicitExpression(tokens, Default, false, 0), IndexOf(h), 0)
  {
    var title, body := 84, 66;
    tokens := [QueryTerm([120], [title]), QueryTerm([97], [body]), QueryTerm([98], [body])];
    assert Place(tokens, 1) && !Place(tokens, 0) && !Covers(tokens, 1, 0);
    assert !CoveredAt(tokens, 0);
    h := DefaultDiffers(tokens);
    ArmAdds(IndexOf(h), tokens, Default, 0, 0);
  }
}
