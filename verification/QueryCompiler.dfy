/** The compiled query tree, its meaning over an index, and the tree builders. */
module QueryCompiler {
  import opened Options
  import opened Bytes
  import opened TermTable
  import opened StreamIndex

  datatype EvalNode =
    | Term(streamKey: Key, wordSpan: nat)
    | And(children: seq<EvalNode>)
    | Or(children: seq<EvalNode>)
    | Not(base: EvalNode, exclude: EvalNode)
    | WeakAnd(children: seq<EvalNode>, minShouldMatch: nat)
    | Boost(base: EvalNode, boost: EvalNode, weight: int)

  /** Which document is under which key. */
  type Index = (Key, nat) -> bool

  /** The documents a tree stands for. */
  predicate Matches(node: EvalNode, index: Index, doc: nat)
    decreases node, 0
  {
    match node
    case Term(key, _) => index(key, doc)
    case And(cs) => cs != [] && forall i :: 0 <= i < |cs| ==> Matches(cs[i], index, doc)
    case Or(cs) => exists i :: 0 <= i < |cs| && Matches(cs[i], index, doc)
    case Not(base, exclude) => Matches(base, index, doc) && !Matches(exclude, index, doc)
    case WeakAnd(cs, m) => MatchCount(node, |cs|, index, doc) >= if m == 0 then 1 else m
    case Boost(base, _, _) => Matches(base, index, doc)
  }

  /** How many of the first n children match. */
  function MatchCount(node: EvalNode, n: nat, index: Index, doc: nat): nat
    requires node.WeakAnd? && n <= |node.children|
    decreases node, 0, n
  {
    if n == 0 then 0
    else MatchCount(node, n - 1, index, doc) + if Matches(node.children[n - 1], index, doc) then 1 else 0
  }

  /** No weak-and asks for more matches than it has children. */
  predicate Sane(node: EvalNode)
    decreases node
  {
    match node
    case Term(_, _) => true
    case And(cs) => forall i :: 0 <= i < |cs| ==> Sane(cs[i])
    case Or(cs) => forall i :: 0 <= i < |cs| ==> Sane(cs[i])
    case Not(base, exclude) => Sane(base) && Sane(exclude)
    case WeakAnd(cs, m) => m <= |cs| && forall i :: 0 <= i < |cs| ==> Sane(cs[i])
    case Boost(base, boost, _) => Sane(base) && Sane(boost)
  }

  /** No weak-and anywhere. */
  predicate Plain(node: EvalNode)
    decreases node
  {
    match node
    case Term(_, _) => true
    case And(cs) => forall i :: 0 <= i < |cs| ==> Plain(cs[i])
    case Or(cs) => forall i :: 0 <= i < |cs| ==> Plain(cs[i])
    case Not(base, exclude) => Plain(base) && Plain(exclude)
    case WeakAnd(_, _) => false
    case Boost(base, boost, _) => Plain(base) && Plain(boost)
  }

  // ---------------------------------------------------------------- builders

  datatype QueryTerm = QueryTerm(term: Word, streams: seq<Byte>)

  datatype Mode = Default | WeakAndBigram | WeakAndBigramBoost

  function TermGroup(term: Word, streams: seq<Byte>, span: nat): EvalNode {
    if |streams| == 1 then Term(StreamKey(term, streams[0]), span)
    else Or(seq(|streams|, i requires 0 <= i < |streams| => Term(StreamKey(term, streams[i]), span)))
  }

  function UnigramGroups(terms: seq<QueryTerm>): seq<EvalNode> {
    seq(|terms|, i requires 0 <= i < |terms| => TermGroup(terms[i].term, terms[i].streams, 1))
  }

  /** A group per adjacent pair of terms on the same streams. */
  function BigramGroups(terms: seq<QueryTerm>): seq<EvalNode> {
    if |terms| < 2 then []
    else
      (if terms[0].streams == terms[1].streams
       then [TermGroup(Bigram(terms[0].term, terms[1].term), terms[0].streams, 2)] else [])
      + BigramGroups(terms[1..])
  }

  function BuildBigramQuery(terms: seq<QueryTerm>): Option<EvalNode> {
    var groups := BigramGroups(terms);
    if groups == [] then None else if |groups| == 1 then Some(groups[0]) else Some(And(groups))
  }

  function BuildAnyBigramQuery(terms: seq<QueryTerm>): Option<EvalNode> {
    var groups := BigramGroups(terms);
    if groups == [] then None else if |groups| == 1 then Some(groups[0]) else Some(Or(groups))
  }

  function MinShouldMatch(termCount: nat): nat {
    if termCount <= 2 then 1 else if termCount <= 5 then 2 else 3
  }

  function UnigramBase(terms: seq<QueryTerm>): EvalNode
    requires terms != []
  {
    if |terms| == 1 then UnigramGroups(terms)[0] else And(UnigramGroups(terms))
  }

  function WeakAndBase(terms: seq<QueryTerm>): EvalNode
    requires terms != []
  {
    if |terms| == 1 then UnigramGroups(terms)[0] else WeakAnd(UnigramGroups(terms), MinShouldMatch(|terms|))
  }

  // ---------------------------------------------------------------- filtering

  function Select(tokens: seq<QueryTerm>, atLeast: nat): seq<QueryTerm> {
    if tokens == [] then []
    else (if |tokens[0].term| >= atLeast then [tokens[0]] else []) + Select(tokens[1..], atLeast)
  }

  /** Keep the first of equal terms. */
  function Dedupe(tokens: seq<QueryTerm>): seq<QueryTerm> {
    if tokens == [] then []
    else
      var last := |tokens| - 1;
      var before := Dedupe(tokens[..last]);
      if tokens[last] in before then before else before + [tokens[last]]
  }

  function FilterTerms(tokens: seq<QueryTerm>): seq<QueryTerm> {
    var long := Dedupe(Select(tokens, 2));
    if long != [] then long else Dedupe(Select(tokens, 1))
  }

  /** The expression for a run of terms, with the bigram arm or without it. */
  function ImplicitExpression(tokens: seq<QueryTerm>, mode: Mode, arms: bool, weight: int): Option<EvalNode> {
    match mode
    case Default =>
      if tokens == [] then None
      else
        var bigram := if arms then BuildBigramQuery(tokens) else None;
        if bigram.Some? then Some(Or([bigram.value, UnigramBase(tokens)])) else Some(UnigramBase(tokens))
    case WeakAndBigram =>
      var terms := FilterTerms(tokens);
      if terms == [] then None
      else
        var bigram := if arms then BuildAnyBigramQuery(terms) else None;
        if bigram.Some? then Some(Or([WeakAndBase(terms), bigram.value])) else Some(WeakAndBase(terms))
    case WeakAndBigramBoost =>
      var terms := FilterTerms(tokens);
      if terms == [] then None
      else
        var bigram := if arms then BuildAnyBigramQuery(terms) else None;
        if bigram.Some? then Some(Boost(WeakAndBase(terms), bigram.value, weight)) else Some(WeakAndBase(terms))
  }

  function MinusExpression(positive: seq<QueryTerm>, negative: seq<QueryTerm>, mode: Mode, arms: bool, weight: int)
    : Option<EvalNode>
  {
    if negative == [] then ImplicitExpression(positive, mode, arms, weight)
    else if positive == [] then None
    else
      var base := ImplicitExpression(positive, mode, arms, weight);
      var exclude := ImplicitExpression(negative, mode, arms, weight);
      if base.None? || exclude.None? then None else Some(Not(base.value, exclude.value))
  }

  // ---------------------------------------------------------------- groups

  /** A document has the term on one of the streams. */
  ghost predicate OnStream(index: Index, term: Word, streams: seq<Byte>, doc: nat) {
    exists s :: s in streams && index(StreamKey(term, s), doc)
  }

  lemma {:induction false} GroupMatches(term: Word, streams: seq<Byte>, span: nat, index: Index, doc: nat)
    ensures Matches(TermGroup(term, streams, span), index, doc) <==> OnStream(index, term, streams, doc)
  {
    var group := TermGroup(term, streams, span);
    if |streams| == 1 {
      assert Matches(group, index, doc) <==> index(StreamKey(term, streams[0]), doc);
    } else {
      assert forall k :: 0 <= k < |streams| ==> group.children[k] == Term(StreamKey(term, streams[k]), span);
      if s :| s in streams && index(StreamKey(term, s), doc) {
        var k :| 0 <= k < |streams| && streams[k] == s;
        assert Matches(group.children[k], index, doc);
      }
    }
  }

  /** In the index, a pair that has documents can be stored, and they are among those of
      its words. */
  ghost predicate PairWithin(index: Index, a: Word, b: Word) {
    forall s, doc :: index(StreamKey(Bigram(a, b), s), doc)
      ==> Storable(a, b) && index(StreamKey(a, s), doc) && index(StreamKey(b, s), doc)
  }

  ghost predicate PairsWithin(index: Index, terms: seq<QueryTerm>) {
    forall i :: 0 <= i < |terms| - 1 ==> PairWithin(index, terms[i].term, terms[i + 1].term)
  }

  /** Two adjacent terms on the same streams. */
  predicate Place(terms: seq<QueryTerm>, p: nat) { p + 1 < |terms| && terms[p].streams == terms[p + 1].streams }

  function PairGroup(terms: seq<QueryTerm>, p: nat): EvalNode
    requires p + 1 < |terms|
  {
    TermGroup(Bigram(terms[p].term, terms[p + 1].term), terms[p].streams, 2)
  }

  /** A document of a pair group has both words on one of the streams, and the pair is one
      the index can hold. */
  lemma {:induction false} PairMatches(index: Index, terms: seq<QueryTerm>, p: nat, doc: nat) returns (s: Byte)
    requires PairsWithin(index, terms) && Place(terms, p) && Matches(PairGroup(terms, p), index, doc)
    ensures s in terms[p].streams && Storable(terms[p].term, terms[p + 1].term)
    ensures index(StreamKey(terms[p].term, s), doc) && index(StreamKey(terms[p + 1].term, s), doc)
  {
    var a, b, streams := terms[p].term, terms[p + 1].term, terms[p].streams;
    assert PairWithin(index, a, b);
    GroupMatches(Bigram(a, b), streams, 2, index, doc);
    s :| s in streams && index(StreamKey(Bigram(a, b), s), doc);
  }

  /** Each pair group comes from a place in the terms. */
  lemma {:induction false} GroupPlace(terms: seq<QueryTerm>, g: nat) returns (i: nat)
    requires g < |BigramGroups(terms)|
    ensures Place(terms, i) && BigramGroups(terms)[g] == PairGroup(terms, i)
  {
    var here := if terms[0].streams == terms[1].streams then 1 else 0;
    if g < here {
      i := 0;
    } else {
      i := GroupPlace(terms[1..], g - here);
      i := i + 1;
    }
  }

  /** And each place with equal streams gives a pair group. */
  lemma {:induction false} PlaceGroup(terms: seq<QueryTerm>, i: nat) returns (g: nat)
    requires Place(terms, i)
    ensures g < |BigramGroups(terms)| && BigramGroups(terms)[g] == PairGroup(terms, i)
  {
    var here := if terms[0].streams == terms[1].streams then 1 else 0;
    if i == 0 {
      g := 0;
    } else {
      g := PlaceGroup(terms[1..], i - 1);
      g := g + here;
    }
  }
}
