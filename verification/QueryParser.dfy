/** From raw query items to one tree: clauses between OR words, each with its wanted and
    its excluded terms. */
module QueryParser {
  import opened Options
  import opened StreamIndex
  import opened QueryCompiler
  import opened BigramArm

  /** An item of the query: an OR word, a NOT word, or text with its terms. */
  datatype Item = OrWord | NotWord | Text(minus: bool, terms: seq<QueryTerm>)

  datatype Clause = Clause(positive: seq<QueryTerm>, negative: seq<QueryTerm>)

  // ---------------------------------------------------------------- what a query says

  /** Text is excluded by its own minus sign, or by a NOT word right before it. */
  predicate Excluded(items: seq<Item>, i: nat)
    requires i < |items| && items[i].Text?
  {
    items[i].minus || (i > 0 && items[i - 1].NotWord?)
  }

  /** The terms of all wanted, or of all excluded, text from `from` up to n, in order. */
  function Terms(items: seq<Item>, from: nat, n: nat, excluded: bool): seq<QueryTerm>
    requires from <= n <= |items|
  {
    if n == from then []
    else Terms(items, from, n - 1, excluded)
         + if items[n - 1].Text? && Excluded(items, n - 1) == excluded then items[n - 1].terms else []
  }

  function ClauseOf(items: seq<Item>, from: nat, n: nat): Clause
    requires from <= n <= |items|
  {
    Clause(Terms(items, from, n, false), Terms(items, from, n, true))
  }

  function NextOr(items: seq<Item>, from: nat): (k: nat)
    requires from <= |items|
    ensures from <= k <= |items|
    decreases |items| - from
  {
    if from == |items| || items[from].OrWord? then from else NextOr(items, from + 1)
  }

  /** The clauses of a query: what stands between OR words. */
  function ClausesFrom(items: seq<Item>, from: nat): seq<Clause>
    requires from <= |items|
    decreases |items| - from
  {
    var k := NextOr(items, from);
    [ClauseOf(items, from, k)] + if k == |items| then [] else ClausesFrom(items, k + 1)
  }

  function Clauses(items: seq<Item>): seq<Clause> { ClausesFrom(items, 0) }

  /** How a clause becomes a tree, if it does. */
  type Builder = Clause -> Option<EvalNode>

  function MinusBuilder(mode: Mode, arms: bool, weight: int): Builder {
    (c: Clause) => MinusExpression(c.positive, c.negative, mode, arms, weight)
  }

  /** The trees of the clauses that have one. */
  function Trees(cs: seq<Clause>, build: Builder): seq<EvalNode> {
    if cs == [] then []
    else
      var last := |cs| - 1;
      Trees(cs[..last], build) + if build(cs[last]).Some? then [build(cs[last]).value] else []
  }

  function Disjunction(nodes: seq<EvalNode>): Option<EvalNode> {
    if nodes == [] then None else if |nodes| == 1 then Some(nodes[0]) else Some(Or(nodes))
  }

  /** The tree of a query. */
  function Compiled(items: seq<Item>, mode: Mode, arms: bool, weight: int): Option<EvalNode> {
    Disjunction(Trees(Clauses(items), MinusBuilder(mode, arms, weight)))
  }

  // ---------------------------------------------------------------- the parser

  lemma {:induction false} NextOrAt(items: seq<Item>, from: nat, k: nat)
    requires from <= k <= |items| && (k < |items| ==> items[k].OrWord?)
    requires forall i :: from <= i < k ==> !items[i].OrWord?
    ensures NextOr(items, from) == k
    decreases k - from
  {
    if from < k { NextOrAt(items, from + 1, k); }
  }

  lemma {:induction false} TreesAppend(cs: seq<Clause>, c: Clause, build: Builder)
    ensures Trees(cs + [c], build) == Trees(cs, build) + if build(c).Some? then [build(c).value] else []
  {
  }

  /** The clause being read: its items start at `from`, its terms so far are these. */
  ghost predicate Reading(items: seq<Item>, from: nat, i: nat, c: Clause, nextIsNegative: bool) {
    && from <= i <= |items| && (forall k :: from <= k < i ==> !items[k].OrWord?)
    && c == ClauseOf(items, from, i)
    && (nextIsNegative <==> i > 0 && items[i - 1].NotWord?)
  }

  function AddText(c: Clause, exclude: bool, terms: seq<QueryTerm>): Clause {
    if exclude then Clause(c.positive, c.negative + terms) else Clause(c.positive + terms, c.negative)
  }

  lemma {:induction false} ReadItem(items: seq<Item>, from: nat, i: nat, c: Clause, nextIsNegative: bool)
    requires Reading(items, from, i, c, nextIsNegative) && i < |items|
    ensures items[i].NotWord? ==> Reading(items, from, i + 1, c, true)
    ensures items[i].Text? ==>
      Reading(items, from, i + 1, AddText(c, items[i].minus || nextIsNegative, items[i].terms), false)
    ensures items[i].OrWord? ==> ClausesFrom(items, from) == [c] + ClausesFrom(items, i + 1)
    ensures items[i].OrWord? ==> Reading(items, i + 1, i + 1, Clause([], []), false)
  {
    if items[i].OrWord? { NextOrAt(items, from, i); }
    assert c.positive + [] == c.positive && c.negative + [] == c.negative;
  }

  /** The clauses read so far, and their trees. */
  ghost predicate Finished(items: seq<Item>, from: nat, done: seq<Clause>, disjuncts: seq<EvalNode>, build: Builder) {
    && from <= |items| && done + ClausesFrom(items, from) == Clauses(items)
    && disjuncts == Trees(done, build)
  }

  /** Close a clause: its tree, if it has one, joins the others. */
  method CloseClause(c: Clause, disjuncts: seq<EvalNode>, build: Builder, ghost done: seq<Clause>)
    returns (r: seq<EvalNode>)
    requires disjuncts == Trees(done, build)
    ensures r == Trees(done + [c], build) && (build(c).None? ==> r == disjuncts)
  {
    TreesAppend(done, c, build);
    var node := build(c);
    r := if node.Some? then disjuncts + [node.value] else disjuncts;
  }

  /** The loop over the items. It yields the disjunction of the clauses' trees. */
  method ParseItems(items: seq<Item>, build: Builder) returns (r: Option<EvalNode>)
    requires build(Clause([], [])) == None
    ensures r == Disjunction(Trees(Clauses(items), build))
  {
    var disjuncts: seq<EvalNode> := [];
    var current := Clause([], []);
    var sawAny, nextIsNegative := false, false;
    ghost var from: nat, done: seq<Clause> := 0, [];
    for i := 0 to |items|
      invariant Reading(items, from, i, current, nextIsNegative)
      invariant Finished(items, from, done, disjuncts, build)
      invariant !sawAny ==> current == Clause([], []) && disjuncts == []
    {
      ReadItem(items, from, i, current, nextIsNegative);
      if items[i].OrWord? {
        ConcatClauses(done, current, ClausesFrom(items, i + 1));
        disjuncts := CloseClause(current, disjuncts, build, done);
        done, from := done + [current], i + 1;
        current, nextIsNegative := Clause([], []), false;
      } else if items[i].NotWord? {
        nextIsNegative := true;
      } else {
        current := AddText(current, items[i].minus || nextIsNegative, items[i].terms);
        nextIsNegative, sawAny := false, true;
      }
    }
    NextOrAt(items, from, |items|);
    disjuncts := CloseClause(current, disjuncts, build, done);
    if !sawAny { return None; }
    r := if |disjuncts| == 0 then None else if |disjuncts| == 1 then Some(disjuncts[0]) else Some(Or(disjuncts));
  }

  method ParseExpression(items: seq<Item>, mode: Mode, arms: bool, weight: int) returns (r: Option<EvalNode>)
    ensures r == Compiled(items, mode, arms, weight)
  {
    assert FilterTerms([]) == [];
    r := ParseItems(items, MinusBuilder(mode, arms, weight));
  }

  lemma {:induction false} ConcatClauses(done: seq<Clause>, c: Clause, rest: seq<Clause>)
    ensures (done + [c]) + rest == done + ([c] + rest)
  {
  }

  // ---------------------------------------------------------------- whole queries

  predicate AnyMatches(nodes: seq<EvalNode>, index: Index, doc: nat) {
    exists i :: 0 <= i < |nodes| && Matches(nodes[i], index, doc)
  }

  lemma {:induction false} DisjunctionMatches(nodes: seq<EvalNode>, index: Index, doc: nat)
    ensures MatchesAny(Disjunction(nodes), index, doc) <==> AnyMatches(nodes, index, doc)
  {
  }

  lemma {:induction false} TreesMatch(cs: seq<Clause>, build: Builder, index: Index, doc: nat)
    ensures AnyMatches(Trees(cs, build), index, doc)
            <==> exists i :: 0 <= i < |cs| && MatchesAny(build(cs[i]), index, doc)
  {
    if cs != [] {
      var last := |cs| - 1;
      TreesMatch(cs[..last], build, index, doc);
      var before, all := Trees(cs[..last], build), Trees(cs, build);
      assert forall i :: 0 <= i < |before| ==> all[i] == before[i];
      if build(cs[last]).Some? { assert all[|before|] == build(cs[last]).value; }
      assert forall i :: 0 <= i < last ==> cs[..last][i] == cs[i];
    }
  }

  /** A whole query has the same documents with its bigram arms and without them, when the
      arms of its runs of terms are harmless. */
  lemma {:induction false} QueryUnchanged(items: seq<Item>, mode: Mode, weight: int, index: Index, doc: nat)
    requires forall c :: c in Clauses(items) ==> PairsOk(index, c.positive) && Harmless(c.positive, mode)
    requires forall c :: c in Clauses(items) ==> PairsOk(index, c.negative) && Harmless(c.negative, mode)
    ensures MatchesAny(Compiled(items, mode, true, weight), index, doc)
            <==> MatchesAny(Compiled(items, mode, false, weight), index, doc)
  {
    var cs, armed, plain := Clauses(items), MinusBuilder(mode, true, weight), MinusBuilder(mode, false, weight);
    DisjunctionMatches(Trees(cs, armed), index, doc);
    DisjunctionMatches(Trees(cs, plain), index, doc);
    TreesMatch(cs, armed, index, doc);
    TreesMatch(cs, plain, index, doc);
    forall i | 0 <= i < |cs| ensures MatchesAny(armed(cs[i]), index, doc) <==> MatchesAny(plain(cs[i]), index, doc) {
      assert cs[i] in cs;
      MinusUnchanged(index, cs[i].positive, cs[i].negative, mode, weight, doc);
    }
  }

  /** After any history of writes of clean words. */
  lemma {:induction false} QueryUnchangedAfter(h: seq<WriteOp>, items: seq<Item>, mode: Mode, weight: int, doc: nat)
    requires CleanHistory(h)
    requires forall c :: c in Clauses(items) ==> CleanTerms(c.positive) && Harmless(c.positive, mode)
    requires forall c :: c in Clauses(items) ==> CleanTerms(c.negative) && Harmless(c.negative, mode)
    ensures MatchesAny(Compiled(items, mode, true, weight), IndexOf(h), doc)
            <==> MatchesAny(Compiled(items, mode, false, weight), IndexOf(h), doc)
  {
    forall c | c in Clauses(items) ensures PairsOk(IndexOf(h), c.positive) && PairsOk(IndexOf(h), c.negative) {
      FilterPairsOk(h, c.positive);
      FilterPairsOk(h, c.negative);
    }
    QueryUnchanged(items, mode, weight, IndexOf(h), doc);
  }

  // ---------------------------------------------------------------- fit for lowering

  lemma {:induction false} ImplicitSane(tokens: seq<QueryTerm>, mode: Mode, arms: bool, weight: int)
    ensures var r := ImplicitExpression(tokens, mode, arms, weight); r.Some? ==> Sane(r.value)
  {
    var terms := if mode.Default? then tokens else FilterTerms(tokens);
    GroupsSane(terms);
    if terms != [] { BasesSane(terms); }
    if BuildBigramQuery(terms).Some? { ArmsSane(terms); }
  }

  ghost predicate AllSane(nodes: seq<EvalNode>) { forall i :: 0 <= i < |nodes| ==> Sane(nodes[i]) }

  lemma {:induction false} GroupsSane(terms: seq<QueryTerm>)
    ensures AllSane(UnigramGroups(terms)) && AllSane(BigramGroups(terms))
  {
    forall g | 0 <= g < |BigramGroups(terms)| ensures Sane(BigramGroups(terms)[g]) { var i := GroupPlace(terms, g); }
  }

  lemma {:induction false} BasesSane(terms: seq<QueryTerm>)
    requires terms != [] && AllSane(UnigramGroups(terms))
    ensures Sane(UnigramBase(terms)) && Sane(WeakAndBase(terms))
  {
  }

  lemma {:induction false} ArmsSane(terms: seq<QueryTerm>)
    requires AllSane(BigramGroups(terms)) && BuildBigramQuery(terms).Some?
    ensures Sane(BuildBigramQuery(terms).value) && Sane(BuildAnyBigramQuery(terms).value)
  {
  }

  lemma {:induction false} TreesSane(cs: seq<Clause>, mode: Mode, arms: bool, weight: int)
    ensures AllSane(Trees(cs, MinusBuilder(mode, arms, weight)))
  {
    if cs != [] {
      var c := cs[|cs| - 1];
      TreesSane(cs[..|cs| - 1], mode, arms, weight);
      ImplicitSane(c.positive, mode, arms, weight);
      ImplicitSane(c.negative, mode, arms, weight);
    }
  }

  /** No compiled weak-and asks for more matches than it has children. */
  lemma {:induction false} CompiledIsSane(items: seq<Item>, mode: Mode, arms: bool, weight: int)
    ensures var r := Compiled(items, mode, arms, weight); r.Some? ==> Sane(r.value)
  {
    var nodes := Trees(Clauses(items), MinusBuilder(mode, arms, weight));
    TreesSane(Clauses(items), mode, arms, weight);
    assert Or(nodes).children == nodes;
  }

  ghost predicate AllPlain(nodes: seq<EvalNode>) { forall i :: 0 <= i < |nodes| ==> Plain(nodes[i]) }

  lemma {:induction false} ImplicitPlain(tokens: seq<QueryTerm>, arms: bool, weight: int)
    ensures var r := ImplicitExpression(tokens, Default, arms, weight); r.Some? ==> Plain(r.value)
  {
    var groups, unigrams := BigramGroups(tokens), UnigramGroups(tokens);
    forall g | 0 <= g < |groups| ensures Plain(groups[g]) { var i := GroupPlace(tokens, g); }
    assert AllPlain(groups) && AllPlain(unigrams);
    if BuildBigramQuery(tokens).Some? { assert Plain(BuildBigramQuery(tokens).value); }
  }

  lemma {:induction false} TreesPlain(cs: seq<Clause>, arms: bool, weight: int)
    ensures AllPlain(Trees(cs, MinusBuilder(Default, arms, weight)))
  {
    if cs != [] {
      var c := cs[|cs| - 1];
      TreesPlain(cs[..|cs| - 1], arms, weight);
      ImplicitPlain(c.positive, arms, weight);
      ImplicitPlain(c.negative, arms, weight);
    }
  }

  /** In default mode there is no weak-and at all. */
  lemma {:induction false} CompiledIsPlain(items: seq<Item>, arms: bool, weight: int)
    ensures var r := Compiled(items, Default, arms, weight); r.Some? ==> Plain(r.value)
  {
    var nodes := Trees(Clauses(items), MinusBuilder(Default, arms, weight));
    TreesPlain(Clauses(items), arms, weight);
    assert Or(nodes).children == nodes;
  }
}
