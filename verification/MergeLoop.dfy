/** The merge loop: two sorted term streams into one index, in batches. */
module MergeLoop {
  import opened Bytes
  import opened Postings
  import opened Layout
  import opened TermTable
  import opened LeafWriter
  import opened MergeSpec
  import opened MergeCursor
  import opened MergeWriter
  import opened Merge

  // ---------------------------------------------------------------- one source

  /** What a cursor has left is exactly the terms `ts`. */
  ghost predicate Streams(c: LeafCursor, ts: seq<Term>)
    reads c
  {
    c.Valid() && RepresentsAll(c.pages, c.Rest(), ts) && AllFit(c.Rest())
  }

  /** The first record of a stream, if any, is its first term's. */
  lemma {:induction false} StreamHead(c: LeafCursor, ts: seq<Term>)
    requires Streams(c, ts)
    ensures c.hasCurrent <==> ts != []
    ensures c.hasCurrent ==> Represents(c.pages, c.Rest()[0], ts[0]) && Stored(c.Rest()[0].loc) == c.Rest()[0].loc
  {
    hide LeafCursor.InPlace, Located, Entries, Enc;
    c.CurrentIsHead();
    if c.hasCurrent {
      RepresentsTail(c.pages, c.Rest(), ts);
      assert Fits(c.Rest()[0].loc);
    }
  }

  /** Key and location of a stream's first term, if there is one. */
  method Peek(c: LeafCursor, ghost ts: seq<Term>) returns (key: Key, loc: Loc)
    requires Streams(c, ts)
    ensures c.hasCurrent <==> ts != []
    ensures c.hasCurrent ==> Represents(c.pages, Entry(key, loc), ts[0])
  {
    StreamHead(c, ts);
    key, loc := [], Loc(0, 0, 0, 0, 0);
    if c.hasCurrent {
      key, loc := c.Current();
      assert Entry(key, loc) == c.Rest()[0];
    }
  }

  method Next(c: LeafCursor, ghost ts: seq<Term>)
    requires Streams(c, ts) && ts != []
    modifies c
    ensures Streams(c, ts[1..])
  {
    RepresentsTail(c.pages, c.Rest(), ts);
    ghost var es := c.Rest();
    c.Advance();
    assert AllFit(es[1..]);
  }

  /** A term from one source. Too many posting bytes for the scratch buffer fails every
      time; otherwise only a batch that holds something can refuse. */
  method AddOne(output: Output, c: LeafCursor, term: Key, loc: Loc, ghost t: Term) returns (ok: bool)
    requires output.Valid() && Represents(c.pages, Entry(term, loc), t) && GoodTerm(t, 0, U64)
    modifies output, output.builder, output.writer
    ensures output.Valid() && output.out == if ok then old(output.out) + [t] else old(output.out)
    ensures !ok ==> output.State() == old(output.State())
    ensures |Enc(t.ps)| > output.scratch ==> !ok
    ensures !ok ==> |Enc(t.ps)| > output.scratch || old(output.hasIndexWrite)
  {
    var bytesNeeded := c.PostingBytesSize(loc, t.ps);
    if bytesNeeded > output.scratch { return false; }
    var bytes := c.ReadPostingBytes(loc, [], t.ps);
    assert bytes == Enc(t.ps);
    ok := output.TryAdd(term, loc.docFreq, bytes, t);
  }

  /** Posting bytes of a term both sources have: base bytes, then delta bytes. */
  method ReadBoth(base: LeafCursor, delta: LeafCursor, baseLoc: Loc, deltaLoc: Loc, scratch: nat,
                  ghost x: seq<Posting>, ghost y: seq<Posting>) returns (fit: bool, bytes: seq<Byte>)
    requires Located(base.pages, baseLoc, x) && Located(delta.pages, deltaLoc, y)
    requires Ascending(x) && Ascending(y)
    ensures fit <==> |Enc(x + y)| <= scratch
    ensures fit ==> bytes == Enc(x + y)
  {
    EncConcat(x, y);
    var smallBytes := base.PostingBytesSize(baseLoc, x);
    var bigBytes := delta.PostingBytesSize(deltaLoc, y);
    fit, bytes := smallBytes <= scratch && bigBytes <= scratch - smallBytes, [];
    if fit {
      bytes := base.ReadPostingBytes(baseLoc, [], x);
      assert bytes == Enc(x);
      bytes := delta.ReadPostingBytes(deltaLoc, bytes, y);
    }
  }

  method AddBoth(output: Output, base: LeafCursor, delta: LeafCursor, term: Key, baseLoc: Loc, deltaLoc: Loc,
                 ghost x: Term, ghost y: Term) returns (ok: bool)
    requires output.Valid() && Represents(base.pages, Entry(term, baseLoc), x)
    requires Represents(delta.pages, Entry(term, deltaLoc), y)
    requires Ascending(x.ps) && Ascending(y.ps) && GoodTerm(Both(x, y), 0, U64)
    modifies output, output.builder, output.writer
    ensures output.Valid() && output.out == if ok then old(output.out) + [Both(x, y)] else old(output.out)
    ensures !ok ==> output.State() == old(output.State())
    ensures |Enc(Both(x, y).ps)| > output.scratch ==> !ok
    ensures !ok ==> |Enc(Both(x, y).ps)| > output.scratch || old(output.hasIndexWrite)
  {
    hide Enc, Located, Output.Valid;
    var fit, bytes := ReadBoth(base, delta, baseLoc, deltaLoc, output.scratch, x.ps, y.ps);
    if !fit { return false; }
    ok := output.TryAdd(term, (baseLoc.docFreq + deltaLoc.docFreq) % U32, bytes, Both(x, y));
  }

  // ---------------------------------------------------------------- the loop

  /** Every term's posting bytes fit the scratch buffer. */
  ghost predicate AllSmall(ts: seq<Term>, scratch: nat) {
    forall i :: 0 <= i < |ts| ==> |Enc(ts[i].ps)| <= scratch
  }

  /** What is still to be merged. */
  ghost predicate Pending(a: seq<Term>, b: seq<Term>, split: nat) {
    split <= U64 && GoodTerms(a, 0, split) && GoodTerms(b, split, U64)
  }

  /** The next term of the merge fits the scratch buffer. */
  ghost predicate NextFits(a: seq<Term>, b: seq<Term>, scratch: nat) {
    MergeTerms(a, b) != [] && |Enc(MergeTerms(a, b)[0].ps)| <= scratch
  }

  /** The next term of the merge is written, and the sources are past it. */
  ghost predicate Wrote(a: seq<Term>, b: seq<Term>, a': seq<Term>, b': seq<Term>,
                        out: seq<Term>, out': seq<Term>, scratch: nat) {
    && NextFits(a, b, scratch) && |a'| + |b'| < |a| + |b|
    && MergeTerms(a, b) == [MergeTerms(a, b)[0]] + MergeTerms(a', b')
    && out' == out + [MergeTerms(a, b)[0]]
  }

  lemma {:induction false} PendingStep(a: seq<Term>, b: seq<Term>, a': seq<Term>, b': seq<Term>, t: Term, split: nat)
    requires Pending(a, b, split) && MergeTerms(a, b) == [t] + MergeTerms(a', b')
    requires a' == a || (a != [] && a' == a[1..])
    requires b' == b || (b != [] && b' == b[1..])
    ensures Pending(a', b', split) && GoodTerm(t, 0, U64)
  {
    MergeIsGood(a, b, split, U64);
    assert MergeTerms(a, b)[0] == t;
  }

  /** Which stream the merge takes next, and what is left after it. */
  ghost predicate Takes(a: seq<Term>, b: seq<Term>, takeBase: bool, takeDelta: bool) {
    && (takeBase || takeDelta) && (takeBase ==> a != []) && (takeDelta ==> b != [])
    && (takeBase && takeDelta ==> a[0].key == b[0].key)
    && MergeTerms(a, b) == [Taken(a, b, takeBase, takeDelta)] + MergeTerms(After(a, takeBase), After(b, takeDelta))
  }

  ghost function Taken(a: seq<Term>, b: seq<Term>, takeBase: bool, takeDelta: bool): Term
    requires (takeBase || takeDelta) && (takeBase ==> a != []) && (takeDelta ==> b != [])
  {
    if !takeDelta then a[0] else if !takeBase then b[0] else Both(a[0], b[0])
  }

  ghost function After(ts: seq<Term>, taken: bool): seq<Term>
    requires taken ==> ts != []
  {
    if taken then ts[1..] else ts
  }

  lemma {:induction false} TakesNext(a: seq<Term>, b: seq<Term>, takeBase: bool, takeDelta: bool)
    requires a != [] || b != []
    requires takeBase <==> a != [] && (b == [] || !Less(b[0].key, a[0].key))
    requires takeDelta <==> b != [] && (a == [] || !Less(a[0].key, b[0].key))
    ensures Takes(a, b, takeBase, takeDelta)
  {
    if a != [] && b != [] { LessTotal(a[0].key, b[0].key); LessAsymmetric(a[0].key, b[0].key); }
    if b == [] { assert MergeTerms(a[1..], b) == a[1..]; }
    if a == [] { assert MergeTerms(a, b[1..]) == b[1..]; }
  }

  lemma {:induction false} LessAsymmetric(a: Key, b: Key)
    ensures !(Less(a, b) && Less(b, a))
  {
    if Less(a, b) && Less(b, a) { LessTrans(a, b, a); LessIrreflexive(a); }
  }

  /** Compare the two current terms and try to write the smaller, or both as one. */
  method TryNext(output: Output, base: LeafCursor, delta: LeafCursor,
                 ghost a: seq<Term>, ghost b: seq<Term>, ghost split: nat)
    returns (ok: bool, takeBase: bool, takeDelta: bool)
    requires output.Valid() && Streams(base, a) && Streams(delta, b)
    requires base.hasCurrent || delta.hasCurrent
    requires Pending(a, b, split)
    modifies output, output.builder, output.writer
    ensures Takes(a, b, takeBase, takeDelta)
    ensures Pending(After(a, takeBase), After(b, takeDelta), split)
    ensures output.Valid()
    ensures ok ==> Wrote(a, b, After(a, takeBase), After(b, takeDelta), old(output.out), output.out, output.scratch)
    ensures !ok ==> output.out == old(output.out) && output.State() == old(output.State())
    ensures !old(output.hasIndexWrite) ==> (ok <==> NextFits(a, b, output.scratch))
  {
    hide Streams, Wrote, Output.Valid, Less, Enc;
    var baseTerm, baseLoc := Peek(base, a);
    var deltaTerm, deltaLoc := Peek(delta, b);
    takeBase := base.hasCurrent && (!delta.hasCurrent || !Less(deltaTerm, baseTerm));
    takeDelta := delta.hasCurrent && (!base.hasCurrent || !Less(baseTerm, deltaTerm));
    TakesNext(a, b, takeBase, takeDelta);
    ghost var t := Taken(a, b, takeBase, takeDelta);
    PendingStep(a, b, After(a, takeBase), After(b, takeDelta), t, split);
    if takeBase && takeDelta {
      assert GoodTerm(a[0], 0, split) && GoodTerm(b[0], split, U64);
      ok := AddBoth(output, base, delta, baseTerm, baseLoc, deltaLoc, a[0], b[0]);
    } else if takeBase {
      ok := AddOne(output, base, baseTerm, baseLoc, t);
    } else {
      ok := AddOne(output, delta, deltaTerm, deltaLoc, t);
    }
    if ok { TakenIsWritten(a, b, takeBase, takeDelta, old(output.out), output.out, output.scratch); }
  }

  method AdvanceTaken(base: LeafCursor, delta: LeafCursor, ghost a: seq<Term>, ghost b: seq<Term>,
                      takeBase: bool, takeDelta: bool)
    requires base != delta && Streams(base, a) && Streams(delta, b)
    requires (takeBase ==> a != []) && (takeDelta ==> b != [])
    modifies base, delta
    ensures Streams(base, After(a, takeBase)) && Streams(delta, After(b, takeDelta))
  {
    if takeBase { Next(base, a); }
    if takeDelta { Next(delta, b); }
  }

  /** One turn of the loop: either the next term is written and its sources advance, or
      the batch is dumped and the next turn starts on an empty one. A term that fits the
      scratch buffer is written in this turn or in the next; one that does not, never. */
  method Turn(output: Output, base: LeafCursor, delta: LeafCursor,
              ghost a: seq<Term>, ghost b: seq<Term>, ghost split: nat)
    returns (ghost a': seq<Term>, ghost b': seq<Term>)
    requires output.Valid() && base != delta && Streams(base, a) && Streams(delta, b)
    requires base.hasCurrent || delta.hasCurrent
    requires Pending(a, b, split)
    modifies output, output.builder, output.writer, base, delta
    ensures output.Valid() && Streams(base, a') && Streams(delta, b') && Pending(a', b', split)
    ensures Wrote(a, b, a', b', old(output.out), output.out, output.scratch)
            || (a' == a && b' == b && output.out == old(output.out) && !output.hasIndexWrite
                && (NextFits(a, b, output.scratch) ==> old(output.hasIndexWrite)))
  {
    hide Streams, Pending, Wrote, NextFits, Output.Valid, MergeTerms;
    var ok, takeBase, takeDelta := TryNext(output, base, delta, a, b, split);
    a', b' := a, b;
    if ok {
      AdvanceTaken(base, delta, a, b, takeBase, takeDelta);
      a', b' := After(a, takeBase), After(b, takeDelta);
    } else {
      output.DumpBatch();
    }
  }

  lemma {:induction false} TakenIsWritten(a: seq<Term>, b: seq<Term>, takeBase: bool, takeDelta: bool,
                                          out: seq<Term>, out': seq<Term>, scratch: nat)
    requires Takes(a, b, takeBase, takeDelta) && NextFits(a, b, scratch)
    requires out' == out + [Taken(a, b, takeBase, takeDelta)]
    ensures Wrote(a, b, After(a, takeBase), After(b, takeDelta), out, out', scratch)
  {
  }

  /** What is written and what is left make up the merge, and what is written fits. */
  ghost predicate SoFar(out: seq<Term>, a: seq<Term>, b: seq<Term>, all: seq<Term>, scratch: nat) {
    out + MergeTerms(a, b) == all && AllSmall(out, scratch)
  }

  lemma {:induction false} WroteKeeps(a: seq<Term>, b: seq<Term>, a': seq<Term>, b': seq<Term>,
                                      out: seq<Term>, out': seq<Term>, all: seq<Term>, scratch: nat)
    requires SoFar(out, a, b, all, scratch) && Wrote(a, b, a', b', out, out', scratch)
    ensures SoFar(out', a', b', all, scratch)
  {
    var t, rest := MergeTerms(a, b)[0], MergeTerms(a', b');
    assert (out + [t]) + rest == out + ([t] + rest);
  }

  lemma {:induction false} EndOfMerge(out: seq<Term>, all: seq<Term>, scratch: nat)
    requires SoFar(out, [], [], all, scratch)
    ensures out == all && AllSmall(all, scratch)
  {
    assert out + [] == out;
  }

  /** A turn within the whole merge `all`. */
  method NextTurn(output: Output, base: LeafCursor, delta: LeafCursor,
                  ghost a: seq<Term>, ghost b: seq<Term>, ghost split: nat, ghost all: seq<Term>)
    returns (ghost a': seq<Term>, ghost b': seq<Term>)
    requires output.Valid() && base != delta && Streams(base, a) && Streams(delta, b)
    requires base.hasCurrent || delta.hasCurrent
    requires Pending(a, b, split) && SoFar(output.out, a, b, all, output.scratch)
    modifies output, output.builder, output.writer, base, delta
    ensures output.Valid() && Streams(base, a') && Streams(delta, b') && Pending(a', b', split)
    ensures SoFar(output.out, a', b', all, output.scratch)
    ensures NextFits(a, b, output.scratch) ==>
      |a'| + |b'| < |a| + |b| || (a' == a && b' == b && old(output.hasIndexWrite) && !output.hasIndexWrite)
  {
    hide Streams, Pending, Output.Valid, MergeTerms;
    ghost var before := output.out;
    a', b' := Turn(output, base, delta, a, b, split);
    if output.out != before { WroteKeeps(a, b, a', b', before, output.out, all, output.scratch); }
  }

  /** The loop: turns until both sources are used up. */
  method Turns(output: Output, base: LeafCursor, delta: LeafCursor,
               ghost a: seq<Term>, ghost b: seq<Term>, ghost split: nat)
    requires output.Valid() && output.out == [] && base != delta && Streams(base, a) && Streams(delta, b)
    requires Pending(a, b, split) && AllSmall(MergeTerms(a, b), output.scratch)
    modifies output, output.builder, output.writer, base, delta
    ensures output.Valid() && output.out == MergeTerms(a, b)
  {
    ghost var a', b' := a, b;
    while base.hasCurrent || delta.hasCurrent
      invariant output.Valid() && Streams(base, a') && Streams(delta, b') && Pending(a', b', split)
      invariant SoFar(output.out, a', b', MergeTerms(a, b), output.scratch)
      decreases |a'| + |b'|, if output.hasIndexWrite then 1 else 0
    {
      StreamHead(base, a');
      StreamHead(delta, b');
      RestIsSmall(output.out, a', b', MergeTerms(a, b), output.scratch);
      a', b' := NextTurn(output, base, delta, a', b', split, MergeTerms(a, b));
    }
    StreamHead(base, a');
    StreamHead(delta, b');
    EndOfMerge(output.out, MergeTerms(a, b), output.scratch);
  }

  /** The loop, then the last batch. */
  method MergeStreams(output: Output, base: LeafCursor, delta: LeafCursor,
                      ghost a: seq<Term>, ghost b: seq<Term>, ghost split: nat)
    requires output.Valid() && output.out == [] && base != delta && Streams(base, a) && Streams(delta, b)
    requires Pending(a, b, split) && AllSmall(MergeTerms(a, b), output.scratch)
    modifies output, output.builder, output.writer, base, delta
    ensures ClosedPages(output.files, output.fileGroups) && SmallLocs(Entries(output.fileGroups))
    ensures RepresentsAll(output.indexFile, Entries(output.fileGroups), MergeTerms(a, b))
  {
    Turns(output, base, delta, a, b, split);
    output.DumpBatch();
    assert output.Written() == Entries(output.fileGroups);
  }

  /** What is left of a merge whose terms all fit, fits. */
  lemma {:induction false} RestIsSmall(out: seq<Term>, a: seq<Term>, b: seq<Term>, all: seq<Term>, scratch: nat)
    requires SoFar(out, a, b, all, scratch) && AllSmall(all, scratch)
    ensures a != [] || b != [] ==> NextFits(a, b, scratch)
  {
    if a != [] || b != [] { assert MergeTerms(a, b)[0] == all[|out|]; }
  }

  /** The first n turns, or fewer if the sources are used up before. When some term of the
      merge does not fit the scratch buffer they never are: the loop does not end. */
  method RunTurns(output: Output, base: LeafCursor, delta: LeafCursor, n: nat,
                  ghost a: seq<Term>, ghost b: seq<Term>, ghost split: nat)
    requires output.Valid() && output.out == [] && base != delta && Streams(base, a) && Streams(delta, b)
    requires Pending(a, b, split)
    modifies output, output.builder, output.writer, base, delta
    ensures !AllSmall(MergeTerms(a, b), output.scratch) ==> base.hasCurrent || delta.hasCurrent
  {
    ghost var a', b' := a, b;
    var k := 0;
    while k < n && (base.hasCurrent || delta.hasCurrent)
      invariant output.Valid() && Streams(base, a') && Streams(delta, b') && Pending(a', b', split)
      invariant SoFar(output.out, a', b', MergeTerms(a, b), output.scratch)
    {
      a', b' := NextTurn(output, base, delta, a', b', split, MergeTerms(a, b));
      k := k + 1;
    }
    if !base.hasCurrent && !delta.hasCurrent {
      StreamHead(base, a');
      StreamHead(delta, b');
      EndOfMerge(output.out, MergeTerms(a, b), output.scratch);
    }
  }

  /** Merge step 3. The output is an index of the sorted union of the inputs, whatever
      the batch and page sizes. */
  method MergeIndexes(baseTable: Table, basePages: seq<Page>, deltaTable: Table, deltaPages: seq<Page>,
                      cap: nat, scratch: nat, indexLimit: nat, leafLimit: nat,
                      ghost a: seq<Term>, ghost b: seq<Term>, ghost split: nat)
    returns (table: Table, pages: seq<Page>)
    requires Indexes(baseTable, basePages, a) && Indexes(deltaTable, deltaPages, b)
    requires GoodLimits(cap, scratch, indexLimit, leafLimit) && Pending(a, b, split)
    requires AllSmall(MergeTerms(a, b), scratch)
    ensures exists groups :: TableHolds(table, groups) && RepresentsAll(pages, Entries(groups), MergeTerms(a, b))
    ensures |pages| <= U32 ==> Indexes(table, pages, MergeTerms(a, b))
  {
    hide MergeTerms, RepresentsAll, AllSmall, SmallLocs, HeadOk;
    ghost var baseGroups :| IsIndex(baseTable, basePages, baseGroups, a);
    ghost var deltaGroups :| IsIndex(deltaTable, deltaPages, deltaGroups, b);
    var base := new LeafCursor(baseTable, basePages, baseGroups);
    var delta := new LeafCursor(deltaTable, deltaPages, deltaGroups);
    var output := new Output(cap, scratch, indexLimit, leafLimit);
    MergeStreams(output, base, delta, a, b, split);
    table, pages := output.files, output.indexFile;
    IndexSorted(baseTable, basePages, baseGroups, a);
    IndexSorted(deltaTable, deltaPages, deltaGroups, b);
    MergedIsIndex(table, pages, output.fileGroups, a, b);
  }

  // ---------------------------------------------------------------- table order and field widths

  lemma {:induction false} IndexSorted(table: Table, pages: seq<Page>, groups: seq<seq<Entry>>, ts: seq<Term>)
    requires IsIndex(table, pages, groups, ts)
    ensures SortedTerms(ts)
  {
  }

  lemma {:induction false} KeysSorted(pages: seq<Page>, es: seq<Entry>, ts: seq<Term>)
    requires RepresentsAll(pages, es, ts) && SortedTerms(ts)
    ensures Sorted(es)
  {
  }

  /** Page numbers fit the record's 32 bits when the file has at most 2^32 pages. */
  lemma {:induction false} LocsFit(pages: seq<Page>, es: seq<Entry>, ts: seq<Term>)
    requires RepresentsAll(pages, es, ts) && SmallLocs(es) && |pages| <= U32
    ensures AllFit(es)
  {
  }

  lemma {:induction false} MergedIsIndex(table: Table, pages: seq<Page>, groups: seq<seq<Entry>>,
                                         a: seq<Term>, b: seq<Term>)
    requires SortedTerms(a) && SortedTerms(b)
    requires ClosedPages(table, groups) && SmallLocs(Entries(groups))
    requires RepresentsAll(pages, Entries(groups), MergeTerms(a, b))
    ensures TableHolds(table, groups) && (|pages| <= U32 ==> IsIndex(table, pages, groups, MergeTerms(a, b)))
  {
    MergeIsSortedUnion(a, b, []);
    KeysSorted(pages, Entries(groups), MergeTerms(a, b));
    if |pages| <= U32 { LocsFit(pages, Entries(groups), MergeTerms(a, b)); }
  }
}
