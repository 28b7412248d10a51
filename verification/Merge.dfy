/** Merging a base and a delta index: two term tables walked in key order, raw posting
    bytes re-packed in bounded batches, each batch dumped when the next term does not fit. */
module Merge {
  import opened Bytes
  import opened ModFacts
  import opened Postings
  import opened Layout
  import opened TermTable
  import opened BlockBuilder
  import opened LeafWriter
  import opened MergeSpec
  import opened MergeWriter

  // ---------------------------------------------------------------- what an index says

  /** A table entry and the pages it points into represent a term. */
  ghost predicate Represents(pages: seq<Page>, e: Entry, t: Term) {
    e.key == t.key && |e.key| <= KEY_MAX && e.loc.docFreq == t.df && Located(pages, e.loc, t.ps)
  }

  ghost predicate RepresentsAll(pages: seq<Page>, es: seq<Entry>, ts: seq<Term>) {
    |es| == |ts| && forall i :: 0 <= i < |es| ==> Represents(pages, es[i], ts[i])
  }

  ghost predicate AllFit(es: seq<Entry>) {
    forall i :: 0 <= i < |es| ==> Fits(es[i].loc)
  }

  /** An index on disk: term table and pages that say exactly `terms`. */
  ghost predicate IsIndex(table: Table, pages: seq<Page>, groups: seq<seq<Entry>>, terms: seq<Term>) {
    && TableHolds(table, groups) && AllFit(Entries(groups))
    && RepresentsAll(pages, Entries(groups), terms)
  }

  /** The same, however the records are grouped into leaf pages. */
  ghost predicate Indexes(table: Table, pages: seq<Page>, terms: seq<Term>) {
    exists groups :: IsIndex(table, pages, groups, terms)
  }

  /** What the record fields carry, but for the page number. */
  ghost predicate SmallLocs(es: seq<Entry>) {
    forall i :: 0 <= i < |es| ==> Fits(es[i].loc.(block := 0))
  }

  lemma {:induction false} SmallAppend(es: seq<Entry>, e: Entry)
    requires SmallLocs(es) && Fits(e.loc.(block := 0))
    ensures SmallLocs(es + [e])
  {
    assert forall i :: 0 <= i < |es| ==> (es + [e])[i] == es[i];
  }

  lemma {:induction false} RepresentsMore(pages: seq<Page>, more: seq<Page>, es: seq<Entry>, ts: seq<Term>)
    requires RepresentsAll(pages, es, ts) && Extends(pages, more)
    ensures RepresentsAll(more, es, ts)
  {
    forall i | 0 <= i < |es| ensures Represents(more, es[i], ts[i]) {
      assert Represents(pages, es[i], ts[i]);
      LocatedExtends(pages, more, es[i].loc, ts[i].ps);
    }
  }

  lemma {:induction false} RepresentsAppend(pages: seq<Page>, es: seq<Entry>, ts: seq<Term>, e: Entry, t: Term)
    requires RepresentsAll(pages, es, ts) && Represents(pages, e, t)
    ensures RepresentsAll(pages, es + [e], ts + [t])
  {
    forall i | 0 <= i < |es| + 1 ensures Represents(pages, (es + [e])[i], (ts + [t])[i]) {
      if i < |es| { assert Represents(pages, es[i], ts[i]); }
    }
  }

  lemma {:induction false} RepresentsTail(pages: seq<Page>, es: seq<Entry>, ts: seq<Term>)
    requires RepresentsAll(pages, es, ts) && es != []
    ensures RepresentsAll(pages, es[1..], ts[1..]) && Represents(pages, es[0], ts[0])
  {
    forall i | 0 <= i < |es| - 1 ensures Represents(pages, es[1..][i], ts[1..][i]) {
      assert Represents(pages, es[i + 1], ts[i + 1]);
    }
  }

  // ---------------------------------------------------------------- page numbers

  lemma {:induction false} ContinuesShift(file: seq<Page>, pages: seq<Page>, block: nat, segs: seq<seq<Posting>>)
    requires Continues(pages, block, segs)
    ensures Continues(file + pages, |file| + block, segs)
    decreases |segs|
  {
    if segs != [] { ContinuesShift(file, pages, block + 1, segs[1..]); }
  }

  /** Pages appended behind a file are found at their batch number plus the file's length. */
  lemma {:induction false} LocatedShift(file: seq<Page>, pages: seq<Page>, loc: Loc, df: nat, ps: seq<Posting>)
    requires Located(pages, loc, ps)
    ensures Located(file + pages, loc.(block := |file| + loc.block, docFreq := df), ps)
  {
    var segs :| Holds(pages, loc, segs) && Flatten(segs) == ps;
    ContinuesShift(file, pages, loc.block + 1, segs[1..]);
    assert Holds(file + pages, loc.(block := |file| + loc.block, docFreq := df), segs);
  }

  lemma {:induction false} ExtendsBehind(file: seq<Page>, pages: seq<Page>, more: seq<Page>)
    requires Extends(pages, more)
    ensures Extends(file + pages, file + more)
  {
    forall i | 0 <= i < |file + pages| ensures (file + pages)[i] <= (file + more)[i] {
      if i >= |file| { assert pages[i - |file|] <= more[i - |file|]; }
    }
  }

  /** A term whose postings are in the batch joins the terms already represented. */
  lemma {:induction false} TermAppended(file: seq<Page>, pages: seq<Page>, before: seq<Page>, es: seq<Entry>,
                                        ts: seq<Term>, loc: Loc, e: Entry, t: Term)
    requires RepresentsAll(before, es, ts) && Extends(before, file + pages) && SmallLocs(es)
    requires Located(pages, loc, t.ps) && Fits(loc.(block := 0, docFreq := 0))
    requires GoodTerm(t, 0, U64) && e == Entry(t.key, loc.(block := |file| + loc.block, docFreq := t.df))
    ensures RepresentsAll(file + pages, es + [e], ts + [t]) && SmallLocs(es + [e])
  {
    RepresentsMore(before, file + pages, es, ts);
    LocatedShift(file, pages, loc, t.df, t.ps);
    RepresentsAppend(file + pages, es, ts, e, t);
    SmallAppend(es, e);
  }

  // ---------------------------------------------------------------- leaf page numbers

  /** Heads of a dumped batch name their pages by position in the whole leaf file. */
  function Renumber(heads: seq<Head>, from: nat): seq<Head> {
    seq(|heads|, i requires 0 <= i < |heads| => Head(from + heads[i].leafBlock, heads[i].firstTerm))
  }

  lemma {:induction false} EntriesConcat(a: seq<seq<Entry>>, b: seq<seq<Entry>>)
    ensures Entries(a + b) == Entries(a) + Entries(b)
  {
    if b == [] {
      assert a + b == a;
    } else {
      var last := |b| - 1;
      assert (a + b)[..|a + b| - 1] == a + b[..last];
      EntriesConcat(a, b[..last]);
      ConcatAssoc(Entries(a), Entries(b[..last]), b[last]);
    }
  }

  lemma {:induction false} TablesAppend(file: Table, a: seq<seq<Entry>>, batch: Table, b: seq<seq<Entry>>)
    requires ClosedPages(file, a) && ClosedPages(batch, b)
    ensures ClosedPages(Table(file.heads + Renumber(batch.heads, |file.leaves|), file.leaves + batch.leaves), a + b)
  {
    var t := Table(file.heads + Renumber(batch.heads, |file.leaves|), file.leaves + batch.leaves);
    forall j | 0 <= j < |a + b| ensures HeadOk(t, j, (a + b)[j]) {
      if j < |a| {
        assert HeadOk(file, j, a[j]);
      } else {
        assert HeadOk(batch, j - |a|, b[j - |a|]);
      }
    }
  }

  /** The head entries of a batch, read back from its leaf pages. */
  method HeadsOf(leaves: seq<LeafPage>, from: nat, ghost batch: Table, ghost groups: seq<seq<Entry>>)
    returns (heads: seq<Head>)
    requires ClosedPages(batch, groups) && leaves == batch.leaves
    ensures heads == Renumber(batch.heads, from)
  {
    hide RecordAt, RecordKey, RecordLoc;
    heads := [];
    for leafBlockID := 0 to |leaves|
      invariant heads == Renumber(batch.heads, from)[..leafBlockID]
    {
      assert HeadOk(batch, leafBlockID, groups[leafBlockID]);
      assert EntryAt(leaves[leafBlockID], 0, groups[leafBlockID][0]);
      RecordRoundTrip(leaves[leafBlockID], 0, groups[leafBlockID][0]);
      heads := heads + [Head(from + leafBlockID, RecordKey(leaves[leafBlockID], 0))];
      assert heads == Renumber(batch.heads, from)[..leafBlockID + 1];
    }
  }

  // ---------------------------------------------------------------- the output side

  class Output {
    const scratch: nat
    const indexLimit: nat
    const leafLimit: nat
    const builder: PageBuilder
    const writer: Writer
    /** Something was written into the batch's index pages. */
    var hasIndexWrite: bool
    /** The head, leaf and index streams dumped so far. */
    var files: Table
    var indexFile: seq<Page>
    ghost var fileGroups: seq<seq<Entry>>
    /** The terms written so far. */
    ghost var out: seq<Term>

    ghost function Pages(): seq<Page>
      reads this, builder
    {
      indexFile + builder.Pages()
    }

    ghost function Written(): seq<Entry>
      reads this, writer
    {
      Entries(fileGroups) + writer.Contents()
    }

    ghost predicate Limits()
      reads this, builder, writer
    {
      && GoodLimits(builder.cap, scratch, indexLimit, leafLimit)
      && |builder.blocks| < indexLimit
      && (hasIndexWrite || (builder.Pages() == [[]] && writer.directory == [] && writer.table.leaves == []))
    }

    ghost predicate Valid()
      reads this, builder, writer
    {
      && builder.Valid() && writer.Valid() && Limits()
      && ClosedPages(files, fileGroups) && SmallLocs(Written())
      && RepresentsAll(Pages(), Written(), out)
    }

    /** Everything but the terms to come. */
    ghost function State(): (seq<Page>, seq<Entry>, Table, seq<Page>, bool)
      reads this, builder, writer
    {
      (Pages(), Written(), files, indexFile, hasIndexWrite)
    }

    constructor (cap: nat, scratch: nat, indexLimit: nat, leafLimit: nat)
      requires GoodLimits(cap, scratch, indexLimit, leafLimit)
      ensures Valid() && out == [] && fresh(builder) && fresh(writer)
      ensures this.scratch == scratch
    {
      this.scratch, this.indexLimit, this.leafLimit := scratch, indexLimit, leafLimit;
      builder := new PageBuilder(cap);
      writer := new Writer();
      hasIndexWrite, files, indexFile := false, Table([], []), [];
      fileGroups, out := [], [];
      new;
      assert Written() == [];
    }

    predicate CanAddLeafTermEntry(term: Key)
      reads this, writer
    {
      ENTRY_HDR + |term| <= DATA_CAP
      && |writer.table.leaves| + (if writer.NeedsNewPage(term) then 1 else 0) < leafLimit
    }

    /** After CanAddLeafTermEntry said yes, adding the record cannot fail. */
    method AddLeafTermEntry(term: Key, loc: Loc) returns (ok: bool)
      requires writer.Valid() && |term| <= KEY_MAX && CanAddLeafTermEntry(term)
      modifies writer
      ensures ok && writer.Valid() && writer.Contents() == old(writer.Contents()) + [Entry(term, loc)]
    {
      writer.WriteLeafEntry(term, loc);
      ok := |writer.table.leaves| < leafLimit;
    }

    /** One attempt at a term. A failed attempt changes nothing; an attempt on an empty
        batch does not fail. */
    method TryAdd(term: Key, docFreq: nat, bytes: seq<Byte>, ghost t: Term) returns (ok: bool)
      requires Valid() && t.key == term && t.df == docFreq && GoodTerm(t, 0, U64)
      requires bytes == Enc(t.ps) && |bytes| <= scratch
      modifies this, builder, writer
      ensures Valid() && out == if ok then old(out) + [t] else old(out)
      ensures !ok ==> State() == old(State())
      ensures !old(hasIndexWrite) ==> ok
    {
      hide Enc, Ascending, LowTf, RepresentsAll, ClosedPages, Located;
      if !CanAddLeafTermEntry(term) { return false; }
      ghost var before := Pages();
      TimesIsProduct(indexLimit - 1, builder.cap - SLACK);
      var loc;
      ok, loc := AddIndex(builder, indexLimit, bytes, t.ps);
      if !ok { assert Pages() == before; return; }
      ghost var es := Written();
      Commit(term, docFreq, loc, before, es, t);
    }

    /** Record a term whose postings are in place. */
    method Commit(term: Key, docFreq: nat, loc: Loc, ghost before: seq<Page>, ghost es: seq<Entry>, ghost t: Term)
      requires builder.Valid() && writer.Valid() && ClosedPages(files, fileGroups) && SmallLocs(Written())
      requires GoodLimits(builder.cap, scratch, indexLimit, leafLimit) && |builder.blocks| < indexLimit
      requires t.key == term && t.df == docFreq && GoodTerm(t, 0, U64) && CanAddLeafTermEntry(term)
      requires Located(builder.Pages(), loc, t.ps) && Fits(loc.(block := 0, docFreq := 0))
      requires es == Written() && RepresentsAll(before, es, out) && Extends(before, Pages())
      modifies this, writer
      ensures Valid() && out == old(out) + [t]
    {
      hide ClosedPages, RepresentsAll, Located, Extends, Entries;
      var added := loc.(block := |indexFile| + loc.block, docFreq := docFreq);
      ghost var e := Entry(term, added);
      TermAppended(indexFile, builder.Pages(), before, es, out, loc, e, t);
      hasIndexWrite := true;
      var ok := AddLeafTermEntry(term, added);
      out := out + [t];
      assert Written() == es + [e];
    }

    /** Append the batch to the streams and start an empty one. */
    method DumpBatch()
      requires Valid()
      modifies this, builder, writer
      ensures Valid() && !hasIndexWrite && out == old(out) && writer.Contents() == []
      ensures RepresentsAll(indexFile, Entries(fileGroups), out)
    {
      ghost var before, es := Pages(), Written();
      writer.FlushLeaf();
      var heads := HeadsOf(writer.table.leaves, |files.leaves|, writer.table, writer.groups);
      TablesAppend(files, fileGroups, writer.table, writer.groups);
      EntriesConcat(fileGroups, writer.groups);
      assert writer.Contents() == Entries(writer.groups);
      files := Table(files.heads + heads, files.leaves + writer.table.leaves);
      fileGroups := fileGroups + writer.groups;
      writer.Reset();
      assert Written() == Entries(fileGroups) == es;
      DumpIndexPages(before, es);
    }

    method DumpIndexPages(ghost before: seq<Page>, ghost es: seq<Entry>)
      requires builder.Valid() && writer.Valid() && GoodLimits(builder.cap, scratch, indexLimit, leafLimit)
      requires ClosedPages(files, fileGroups) && SmallLocs(Written()) && writer.Contents() == []
      requires writer.directory == [] && writer.table.leaves == []
      requires before == Pages() && es == Written() == Entries(fileGroups) && RepresentsAll(before, es, out)
      requires hasIndexWrite || builder.Pages() == [[]]
      modifies this`indexFile, this`hasIndexWrite, builder
      ensures Valid() && !hasIndexWrite
      ensures RepresentsAll(indexFile, Entries(fileGroups), out)
    {
      hide ClosedPages, RepresentsAll, SmallLocs, Writer.Valid;
      ghost var oldFile := indexFile;
      if hasIndexWrite {
        ghost var batch := builder.Pages();
        builder.Flush();
        ExtendsBehind(oldFile, batch, builder.blocks);
        indexFile := indexFile + builder.blocks;
        RepresentsMore(before, indexFile, es, out);
      } else {
        RepresentsWithoutEmpty(indexFile, es, out);
      }
      builder.Reset();
      hasIndexWrite := false;
      assert Extends(indexFile, Pages());
      RepresentsMore(indexFile, Pages(), es, out);
    }
  }

  lemma {:induction false} RepresentsWithoutEmpty(pages: seq<Page>, es: seq<Entry>, ts: seq<Term>)
    requires RepresentsAll(pages + [[]], es, ts)
    ensures RepresentsAll(pages, es, ts)
  {
    forall i | 0 <= i < |es| ensures Represents(pages, es[i], ts[i]) {
      assert Represents(pages + [[]], es[i], ts[i]);
      LocatedWithoutEmpty(pages, es[i].loc, ts[i].ps);
    }
  }
}
