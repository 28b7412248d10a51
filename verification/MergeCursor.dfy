/** The merge's read side: walks a term table record by record and copies out the raw
    posting bytes of the current one. */
module MergeCursor {
  import opened Bytes
  import opened Postings
  import opened Layout
  import opened TermTable
  import opened LeafWriter

  lemma {:induction false} EntriesPrefix(groups: seq<seq<Entry>>, j: nat)
    requires j < |groups|
    ensures Entries(groups[..j + 1]) == Entries(groups[..j]) + groups[j]
  {
    var g := groups[..j + 1];
    assert g[..|g| - 1] == groups[..j] && g[|g| - 1] == groups[j];
  }

  /** `passed` entries lie before record number `entry` of page number `leaf`. */
  ghost predicate StandsAt(groups: seq<seq<Entry>>, leaf: nat, entry: nat, passed: nat) {
    && leaf <= |groups| && passed == |Entries(groups[..leaf])| + entry
    && if leaf < |groups| then entry <= |groups[leaf]| else entry == 0
  }

  lemma {:induction false} OnRecord(groups: seq<seq<Entry>>, leaf: nat, entry: nat, passed: nat)
    requires StandsAt(groups, leaf, entry, passed) && leaf < |groups| && entry < |groups[leaf]|
    ensures passed < |Entries(groups)|
  {
    var at := GroupStart(groups, leaf);
  }

  lemma {:induction false} AtPageEnd(groups: seq<seq<Entry>>, leaf: nat, entry: nat, passed: nat)
    requires StandsAt(groups, leaf, entry, passed) && leaf < |groups| && entry >= |groups[leaf]|
    ensures StandsAt(groups, leaf + 1, 0, passed)
  {
    EntriesPrefix(groups, leaf);
  }

  lemma {:induction false} AtTableEnd(groups: seq<seq<Entry>>, leaf: nat, entry: nat, passed: nat)
    requires StandsAt(groups, leaf, entry, passed) && leaf >= |groups|
    ensures passed == |Entries(groups)|
  {
    assert groups[..|groups|] == groups;
  }

  lemma {:induction false} FirstBytes(segs: seq<seq<Posting>>, r: seq<Byte>)
    requires segs != []
    ensures r + Enc(Flatten(segs)) == (r + Enc(segs[0])) + Enc(Flatten(segs[1..]))
    ensures |Enc(Flatten(segs))| == |Enc(segs[0])| + |Enc(Flatten(segs[1..]))|
  {
    EncConcat(segs[0], Flatten(segs[1..]));
    ConcatAssoc(r, Enc(segs[0]), Enc(Flatten(segs[1..])));
  }

  /** What one continuation page contributes to the byte stream. */
  lemma {:induction false} PageBytes(pages: seq<Page>, block: nat, left: seq<seq<Posting>>, r: seq<Byte>)
    requires left != [] && Continues(pages, block, left) && SegsAscending(left)
    ensures block < |pages| && CONT_HDR + HeaderLength(pages[block]) <= |pages[block]|
    ensures pages[block][CONT_HDR..CONT_HDR + HeaderLength(pages[block])] == Enc(left[0])
    ensures Continues(pages, block + 1, left[1..]) && SegsAscending(left[1..])
    ensures r + Enc(Flatten(left)) == (r + Enc(left[0])) + Enc(Flatten(left[1..]))
    ensures |Enc(Flatten(left))| == HeaderLength(pages[block]) + |Enc(Flatten(left[1..]))|
  {
    HeaderRoundTrip(pages[block], left[0]);
    FirstBytes(left, r);
  }

  class LeafCursor {
    const table: Table
    const pages: seq<Page>
    ghost const groups: seq<seq<Entry>>
    var leafBlockID: nat
    var entryIndex: nat
    var hasCurrent: bool

    /** Number of entries before the cursor. */
    ghost var passed: nat

    ghost predicate InPlace()
      reads this
    {
      ClosedPages(table, groups) && StandsAt(groups, leafBlockID, entryIndex, passed)
    }

    ghost predicate Valid()
      reads this
    {
      && InPlace() && passed <= |Entries(groups)|
      && (hasCurrent ==> leafBlockID < |groups| && entryIndex < |groups[leafBlockID]|)
      && (!hasCurrent ==> passed == |Entries(groups)|)
    }

    /** Entries from the current one on. */
    ghost function Rest(): seq<Entry>
      requires passed <= |Entries(groups)|
      reads this
    {
      Entries(groups)[passed..]
    }

    constructor (table: Table, pages: seq<Page>, ghost groups: seq<seq<Entry>>)
      requires ClosedPages(table, groups)
      ensures Valid() && Rest() == Entries(groups)
      ensures this.table == table && this.pages == pages && this.groups == groups
    {
      this.table, this.pages, this.groups := table, pages, groups;
      leafBlockID, entryIndex, hasCurrent, passed := 0, 0, false, 0;
      new;
      GoCurrent();
    }

    method EntryCount(leaf: nat) returns (n: nat)
      requires ClosedPages(table, groups) && leaf < |groups|
      ensures n == |groups[leaf]|
    {
      assert HeadOk(table, leaf, groups[leaf]);
      n := table.leaves[leaf].directory[MAX_ENTRIES];
    }

    /** Find the record at the current indices, moving past the ends of pages. */
    method GoCurrent()
      requires InPlace()
      modifies this
      ensures Valid() && passed == old(passed)
    {
      hide HeadOk, StandsAt;
      hasCurrent := false;
      while leafBlockID < |table.leaves|
        invariant InPlace() && !hasCurrent && passed == old(passed)
        decreases |table.leaves| - leafBlockID
      {
        var entryCount := EntryCount(leafBlockID);
        if entryIndex < entryCount {
          hasCurrent := true;
          OnRecord(groups, leafBlockID, entryIndex, passed);
          return;
        }
        AtPageEnd(groups, leafBlockID, entryIndex, passed);
        leafBlockID := leafBlockID + 1;
        entryIndex := 0;
      }
      AtTableEnd(groups, leafBlockID, entryIndex, passed);
    }

    method Advance()
      requires Valid()
      modifies this
      ensures Valid() && Rest() == if old(Rest()) == [] then [] else old(Rest())[1..]
    {
      if !hasCurrent { return; }
      CurrentIsHead();
      entryIndex := entryIndex + 1;
      passed := passed + 1;
      GoCurrent();
    }

    lemma {:induction false} CurrentIsHead()
      requires Valid()
      ensures hasCurrent <==> Rest() != []
      ensures hasCurrent ==> groups[leafBlockID][entryIndex] == Rest()[0]
    {
      hide HeadOk, Entries;
      if hasCurrent {
        var at := GroupStart(groups, leafBlockID);
        var g := groups[leafBlockID];
        assert g[entryIndex] == Entries(groups)[at..at + |g|][entryIndex] == Entries(groups)[at + entryIndex];
      }
    }

    /** Key and location of the current record. */
    method Current() returns (key: Key, loc: Loc)
      requires Valid() && hasCurrent
      ensures Rest() != [] && key == Rest()[0].key && loc == Stored(Rest()[0].loc) && |key| <= KEY_MAX
    {
      CurrentIsHead();
      assert HeadOk(table, leafBlockID, groups[leafBlockID]);
      var page := table.leaves[leafBlockID];
      assert EntryAt(page, entryIndex, groups[leafBlockID][entryIndex]);
      RecordRoundTrip(page, entryIndex, groups[leafBlockID][entryIndex]);
      key, loc := RecordKey(page, entryIndex), RecordLoc(page, entryIndex);
    }

    /** Append the record's posting bytes, page by page, to `bytes`. */
    method ReadPostingBytes(loc: Loc, bytes: seq<Byte>, ghost ps: seq<Posting>) returns (r: seq<Byte>)
      requires Located(pages, loc, ps) && Ascending(ps)
      ensures r == bytes + Enc(ps)
    {
      hide Enc, Continues, Ascending;
      ghost var segs :| Holds(pages, loc, segs) && Flatten(segs) == ps;
      FlattenAscending(segs);
      FirstBytes(segs, bytes);
      r := bytes + pages[loc.block][loc.offset..loc.offset + loc.length];
      r := AppendContinuations(loc.block + 1, loc.conts, r, segs[1..]);
    }

    method AppendContinuations(first: nat, conts: nat, bytes: seq<Byte>, ghost segs: seq<seq<Posting>>)
      returns (r: seq<Byte>)
      requires |segs| == conts && Continues(pages, first, segs) && SegsAscending(segs)
      ensures r == bytes + Enc(Flatten(segs))
    {
      r := bytes;
      var block: nat := first;
      ghost var left := segs;
      for i := 0 to conts
        invariant |left| == conts - i && Continues(pages, block, left) && SegsAscending(left)
        invariant r + Enc(Flatten(left)) == bytes + Enc(Flatten(segs))
      {
        PageBytes(pages, block, left, r);
        r := r + pages[block][CONT_HDR..CONT_HDR + HeaderLength(pages[block])];
        left := left[1..];
        block := block + 1;
      }
    }

    /** Size of the record's posting bytes, from the page headers. */
    method PostingBytesSize(loc: Loc, ghost ps: seq<Posting>) returns (n: nat)
      requires Located(pages, loc, ps) && Ascending(ps)
      ensures n == |Enc(ps)|
    {
      hide Continues, Ascending, ContPage, Vb;
      ghost var segs :| Holds(pages, loc, segs) && Flatten(segs) == ps;
      FlattenAscending(segs);
      FirstBytes(segs, []);
      n := loc.length;
      ghost var left := segs[1..];
      var block: nat := loc.block + 1;
      for i := 0 to loc.conts
        invariant |left| == loc.conts - i && Continues(pages, block, left) && SegsAscending(left)
        invariant n + |Enc(Flatten(left))| == |Enc(ps)|
      {
        PageBytes(pages, block, left, []);
        n := n + HeaderLength(pages[block]);
        left := left[1..];
        block := block + 1;
      }
    }
  }
}
