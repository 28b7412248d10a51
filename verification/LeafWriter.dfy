/** Writes the term table: records into leaf pages, a head entry per page. */
module LeafWriter {
  import opened Bytes
  import opened Layout
  import opened TermTable

  // ---------------------------------------------------------------- the open page

  ghost predicate SlotOk(data: seq<Byte>, at: nat, e: Entry) {
    DATA_OFFSET <= at < 0x1_0000 && RecordAt(data, at - DATA_OFFSET, e)
  }

  /** The written offsets and record bytes of a page that is being filled. */
  ghost predicate OpenPage(directory: seq<nat>, data: seq<Byte>, es: seq<Entry>) {
    && |directory| == |es| <= MAX_ENTRIES && |data| <= DATA_CAP && (es == [] ==> data == [])
    && forall i :: 0 <= i < |es| ==> SlotOk(data, directory[i], es[i])
  }

  lemma {:induction false} OpenPageAppend(directory: seq<nat>, data: seq<Byte>, es: seq<Entry>, e: Entry)
    requires OpenPage(directory, data, es) && |es| < MAX_ENTRIES
    requires |e.key| <= KEY_MAX && |data| + EntrySize(e) <= DATA_CAP
    ensures OpenPage(directory + [DATA_OFFSET + |data|], data + EntryBytes(e), es + [e])
  {
  }

  function ClosePage(directory: seq<nat>, data: seq<Byte>): LeafPage
    requires |directory| <= MAX_ENTRIES && |data| <= DATA_CAP
  {
    LeafPage(directory + seq(MAX_ENTRIES - |directory|, _ => 0) + [|directory|],
             data + Zeros(DATA_CAP - |data|))
  }

  lemma {:induction false} ClosedPageHolds(directory: seq<nat>, data: seq<Byte>, es: seq<Entry>)
    requires OpenPage(directory, data, es) && es != []
    ensures PageHolds(ClosePage(directory, data), es)
  {
  }

  // ---------------------------------------------------------------- the finished pages

  ghost predicate ClosedPages(t: Table, groups: seq<seq<Entry>>) {
    && |t.heads| == |t.leaves| == |groups|
    && forall j :: 0 <= j < |groups| ==> HeadOk(t, j, groups[j])
  }

  lemma {:induction false} ClosedPagesAppend(t: Table, groups: seq<seq<Entry>>, p: LeafPage, es: seq<Entry>)
    requires ClosedPages(t, groups) && PageHolds(p, es)
    ensures ClosedPages(Table(t.heads + [Head(|t.leaves|, es[0].key)], t.leaves + [p]), groups + [es])
    ensures Entries(groups + [es]) == Entries(groups) + es
  {
  }

  class Writer {
    var table: Table
    /** Written parts of the open page: offsets, record bytes, and its first key. */
    var directory: seq<nat>
    var data: seq<Byte>
    var firstTerm: Key
    /** Entries of the finished pages, and of the open one. */
    ghost var groups: seq<seq<Entry>>
    ghost var open: seq<Entry>

    ghost predicate Valid()
      reads this
    {
      && OpenPage(directory, data, open) && (open != [] ==> firstTerm == open[0].key)
      && ClosedPages(table, groups)
    }

    /** Everything written so far, in order. */
    ghost function Contents(): seq<Entry>
      reads this
    {
      Entries(groups) + open
    }

    constructor ()
      ensures Valid() && Contents() == []
    {
      table, directory, data, firstTerm := Table([], []), [], [], [];
      groups, open := [], [];
    }

    /** Start over on an empty page table. */
    method Reset()
      modifies this
      ensures Valid() && Contents() == [] && groups == [] && open == []
    {
      table, directory, data, firstTerm := Table([], []), [], [], [];
      groups, open := [], [];
    }

    method FlushLeaf()
      requires Valid()
      modifies this
      ensures Valid() && open == [] && Contents() == old(Contents())
      ensures |table.leaves| == old(|table.leaves|) + if old(|directory|) > 0 then 1 else 0
    {
      hide ClosedPages, SlotOk, PageHolds, ClosePage, Entries;
      if |directory| == 0 { return; }
      var page := ClosePage(directory, data);
      ClosedPageHolds(directory, data, open);
      ClosedPagesAppend(table, groups, page, open);
      table := Table(table.heads + [Head(|table.leaves|, firstTerm)], table.leaves + [page]);
      groups := groups + [open];
      directory, data, firstTerm, open := [], [], [], [];
      assert Contents() == Entries(groups);
    }

    /** The open page has entries and no room for one more of this size. */
    predicate NeedsNewPage(term: Key)
      reads this
    {
      |directory| > 0 && (|directory| >= MAX_ENTRIES || |data| + ENTRY_HDR + |term| > DATA_CAP)
    }

    method WriteLeafEntry(term: Key, loc: Loc)
      requires Valid() && |term| <= KEY_MAX
      modifies this
      ensures Valid() && Contents() == old(Contents()) + [Entry(term, loc)] && open != []
      ensures |table.leaves| == old(|table.leaves|) + if old(NeedsNewPage(term)) then 1 else 0
    {
      hide ClosedPages, SlotOk, Entries, EntryBytes;
      var entry := Entry(term, loc);
      if NeedsNewPage(term) { FlushLeaf(); }
      if |directory| == 0 { firstTerm := entry.key; }
      OpenPageAppend(directory, data, open, entry);
      directory := directory + [DATA_OFFSET + |data|];
      data := data + EntryBytes(entry);
      open := open + [entry];
      assert Contents() == Entries(groups) + open[..|open| - 1] + [entry];
    }

    method Finish() returns (t: Table)
      requires Valid() && Sorted(Contents())
      modifies this
      ensures TableHolds(t, groups) && Entries(groups) == old(Contents())
    {
      FlushLeaf();
      t := table;
      assert Contents() == Entries(groups);
    }
  }
}
