/** BuildBlocks end to end -- store to pages and term table -- and the way back through
    the term lookup and the leaf reader. */
module IndexBuilder {
  import opened Bytes
  import opened Postings
  import opened Layout
  import opened TermTable
  import opened PostingReader
  import opened PostingStore
  import opened BlockBuilder
  import opened LeafWriter

  datatype Built = Built(pages: seq<Page>, table: Table)

  ghost predicate GoodStore(store: Lists) {
    forall key :: key in store ==> SortedList(store[key]) && InRange(store[key])
  }

  /** Keys too long for a head entry, and empty lists, are not indexed. */
  predicate Indexable(store: Lists, key: Key) {
    key in store && |key| <= KEY_MAX && store[key] != []
  }

  // ---------------------------------------------------------------- term order

  ghost predicate SortedKeys(keys: seq<Key>) {
    forall i, j :: 0 <= i < j < |keys| ==> Less(keys[i], keys[j])
  }

  method InsertKey(keys: seq<Key>, key: Key) returns (r: seq<Key>)
    requires SortedKeys(keys) && key !in keys
    ensures SortedKeys(r) && forall k :: k in r <==> k == key || k in keys
  {
    hide Less;
    var at := 0;
    while at < |keys| && Less(keys[at], key)
      invariant at <= |keys| && forall i :: 0 <= i < at ==> Less(keys[i], key)
    {
      at := at + 1;
    }
    forall i | at <= i < |keys| ensures Less(key, keys[i]) {
      LessTotal(keys[at], key);
      if i > at { LessTrans(key, keys[at], keys[i]); }
    }
    r := keys[..at] + [key] + keys[at..];
    assert forall i :: 0 <= i < |r| ==> r[i] == if i < at then keys[i] else if i == at then key else keys[i - 1];
    assert forall k :: k in keys ==> k in keys[..at] || k in keys[at..];
  }

  method SortTerms(store: Lists) returns (keys: seq<Key>)
    ensures SortedKeys(keys) && forall k :: k in keys <==> k in store
  {
    keys := [];
    var todo := store.Keys;
    while todo != {}
      invariant SortedKeys(keys) && todo <= store.Keys
      invariant forall k :: k in keys <==> k in store && k !in todo
      decreases |todo|
    {
      var key :| key in todo;
      keys := InsertKey(keys, key);
      todo := todo - {key};
    }
  }

  // ---------------------------------------------------------------- build

  /** A table entry and its pages represent one key of the store. */
  ghost predicate EntryServes(pages: seq<Page>, e: Entry, store: Lists, tf8: nat -> Byte, cap: nat) {
    && Indexable(store, e.key) && Located(pages, e.loc, Quantise(store[e.key], tf8))
    && e.loc.docFreq == |store[e.key]| && e.loc.offset <= cap && e.loc.length <= cap
    && (e.loc.conts > 0 ==>
          (e.loc.conts - 1) * (cap - SLACK) < |Enc(Quantise(store[e.key], tf8))|)
  }

  ghost predicate AllServe(pages: seq<Page>, es: seq<Entry>, store: Lists, tf8: nat -> Byte, cap: nat) {
    forall i :: 0 <= i < |es| ==> EntryServes(pages, es[i], store, tf8, cap)
  }

  lemma {:induction false} AllServeExtends(pages: seq<Page>, more: seq<Page>, es: seq<Entry>, store: Lists,
                                           tf8: nat -> Byte, cap: nat)
    requires AllServe(pages, es, store, tf8, cap) && Extends(pages, more)
    ensures AllServe(more, es, store, tf8, cap)
  {
    forall i | 0 <= i < |es| ensures EntryServes(more, es[i], store, tf8, cap) {
      assert EntryServes(pages, es[i], store, tf8, cap);
      LocatedExtends(pages, more, es[i].loc, Quantise(store[es[i].key], tf8));
    }
  }

  /** The entries written for the first n keys: exactly the indexable ones, in order. */
  ghost predicate Covers(es: seq<Entry>, keys: seq<Key>, n: nat, store: Lists)
    requires n <= |keys|
  {
    && Sorted(es)
    && (forall e :: e in es ==> e.key in keys[..n])
    && (forall i :: 0 <= i < n && Indexable(store, keys[i]) ==> exists e :: e in es && e.key == keys[i])
  }

  lemma {:induction false} CoversStep(es: seq<Entry>, keys: seq<Key>, n: nat, store: Lists, e: Entry)
    requires SortedKeys(keys) && n < |keys| && Covers(es, keys, n, store) && e.key == keys[n]
    ensures Covers(es + [e], keys, n + 1, store)
  {
  }

  lemma {:induction false} CoversSkip(es: seq<Entry>, keys: seq<Key>, n: nat, store: Lists)
    requires n < |keys| && Covers(es, keys, n, store) && !Indexable(store, keys[n])
    ensures Covers(es, keys, n + 1, store)
  {
  }

  /** Pack one term and write its record. */
  method AddTerm(builder: PageBuilder, writer: Writer, key: Key, store: Lists, tf8: nat -> Byte)
    requires builder.Valid() && writer.Valid() && GoodStore(store) && Indexable(store, key)
    requires AllServe(builder.Pages(), writer.Contents(), store, tf8, builder.cap)
    modifies builder, writer
    ensures builder.Valid() && writer.Valid()
    ensures |writer.Contents()| == |old(writer.Contents())| + 1
    ensures writer.Contents() == old(writer.Contents()) + [writer.Contents()[|old(writer.Contents())|]]
    ensures writer.Contents()[|old(writer.Contents())|].key == key
    ensures AllServe(builder.Pages(), writer.Contents(), store, tf8, builder.cap)
  {
    hide Writer.Valid, Writer.Contents, PageBuilder.Valid, PageBuilder.Pages, Holds, Extends, Quantise,
        Ascending, Enc;
    ghost var ps := Quantise(store[key], tf8);
    ghost var before, es := builder.Pages(), writer.Contents();
    var bytes := Encode(store[key], tf8);
    QuantiseAscending(store[key], tf8);
    var loc; ghost var segs;
    loc, segs := builder.PackTerm(bytes, |store[key]|, ps);
    AllServeExtends(before, builder.Pages(), es, store, tf8, builder.cap);
    assert Located(builder.Pages(), loc, ps);
    writer.WriteLeafEntry(key, loc);
    ghost var e := Entry(key, loc);
    assert EntryServes(builder.Pages(), e, store, tf8, builder.cap);
  }

  /** What a finished build promises. */
  ghost predicate IsIndexOf(b: Built, groups: seq<seq<Entry>>, store: Lists, tf8: nat -> Byte, cap: nat) {
    && TableHolds(b.table, groups)
    && AllServe(b.pages, Entries(groups), store, tf8, cap)
    && (forall key :: Indexable(store, key) <==> exists e :: e in Entries(groups) && e.key == key)
  }

  /** The loop over the sorted terms. */
  method AddTerms(builder: PageBuilder, writer: Writer, keys: seq<Key>, store: Lists, tf8: nat -> Byte)
    requires builder.Valid() && writer.Valid() && writer.Contents() == [] && GoodStore(store)
    requires SortedKeys(keys) && forall k :: k in keys ==> k in store
    modifies builder, writer
    ensures builder.Valid() && writer.Valid()
    ensures AllServe(builder.Pages(), writer.Contents(), store, tf8, builder.cap)
    ensures Covers(writer.Contents(), keys, |keys|, store)
  {
    for n := 0 to |keys|
      invariant builder.Valid() && writer.Valid()
      invariant AllServe(builder.Pages(), writer.Contents(), store, tf8, builder.cap)
      invariant Covers(writer.Contents(), keys, n, store)
    {
      var key := keys[n];
      if |key| <= KEY_MAX && store[key] != [] {
        ghost var es := writer.Contents();
        AddTerm(builder, writer, key, store, tf8);
        CoversStep(es, keys, n, store, writer.Contents()[|es|]);
      } else {
        CoversSkip(writer.Contents(), keys, n, store);
      }
    }
  }

  lemma {:induction false} CoversAll(pages: seq<Page>, es: seq<Entry>, keys: seq<Key>, store: Lists,
                                     tf8: nat -> Byte, cap: nat)
    requires Covers(es, keys, |keys|, store) && AllServe(pages, es, store, tf8, cap)
    requires forall k :: k in keys <==> k in store
    ensures forall key :: Indexable(store, key) <==> exists e :: e in es && e.key == key
  {
  }

  method BuildBlocks(store: Lists, tf8: nat -> Byte, cap: nat) returns (b: Built, ghost groups: seq<seq<Entry>>)
    requires GoodStore(store) && GoodCap(cap)
    ensures IsIndexOf(b, groups, store, tf8, cap)
    ensures forall i :: 0 <= i < |b.pages| ==> |b.pages[i]| == cap
  {
    var keys := SortTerms(store);
    var builder := new PageBuilder(cap);
    var writer := new Writer();
    AddTerms(builder, writer, keys, store, tf8);
    ghost var es, filled := writer.Contents(), builder.Pages();
    if |builder.cur| > 0 { builder.Flush(); }
    LastPageEmpty(filled, builder.blocks, es, store, tf8, cap);
    CoversAll(builder.blocks, es, keys, store, tf8, cap);
    var table := writer.Finish();
    groups := writer.groups;
    b := Built(builder.blocks, table);
  }

  /** Dropping an empty page under construction, or padding a started one, loses nothing. */
  lemma {:induction false} LastPageEmpty(filled: seq<Page>, blocks: seq<Page>, es: seq<Entry>, store: Lists,
                                         tf8: nat -> Byte, cap: nat)
    requires AllServe(filled, es, store, tf8, cap)
    requires Extends(filled, blocks) || filled == blocks + [[]]
    ensures AllServe(blocks, es, store, tf8, cap)
  {
    if Extends(filled, blocks) {
      AllServeExtends(filled, blocks, es, store, tf8, cap);
    } else {
      forall i | 0 <= i < |es| ensures EntryServes(blocks, es[i], store, tf8, cap) {
        var e := es[i];
        assert EntryServes(filled, e, store, tf8, cap);
        LocatedWithoutEmpty(blocks, e.loc, Quantise(store[e.key], tf8));
      }
    }
  }

  // ---------------------------------------------------------------- read back

  lemma {:induction false} LocatedInPages(pages: seq<Page>, loc: Loc, ps: seq<Posting>)
    requires Located(pages, loc, ps)
    ensures loc.block < |pages|
  {
    var segs :| Holds(pages, loc, segs) && Flatten(segs) == ps;
  }

  /** The record's fields carry a location of the build whole, its continuation count apart. */
  lemma {:induction false} ServedLocStored(b: Built, e: Entry, store: Lists, tf8: nat -> Byte, cap: nat)
    requires EntryServes(b.pages, e, store, tf8, cap) && GoodCap(cap) && |b.pages| <= 0x1_0000_0000
    ensures var loc := Stored(e.loc);
            && loc.block == e.loc.block && loc.offset == e.loc.offset && loc.length == e.loc.length
            && loc.conts <= e.loc.conts && (loc.conts == e.loc.conts <==> e.loc.conts < 0x1_0000)
    ensures |store[e.key]| < 0x1_0000_0000 && e.loc.conts < 0x1_0000 ==> Fits(e.loc)
  {
    hide Located, Quantise, Enc;
    LocatedInPages(b.pages, e.loc, Quantise(store[e.key], tf8));
  }

  /** A list of so many bytes at most has a continuation count the record can carry. */
  lemma {:induction false} FewBytesFewPages(pages: seq<Page>, e: Entry, store: Lists, tf8: nat -> Byte, cap: nat)
    requires EntryServes(pages, e, store, tf8, cap) && GoodCap(cap)
    requires |Enc(Quantise(store[e.key], tf8))| <= 0xFFFF * (cap - SLACK)
    ensures e.loc.conts < 0x1_0000
  {
    if e.loc.conts > 0 { CountFits(e.loc.conts, cap - SLACK, |Enc(Quantise(store[e.key], tf8))|); }
  }

  lemma {:induction false} CountFits(conts: nat, w: nat, bytes: nat)
    requires 0 < conts && (conts - 1) * w < bytes <= 0xFFFF * w
    ensures conts <= 0xFFFF
  {
  }

  /** What the reader opened on a record finds: the segments up to the count the record kept. */
  lemma {:induction false} StoredSegments(b: Built, e: Entry, store: Lists, tf8: nat -> Byte, cap: nat)
    returns (segs: seq<seq<Posting>>)
    requires EntryServes(b.pages, e, store, tf8, cap) && GoodStore(store) && GoodCap(cap)
    requires |b.pages| <= 0x1_0000_0000
    ensures Holds(b.pages, Stored(e.loc), segs) && Ascending(Flatten(segs))
    ensures Flatten(segs) <= Quantise(store[e.key], tf8)
    ensures Flatten(segs) == Quantise(store[e.key], tf8) <==> e.loc.conts < 0x1_0000
  {
    ServedLocStored(b, e, store, tf8, cap);
    QuantiseAscending(store[e.key], tf8);
    segs := ShortHolds(b.pages, e.loc, Stored(e.loc), Quantise(store[e.key], tf8));
  }

  /** Build, look a key up, open the reader: nothing for a key that is not indexed, and else
      the key's list, in order, with quantised frequencies -- the whole of it exactly when
      its continuation pages can be counted in 16 bits. */
  method OpenTerm(b: Built, key: Key, ghost groups: seq<seq<Entry>>, ghost store: Lists,
                  ghost tf8: nat -> Byte, ghost cap: nat) returns (reader: AdvancedIndexReader)
    requires IsIndexOf(b, groups, store, tf8, cap) && GoodStore(store) && GoodCap(cap)
    requires |b.pages| <= 0x1_0000_0000
    ensures fresh(reader) && fresh(reader.decoder) && reader.Settled()
    ensures !Indexable(store, key) ==> reader.Remaining() == []
    ensures Indexable(store, key) ==> reader.Remaining() <= Quantise(store[key], tf8)
    ensures forall e :: e in Entries(groups) && e.key == key ==>
      (reader.Remaining() == Quantise(store[key], tf8) <==> e.loc.conts < 0x1_0000)
  {
    ghost var es := Entries(groups);
    var location := FindTermData(b.table, key, groups);
    ghost var segs := [];
    if Indexable(store, key) {
      ghost var i :| 0 <= i < |es| && es[i].key == key;
      FindAt(es, i);
      assert EntryServes(b.pages, es[i], store, tf8, cap);
      segs := StoredSegments(b, es[i], store, tf8, cap);
      OneEntry(es, i);
    } else {
      FindNone(es, key);
    }
    reader := new AdvancedIndexReader.Open(b.pages, location, segs);
  }

  lemma {:induction false} OneEntry(es: seq<Entry>, i: nat)
    requires Sorted(es) && i < |es|
    ensures forall e :: e in es && e.key == es[i].key ==> e == es[i]
  {
    LessIrreflexive(es[i].key);
  }
}
