/** The two-level term table: sorted head entries, each naming a leaf page; a leaf page
    is a directory of offsets and packed (location, key) records. */
module TermTable {
  import opened Options
  import opened Bytes
  import opened Layout

  type Key = seq<Byte>

  const KEY_MAX := 26
  const MAX_ENTRIES := 160
  const DATA_OFFSET := 322
  const DATA_CAP := 3774
  const ENTRY_HDR := 16

  // ---------------------------------------------------------------- key order

  predicate Less(a: Key, b: Key) {
    b != [] && (a == [] || a[0] < b[0] || (a[0] == b[0] && Less(a[1..], b[1..])))
  }

  lemma {:induction false} LessTrans(a: Key, b: Key, c: Key)
    requires Less(a, b) && Less(b, c)
    ensures Less(a, c)
  {
    if a != [] && a[0] == b[0] == c[0] { LessTrans(a[1..], b[1..], c[1..]); }
  }

  lemma {:induction false} LessIrreflexive(a: Key)
    ensures !Less(a, a)
  {
    if a != [] { LessIrreflexive(a[1..]); }
  }

  lemma {:induction false} LessTotal(a: Key, b: Key)
    ensures Less(a, b) || a == b || Less(b, a)
  {
    if a != [] && b != [] && a[0] == b[0] {
      LessTotal(a[1..], b[1..]);
      assert a == [a[0]] + a[1..] && b == [b[0]] + b[1..];
    }
  }

  // ---------------------------------------------------------------- records

  datatype Entry = Entry(key: Key, loc: Loc)

  /** What the record's field widths keep of a location. */
  function Stored(loc: Loc): Loc {
    Loc(loc.docFreq % 0x1_0000_0000, loc.block % 0x1_0000_0000,
        loc.offset % 0x1_0000, loc.length % 0x1_0000, loc.conts % 0x1_0000)
  }

  predicate Fits(loc: Loc) {
    && loc.docFreq < 0x1_0000_0000 && loc.block < 0x1_0000_0000
    && loc.offset < 0x1_0000 && loc.length < 0x1_0000 && loc.conts < 0x1_0000
  }

  function EntrySize(e: Entry): nat { ENTRY_HDR + |e.key| }

  function Prefix(loc: Loc): (s: seq<Byte>)
    ensures |s| == 14
  {
    LE(loc.docFreq, 4) + LE(loc.block, 4) + LE(loc.offset, 2) + LE(loc.length, 2) + LE(loc.conts, 2)
  }

  function EntryBytes(e: Entry): (s: seq<Byte>)
    requires |e.key| <= KEY_MAX
    ensures |s| == EntrySize(e)
  {
    Prefix(Stored(e.loc)) + [0, |e.key|] + e.key
  }

  function ParseLoc(s: seq<Byte>): Loc
    requires |s| >= 14
  {
    Loc(FromLE(s[0..4]), FromLE(s[4..8]), FromLE(s[8..10]), FromLE(s[10..12]), FromLE(s[12..14]))
  }

  lemma {:induction false} PrefixRoundTrip(loc: Loc, s: seq<Byte>)
    requires |s| >= 14 && s[..14] == Prefix(Stored(loc))
    ensures ParseLoc(s) == Stored(loc)
  {
    WidthFacts();
    var t, p := Stored(loc), s[..14];
    LERoundTrip(t.docFreq, 4);
    LERoundTrip(t.block, 4);
    LERoundTrip(t.offset, 2);
    LERoundTrip(t.length, 2);
    LERoundTrip(t.conts, 2);
    assert s[0..4] == p[0..4] == LE(t.docFreq, 4);
    assert s[4..8] == p[4..8] == LE(t.block, 4);
    assert s[8..10] == p[8..10] == LE(t.offset, 2);
    assert s[10..12] == p[10..12] == LE(t.length, 2);
    assert s[12..14] == p[12..14] == LE(t.conts, 2);
  }

  // ---------------------------------------------------------------- pages

  /** `directory[0..160)` are record offsets from the page base, `directory[160]` counts them. */
  datatype LeafPage = LeafPage(directory: seq<nat>, data: seq<Byte>)
  datatype Head = Head(leafBlock: nat, firstTerm: Key)
  datatype Table = Table(heads: seq<Head>, leaves: seq<LeafPage>)

  predicate WellShaped(p: LeafPage) {
    && |p.directory| == MAX_ENTRIES + 1 && |p.data| == DATA_CAP
    && forall i :: 0 <= i <= MAX_ENTRIES ==> p.directory[i] < 0x1_0000
  }

  /** Record e sits at offset `at` of the data area. */
  predicate RecordAt(data: seq<Byte>, at: nat, e: Entry) {
    |e.key| <= KEY_MAX && at + EntrySize(e) <= |data| && data[at..at + EntrySize(e)] == EntryBytes(e)
  }

  ghost predicate EntryAt(p: LeafPage, i: nat, e: Entry)
    requires WellShaped(p) && i < MAX_ENTRIES
  {
    p.directory[i] >= DATA_OFFSET && RecordAt(p.data, p.directory[i] - DATA_OFFSET, e)
  }

  ghost predicate PageHolds(p: LeafPage, es: seq<Entry>) {
    && WellShaped(p) && 1 <= |es| <= MAX_ENTRIES && p.directory[MAX_ENTRIES] == |es|
    && forall i :: 0 <= i < |es| ==> EntryAt(p, i, es[i])
  }

  ghost predicate Sorted(es: seq<Entry>) {
    forall i, j :: 0 <= i < j < |es| ==> Less(es[i].key, es[j].key)
  }

  function Entries(groups: seq<seq<Entry>>): seq<Entry> {
    if groups == [] then [] else Entries(groups[..|groups| - 1]) + groups[|groups| - 1]
  }

  ghost predicate HeadOk(t: Table, j: nat, es: seq<Entry>)
    requires j < |t.heads| && j < |t.leaves|
  {
    PageHolds(t.leaves[j], es) && t.heads[j] == Head(j, es[0].key)
  }

  /** The table stores exactly the entries of `groups`, one group a page. */
  ghost predicate TableHolds(t: Table, groups: seq<seq<Entry>>) {
    && |t.heads| == |t.leaves| == |groups|
    && (forall j :: 0 <= j < |groups| ==> HeadOk(t, j, groups[j]))
    && Sorted(Entries(groups))
  }

  // ---------------------------------------------------------------- reading a record

  function RecordKey(p: LeafPage, i: nat): Key
    requires WellShaped(p) && i < MAX_ENTRIES
  {
    var at := p.directory[i] - DATA_OFFSET;
    if at < 0 || at + ENTRY_HDR > DATA_CAP then []
    else
      var n := p.data[at + 15];
      if at + ENTRY_HDR + n > DATA_CAP then [] else p.data[at + ENTRY_HDR..at + ENTRY_HDR + n]
  }

  function RecordLoc(p: LeafPage, i: nat): Loc
    requires WellShaped(p) && i < MAX_ENTRIES
  {
    var at := p.directory[i] - DATA_OFFSET;
    if at < 0 || at + ENTRY_HDR > DATA_CAP then Loc(0, 0, 0, 0, 0) else ParseLoc(p.data[at..at + ENTRY_HDR])
  }

  /** A record reads back as its key and its location at field width. */
  lemma {:induction false} RecordRoundTrip(p: LeafPage, i: nat, e: Entry)
    requires WellShaped(p) && i < MAX_ENTRIES && EntryAt(p, i, e)
    ensures RecordKey(p, i) == e.key && RecordLoc(p, i) == Stored(e.loc)
  {
    hide LE, FromLE;
    var at := p.directory[i] - DATA_OFFSET;
    var s, b := p.data[at..at + EntrySize(e)], EntryBytes(e);
    assert p.data[at + 15] == s[15] == b[15] == |e.key|;
    assert p.data[at + ENTRY_HDR..at + EntrySize(e)] == s[ENTRY_HDR..] == b[ENTRY_HDR..] == e.key;
    var head := p.data[at..at + ENTRY_HDR];
    assert head[..14] == s[..14] == b[..14] == Prefix(Stored(e.loc));
    PrefixRoundTrip(e.loc, head);
  }

  // ---------------------------------------------------------------- lookup

  /** Reference meaning of a lookup: scan the entries. */
  function Find(es: seq<Entry>, term: Key): Option<Loc> {
    if es == [] then None
    else if es[|es| - 1].key == term then Some(Stored(es[|es| - 1].loc))
    else Find(es[..|es| - 1], term)
  }

  lemma {:induction false} FindNone(es: seq<Entry>, term: Key)
    requires forall i :: 0 <= i < |es| ==> es[i].key != term
    ensures Find(es, term) == None
  {
    if es != [] { FindNone(es[..|es| - 1], term); }
  }

  lemma {:induction false} FindAt(es: seq<Entry>, i: nat)
    requires Sorted(es) && i < |es|
    ensures Find(es, es[i].key) == Some(Stored(es[i].loc))
  {
    if i < |es| - 1 {
      LessIrreflexive(es[i].key);
      FindAt(es[..|es| - 1], i);
    }
  }

  /** Each group is a run of the flattened entries. */
  lemma {:induction false} GroupStart(groups: seq<seq<Entry>>, j: nat) returns (at: nat)
    requires j < |groups|
    ensures at + |groups[j]| <= |Entries(groups)|
    ensures Entries(groups)[at..at + |groups[j]|] == groups[j]
    ensures at == |Entries(groups[..j])|
  {
    var last := |groups| - 1;
    if j == last {
      at := |Entries(groups[..last])|;
    } else {
      at := GroupStart(groups[..last], j);
      assert groups[..last][j] == groups[j] && groups[..last][..j] == groups[..j];
    }
  }

  /** Entry number i of the whole table, for every i, is in some group. */
  lemma {:induction false} GroupOf(groups: seq<seq<Entry>>, i: nat) returns (j: nat, k: nat)
    requires i < |Entries(groups)|
    ensures j < |groups| && k < |groups[j]| && groups[j][k] == Entries(groups)[i]
    ensures i == |Entries(groups[..j])| + k
  {
    var last := |groups| - 1;
    var before := |Entries(groups[..last])|;
    if i < before {
      j, k := GroupOf(groups[..last], i);
      assert groups[..last][..j] == groups[..j];
    } else {
      j, k := last, i - before;
    }
  }

  /** Order across the table from the positions of two group members. */
  lemma {:induction false} GroupsOrdered(groups: seq<seq<Entry>>, j: nat, k: nat, j': nat, k': nat)
    requires Sorted(Entries(groups)) && j < |groups| && j' < |groups|
    requires k < |groups[j]| && k' < |groups[j']| && (j < j' || (j == j' && k < k'))
    ensures Less(groups[j][k].key, groups[j'][k'].key)
  {
    var a := GroupStart(groups, j);
    var b := GroupStart(groups, j');
    var all := Entries(groups);
    assert groups[j][k] == all[a..a + |groups[j]|][k] == all[a + k];
    assert groups[j'][k'] == all[b..b + |groups[j']|][k'] == all[b + k'];
    if j < j' {
      var c := GroupStart(groups[..j'], j);
      assert groups[..j'][..j] == groups[..j];
    }
  }

  /** Number of leading head entries whose first term is not above `term`. */
  method UpperBound(heads: seq<Head>, term: Key) returns (pos: nat)
    requires forall i, j :: 0 <= i < j < |heads| ==> Less(heads[i].firstTerm, heads[j].firstTerm)
    ensures pos <= |heads|
    ensures forall i :: 0 <= i < pos ==> !Less(term, heads[i].firstTerm)
    ensures forall i :: pos <= i < |heads| ==> Less(term, heads[i].firstTerm)
  {
    var lo, hi := 0, |heads|;
    while lo < hi
      invariant lo <= hi <= |heads|
      invariant forall i :: 0 <= i < lo ==> !Less(term, heads[i].firstTerm)
      invariant forall i :: hi <= i < |heads| ==> Less(term, heads[i].firstTerm)
    {
      var mid := lo + (hi - lo) / 2;
      if Less(term, heads[mid].firstTerm) {
        forall i | mid <= i < |heads| ensures Less(term, heads[i].firstTerm) {
          if i > mid { LessTrans(term, heads[mid].firstTerm, heads[i].firstTerm); }
        }
        hi := mid;
      } else {
        forall i | 0 <= i < mid + 1 ensures !Less(term, heads[i].firstTerm) {
          if i < mid && Less(term, heads[i].firstTerm) {
            LessTrans(term, heads[i].firstTerm, heads[mid].firstTerm);
          }
        }
        lo := mid + 1;
      }
    }
    pos := lo;
  }

  /** The binary search inside one leaf page: the first record not below the term. */
  method LowerBoundInPage(p: LeafPage, term: Key, ghost es: seq<Entry>) returns (left: nat)
    requires PageHolds(p, es) && Sorted(es)
    ensures left <= |es|
    ensures forall i :: 0 <= i < left ==> Less(es[i].key, term)
    ensures forall i :: left <= i < |es| ==> !Less(es[i].key, term)
  {
    left := 0;
    var right := p.directory[MAX_ENTRIES];
    while left < right
      invariant left <= right <= |es|
      invariant forall i :: 0 <= i < left ==> Less(es[i].key, term)
      invariant forall i :: right <= i < |es| ==> !Less(es[i].key, term)
    {
      var mid := left + (right - left) / 2;
      assert EntryAt(p, mid, es[mid]);
      RecordRoundTrip(p, mid, es[mid]);
      if Less(RecordKey(p, mid), term) {
        forall i | 0 <= i < mid + 1 ensures Less(es[i].key, term) {
          if i < mid { LessTrans(es[i].key, es[mid].key, term); }
        }
        left := mid + 1;
      } else {
        forall i | mid <= i < |es| ensures !Less(es[i].key, term) {
          if i > mid && Less(es[i].key, term) { LessTrans(es[mid].key, es[i].key, term); }
        }
        right := mid;
      }
    }
  }

  lemma {:induction false} AbsentIfNotFirst(es: seq<Entry>, term: Key, left: nat)
    requires Sorted(es) && left <= |es|
    requires forall i :: 0 <= i < left ==> Less(es[i].key, term)
    requires forall i :: left <= i < |es| ==> !Less(es[i].key, term)
    requires left < |es| ==> es[left].key != term
    ensures Find(es, term) == None
  {
    LessIrreflexive(term);
    forall i | 0 <= i < |es| ensures es[i].key != term {
      if i > left {
        LessTotal(term, es[left].key);
        LessTrans(term, es[left].key, es[i].key);
      }
    }
    FindNone(es, term);
  }

  method FindInPage(p: LeafPage, term: Key, ghost es: seq<Entry>) returns (r: Option<Loc>)
    requires PageHolds(p, es) && Sorted(es)
    ensures r == Find(es, term)
  {
    var left := LowerBoundInPage(p, term, es);
    if left == p.directory[MAX_ENTRIES] {
      AbsentIfNotFirst(es, term, left);
      return None;
    }
    assert EntryAt(p, left, es[left]);
    RecordRoundTrip(p, left, es[left]);
    if RecordKey(p, left) != term {
      AbsentIfNotFirst(es, term, left);
      return None;
    }
    FindAt(es, left);
    r := Some(RecordLoc(p, left));
  }

  /** FindTermDataHeadLeaf, proved to be the scan of everything the table stores. */
  method FindTermData(t: Table, term: Key, ghost groups: seq<seq<Entry>>) returns (r: Option<Loc>)
    requires TableHolds(t, groups)
    ensures r == Find(Entries(groups), term)
  {
    if |t.heads| == 0 || |term| > KEY_MAX {
      LongKeysAreAbsent(t, groups, term);
      return None;
    }
    forall i, j | 0 <= i < j < |t.heads| ensures Less(t.heads[i].firstTerm, t.heads[j].firstTerm) {
      assert HeadOk(t, i, groups[i]) && HeadOk(t, j, groups[j]);
      GroupsOrdered(groups, i, 0, j, 0);
    }
    var pos := UpperBound(t.heads, term);
    if pos == 0 {
      OnlyInGroup(t, groups, term, pos);
      return None;
    }
    var blockID := t.heads[pos - 1].leafBlock;
    assert HeadOk(t, pos - 1, groups[pos - 1]);
    ghost var es := groups[pos - 1];
    GroupSorted(groups, pos - 1);
    r := FindInPage(t.leaves[blockID], term, es);
    OnlyInGroup(t, groups, term, pos);
  }

  lemma {:induction false} LongKeysAreAbsent(t: Table, groups: seq<seq<Entry>>, term: Key)
    requires TableHolds(t, groups) && (|t.heads| == 0 || |term| > KEY_MAX)
    ensures Find(Entries(groups), term) == None
  {
    var all := Entries(groups);
    forall i | 0 <= i < |all| ensures all[i].key != term {
      var j, k := GroupOf(groups, i);
      assert HeadOk(t, j, groups[j]) && EntryAt(t.leaves[j], k, groups[j][k]);
    }
    FindNone(all, term);
  }

  /** A term can only be stored in the last page whose first term is not above it. */
  lemma {:induction false} OnlyLastPage(t: Table, groups: seq<seq<Entry>>, pos: nat, j: nat, k: nat)
    requires TableHolds(t, groups) && pos <= |groups| && j < |groups| && k < |groups[j]|
    requires pos > 0 ==> !Less(groups[j][k].key, t.heads[pos - 1].firstTerm)
    requires forall i :: pos <= i < |groups| ==> Less(groups[j][k].key, t.heads[i].firstTerm)
    ensures pos > 0 && j == pos - 1
  {
    var term := groups[j][k].key;
    assert HeadOk(t, j, groups[j]);
    LessIrreflexive(term);
    if j >= pos {
      if k > 0 {
        GroupsOrdered(groups, j, 0, j, k);
        LessTrans(term, groups[j][0].key, term);
      }
      assert false;
    } else if j < pos - 1 {
      assert HeadOk(t, pos - 1, groups[pos - 1]);
      GroupsOrdered(groups, j, k, pos - 1, 0);
    }
  }

  lemma {:induction false} GroupSorted(groups: seq<seq<Entry>>, j: nat)
    requires Sorted(Entries(groups)) && j < |groups|
    ensures Sorted(groups[j])
  {
    forall a, b | 0 <= a < b < |groups[j]| ensures Less(groups[j][a].key, groups[j][b].key) {
      GroupsOrdered(groups, j, a, j, b);
    }
  }

  lemma {:induction false} AbsentFromGroup(groups: seq<seq<Entry>>, term: Key, j: nat)
    requires j < |groups| && forall i :: 0 <= i < |Entries(groups)| ==> Entries(groups)[i].key != term
    ensures Find(groups[j], term) == None
  {
    var at := GroupStart(groups, j);
    var es, all := groups[j], Entries(groups);
    forall a | 0 <= a < |es| ensures es[a].key != term {
      assert es[a] == all[at..at + |es|][a] == all[at + a];
    }
    FindNone(es, term);
  }

  lemma {:induction false} OnlyInGroup(t: Table, groups: seq<seq<Entry>>, term: Key, pos: nat)
    requires TableHolds(t, groups) && pos <= |groups|
    requires forall i :: 0 <= i < pos ==> !Less(term, t.heads[i].firstTerm)
    requires forall i :: pos <= i < |groups| ==> Less(term, t.heads[i].firstTerm)
    ensures Find(Entries(groups), term) == if pos == 0 then None else Find(groups[pos - 1], term)
  {
    hide PageHolds, Entries, Less;
    var all := Entries(groups);
    if i :| 0 <= i < |all| && all[i].key == term {
      var j, k := GroupOf(groups, i);
      OnlyLastPage(t, groups, pos, j, k);
      FindAt(all, i);
      GroupSorted(groups, j);
      FindAt(groups[j], k);
    } else {
      FindNone(all, term);
      if pos > 0 { AbsentFromGroup(groups, term, pos - 1); }
    }
  }
}
