/** Where a term's postings live in the index pages: a first segment somewhere inside a
    page, then continuation pages that open with (max doc id, byte length). */
module Layout {
  import opened Bytes
  import opened Postings

  const CONT_HDR := 12

  datatype Loc = Loc(docFreq: nat, block: nat, offset: nat, length: nat, conts: nat)

  function Flatten(segs: seq<seq<Posting>>): seq<Posting> {
    if segs == [] then [] else segs[0] + Flatten(segs[1..])
  }

  function Header(maxDoc: nat, length: nat): (s: seq<Byte>)
    ensures |s| == CONT_HDR
  {
    LE(maxDoc, 8) + LE(length, 4)
  }

  function HeaderMaxDoc(page: Page): nat
    requires CONT_HDR <= |page|
  {
    FromLE(page[..8])
  }

  function HeaderLength(page: Page): nat
    requires CONT_HDR <= |page|
  {
    FromLE(page[8..CONT_HDR])
  }

  /** One continuation page: the header of a non-empty segment, then its bytes. */
  ghost predicate ContPage(page: Page, seg: seq<Posting>) {
    && seg != [] && |Enc(seg)| < Pow256(4) && CONT_HDR + |Enc(seg)| <= |page|
    && page[..CONT_HDR] == Header(seg[|seg| - 1].doc, |Enc(seg)|)
    && page[CONT_HDR..CONT_HDR + |Enc(seg)|] == Enc(seg)
  }

  ghost predicate Continues(pages: seq<Page>, block: nat, segs: seq<seq<Posting>>)
    decreases |segs|
  {
    segs == [] || (PageAt(pages, block, segs[0]) && Continues(pages, block + 1, segs[1..]))
  }

  ghost predicate PageAt(pages: seq<Page>, block: nat, seg: seq<Posting>) {
    block < |pages| && ContPage(pages[block], seg)
  }

  /** The pages hold, at `loc`, the postings of `segs`, cut the way `segs` is cut. */
  ghost predicate Holds(pages: seq<Page>, loc: Loc, segs: seq<seq<Posting>>) {
    && |segs| == loc.conts + 1 && segs[0] != []
    && loc.block < |pages| && loc.offset + loc.length <= |pages[loc.block]|
    && pages[loc.block][loc.offset..loc.offset + loc.length] == Enc(segs[0])
    && Continues(pages, loc.block + 1, segs[1..])
  }

  /** Later pages, and later bytes of a page, may be added behind what is there. */
  ghost predicate Extends(pages: seq<Page>, more: seq<Page>) {
    |pages| <= |more| && forall i :: 0 <= i < |pages| ==> pages[i] <= more[i]
  }

  lemma {:induction false} SliceOfExtension(a: seq<Byte>, b: seq<Byte>, lo: nat, hi: nat)
    requires lo <= hi <= |a| && a <= b
    ensures b[lo..hi] == a[lo..hi]
  {
    assert b[..|a|] == a;
    assert b[..|a|][lo..hi] == b[lo..hi];
  }

  lemma {:induction false} ContPageExtends(page: Page, more: Page, seg: seq<Posting>)
    requires ContPage(page, seg) && page <= more
    ensures ContPage(more, seg)
  {
    SliceOfExtension(page, more, 0, CONT_HDR);
    SliceOfExtension(page, more, CONT_HDR, CONT_HDR + |Enc(seg)|);
  }

  lemma {:induction false} ContinuesExtends(pages: seq<Page>, more: seq<Page>, block: nat, segs: seq<seq<Posting>>)
    requires Continues(pages, block, segs) && Extends(pages, more)
    ensures Continues(more, block, segs)
    decreases |segs|
  {
    if segs != [] {
      ContPageExtends(pages[block], more[block], segs[0]);
      ContinuesExtends(pages, more, block + 1, segs[1..]);
    }
  }

  /** Every segment on its own is strictly ascending. */
  ghost predicate SegsAscending(segs: seq<seq<Posting>>) {
    segs == [] || (Ascending(segs[0]) && SegsAscending(segs[1..]))
  }

  lemma {:induction false} FlattenAscending(segs: seq<seq<Posting>>)
    requires Ascending(Flatten(segs))
    ensures SegsAscending(segs)
  {
    if segs != [] {
      AscendingParts(segs[0], Flatten(segs[1..]));
      FlattenAscending(segs[1..]);
    }
  }

  lemma {:induction false} HoldsExtends(pages: seq<Page>, more: seq<Page>, loc: Loc, segs: seq<seq<Posting>>)
    requires Holds(pages, loc, segs) && Extends(pages, more)
    ensures Holds(more, loc, segs)
  {
    SliceOfExtension(pages[loc.block], more[loc.block], loc.offset, loc.offset + loc.length);
    ContinuesExtends(pages, more, loc.block + 1, segs[1..]);
  }

  /** The pages hold the postings of `ps` at `loc`, for some cut into segments. */
  ghost predicate Located(pages: seq<Page>, loc: Loc, ps: seq<Posting>) {
    exists segs :: Holds(pages, loc, segs) && Flatten(segs) == ps
  }

  /** A location that names fewer continuation pages holds the first segments only. */
  lemma {:induction false} HoldsPrefix(pages: seq<Page>, loc: Loc, segs: seq<seq<Posting>>, short: Loc)
    requires Holds(pages, loc, segs) && short.conts <= loc.conts
    requires short.block == loc.block && short.offset == loc.offset && short.length == loc.length
    ensures Holds(pages, short, segs[..short.conts + 1])
  {
    assert segs[..short.conts + 1][1..] == segs[1..][..short.conts];
    ContinuesPrefix(pages, loc.block + 1, segs[1..], short.conts);
  }

  lemma {:induction false} ContinuesPrefix(pages: seq<Page>, block: nat, segs: seq<seq<Posting>>, n: nat)
    requires Continues(pages, block, segs) && n <= |segs|
    ensures Continues(pages, block, segs[..n])
    ensures forall k :: 0 <= k < |segs| ==> segs[k] != []
    decreases |segs|
  {
    if segs != [] {
      assert ContPage(pages[block], segs[0]);
      ContinuesPrefix(pages, block + 1, segs[1..], if n == 0 then 0 else n - 1);
      if n > 0 { assert segs[..n][1..] == segs[1..][..n - 1]; }
      assert forall k :: 1 <= k < |segs| ==> segs[k] == segs[1..][k - 1];
    }
  }

  /** Fewer segments, fewer postings. */
  lemma {:induction false} FlattenPrefix(segs: seq<seq<Posting>>, n: nat)
    requires n <= |segs| && forall k :: n <= k < |segs| ==> segs[k] != []
    ensures Flatten(segs[..n]) <= Flatten(segs)
    ensures Flatten(segs[..n]) == Flatten(segs) <==> n == |segs|
  {
    if n == |segs| {
      assert segs[..n] == segs;
    } else if n > 0 {
      assert segs[..n][1..] == segs[1..][..n - 1];
      FlattenPrefix(segs[1..], n - 1);
    }
  }

  /** What a location that counts fewer pages finds of a list: a part of it from the front,
      and all of it only if the count is right. */
  lemma {:induction false} ShortHolds(pages: seq<Page>, loc: Loc, short: Loc, ps: seq<Posting>)
    returns (segs: seq<seq<Posting>>)
    requires Located(pages, loc, ps) && Ascending(ps) && short.conts <= loc.conts
    requires short.block == loc.block && short.offset == loc.offset && short.length == loc.length
    ensures Holds(pages, short, segs) && Ascending(Flatten(segs)) && Flatten(segs) <= ps
    ensures Flatten(segs) == ps <==> short.conts == loc.conts
  {
    hide Continues, Ascending, Enc;
    var all :| Holds(pages, loc, all) && Flatten(all) == ps;
    HoldsPrefix(pages, loc, all, short);
    ContinuesPrefix(pages, loc.block + 1, all[1..], 0);
    forall k | short.conts + 1 <= k < |all| ensures all[k] != [] { assert all[k] == all[1..][k - 1]; }
    FlattenPrefix(all, short.conts + 1);
    segs := all[..short.conts + 1];
    assert ps == Flatten(segs) + ps[|Flatten(segs)|..];
    AscendingParts(Flatten(segs), ps[|Flatten(segs)|..]);
  }

  lemma {:induction false} LocatedExtends(pages: seq<Page>, more: seq<Page>, loc: Loc, ps: seq<Posting>)
    requires Located(pages, loc, ps) && Extends(pages, more)
    ensures Located(more, loc, ps)
  {
    var segs :| Holds(pages, loc, segs) && Flatten(segs) == ps;
    HoldsExtends(pages, more, loc, segs);
  }

  lemma {:induction false} HoldsWithoutEmpty(blocks: seq<Page>, loc: Loc, segs: seq<seq<Posting>>)
    requires Holds(blocks + [[]], loc, segs)
    ensures Holds(blocks, loc, segs)
  {
    assert |Enc(segs[0])| >= 2;
    assert loc.block < |blocks|;
    ContinuesWithoutEmpty(blocks, loc.block + 1, segs[1..]);
  }

  lemma {:induction false} ContinuesWithoutEmpty(blocks: seq<Page>, block: nat, segs: seq<seq<Posting>>)
    requires Continues(blocks + [[]], block, segs)
    ensures Continues(blocks, block, segs)
    decreases |segs|
  {
    if segs != [] {
      assert block < |blocks|;
      ContinuesWithoutEmpty(blocks, block + 1, segs[1..]);
    }
  }

  /** An empty page at the end holds nothing. */
  lemma {:induction false} LocatedWithoutEmpty(blocks: seq<Page>, loc: Loc, ps: seq<Posting>)
    requires Located(blocks + [[]], loc, ps)
    ensures Located(blocks, loc, ps)
  {
    var segs :| Holds(blocks + [[]], loc, segs) && Flatten(segs) == ps;
    HoldsWithoutEmpty(blocks, loc, segs);
  }

  lemma {:induction false} HeaderRoundTrip(page: Page, seg: seq<Posting>)
    requires ContPage(page, seg) && Ascending(seg)
    ensures CONT_HDR <= |page|
    ensures HeaderMaxDoc(page) == seg[|seg| - 1].doc && HeaderLength(page) == |Enc(seg)|
  {
    WidthFacts();
    AscendingAtMostLast(seg, 0);
    var h := Header(seg[|seg| - 1].doc, |Enc(seg)|);
    LERoundTrip(seg[|seg| - 1].doc, 8);
    LERoundTrip(|Enc(seg)|, 4);
    assert page[..8] == page[..CONT_HDR][..8] == h[..8] == LE(seg[|seg| - 1].doc, 8);
    assert page[8..CONT_HDR] == page[..CONT_HDR][8..] == h[8..] == LE(|Enc(seg)|, 4);
  }

  // ---------------------------------------------------------------- cursor meaning

  /** What is left of a sorted posting list once everything below `target` is passed. */
  function DropBelow(ps: seq<Posting>, target: nat): (r: seq<Posting>)
    ensures r != [] ==> r[0].doc >= target
  {
    if ps == [] || ps[0].doc >= target then ps else DropBelow(ps[1..], target)
  }

  lemma {:induction false} DropBelowHead(p: Posting, ps: seq<Posting>, target: nat)
    ensures DropBelow([p] + ps, target) == if p.doc >= target then [p] + ps else DropBelow(ps, target)
  {
    assert ([p] + ps)[1..] == ps;
  }

  /** Seeking lands on the first posting not yet passed whose id is at least the target:
      what it drops is a prefix, all of it below the target. */
  lemma {:induction false} DropBelowIsFirst(ps: seq<Posting>, target: nat) returns (passed: nat)
    ensures passed <= |ps| && DropBelow(ps, target) == ps[passed..]
    ensures forall i :: 0 <= i < passed ==> ps[i].doc < target
  {
    if ps == [] || ps[0].doc >= target {
      passed := 0;
    } else {
      var rest := DropBelowIsFirst(ps[1..], target);
      passed := rest + 1;
      forall i | 0 <= i < passed ensures ps[i].doc < target {
        if i > 0 { assert ps[i] == ps[1..][i - 1]; }
      }
    }
  }

  lemma {:induction false} DropBelowAll(a: seq<Posting>, b: seq<Posting>, target: nat)
    requires forall i :: 0 <= i < |a| ==> a[i].doc < target
    ensures DropBelow(a + b, target) == DropBelow(b, target)
  {
    if a == [] {
      assert a + b == b;
    } else {
      DropBelowAll(a[1..], b, target);
      assert (a + b)[1..] == a[1..] + b;
    }
  }

  /** Seeking in a + b seeks in a first, then in b. */
  lemma {:induction false} SeekSplit(a: seq<Posting>, b: seq<Posting>, target: nat)
    ensures var d := DropBelow(a, target);
            DropBelow(a + b, target) == if d == [] then DropBelow(b, target) else d + b
  {
    if a == [] {
      assert a + b == b;
    } else if a[0].doc < target {
      SeekSplit(a[1..], b, target);
      assert (a + b)[1..] == a[1..] + b;
    }
  }
}
