/** Packs posting bytes into fixed-size index pages, cutting only between postings. */
module BlockBuilder {
  import opened Bytes
  import opened ModFacts
  import opened Postings
  import opened Layout

  /** Room for a continuation header and one worst-case posting. */
  const MIN_CAP := 23

  /** A continuation page that is not a term's last is filled to within 22 bytes: the
      header and what is left when no further posting fits. */
  const SLACK := 22

  /** Page sizes the on-disk fields can describe. */
  predicate GoodCap(cap: nat) { MIN_CAP <= cap <= 0xFFFF }

  // ---------------------------------------------------------------- sequences of segments

  lemma {:induction false} FlattenAppend(segs: seq<seq<Posting>>, seg: seq<Posting>)
    ensures Flatten(segs + [seg]) == Flatten(segs) + seg
  {
    if segs == [] {
      assert [seg][1..] == [];
    } else {
      FlattenAppend(segs[1..], seg);
      assert (segs + [seg])[1..] == segs[1..] + [seg];
    }
  }

  lemma {:induction false} FlattenStep(segs: seq<seq<Posting>>, seg: seq<Posting>, left: seq<Posting>)
    ensures Flatten(segs + [seg]) + left == Flatten(segs) + (seg + left)
  {
    FlattenAppend(segs, seg);
    assert (Flatten(segs) + seg) + left == Flatten(segs) + (seg + left);
  }

  lemma {:induction false} ContinuesAppend(pages: seq<Page>, block: nat, segs: seq<seq<Posting>>, seg: seq<Posting>)
    requires Continues(pages, block, segs) && PageAt(pages, block + |segs|, seg)
    ensures Continues(pages, block, segs + [seg])
    decreases |segs|
  {
    if segs == [] {
      assert [seg][1..] == [];
    } else {
      ContinuesAppend(pages, block + 1, segs[1..], seg);
      assert (segs + [seg])[1..] == segs[1..] + [seg];
    }
  }

  lemma {:induction false} ContinuesGrow(before: seq<Page>, after: seq<Page>, block: nat,
                                         segs: seq<seq<Posting>>, seg: seq<Posting>)
    requires Continues(before, block, segs) && Extends(before, after)
    requires PageAt(after, block + |segs|, seg)
    ensures Continues(after, block, segs + [seg])
  {
    ContinuesExtends(before, after, block, segs);
    ContinuesAppend(after, block, segs, seg);
  }

  /** The last doc id of an encoded segment, by the builder's unguarded decode loop. */
  method MaxDocId(src: seq<Byte>, ghost seg: seq<Posting>) returns (maxDocId: nat)
    requires src == Enc(seg)
    ensures maxDocId == if seg == [] then 0 else seg[|seg| - 1].doc
  {
    var cursor := 0;
    maxDocId := 0;
    ghost var k := 0;
    while cursor < |src|
      invariant k <= |seg| && cursor <= |src| && src[cursor..] == Enc(seg[k..])
      invariant maxDocId == if k == 0 then 0 else seg[k - 1].doc
      decreases |seg| - k
    {
      ghost var p := seg[k];
      ghost var tail := [p.tf] + Enc(seg[k + 1..]);
      assert seg[k..][1..] == seg[k + 1..];
      assert src[cursor..] == Vb(p.doc) + tail;
      maxDocId, cursor := ReadVb(src, cursor, p.doc, tail);
      assert src[cursor..][1..] == src[cursor + 1..] == Enc(seg[k + 1..]);
      cursor := cursor + 1;
      k := k + 1;
    }
  }

  method ReadVb(src: seq<Byte>, start: nat, ghost v: nat, ghost tail: seq<Byte>) returns (value: nat, cursor: nat)
    requires start < |src| && src[start..] == Vb(v) + tail && tail != []
    ensures value == v && cursor < |src| && src[cursor..] == tail
  {
    hide Shifted;
    cursor, value := start, 0;
    var shift := 0;
    ghost var r := v;
    assert Combines(v, value, shift, r);
    while true
      invariant cursor < |src| && src[cursor..] == Vb(r) + tail
      invariant Combines(v, value, shift, r)
      decreases r
    {
      var byte := src[cursor];
      assert byte == src[cursor..][0] == Vb(r)[0];
      assert src[cursor + 1..] == src[cursor..][1..];
      ShiftStep(v, value, shift, r);
      cursor := cursor + 1;
      value := value + Shifted(byte % 0x80, shift);
      if byte < 0x80 { break; }
      shift := shift + 7;
      r := r / 0x80;
    }
  }

  /** All pages are full enough while bytes are left, all but the last at the end. */
  predicate FilledPages(count: nat, w: nat, total: nat, left: nat) {
    && left <= total
    && (left > 0 ==> Times(count, w) <= total - left)
    && (left == 0 && count > 0 ==> Times(count - 1, w) < total)
  }

  lemma {:induction false} FilledStep(count: nat, w: nat, total: nat, left: nat, taken: nat)
    requires FilledPages(count, w, total, left) && 0 < taken <= left && (taken < left ==> taken >= w)
    ensures FilledPages(count + 1, w, total, left - taken)
  {
  }

  // ---------------------------------------------------------------- the builder

  class PageBuilder {
    const cap: nat
    /** Finished pages, each `cap` bytes long. */
    var blocks: seq<Page>
    /** The written part of the page being filled; its length is the write pointer. */
    var cur: seq<Byte>

    ghost predicate Valid()
      reads this
    {
      GoodCap(cap) && |cur| <= cap && forall i :: 0 <= i < |blocks| ==> |blocks[i]| == cap
    }

    ghost function Pages(): seq<Page>
      reads this
    {
      blocks + [cur]
    }

    constructor (cap: nat)
      requires GoodCap(cap)
      ensures Valid() && this.cap == cap && Pages() == [[]]
    {
      this.cap, blocks, cur := cap, [], [];
    }

    method Flush()
      requires Valid()
      modifies this
      ensures Valid() && cur == [] && |blocks| == |old(blocks)| + 1
      ensures Extends(old(Pages()), Pages()) && Extends(old(Pages()), blocks)
    {
      blocks := blocks + [cur + Zeros(cap - |cur|)];
      cur := [];
    }

    /** Start over on an empty page table. */
    method Reset()
      requires Valid()
      modifies this
      ensures Valid() && Pages() == [[]]
    {
      blocks, cur := [], [];
    }

    method Append(bytes: seq<Byte>)
      requires Valid() && |cur| + |bytes| <= cap
      modifies this`cur
      ensures Valid() && cur == old(cur) + bytes && Extends(old(Pages()), Pages())
    {
      cur := cur + bytes;
    }

    /** A continuation page on an empty page: header, then the segment's bytes. */
    method WriteContinuation(bytes: seq<Byte>, ghost seg: seq<Posting>)
      requires Valid() && cur == [] && bytes == Enc(seg) && seg != [] && |bytes| + CONT_HDR <= cap
      modifies this`cur
      ensures Valid() && Extends(old(Pages()), Pages()) && ContPage(cur, seg)
    {
      var maxDocId := MaxDocId(bytes, seg);
      WidthFacts();
      Append(Header(maxDocId, |bytes|));
      Append(bytes);
      assert cur == Header(maxDocId, |bytes|) + Enc(seg);
    }

    /** One continuation page with as many postings as fit. */
    method PackPage(src: seq<Byte>, ghost ps: seq<Posting>) returns (contHere: nat, ghost k: nat)
      requires Valid() && cur == [] && src == Enc(ps) && ps != [] && Ascending(ps)
      modifies this`cur
      ensures Valid() && Extends(old(Pages()), Pages())
      ensures 0 < k <= |ps| && ContPage(cur, ps[..k])
      ensures contHere == |Enc(ps[..k])| <= |src| && src[contHere..] == Enc(ps[k..])
      ensures k == |ps| <==> contHere == |src|
      ensures k < |ps| ==> contHere >= cap - SLACK && |Enc(ps[..k + 1])| > cap - CONT_HDR
    {
      contHere := PostingPrefixBytes(src, cap - CONT_HDR);
      k := CutProgresses(ps, cap - CONT_HDR, contHere, false);
      WriteContinuation(src[..contHere], ps[..k]);
    }

    /** One turn of the continuation loop: a page, and a flush if bytes are left. */
    method PackSegment(src: seq<Byte>, ghost ps: seq<Posting>, ghost first: nat, ghost segs: seq<seq<Posting>>)
      returns (contHere: nat, ghost seg: seq<Posting>, ghost left: seq<Posting>)
      requires Valid() && cur == [] && src == Enc(ps) && ps != [] && Ascending(ps)
      requires |blocks| == first + |segs| && Continues(Pages(), first, segs)
      modifies this
      ensures Valid() && Extends(old(Pages()), Pages())
      ensures seg != [] && ps == seg + left && Ascending(left)
      ensures 0 < contHere <= |src| && src[contHere..] == Enc(left)
      ensures contHere < |src| ==> contHere >= cap - SLACK
      ensures left != [] ==> |Enc(seg + [left[0]])| > cap - CONT_HDR
      ensures Continues(Pages(), first, segs + [seg]) && Flatten(segs + [seg]) + left == Flatten(segs) + ps
      ensures left != [] ==> cur == [] && |blocks| == old(|blocks|) + 1
    {
      hide Enc, Ascending, Continues;
      ghost var before := Pages();
      ghost var k;
      contHere, k := PackPage(src, ps);
      seg, left := ps[..k], ps[k..];
      assert ps == seg + left;
      if left != [] { assert seg + [left[0]] == ps[..k + 1]; }
      AscendingParts(seg, left);
      ghost var written := Pages();
      ContinuesGrow(before, written, first, segs, seg);
      FlattenStep(segs, seg, left);
      if contHere < |src| {
        Flush();
        ExtendsTrans(before, written, Pages());
        ContinuesExtends(written, Pages(), first, segs + [seg]);
      }
    }

    /** Where the continuation loop stands: the segments written so far and the postings
        left make up the whole list. */
    ghost predicate Packing(start: seq<Page>, first: nat, total: nat, ps: seq<Posting>,
                            segs: seq<seq<Posting>>, left: seq<Posting>, src: seq<Byte>)
      reads this
    {
      && Valid() && Extends(start, Pages()) && Continues(Pages(), first, segs)
      && src == Enc(left) && Ascending(left) && Flatten(segs) + left == ps
      && (left != [] ==> cur == [] && |blocks| == first + |segs|)
      && FilledPages(|segs|, cap - SLACK, total, |src|) && Tight(segs, left, cap - CONT_HDR)
    }

    method PackTurn(src: seq<Byte>, ghost start: seq<Page>, ghost first: nat, ghost total: nat, ghost ps: seq<Posting>,
                    ghost segs: seq<seq<Posting>>, ghost left: seq<Posting>)
      returns (rest: seq<Byte>, ghost segs': seq<seq<Posting>>, ghost left': seq<Posting>)
      requires Packing(start, first, total, ps, segs, left, src) && left != []
      modifies this
      ensures Packing(start, first, total, ps, segs', left', rest)
      ensures |segs'| == |segs| + 1 && |left'| < |left|
    {
      hide Enc, Ascending, Continues, Times, Tight;
      ghost var before, seg := Pages(), [];
      var contHere;
      contHere, seg, left' := PackSegment(src, left, first, segs);
      ExtendsTrans(start, before, Pages());
      FilledStep(|segs|, cap - SLACK, total, |src|, contHere);
      TightStep(segs, seg, left', left, cap - CONT_HDR);
      segs' := segs + [seg];
      rest := src[contHere..];
    }

    method PackContinuations(bytes: seq<Byte>, ghost ps: seq<Posting>)
      returns (continuationBlockCount: nat, ghost segs: seq<seq<Posting>>)
      requires Valid() && cur == [] && bytes == Enc(ps) && Ascending(ps) && ps != []
      modifies this
      ensures Valid() && Extends(old(Pages()), Pages())
      ensures |segs| == continuationBlockCount && Flatten(segs) == ps
      ensures Continues(Pages(), old(|blocks|), segs)
      ensures Tight(segs, [], cap - CONT_HDR)
      ensures continuationBlockCount > 0 ==> Times(continuationBlockCount - 1, cap - SLACK) < |bytes|
    {
      var src := bytes;
      continuationBlockCount := 0;
      segs := [];
      ghost var left, start, first := ps, Pages(), |blocks|;
      while |src| > 0
        invariant Packing(start, first, |bytes|, ps, segs, left, src) && |segs| == continuationBlockCount
        decreases |left|
      {
        src, segs, left := PackTurn(src, start, first, |bytes|, ps, segs, left);
        continuationBlockCount := continuationBlockCount + 1;
      }
      assert Flatten(segs) + [] == Flatten(segs);
    }

    /** The first segment, as long as can be: in the current page's tail if a posting fits
        there, else at the start of a fresh page. */
    method PackFirst(src: seq<Byte>, ghost ps: seq<Posting>)
      returns (dataHere: nat, dataOffset: nat, ghost head: seq<Posting>, ghost left: seq<Posting>)
      requires Valid() && src == Enc(ps) && Ascending(ps) && ps != []
      modifies this
      ensures Valid() && Extends(old(Pages()), Pages())
      ensures head != [] && ps == head + left && Ascending(left)
      ensures dataHere == |Enc(head)| <= |src| && src[dataHere..] == Enc(left)
      ensures left == [] <==> dataHere == |src|
      ensures |cur| == dataOffset + dataHere && cur[dataOffset..] == Enc(head)
      ensures if |EncOne(ps[0])| <= cap - |old(cur)| then dataOffset == |old(cur)| && blocks == old(blocks)
              else dataOffset == 0 && |blocks| == |old(blocks)| + 1
      ensures LongestPrefix(src, cap - dataOffset, dataHere, false)
    {
      hide Enc, EncOne, Ascending, LongestPrefix;
      ghost var k;
      if |cur| >= cap { Flush(); }
      dataOffset := |cur|;
      dataHere := PostingPrefixBytes(src, cap - |cur|);
      NoneFits(ps, cap - |cur|, dataHere);
      if dataHere == 0 {
        ghost var before := Pages();
        Flush();
        dataOffset := |cur|;
        dataHere := PostingPrefixBytes(src, cap);
        k := CutProgresses(ps, cap, dataHere, false);
      } else {
        k := LongestPrefixOfEnc(ps, cap - |cur|, dataHere, false);
      }
      head, left := ps[..k], ps[k..];
      assert ps == head + left;
      AscendingParts(head, left);
      Append(src[..dataHere]);
    }

    /** What the first page does not hold goes to continuation pages right behind it. */
    method PackRest(bytes: seq<Byte>, ghost ps: seq<Posting>) returns (conts: nat, ghost tail: seq<seq<Posting>>)
      requires Valid() && bytes == Enc(ps) && Ascending(ps) && ps != []
      modifies this
      ensures Valid() && Extends(old(Pages()), Pages())
      ensures |tail| == conts && Flatten(tail) == ps && Continues(Pages(), old(|blocks|) + 1, tail)
      ensures conts > 0 ==> Times(conts - 1, cap - SLACK) < |bytes|
    {
      ghost var first := Pages();
      Flush();
      ghost var flushed := Pages();
      conts, tail := PackContinuations(bytes, ps);
      ExtendsTrans(first, flushed, Pages());
    }

    /** Pack one term; the location says where its bytes went. */
    method PackTerm(bytes: seq<Byte>, docFreq: nat, ghost ps: seq<Posting>)
      returns (loc: Loc, ghost segs: seq<seq<Posting>>)
      requires Valid() && bytes == Enc(ps) && Ascending(ps) && ps != []
      modifies this
      ensures Valid() && Extends(old(Pages()), Pages())
      ensures loc.docFreq == docFreq && loc.offset <= cap && loc.length <= cap
      ensures Holds(Pages(), loc, segs) && Flatten(segs) == ps
      ensures loc.conts > 0 ==> (loc.conts - 1) * (cap - SLACK) < |bytes|
    {
      hide Enc, Ascending, Continues, Times, LongestPrefix;
      var dataHere, dataOffset; ghost var head, left;
      dataHere, dataOffset, head, left := PackFirst(bytes, ps);
      var indexBlockID := |blocks|;
      var conts := 0;
      ghost var first, tail := Pages(), [];
      assert first[indexBlockID] == cur;
      if dataHere < |bytes| {
        conts, tail := PackRest(bytes[dataHere..], left);
        if conts > 0 { TimesIsProduct(conts - 1, cap - SLACK); }
      }
      loc := Loc(docFreq, indexBlockID, dataOffset, dataHere, conts);
      TermHolds(first, Pages(), loc, head, tail);
      segs := [head] + tail;
    }
  }

  /** The longest cut is empty exactly when not even the first posting fits. */
  lemma {:induction false} NoneFits(ps: seq<Posting>, room: nat, n: nat)
    requires ps != [] && LongestPrefix(Enc(ps), room, n, false)
    ensures n == 0 <==> |EncOne(ps[0])| > room
  {
    hide LongestPrefix;
    var k := LongestPrefixOfEnc(ps, room, n, false);
    var one := ps[..1];
    assert one == [ps[0]] && one[1..] == [];
    assert Enc(one) == EncOne(one[0]) + Enc([]);
    assert EncOne(ps[0]) + [] == EncOne(ps[0]);
    if k > 0 {
      assert ps[..k] == ps[..1] + ps[1..k];
      EncConcat(ps[..1], ps[1..k]);
    }
  }

  /** No segment but the last has room for one more posting. */
  ghost predicate Tight(segs: seq<seq<Posting>>, left: seq<Posting>, room: int) {
    forall i :: 0 <= i < |segs| ==> OneMoreOverflows(segs[i], Behind(segs, left, i), room)
  }

  /** What comes behind segment i. */
  function Behind(segs: seq<seq<Posting>>, left: seq<Posting>, i: nat): seq<Posting> {
    if i + 1 < |segs| then segs[i + 1] else left
  }

  ghost predicate OneMoreOverflows(seg: seq<Posting>, next: seq<Posting>, room: int) {
    next != [] ==> |Enc(seg + [next[0]])| > room
  }

  lemma {:induction false} TightStep(segs: seq<seq<Posting>>, seg: seq<Posting>, left: seq<Posting>,
                                     before: seq<Posting>, room: int)
    requires Tight(segs, before, room) && before == seg + left && seg != [] && OneMoreOverflows(seg, left, room)
    ensures Tight(segs + [seg], left, room)
  {
    var more := segs + [seg];
    forall i | 0 <= i < |more| ensures OneMoreOverflows(more[i], Behind(more, left, i), room) {
      if i < |segs| { assert OneMoreOverflows(segs[i], Behind(segs, before, i), room); }
    }
  }

  /** A first segment in place, and continuation pages behind it, hold the whole term. */
  lemma {:induction false} TermHolds(first: seq<Page>, pages: seq<Page>, loc: Loc, head: seq<Posting>,
                                     tail: seq<seq<Posting>>)
    requires loc.block < |first| && Extends(first, pages) && head != []
    requires loc.offset + loc.length == |first[loc.block]| && first[loc.block][loc.offset..] == Enc(head)
    requires |tail| == loc.conts && Continues(pages, loc.block + 1, tail)
    ensures Holds(pages, loc, [head] + tail) && Flatten([head] + tail) == head + Flatten(tail)
  {
  }

  lemma ExtendsTrans(a: seq<Page>, b: seq<Page>, c: seq<Page>)
    requires Extends(a, b) && Extends(b, c)
    ensures Extends(a, c)
  {
    forall i | 0 <= i < |a| ensures a[i] <= c[i] {
      assert b[i] <= c[i];
    }
  }
}
