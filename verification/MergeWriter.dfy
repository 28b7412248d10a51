/** The merge's write side: a bounded batch of index and leaf pages that is dumped to the
    output streams whenever the next term does not fit. */
module MergeWriter {
  import opened Bytes
  import opened ModFacts
  import opened Postings
  import opened Layout
  import opened BlockBuilder

  /** Sizes for which a single term always fits an empty batch: `scratch` bounds a term's
      posting bytes, the limits bound the pages of a batch. */
  predicate GoodLimits(cap: nat, scratch: nat, indexLimit: nat, leafLimit: nat) {
    && GoodCap(cap) && 1 <= leafLimit && 1 <= indexLimit <= 0x1_0000
    && scratch <= (indexLimit - 1) * (cap - SLACK)
  }

  // ---------------------------------------------------------------- shapes

  /** A planned continuation: its byte length, for the segment it carries. */
  ghost predicate PlanOk(lens: seq<nat>, segs: seq<seq<Posting>>, room: nat)
  {
    |lens| == |segs| && forall i :: 0 <= i < |segs| ==> StepOk(lens[i], segs[i], room)
  }

  ghost predicate StepOk(len: nat, seg: seq<Posting>, room: nat) {
    seg != [] && Ascending(seg) && len == |Enc(seg)| <= room
  }

  lemma {:induction false} PlanAppend(lens: seq<nat>, segs: seq<seq<Posting>>, room: nat, len: nat, seg: seq<Posting>)
    requires PlanOk(lens, segs, room) && StepOk(len, seg, room)
    ensures PlanOk(lens + [len], segs + [seg], room)
  {
    forall i | 0 <= i < |segs| + 1 ensures StepOk((lens + [len])[i], (segs + [seg])[i], room) {
      if i < |segs| { assert StepOk(lens[i], segs[i], room); }
    }
  }

  lemma {:induction false} LowTfParts(a: seq<Posting>, b: seq<Posting>)
    requires LowTf(a + b)
    ensures LowTf(a) && LowTf(b)
  {
    assert forall i :: 0 <= i < |a| ==> a[i] == (a + b)[i];
    assert forall i :: 0 <= i < |b| ==> b[i] == (a + b)[|a| + i];
  }

  /** The merge's cut of an encoding takes whole postings, at least one in an empty page. */
  method Cut(bytes: seq<Byte>, room: nat, ghost ps: seq<Posting>)
    returns (len: nat, ghost head: seq<Posting>, ghost left: seq<Posting>)
    requires bytes == Enc(ps) && Ascending(ps) && LowTf(ps) && ps != []
    ensures ps == head + left && Ascending(head) && Ascending(left) && LowTf(left)
    ensures len == |Enc(head)| <= room && len <= |bytes| && bytes[..len] == Enc(head) && bytes[len..] == Enc(left)
    ensures (len == 0 <==> head == []) && (len == |bytes| <==> left == [])
    ensures room >= 11 ==> head != []
    ensures room >= 11 && left != [] ==> len > room - 11
  {
    hide Enc, Ascending, LongestPrefix;
    len := PostingSplitLength(bytes, room);
    SplitIsLongestPrefix(ps, room, len);
    ghost var k := LongestPrefixOfEnc(ps, room, len, false);
    if room >= 11 { k := CutProgresses(ps, room, len, false); }
    head, left := ps[..k], ps[k..];
    assert ps == head + left;
    AscendingParts(head, left);
    LowTfParts(head, left);
  }

  /** Shape the continuation pages of a term without writing anything. */
  method Shape(bytes: seq<Byte>, cap: nat, ghost ps: seq<Posting>)
    returns (lens: seq<nat>, ghost segs: seq<seq<Posting>>)
    requires GoodCap(cap) && bytes == Enc(ps) && Ascending(ps) && LowTf(ps)
    ensures PlanOk(lens, segs, cap - CONT_HDR) && Flatten(segs) == ps
    ensures |lens| > 0 ==> Times(|lens| - 1, cap - SLACK) < |bytes|
  {
    hide Ascending, LowTf, StepOk, EncOne;
    lens, segs := [], [];
    var src := bytes;
    ghost var left := ps;
    while |src| > 0
      invariant src == Enc(left) && Ascending(left) && LowTf(left)
      invariant PlanOk(lens, segs, cap - CONT_HDR) && Flatten(segs) + left == ps
      invariant FilledPages(|lens|, cap - SLACK, |bytes|, |src|)
      decreases |left|
    {
      var len; ghost var head, rest;
      len, head, rest := Cut(src, cap - CONT_HDR, left);
      FilledStep(|lens|, cap - SLACK, |bytes|, |src|, len);
      PlanAppend(lens, segs, cap - CONT_HDR, len, head);
      FlattenStep(segs, head, rest);
      lens, segs := lens + [len], segs + [head];
      src, left := src[len..], rest;
    }
    assert Flatten(segs) + [] == Flatten(segs);
  }

  /** A term that is small enough needs no more pages than an empty batch has. */
  lemma {:induction false} PlanFits(count: nat, w: nat, total: nat, rest: nat, limit: nat)
    requires count > 0 ==> Times(count - 1, w) < rest
    requires rest <= total && 1 <= limit
    ensures total <= Times(limit - 1, w) ==> 1 + count <= limit
  {
    if count >= limit { TimesMonotone(limit - 1, count - 1, w); }
  }

  // ---------------------------------------------------------------- index pages of a batch

  /** Write the planned continuation pages behind the current page. */
  method CopyContinuations(builder: PageBuilder, bytes: seq<Byte>, lens: seq<nat>,
                           ghost segs: seq<seq<Posting>>)
    requires builder.Valid() && PlanOk(lens, segs, builder.cap - CONT_HDR) && bytes == Enc(Flatten(segs))
    modifies builder
    ensures builder.Valid() && Extends(old(builder.Pages()), builder.Pages())
    ensures |builder.blocks| == old(|builder.blocks|) + |segs|
    ensures Continues(builder.Pages(), old(|builder.blocks|) + 1, segs)
  {
    hide Enc, ContPage, PageAt, Ascending, PageBuilder.Valid;
    var src := bytes;
    ghost var start, first := builder.Pages(), |builder.blocks| + 1;
    ghost var done: seq<seq<Posting>>, left: seq<seq<Posting>> := [], segs;
    for i := 0 to |lens|
      invariant builder.Valid() && Extends(start, builder.Pages())
      invariant |done| == i && done == segs[..i] && left == segs[i..] && src == Enc(Flatten(left))
      invariant |builder.blocks| == first - 1 + i && Continues(builder.Pages(), first, done)
    {
      ghost var before, seg := builder.Pages(), segs[i];
      assert StepOk(lens[i], segs[i], builder.cap - CONT_HDR);
      assert left[0] == seg && left[1..] == segs[i + 1..];
      EncConcat(seg, Flatten(left[1..]));
      CopyOne(builder, src[..lens[i]], seg);
      ExtendsTrans(start, before, builder.Pages());
      ContinuesGrow(before, builder.Pages(), first, done, seg);
      src := src[lens[i]..];
      done, left := done + [seg], left[1..];
      assert done == segs[..i + 1];
    }
    assert done == segs;
  }

  method CopyOne(builder: PageBuilder, bytes: seq<Byte>, ghost seg: seq<Posting>)
    requires builder.Valid() && bytes == Enc(seg) && seg != [] && |bytes| + CONT_HDR <= builder.cap
    modifies builder
    ensures builder.Valid() && Extends(old(builder.Pages()), builder.Pages())
    ensures |builder.blocks| == old(|builder.blocks|) + 1
    ensures PageAt(builder.Pages(), |builder.blocks|, seg)
  {
    ghost var before := builder.Pages();
    builder.Flush();
    ghost var flushed := builder.Pages();
    builder.WriteContinuation(bytes, seg);
    ExtendsTrans(before, flushed, builder.Pages());
    assert builder.Pages()[|builder.blocks|] == builder.cur;
  }

  /** Choose where the first segment goes: the current tail if a posting fits there,
      else the start of the next page. */
  method Place(builder: PageBuilder, bytes: seq<Byte>, ghost ps: seq<Posting>)
    returns (block: nat, offset: nat, split: nat, ghost head: seq<Posting>, ghost left: seq<Posting>)
    requires builder.Valid() && bytes == Enc(ps) && Ascending(ps) && LowTf(ps) && ps != []
    ensures (block == |builder.blocks| && offset == |builder.cur|)
            || (block == |builder.blocks| + 1 && offset == 0 && |builder.cur| > 0)
    ensures head != [] && ps == head + left && Ascending(left) && LowTf(left)
    ensures split == |Enc(head)| <= |bytes| && bytes[..split] == Enc(head) && bytes[split..] == Enc(left)
    ensures offset + split <= builder.cap && GoodCap(builder.cap)
  {
    block, offset := |builder.blocks|, |builder.cur|;
    split, head, left := Cut(bytes, builder.cap - offset, ps);
    if split == 0 {
      block, offset := block + 1, 0;
      split, head, left := Cut(bytes, builder.cap, ps);
    }
  }

  /** AddIndex: place a term's bytes in the batch, or leave the batch as it was. */
  method AddIndex(builder: PageBuilder, limit: nat, bytes: seq<Byte>, ghost ps: seq<Posting>)
    returns (ok: bool, loc: Loc)
    requires builder.Valid() && bytes == Enc(ps) && Ascending(ps) && LowTf(ps) && ps != []
    requires |builder.blocks| < limit
    modifies builder
    ensures builder.Valid() && |builder.blocks| < limit && Extends(old(builder.Pages()), builder.Pages())
    ensures ok ==> Located(builder.Pages(), loc, ps) && loc.docFreq == 0
    ensures ok ==> loc.block < limit && loc.offset <= builder.cap && loc.length <= builder.cap && loc.conts < limit
    ensures !ok ==> builder.blocks == old(builder.blocks) && builder.cur == old(builder.cur)
    ensures old(builder.Pages()) == [[]] && |bytes| <= Times(limit - 1, builder.cap - SLACK) ==> ok
  {
    hide Enc, Ascending, LowTf, Times, PlanOk, Located, PageBuilder.Valid;
    loc := Loc(0, 0, 0, 0, 0);
    var targetBlockID, targetOffset, splitLength; ghost var head, left;
    targetBlockID, targetOffset, splitLength, head, left := Place(builder, bytes, ps);
    assert builder.Pages() == [[]] ==> |builder.blocks| == 0 && builder.Pages()[|builder.blocks|] == builder.cur;
    if targetBlockID >= limit { return false, loc; }
    var lens; ghost var segs;
    lens, segs := Shape(bytes[splitLength..], builder.cap, left);
    PlanFits(|lens|, builder.cap - SLACK, |bytes|, |bytes[splitLength..]|, limit);
    if 1 + |lens| > limit - targetBlockID { return false, loc; }
    loc := Loc(0, targetBlockID, targetOffset, splitLength, |lens|);
    Copy(builder, bytes, loc, lens, head, segs);
    ok := true;
  }

  /** Commit a shaped term: first segment, continuation pages, and -- if there are any --
      give the rest of the last page up. */
  method Copy(builder: PageBuilder, bytes: seq<Byte>, loc: Loc, lens: seq<nat>,
              ghost head: seq<Posting>, ghost segs: seq<seq<Posting>>)
    requires builder.Valid() && head != [] && |lens| == loc.conts
    requires PlanOk(lens, segs, builder.cap - CONT_HDR)
    requires loc.length == |Enc(head)| <= |bytes| && bytes[..loc.length] == Enc(head)
    requires bytes[loc.length..] == Enc(Flatten(segs))
    requires (loc.block == |builder.blocks| && loc.offset == |builder.cur|)
             || (loc.block == |builder.blocks| + 1 && loc.offset == 0)
    requires loc.offset + loc.length <= builder.cap
    modifies builder
    ensures builder.Valid() && Extends(old(builder.Pages()), builder.Pages())
    ensures |builder.blocks| == loc.block + loc.conts
    ensures Located(builder.Pages(), loc, head + Flatten(segs))
  {
    hide Enc, StepOk, Continues;
    ghost var start := builder.Pages();
    if loc.block > |builder.blocks| { builder.Flush(); }
    ghost var placed := builder.Pages();
    builder.Append(bytes[..loc.length]);
    ghost var first := builder.Pages();
    assert first[loc.block][loc.offset..] == Enc(head);
    ExtendsTrans(start, placed, first);
    CopyContinuations(builder, bytes[loc.length..], lens, segs);
    ghost var copied := builder.Pages();
    ExtendsTrans(start, first, copied);
    TermHolds(first, copied, loc, head, segs);
    if |lens| > 0 {
      builder.Append(Zeros(builder.cap - |builder.cur|));
      ExtendsTrans(start, copied, builder.Pages());
      LocatedExtends(copied, builder.Pages(), loc, head + Flatten(segs));
    }
  }
}
