/** The leaf reader: a varbyte decoder over one page range, and the walk over a term's
    continuation pages with its max-doc-id skip. */
module PostingReader {
  import opened Options
  import opened Bytes
  import opened Postings
  import opened Layout

  /** Total on any bytes: a malformed pair ends the range. */
  class UnifiedDecoder {
    var block: Option<Page>
    var currentPtr: nat
    var blockEnd: nat
    var currentDoc: nat
    var currentTf8: Byte
    var hasCurrent: bool

    ghost predicate Valid()
      reads this
    {
      match block
      case None => currentPtr >= blockEnd
      case Some(page) => currentPtr <= blockEnd <= |page|
    }

    /** The bytes of the open range still to decode. */
    ghost function Left(): seq<Byte>
      requires Valid()
      reads this
    {
      if block.None? then [] else block.value[currentPtr..blockEnd]
    }

    ghost function Current(): seq<Posting>
      reads this
    {
      if hasCurrent then [Posting(currentDoc, currentTf8)] else []
    }

    constructor ()
      ensures Valid() && !hasCurrent && Left() == []
    {
      block, currentPtr, blockEnd, currentDoc, currentTf8, hasCurrent := None, 0, 0, 0, 0, false;
    }

    method OpenRaw(page: Page, offset: nat, len: nat)
      modifies this
      ensures Valid() && !hasCurrent
      ensures Left() == if offset + len <= |page| then page[offset..offset + len] else []
    {
      var end := if offset + len <= |page| then offset + len else 0;
      block := Some(page);
      currentPtr := if offset < end then offset else end;
      blockEnd := end;
      currentDoc, currentTf8, hasCurrent := 0, 0, false;
    }

    /** The varbyte loop. The two sides of each `|=` share no bit, so it adds. */
    method DecodeDoc(page: Page) returns (d: Decoded<nat>)
      requires block == Some(page) && currentPtr < blockEnd <= |page|
      modifies this`currentPtr
      ensures d == DecodeVb(page[old(currentPtr)..blockEnd])
      ensures currentPtr <= blockEnd && (d.Good? ==> currentPtr == old(currentPtr) + d.used)
    {
      hide Pow2, VbLoop, Shifted;
      var start := currentPtr;
      ghost var s := page[start..blockEnd];
      var byte := page[currentPtr];
      currentPtr := currentPtr + 1;
      var docID: nat := byte % 0x80;
      var shift: nat := 7;
      while byte >= 0x80
        invariant start < currentPtr <= blockEnd && 7 <= shift
        invariant byte >= 0x80 ==> VbLoop(s, currentPtr - start, docID, shift) == DecodeVb(s)
        invariant byte < 0x80 ==> DecodeVb(s) == Good(docID, currentPtr - start)
        decreases blockEnd - currentPtr, byte
      {
        VbLoopStep(s, currentPtr - start, docID, shift);
        if currentPtr >= blockEnd || shift >= 64 { return Bad; }
        byte := page[currentPtr];
        assert byte == s[currentPtr - start];
        currentPtr := currentPtr + 1;
        if shift == 63 && byte % 0x80 >= 2 { return Bad; }
        docID := docID + Shifted(byte % 0x80, shift);
        shift := shift + 7;
      }
      d := Good(docID, currentPtr - start);
    }

    method DecodeNext()
      requires Valid()
      modifies this
      ensures Valid() && block == old(block)
      ensures var d := DecodePair(old(Left()));
              && hasCurrent == d.Good?
              && (d.Good? ==> Current() == [d.value] && Left() == old(Left())[d.used..])
              && (old(Left()) == [] ==> Left() == [] && currentDoc == old(currentDoc))
    {
      if currentPtr >= blockEnd || block.None? {
        hasCurrent := false;
        return;
      }
      var page := block.value;
      ghost var s := Left();
      var d := DecodeDoc(page);
      if d.Bad? { hasCurrent := false; return; }
      currentDoc := d.value;
      if currentPtr >= blockEnd { hasCurrent := false; return; }
      currentTf8 := page[currentPtr];
      assert currentTf8 == s[d.used];
      currentPtr := currentPtr + 1;
      hasCurrent := true;
    }

    /** Decoding one step of an encoding. */
    method DecodeNextOf(ghost ps: seq<Posting>)
      requires Valid() && Left() == Enc(ps) && Ascending(ps)
      modifies this
      ensures Valid() && block == old(block)
      ensures hasCurrent == (ps != []) && Current() == (if ps == [] then [] else [ps[0]])
      ensures Left() == Enc(if ps == [] then [] else ps[1..])
      ensures ps == [] ==> currentDoc == old(currentDoc)
    {
      if ps != [] { DecodePairRoundTrip(ps); }
      DecodeNext();
    }

    /** Seek within the open range. */
    method GoUntil(target: nat, ghost ps: seq<Posting>) returns (ghost rest: seq<Posting>)
      requires Valid() && Left() == Enc(ps) && Ascending(ps)
      modifies this
      ensures Valid() && block == old(block)
      ensures Left() == Enc(rest) && Ascending(rest) && (!hasCurrent ==> rest == [])
      ensures Current() + rest == DropBelow(old(Current()) + ps, target)
    {
      rest := ps;
      if hasCurrent { DropBelowHead(Current()[0], ps, target); } else { assert Current() + ps == ps; }
      if hasCurrent && currentDoc >= target { return; }
      while true
        invariant Valid() && block == old(block)
        invariant Left() == Enc(rest) && Ascending(rest)
        invariant DropBelow(rest, target) == DropBelow(old(Current()) + ps, target)
        decreases |rest|
      {
        ghost var before := rest;
        DecodeNextOf(rest);
        rest := if rest == [] then [] else rest[1..];
        if !hasCurrent || currentDoc >= target {
          assert Current() + rest == before;
          return;
        }
      }
    }

    method Close()
      modifies this
      ensures Valid() && !hasCurrent && Left() == [] && currentDoc == old(currentDoc)
    {
      block, currentPtr, blockEnd, hasCurrent := None, 0, 0, false;
    }
  }

  /** Reads one term's postings across pages. */
  class AdvancedIndexReader {
    const pages: seq<Page>
    const decoder: UnifiedDecoder
    var blockSeqNumber: nat
    var remainingContinuationBlocks: nat
    /** Postings of the open range still to decode, and segments on pages not opened yet. */
    ghost var rest: seq<Posting>
    ghost var later: seq<seq<Posting>>

    ghost predicate Valid()
      reads this, decoder
    {
      && decoder.Valid() && decoder.Left() == Enc(rest)
      && |later| == remainingContinuationBlocks
      && Continues(pages, blockSeqNumber + 1, later)
      && Ascending(rest) && SegsAscending(later)
    }

    /** The cursor's meaning: the current posting and all that follow, over all pages. */
    ghost function Remaining(): seq<Posting>
      reads this, decoder
    {
      decoder.Current() + rest + Flatten(later)
    }

    /** Between calls the reader stands on a posting or has none left. */
    ghost predicate Settled()
      reads this, decoder
    {
      Valid() && (decoder.hasCurrent || (rest == [] && later == []))
    }

    predicate IsEnd()
      requires Settled()
      reads this, decoder
      ensures IsEnd() <==> Remaining() == []
    {
      !decoder.hasCurrent
    }

    /** At the end: the document decoded last. */
    function GetDocumentID(): (doc: nat)
      requires Settled()
      reads this, decoder
      ensures doc == decoder.currentDoc && (!IsEnd() ==> doc == Remaining()[0].doc)
    {
      decoder.currentDoc
    }

    function GetTermFreq(): (tf: Byte)
      requires Settled() && !IsEnd()
      reads this, decoder
      ensures tf == Remaining()[0].tf
    {
      decoder.currentTf8
    }

    /** The block cache, with a read that succeeds. */
    method GetBlock(seqNo: nat) returns (page: Page)
      requires seqNo < |pages|
      ensures page == pages[seqNo]
    {
      page := pages[seqNo];
    }

    /** Open on what the term lookup returned: nothing, or a location. */
    constructor Open(pages: seq<Page>, location: Option<Loc>, ghost segs: seq<seq<Posting>>)
      requires location.None? ==> segs == []
      requires location.Some? ==> Holds(pages, location.value, segs) && Ascending(Flatten(segs))
      ensures Settled() && Remaining() == Flatten(segs) && fresh(decoder)
      ensures this.pages == pages
    {
      this.pages := pages;
      decoder := new UnifiedDecoder();
      blockSeqNumber, remainingContinuationBlocks, rest, later := 0, 0, [], [];
      new;
      if location.Some? { OpenFirst(location.value, segs); }
      GoNext();
    }

    method OpenFirst(loc: Loc, ghost segs: seq<seq<Posting>>)
      requires decoder.Valid() && !decoder.hasCurrent
      requires Holds(pages, loc, segs) && Ascending(Flatten(segs))
      modifies this, decoder
      ensures Valid() && !decoder.hasCurrent && rest == segs[0] && later == segs[1..]
    {
      hide Enc, Ascending, Continues, Flatten;
      FlattenAscending(segs);
      assert Continues(pages, loc.block + 1, segs[1..]) && SegsAscending(segs[1..]);
      blockSeqNumber, remainingContinuationBlocks := loc.block, loc.conts;
      var page := GetBlock(loc.block);
      decoder.OpenRaw(page, loc.offset, loc.length);
      rest, later := segs[0], segs[1..];
    }

    /** Release the current page and step to the next continuation page. */
    method NextPage() returns (page: Page)
      requires Valid() && later != [] && rest == [] && !decoder.hasCurrent
      modifies this, decoder
      ensures Valid() && !decoder.hasCurrent && rest == []
      ensures later == old(later)[1..] && remainingContinuationBlocks == old(remainingContinuationBlocks) - 1
      ensures ContPage(page, old(later)[0]) && Ascending(old(later)[0])
    {
      decoder.block := None;
      page := GetBlock(blockSeqNumber + 1);
      blockSeqNumber := blockSeqNumber + 1;
      remainingContinuationBlocks := remainingContinuationBlocks - 1;
      later := later[1..];
    }

    method OpenContinuation(page: Page, ghost seg: seq<Posting>)
      requires Valid() && !decoder.hasCurrent && rest == []
      requires ContPage(page, seg) && Ascending(seg)
      modifies this`rest, decoder
      ensures Valid() && !decoder.hasCurrent && rest == seg
    {
      hide Enc, Ascending, SegsAscending, Continues, Header, HeaderLength, Flatten;
      HeaderRoundTrip(page, seg);
      decoder.OpenRaw(page, CONT_HDR, HeaderLength(page));
      rest := seg;
    }

    method DecodeNext()
      requires Valid()
      modifies this`rest, decoder
      ensures Valid() && decoder.hasCurrent == (old(rest) != [])
      ensures Remaining() == old(rest) + Flatten(later) && (!decoder.hasCurrent ==> rest == [])
      ensures old(rest) == [] ==> decoder.currentDoc == old(decoder.currentDoc)
    {
      hide Enc, Continues, SegsAscending, Flatten;
      decoder.DecodeNextOf(rest);
      rest := if rest == [] then [] else rest[1..];
    }

    /** Open the next continuation page on its first posting. */
    method DecodeContinuation()
      requires Valid() && rest == [] && !decoder.hasCurrent && remainingContinuationBlocks > 0
      modifies this, decoder
      ensures Valid() && Remaining() == Flatten(old(later)) && (!decoder.hasCurrent ==> rest == [])
      ensures remainingContinuationBlocks == old(remainingContinuationBlocks) - 1
    {
      hide Ascending, SegsAscending, Enc, Continues, ContPage;
      ghost var seg := later[0];
      var page := NextPage();
      OpenContinuation(page, seg);
      DecodeNext();
    }

    /** Past the last posting of the last page. */
    method CloseAtEnd()
      requires Valid() && rest == [] && !decoder.hasCurrent && remainingContinuationBlocks == 0
      modifies decoder
      ensures Settled() && Remaining() == Flatten(later) == [] && !decoder.hasCurrent
      ensures decoder.currentDoc == old(decoder.currentDoc)
    {
      decoder.Close();
    }

    /** The block is let go at the end of the last page. */
    method ReleaseAtEnd()
      requires Valid() && rest == [] && !decoder.hasCurrent && remainingContinuationBlocks == 0
      modifies decoder
      ensures Settled() && Remaining() == old(Remaining()) && !decoder.hasCurrent
    {
      decoder.block := None;
    }

    lemma {:induction false} CountsPages()
      requires Valid()
      ensures |later| == remainingContinuationBlocks
    {
    }

    lemma {:induction false} BehindRange()
      requires !decoder.hasCurrent && rest == []
      ensures Remaining() == Flatten(later)
    {
      assert decoder.Current() + rest == [];
    }

    lemma {:induction false} StepsOff()
      requires Settled()
      ensures rest + Flatten(later) == if Remaining() == [] then [] else Remaining()[1..]
    {
      if decoder.hasCurrent {
        assert Remaining() == decoder.Current() + (rest + Flatten(later));
      } else {
        BehindRange();
      }
    }

    method GoNext()
      requires Valid()
      modifies this, decoder
      ensures Settled()
      ensures Remaining() == old(rest) + Flatten(old(later))
      ensures old(Settled()) ==>
          Remaining() == if old(Remaining()) == [] then [] else old(Remaining())[1..]
      ensures old(rest) == [] && old(later) == [] ==> decoder.currentDoc == old(decoder.currentDoc)
    {
      hide Valid, Flatten, Remaining;
      CountsPages();
      if Settled() { StepsOff(); }
      DecodeNext();
      while !decoder.hasCurrent && remainingContinuationBlocks > 0
        invariant Valid() && Remaining() == old(rest) + Flatten(old(later))
        invariant !decoder.hasCurrent ==> rest == []
        invariant old(rest) == [] && old(later) == [] ==>
            remainingContinuationBlocks == 0 && decoder.currentDoc == old(decoder.currentDoc)
        decreases remainingContinuationBlocks
      {
        BehindRange();
        DecodeContinuation();
      }
      if !decoder.hasCurrent && remainingContinuationBlocks == 0 {
        BehindRange();
        CloseAtEnd();
      }
    }

    /** Seek over pages: a continuation page whose max doc id is below the target is
        passed without decoding it. */
    method GoUntil(target: nat)
      requires Settled()
      modifies this, decoder
      ensures Settled()
      ensures Remaining() == DropBelow(old(Remaining()), target)
    {
      hide Valid, Flatten, Remaining;
      while true
        invariant Valid() && (decoder.hasCurrent || rest == [])
        invariant DropBelow(Remaining(), target) == old(DropBelow(Remaining(), target))
        decreases remainingContinuationBlocks
      {
        SeekInRange(target);
        if decoder.hasCurrent { break; }
        if remainingContinuationBlocks == 0 { ReleaseAtEnd(); break; }
        SkipOrOpen(target);
      }
      if !decoder.hasCurrent && remainingContinuationBlocks == 0 {
        BehindRange();
        CloseAtEnd();
      }
    }

    method SkipOrOpen(target: nat)
      requires Valid() && rest == [] && !decoder.hasCurrent && remainingContinuationBlocks > 0
      modifies this, decoder
      ensures Valid() && (decoder.hasCurrent || rest == [])
      ensures DropBelow(Remaining(), target) == DropBelow(Flatten(old(later)), target)
      ensures remainingContinuationBlocks == old(remainingContinuationBlocks) - 1
    {
      hide Enc, Continues;
      ghost var seg := later[0];
      var page := NextPage();
      HeaderRoundTrip(page, seg);
      if target > HeaderMaxDoc(page) {
        SkipIsSound(seg, Flatten(later), target);
        BehindRange();
        return;
      }
      OpenContinuation(page, seg);
      DecodeNext();
    }

    /** Seek within the open page range. */
    method SeekInRange(target: nat)
      requires Valid() && (decoder.hasCurrent || rest == [])
      modifies this`rest, decoder
      ensures Valid() && (!decoder.hasCurrent ==> rest == [])
      ensures DropBelow(old(Remaining()), target)
              == if decoder.hasCurrent then Remaining() else DropBelow(Flatten(later), target)
    {
      ghost var open := decoder.Current() + rest;
      SeekSplit(open, Flatten(later), target);
      rest := decoder.GoUntil(target, rest);
      assert !decoder.hasCurrent ==> decoder.Current() + rest == [];
    }
  }

  /** The max doc id in the header speaks for the whole segment. */
  lemma {:induction false} SkipIsSound(seg: seq<Posting>, tail: seq<Posting>, target: nat)
    requires seg != [] && Ascending(seg) && seg[|seg| - 1].doc < target
    ensures DropBelow(seg + tail, target) == DropBelow(tail, target)
  {
    forall i | 0 <= i < |seg| ensures seg[i].doc < target {
      AscendingAtMostLast(seg, i);
    }
    DropBelowAll(seg, tail, target);
  }
}
