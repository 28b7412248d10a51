/** What the merge's cut does to a list with frequency bytes from 0x80 on: it takes such a
    byte for the first of a varbyte, and may part a document from its frequency. */
module HighFrequencies {
  import opened Bytes
  import opened Postings

  /** The postings a reader finds in a byte range: pairs, up to the first malformed one. */
  function DecodeAll(s: seq<Byte>): seq<Posting> {
    var d := DecodePair(s);
    if d.Bad? then [] else [d.value] + DecodeAll(s[d.used..])
  }

  lemma {:induction false} DecodeStep(p: Posting, rest: seq<Byte>)
    requires p.doc < U64
    ensures DecodeAll(EncOne(p) + rest) == [p] + DecodeAll(rest)
  {
    hide Vb, DecodeVb;
    var s := EncOne(p) + rest;
    ConcatAssoc(Vb(p.doc), [p.tf], rest);
    DecodeVbRoundTrip(p.doc, [p.tf] + rest);
    assert s[|EncOne(p)|..] == rest;
  }

  /** A list on one range reads back whole, whatever its frequency bytes. */
  lemma {:induction false} DecodeAllEnc(ps: seq<Posting>)
    requires Ascending(ps)
    ensures DecodeAll(Enc(ps)) == ps
  {
    if ps != [] {
      DecodeStep(ps[0], Enc(ps[1..]));
      DecodeAllEnc(ps[1..]);
    }
  }

  /** A list, then a document id without its frequency: the list reads back, the id is lost. */
  lemma {:induction false} DecodeAllCutOff(ps: seq<Posting>, doc: nat)
    requires Ascending(ps) && doc < U64
    ensures DecodeAll(Enc(ps) + Vb(doc)) == ps
  {
    if ps == [] {
      DecodeVbRoundTrip(doc, []);
      assert Vb(doc) + [] == Vb(doc) == [] + Vb(doc);
    } else {
      ConcatAssoc(EncOne(ps[0]), Enc(ps[1..]), Vb(doc));
      DecodeStep(ps[0], Enc(ps[1..]) + Vb(doc));
      DecodeAllCutOff(ps[1..], doc);
    }
  }

  // ---------------------------------------------------------------- bytes decoded, bytes needed

  lemma {:induction false} SevenMoreBits(acc: nat, low: nat, shift: nat)
    requires acc < Pow2(shift) && low < 0x80
    ensures acc + Shifted(low, shift) < Pow2(shift + 7)
  {
    Pow2Seven(shift);
    assert low * Pow2(shift) <= 0x7F * Pow2(shift);
  }

  /** The decoder's loop finds no more bits than it took bytes for. */
  lemma {:induction false} VbLoopBound(s: seq<Byte>, used: nat, acc: nat, shift: nat)
    requires shift == 7 * used && acc < Pow2(shift) && VbLoop(s, used, acc, shift).Good?
    ensures var d := VbLoop(s, used, acc, shift); d.value < Pow2(7 * d.used)
    decreases |s| - used
  {
    hide Pow2, Shifted;
    var low := s[used] % 0x80;
    SevenMoreBits(acc, low, shift);
    if s[used] >= 0x80 { VbLoopBound(s, used + 1, acc + Shifted(low, shift), shift + 7); }
  }

  /** No decoded posting took fewer bytes than encoding it takes. */
  lemma {:induction false} PairTakesItsBytes(s: seq<Byte>)
    requires DecodePair(s).Good?
    ensures |EncOne(DecodePair(s).value)| <= DecodePair(s).used
  {
    var d := DecodeVb(s);
    Pow2Facts();
    if s[0] >= 0x80 { VbLoopBound(s, 1, s[0] % 0x80, 7); }
    VbLength(d.value, d.used);
  }

  lemma {:induction false} DecodedFits(s: seq<Byte>)
    ensures |Enc(DecodeAll(s))| <= |s|
  {
    var d := DecodePair(s);
    if d.Good? {
      PairTakesItsBytes(s);
      DecodedFits(s[d.used..]);
      EncCons(d.value, DecodeAll(s[d.used..]));
    }
  }

  // ---------------------------------------------------------------- the cut

  /** The two pieces the merge cuts a list into read back as the list. */
  ghost predicate ReadsBack(ps: seq<Posting>, n: nat)
    requires n <= |Enc(ps)|
  {
    DecodeAll(Enc(ps)[..n]) + DecodeAll(Enc(ps)[n..]) == ps
  }

  ghost predicate SplitReadsBack(ps: seq<Posting>, capacity: nat, n: nat) {
    IsSplit(Enc(ps), capacity, n) ==> ReadsBack(ps, n)
  }

  /** The merge's cut keeps a list at every capacity exactly when every posting but the last
      has a frequency byte below 0x80. */
  lemma {:induction false} SplitsReadBackIff(ps: seq<Posting>)
    requires Ascending(ps)
    ensures (forall capacity: nat, n: nat :: SplitReadsBack(ps, capacity, n))
            <==> forall i :: 0 <= i < |ps| - 1 ==> ps[i].tf < 0x80
  {
    if i :| 0 <= i < |ps| - 1 && ps[i].tf >= 0x80 {
      var first := FirstHighTf(ps, i);
      var n := BadCut(ps, first);
      assert !SplitReadsBack(ps, n, n);
    } else {
      forall capacity: nat, n: nat ensures SplitReadsBack(ps, capacity, n) {
        if IsSplit(Enc(ps), capacity, n) { GoodCut(ps, capacity, n); }
      }
    }
  }

  lemma {:induction false} GoodCut(ps: seq<Posting>, capacity: nat, n: nat)
    requires Ascending(ps) && IsSplit(Enc(ps), capacity, n)
    requires forall i :: 0 <= i < |ps| - 1 ==> ps[i].tf < 0x80
    ensures ReadsBack(ps, n)
  {
    CuttersAgreeAt(ps, capacity, n);
    var k := LongestPrefixOfEnc(ps, capacity, n, false);
    assert ps == ps[..k] + ps[k..];
    AscendingParts(ps[..k], ps[k..]);
    DecodeAllEnc(ps[..k]);
    DecodeAllEnc(ps[k..]);
  }

  lemma {:induction false} StartsWithDoc(ps: seq<Posting>)
    requires ps != []
    ensures |Vb(ps[0].doc)| < |Enc(ps)| && Enc(ps)[..|Vb(ps[0].doc)|] == Vb(ps[0].doc)
  {
  }

  /** The wide pair that starts on the first high frequency byte ends behind the next
      document, and a page with room for exactly that is cut there. */
  lemma {:induction false} BadCut(ps: seq<Posting>, first: nat) returns (n: nat)
    requires Ascending(ps) && first < |ps| - 1 && ps[first].tf >= 0x80 && LowTf(ps[..first])
    ensures IsSplit(Enc(ps), n, n) && !ReadsBack(ps, n)
  {
    hide Enc, Vb, DecodeAll;
    var data, doc := Enc(ps), Vb(ps[first + 1].doc);
    var a, b := ps[..first + 1], ps[first + 1..];
    n := |Enc(a)| + |doc|;
    assert a + b == ps;
    EncConcat(a, b);
    AscendingParts(a, b);
    WidePairEnd(ps, first);
    StartsWithDoc(b);
    assert data[..n] == Enc(a) + Enc(b)[..|doc|];
    DecodeAllCutOff(a, ps[first + 1].doc);
    DecodedFits(data[n..]);
    assert DecodeAll(data[n..]) != b;
  }

  lemma {:induction false} WidePairEnd(ps: seq<Posting>, first: nat)
    requires first < |ps| - 1 && ps[first].tf >= 0x80 && LowTf(ps[..first])
    ensures var n := |Enc(ps[..first + 1])| + |Vb(ps[first + 1].doc)|;
            n < |Enc(ps)| && LongestPrefix(Enc(ps), n, n, true)
  {
    hide Aligned, PairEnd, LowTf;
    var data, at := Enc(ps), |Enc(ps[..first])|;
    EncSplit(ps, first);
    assert data[at..] == Enc(ps[first..]) && data[0..] == data;
    TwoPairs(ps[first..]);
    WidePair(ps[first], ps[first + 1], Enc(ps[first..][2..]), data, at);
    CutWidth(ps, first);
    CutIsAligned(ps, data, 0, first, true);
    WideStep(data, at);
  }

  lemma {:induction false} TwoPairs(ps: seq<Posting>)
    requires |ps| >= 2
    ensures Enc(ps) == Vb(ps[0].doc) + ([ps[0].tf] + (Vb(ps[1].doc) + ([ps[1].tf] + Enc(ps[2..]))))
  {
    assert ps[1..][1..] == ps[2..];
    ConcatAssoc(Vb(ps[1].doc), [ps[1].tf], Enc(ps[2..]));
    ConcatAssoc(Vb(ps[0].doc), [ps[0].tf], Enc(ps[1..]));
  }

  /** A high frequency byte runs on into the next document. */
  lemma {:induction false} WidePair(p: Posting, q: Posting, rest: seq<Byte>, data: seq<Byte>, off: nat)
    requires off <= |data| && p.tf >= 0x80
    requires data[off..] == Vb(p.doc) + ([p.tf] + (Vb(q.doc) + ([q.tf] + rest)))
    ensures PairEnd(data, off, true) == off + |Vb(p.doc)| + 1 + |Vb(q.doc)| < |data|
  {
    hide Vb;
    var mid, tail := off + |Vb(p.doc)|, [q.tf] + rest;
    VbEndVb(data, off, p.doc, [p.tf] + (Vb(q.doc) + tail));
    assert data[mid] == data[off..][mid - off] == p.tf;
    assert data[mid + 1..] == data[off..][mid + 1 - off..] == Vb(q.doc) + tail;
    VbEndVb(data, mid + 1, q.doc, tail);
  }

  lemma {:induction false} WideStep(data: seq<Byte>, at: nat)
    requires Aligned(data, 0, at, true) && PairEnd(data, at, true) != -1
    ensures Aligned(data, 0, PairEnd(data, at, true), true)
  {
    var e := PairEnd(data, at, true);
    AlignedTrans(data, 0, at, e, true);
    assert Aligned(data, at, e, true);
  }

  /** Three postings, the first with frequency byte 0x80, and room for four bytes: what is
      read back is the first posting and one that was never written. */
  lemma {:induction false} HighFrequencyIsLost()
    ensures var ps := [Posting(1, 0x80), Posting(2, 5), Posting(3, 5)];
            && Ascending(ps) && IsSplit(Enc(ps), 4, 3)
            && DecodeAll(Enc(ps)[..3]) + DecodeAll(Enc(ps)[3..]) == [Posting(1, 0x80), Posting(5, 3)]
  {
    var ps := [Posting(1, 0x80), Posting(2, 5), Posting(3, 5)];
    var data: seq<Byte> := [1, 0x80, 2, 5, 3, 5];
    ThreePostings();
    assert PairEnd(data, 0, true) == 3 && PairEnd(data, 3, true) == 5;
    StopHere(data, 4, 3, true);
    assert data[..3] == [1, 0x80, 2] && data[3..] == [5, 3, 5];
    assert [1, 0x80, 2][2..] == [2] && [5, 3, 5][2..] == [5];
  }

  lemma {:induction false} ThreePostings()
    ensures Enc([Posting(1, 0x80), Posting(2, 5), Posting(3, 5)]) == [1, 0x80, 2, 5, 3, 5]
  {
    var ps := [Posting(1, 0x80), Posting(2, 5), Posting(3, 5)];
    assert ps[1..] == [Posting(2, 5), Posting(3, 5)] && ps[1..][1..] == [Posting(3, 5)];
    assert Enc(ps[1..][1..]) == [3, 5] && Enc(ps[1..]) == [2, 5, 3, 5];
  }
}
