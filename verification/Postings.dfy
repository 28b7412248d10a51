/** Posting lists: how they are kept sorted, how they become bytes, and how a byte
    string is cut between postings. */
module Postings {
  import opened Bytes

  /** A stored posting: document id and quantised term frequency. */
  datatype Posting = Posting(doc: nat, tf: Byte)

  function EncOne(p: Posting): (s: seq<Byte>)
    ensures |s| >= 2
  {
    Vb(p.doc) + [p.tf]
  }

  function Enc(ps: seq<Posting>): (s: seq<Byte>)
    ensures ps != [] ==> |s| >= 2
  {
    if ps == [] then [] else EncOne(ps[0]) + Enc(ps[1..])
  }

  /** Strictly ascending 64-bit ids. */
  ghost predicate Ascending(ps: seq<Posting>) {
    ps == [] || (ps[0].doc < U64 && (|ps| > 1 ==> ps[0].doc < ps[1].doc) && Ascending(ps[1..]))
  }

  lemma {:induction false} AscendingParts(a: seq<Posting>, b: seq<Posting>)
    requires Ascending(a + b)
    ensures Ascending(a) && Ascending(b)
  {
    if a == [] {
      assert a + b == b;
    } else {
      assert (a + b)[1..] == a[1..] + b;
      AscendingParts(a[1..], b);
    }
  }

  lemma {:induction false} AscendingAtMostLast(ps: seq<Posting>, i: nat)
    requires Ascending(ps) && i < |ps|
    ensures ps[i].doc <= ps[|ps| - 1].doc < U64
  {
    if |ps| > 1 {
      AscendingAtMostLast(ps[1..], if i > 0 then i - 1 else 0);
    }
  }

  lemma {:induction false} EncCons(p: Posting, ps: seq<Posting>)
    ensures Enc([p] + ps) == EncOne(p) + Enc(ps)
  {
  }

  lemma {:induction false} EncConcat(a: seq<Posting>, b: seq<Posting>)
    ensures Enc(a + b) == Enc(a) + Enc(b)
  {
    if a == [] {
      assert a + b == b;
    } else {
      var head, rest := a[0], a[1..];
      EncConcat(rest, b);
      EncCons(head, rest + b);
      assert [head] + rest == a;
      ConcatAssoc([head], rest, b);
      ConcatAssoc(EncOne(head), Enc(rest), Enc(b));
    }
  }

  lemma {:induction false} EncSplit(ps: seq<Posting>, k: nat)
    requires k <= |ps|
    ensures Enc(ps) == Enc(ps[..k]) + Enc(ps[k..])
  {
    EncConcat(ps[..k], ps[k..]);
    assert ps[..k] + ps[k..] == ps;
  }

  // ---------------------------------------------------------------- cutting between postings

  function VbEnd(data: seq<Byte>, off: nat): (e: int)
    ensures e == -1 || off + 1 <= e <= |data|
    decreases |data| - off
  {
    if off >= |data| then -1 else if data[off] < 0x80 then off + 1 else VbEnd(data, off + 1)
  }

  /** End of the pair starting at `off`: a varbyte, then the frequency -- one byte as the
      builder reads it, a varbyte as the merge reads it (`wide`). */
  function PairEnd(data: seq<Byte>, off: nat, wide: bool): (e: int)
    ensures e == -1 || off + 2 <= e <= |data|
  {
    var doc := VbEnd(data, off);
    if doc == -1 || doc >= |data| then -1 else if wide then VbEnd(data, doc) else doc + 1
  }

  /** Position n can be reached from `off` in whole pairs. */
  predicate Aligned(data: seq<Byte>, off: nat, n: nat, wide: bool)
    decreases |data| - off
  {
    off == n || (PairEnd(data, off, wide) != -1 && Aligned(data, PairEnd(data, off, wide), n, wide))
  }

  /** n is the longest pair-aligned prefix of `data` within `capacity`. */
  ghost predicate LongestPrefix(data: seq<Byte>, capacity: nat, n: nat, wide: bool) {
    && Aligned(data, 0, n, wide) && n <= capacity && n <= |data|
    && forall m :: n < m <= capacity ==> !Aligned(data, 0, m, wide)
  }

  lemma {:induction false} AlignedBeyond(data: seq<Byte>, off: nat, n: nat, wide: bool)
    requires Aligned(data, off, n, wide)
    ensures off <= n && (off != n ==> PairEnd(data, off, wide) <= n <= |data|)
    decreases |data| - off
  {
    if off != n { AlignedBeyond(data, PairEnd(data, off, wide), n, wide); }
  }

  lemma {:induction false} AlignedTrans(data: seq<Byte>, a: nat, b: nat, c: nat, wide: bool)
    requires Aligned(data, a, b, wide)
    ensures Aligned(data, a, c, wide) <==> Aligned(data, b, c, wide) || (c < b && Aligned(data, a, c, wide))
    decreases |data| - a
  {
    AlignedBeyond(data, a, b, wide);
    if a != b {
      var e := PairEnd(data, a, wide);
      AlignedTrans(data, e, b, c, wide);
      if Aligned(data, a, c, wide) { AlignedBeyond(data, a, c, wide); }
      if Aligned(data, b, c, wide) { AlignedBeyond(data, b, c, wide); }
    }
  }

  /** The builder's pair scanner: a varbyte, then any one byte. */
  method ReadPostingPairEnd(data: seq<Byte>, offset: nat) returns (ok: bool, end: nat)
    ensures ok <==> PairEnd(data, offset, false) != -1
    ensures ok ==> end == PairEnd(data, offset, false)
  {
    end := offset;
    while end < |data|
      invariant offset <= end && VbEnd(data, end) == VbEnd(data, offset)
    {
      var byte := data[end];
      end := end + 1;
      if byte < 0x80 {
        if end >= |data| { return false, end; }
        return true, end + 1;
      }
    }
    ok := false;
  }

  method ReadVbEnd(data: seq<Byte>, offset: nat) returns (ok: bool, end: nat)
    ensures ok <==> VbEnd(data, offset) != -1
    ensures ok ==> end == VbEnd(data, offset)
  {
    end := offset;
    while end < |data|
      invariant VbEnd(data, end) == VbEnd(data, offset)
    {
      var byte := data[end];
      end := end + 1;
      if byte < 0x80 { return true, end; }
    }
    ok := false;
  }

  /** The merge's pair scanner: two varbytes. */
  method ReadVbPairEnd(data: seq<Byte>, offset: nat) returns (ok: bool, end: nat)
    ensures ok <==> PairEnd(data, offset, true) != -1
    ensures ok ==> end == PairEnd(data, offset, true)
  {
    ok, end := ReadVbEnd(data, offset);
    if ok { ok, end := ReadVbEnd(data, end); }
  }

  lemma {:induction false} StopHere(data: seq<Byte>, capacity: nat, at: nat, wide: bool)
    requires Aligned(data, 0, at, wide) && at <= |data|
    requires at >= |data| || at >= capacity || PairEnd(data, at, wide) == -1 || PairEnd(data, at, wide) > capacity
    ensures forall m :: at < m <= capacity ==> !Aligned(data, 0, m, wide)
  {
    forall m | at < m <= capacity ensures !Aligned(data, 0, m, wide) {
      AlignedTrans(data, 0, at, m, wide);
      if Aligned(data, at, m, wide) { AlignedBeyond(data, at, m, wide); }
    }
  }

  /** The greedy loop both cutters run, on any bytes at all. */
  method ScanPairs(data: seq<Byte>, capacity: nat, wide: bool) returns (lastPairEnd: nat)
    ensures LongestPrefix(data, capacity, lastPairEnd, wide)
  {
    var cursor := 0;
    lastPairEnd := 0;
    var limit := if |data| < capacity then |data| else capacity;
    while cursor < limit
      invariant cursor == lastPairEnd <= limit && Aligned(data, 0, cursor, wide)
      decreases limit - cursor
    {
      var ok, end;
      if wide { ok, end := ReadVbPairEnd(data, cursor); } else { ok, end := ReadPostingPairEnd(data, cursor); }
      if !ok || end > limit {
        StopHere(data, capacity, cursor, wide);
        return;
      }
      AlignedTrans(data, 0, cursor, end, wide);
      assert Aligned(data, cursor, end, wide);
      cursor := end;
      lastPairEnd := cursor;
    }
    StopHere(data, capacity, cursor, wide);
  }

  method PostingPrefixBytes(data: seq<Byte>, capacity: nat) returns (n: nat)
    ensures LongestPrefix(data, capacity, n, false)
  {
    n := ScanPairs(data, capacity, false);
  }

  /** The merge's cut: everything if it fits, else the longest prefix of wide pairs. */
  method PostingSplitLength(data: seq<Byte>, capacity: nat) returns (n: nat)
    ensures IsSplit(data, capacity, n)
  {
    if |data| <= capacity { return |data|; }
    n := ScanPairs(data, capacity, true);
  }

  ghost predicate IsSplit(data: seq<Byte>, capacity: nat, n: nat) {
    if |data| <= capacity then n == |data| else LongestPrefix(data, capacity, n, true)
  }

  lemma {:induction false} LongestPrefixUnique(data: seq<Byte>, capacity: nat, a: nat, b: nat, wide: bool)
    requires LongestPrefix(data, capacity, a, wide) && LongestPrefix(data, capacity, b, wide)
    ensures a == b
  {
  }

  // ---------------------------------------------------------------- cuts of an encoding

  lemma {:induction false} VbEndVb(data: seq<Byte>, off: nat, v: nat, tail: seq<Byte>)
    requires off <= |data| && data[off..] == Vb(v) + tail
    ensures VbEnd(data, off) == off + |Vb(v)|
    decreases v
  {
    assert data[off] == data[off..][0] == Vb(v)[0];
    if v >= 0x80 {
      assert data[off + 1..] == data[off..][1..] == Vb(v / 0x80) + tail;
      VbEndVb(data, off + 1, v / 0x80, tail);
    }
  }

  /** One pair of an encoding, as either scanner sees it: they agree on a frequency below
      0x80, and on any other the wide one runs past the pair. */
  lemma {:induction false} PairEndEnc(ps: seq<Posting>, data: seq<Byte>, off: nat)
    requires off <= |data| && data[off..] == Enc(ps)
    ensures ps == [] ==> PairEnd(data, off, false) == -1 && PairEnd(data, off, true) == -1
    ensures ps != [] ==>
        var e := off + |EncOne(ps[0])|;
        && PairEnd(data, off, false) == e && e <= |data| && data[e..] == Enc(ps[1..])
        && (ps[0].tf < 0x80 ==> PairEnd(data, off, true) == e)
        && (ps[0].tf >= 0x80 ==> PairEnd(data, off, true) == -1 || PairEnd(data, off, true) > e)
  {
    if ps != [] {
      var tail := [ps[0].tf] + Enc(ps[1..]);
      assert data[off..] == Vb(ps[0].doc) + tail;
      VbEndVb(data, off, ps[0].doc, tail);
      var doc := off + |Vb(ps[0].doc)|;
      assert data[doc] == data[off..][doc - off] == ps[0].tf;
      assert data[doc + 1..] == data[off..][doc + 1 - off..] == Enc(ps[1..]);
    }
  }

  ghost predicate LowTf(ps: seq<Posting>) {
    forall i :: 0 <= i < |ps| ==> ps[i].tf < 0x80
  }

  /** The aligned positions of an encoding are the ends of its postings. */
  lemma {:induction false} AlignedIsCut(ps: seq<Posting>, data: seq<Byte>, off: nat, n: nat, wide: bool)
    returns (k: nat)
    requires off <= |data| && data[off..] == Enc(ps) && Aligned(data, off, n, wide)
    requires wide ==> LowTf(ps)
    ensures k <= |ps| && n == off + |Enc(ps[..k])|
    decreases |ps|
  {
    PairEndEnc(ps, data, off);
    if off == n {
      k := 0;
    } else {
      var e := PairEnd(data, off, wide);
      var j := AlignedIsCut(ps[1..], data, e, n, wide);
      k := j + 1;
      assert ps[..k][1..] == ps[1..][..j];
    }
  }

  lemma {:induction false} PartIsAligned(a: seq<Posting>, b: seq<Posting>, data: seq<Byte>, off: nat, wide: bool)
    requires off <= |data| && data[off..] == Enc(a + b) && (wide ==> LowTf(a))
    ensures Aligned(data, off, off + |Enc(a)|, wide)
    decreases |a|
  {
    hide EncOne, PairEnd;
    if a != [] {
      assert (a + b)[1..] == a[1..] + b;
      PairEndEnc(a + b, data, off);
      PartIsAligned(a[1..], b, data, off + |EncOne(a[0])|, wide);
    }
  }

  lemma {:induction false} CutIsAligned(ps: seq<Posting>, data: seq<Byte>, off: nat, k: nat, wide: bool)
    requires off <= |data| && data[off..] == Enc(ps) && k <= |ps|
    requires wide ==> LowTf(ps[..k])
    ensures Aligned(data, off, off + |Enc(ps[..k])|, wide)
  {
    assert ps[..k] + ps[k..] == ps;
    PartIsAligned(ps[..k], ps[k..], data, off, wide);
  }

  /** The longest prefix of an encoding is the encoding of the most postings that fit. */
  lemma {:induction false} LongestPrefixOfEnc(ps: seq<Posting>, capacity: nat, n: nat, wide: bool) returns (k: nat)
    requires LongestPrefix(Enc(ps), capacity, n, wide) && (wide ==> LowTf(ps))
    ensures k <= |ps| && n == |Enc(ps[..k])| <= capacity
    ensures k < |ps| ==> |Enc(ps[..k + 1])| > capacity
    ensures k == |ps| <==> n == |Enc(ps)|
    ensures Enc(ps)[..n] == Enc(ps[..k]) && Enc(ps)[n..] == Enc(ps[k..])
  {
    assert Enc(ps)[0..] == Enc(ps);
    k := AlignedIsCut(ps, Enc(ps), 0, n, wide);
    EncSplit(ps, k);
    if k < |ps| {
      CutIsAligned(ps, Enc(ps), 0, k + 1, wide);
      assert ps[..k + 1] == ps[..k] + [ps[k]];
      EncConcat(ps[..k], [ps[k]]);
    } else {
      assert ps[..k] == ps;
    }
  }

  lemma {:induction false} EncOneAtMostEleven(ps: seq<Posting>)
    requires Ascending(ps) && ps != []
    ensures |Enc(ps[..1])| <= 11
  {
    VbAtMostTen(ps[0].doc);
    assert ps[..1][1..] == [];
    assert Enc(ps[..1]) == EncOne(ps[0]);
  }

  /** With room for 11 bytes a cut of a non-empty list always takes a posting, and leaves
      fewer than 11 of the bytes unused unless it takes everything. */
  lemma {:induction false} CutProgresses(ps: seq<Posting>, capacity: nat, n: nat, wide: bool) returns (k: nat)
    requires Ascending(ps) && ps != [] && LongestPrefix(Enc(ps), capacity, n, wide) && capacity >= 11
    requires wide ==> LowTf(ps)
    ensures 0 < k <= |ps| && n == |Enc(ps[..k])| > 0
    ensures k == |ps| <==> n == |Enc(ps)|
    ensures Enc(ps)[..n] == Enc(ps[..k]) && Enc(ps)[n..] == Enc(ps[k..])
    ensures k < |ps| ==> n > capacity - 11 && |Enc(ps[..k + 1])| > capacity
  {
    hide Enc, EncOne, Aligned, LongestPrefix, Ascending;
    k := LongestPrefixOfEnc(ps, capacity, n, wide);
    EncOneAtMostEleven(ps);
    if k < |ps| {
      assert ps == ps[..k] + ps[k..];
      AscendingParts(ps[..k], ps[k..]);
      EncOneAtMostEleven(ps[k..]);
      assert ps[k..][..1] == [ps[k]] && ps[..k + 1] == ps[..k] + [ps[k]];
      EncConcat(ps[..k], [ps[k]]);
    }
  }

  /** Where frequencies are below 0x80 the merge cuts exactly where the builder does. */
  lemma {:induction false} SplitIsLongestPrefix(ps: seq<Posting>, capacity: nat, n: nat)
    requires LowTf(ps) && IsSplit(Enc(ps), capacity, n)
    ensures LongestPrefix(Enc(ps), capacity, n, false)
  {
    hide Enc, Aligned;
    var data := Enc(ps);
    assert data[0..] == data;
    if |data| <= capacity {
      CutIsAligned(ps, data, 0, |ps|, false);
      assert ps[..|ps|] == ps;
      StopHere(data, capacity, |data|, false);
    } else {
      var k := LongestPrefixOfEnc(ps, capacity, n, true);
      CutIsAligned(ps, data, 0, k, false);
      forall m | n < m <= capacity ensures !Aligned(data, 0, m, false) {
        if Aligned(data, 0, m, false) {
          var j := AlignedIsCut(ps, data, 0, m, false);
          assert ps[..j] + ps[j..] == ps;
          CutIsAligned(ps, data, 0, j, true);
        }
      }
    }
  }

  /** The two cutters agree at every capacity exactly when every posting but the last has
      a frequency below 0x80. */
  lemma {:induction false} CuttersAgreeIff(ps: seq<Posting>)
    ensures (forall capacity: nat, n: nat ::
               IsSplit(Enc(ps), capacity, n) <==> LongestPrefix(Enc(ps), capacity, n, false))
            <==> forall i :: 0 <= i < |ps| - 1 ==> ps[i].tf < 0x80
  {
    if i :| 0 <= i < |ps| - 1 && ps[i].tf >= 0x80 {
      var first := FirstHighTf(ps, i);
      CuttersDisagree(ps, first);
    } else {
      forall capacity: nat, n: nat
        ensures IsSplit(Enc(ps), capacity, n) <==> LongestPrefix(Enc(ps), capacity, n, false)
      {
        CuttersAgreeAt(ps, capacity, n);
      }
    }
  }

  lemma {:induction false} FirstHighTf(ps: seq<Posting>, i: nat) returns (first: nat)
    requires i < |ps| && ps[i].tf >= 0x80
    ensures first <= i && ps[first].tf >= 0x80 && LowTf(ps[..first])
  {
    if LowTf(ps[..i]) {
      first := i;
    } else {
      var j :| 0 <= j < i && ps[..i][j].tf >= 0x80;
      first := FirstHighTf(ps, j);
    }
  }

  lemma {:induction false} CuttersDisagree(ps: seq<Posting>, first: nat)
    requires first < |ps| - 1 && ps[first].tf >= 0x80 && LowTf(ps[..first])
    ensures var capacity := |Enc(ps[..first + 1])|;
            LongestPrefix(Enc(ps), capacity, capacity, false) && !IsSplit(Enc(ps), capacity, capacity)
  {
    hide Enc, Aligned, PairEnd;
    var data, at, capacity := Enc(ps), |Enc(ps[..first])|, |Enc(ps[..first + 1])|;
    CutWidth(ps, first);
    assert data[0..] == data;
    CutIsAligned(ps, data, 0, first + 1, false);
    CutIsAligned(ps, data, 0, first, true);
    WideRunsPast(ps, first);
    StopHere(data, capacity, at, true);
  }

  lemma {:induction false} WideRunsPast(ps: seq<Posting>, k: nat)
    requires k < |ps| && ps[k].tf >= 0x80
    ensures var e := PairEnd(Enc(ps), |Enc(ps[..k])|, true);
            e == -1 || e > |Enc(ps[..k])| + |EncOne(ps[k])|
  {
    EncSplit(ps, k);
    var data, at := Enc(ps), |Enc(ps[..k])|;
    assert data[at..] == Enc(ps[k..]);
    assert ps[k..][0] == ps[k];
    PairEndEnc(ps[k..], data, at);
  }

  lemma {:induction false} CutWidth(ps: seq<Posting>, k: nat)
    requires k < |ps| - 1
    ensures |Enc(ps[..k + 1])| == |Enc(ps[..k])| + |EncOne(ps[k])| < |Enc(ps)|
    ensures ps[k..][0] == ps[k]
  {
    assert ps[..k + 1] == ps[..k] + [ps[k]];
    EncConcat(ps[..k], [ps[k]]);
    EncCons(ps[k], []);
    assert [ps[k]] + [] == [ps[k]];
    EncSplit(ps, k + 1);
  }

  lemma {:induction false} CuttersAgreeAt(ps: seq<Posting>, capacity: nat, n: nat)
    requires forall i :: 0 <= i < |ps| - 1 ==> ps[i].tf < 0x80
    ensures IsSplit(Enc(ps), capacity, n) <==> LongestPrefix(Enc(ps), capacity, n, false)
  {
    var data := Enc(ps);
    if |data| <= capacity {
      assert data[0..] == data && ps[..|ps|] == ps;
      CutIsAligned(ps, data, 0, |ps|, false);
      StopHere(data, capacity, |data|, false);
      if LongestPrefix(data, capacity, n, false) {
        LongestPrefixUnique(data, capacity, n, |data|, false);
      }
    } else {
      forall m: nat | m <= capacity ensures Aligned(data, 0, m, true) <==> Aligned(data, 0, m, false) {
        AlignmentsAgree(ps, data, 0, m);
      }
    }
  }

  /** Short of the very end the two alignments are the same. */
  lemma {:induction false} AlignmentsAgree(ps: seq<Posting>, data: seq<Byte>, off: nat, m: nat)
    requires forall i :: 0 <= i < |ps| - 1 ==> ps[i].tf < 0x80
    requires off <= |data| && data[off..] == Enc(ps) && m < |data|
    ensures Aligned(data, off, m, true) <==> Aligned(data, off, m, false)
    decreases |ps|
  {
    PairEndEnc(ps, data, off);
    if off != m && |ps| > 1 {
      AlignmentsAgree(ps[1..], data, PairEnd(data, off, false), m);
    } else if off != m {
      if Aligned(data, off, m, true) { AlignedBeyond(data, off, m, true); }
      if Aligned(data, off, m, false) { AlignedBeyond(data, off, m, false); }
    }
  }

  // ---------------------------------------------------------------- decoding

  datatype Decoded<T> = Bad | Good(value: T, used: nat)

  /** Seven bits in their place. */
  function Shifted(low: nat, shift: nat): nat { low * Pow2(shift) }

  /** The decoder's loop over the bytes after the first: `acc` holds the bits below
      `shift`, `used` the bytes taken. It refuses a number that is cut off or exceeds
      64 bits. */
  function VbLoop(s: seq<Byte>, used: nat, acc: nat, shift: nat): (d: Decoded<nat>)
    ensures d.Good? ==> used < d.used <= |s|
    decreases |s| - used
  {
    if used >= |s| || shift >= 64 then Bad
    else if shift == 63 && s[used] % 0x80 >= 2 then Bad
    else
      var value := acc + Shifted(s[used] % 0x80, shift);
      if s[used] < 0x80 then Good(value, used + 1) else VbLoop(s, used + 1, value, shift + 7)
  }

  /** One turn of the decoder's loop. */
  lemma {:induction false} VbLoopStep(s: seq<Byte>, used: nat, acc: nat, shift: nat)
    ensures used >= |s| || shift >= 64 ==> VbLoop(s, used, acc, shift).Bad?
    ensures used < |s| && shift < 64 ==>
      var value := acc + Shifted(s[used] % 0x80, shift);
      VbLoop(s, used, acc, shift) == if shift == 63 && s[used] % 0x80 >= 2 then Bad
                                     else if s[used] < 0x80 then Good(value, used + 1)
                                     else VbLoop(s, used + 1, value, shift + 7)
  {
  }

  function DecodeVb(s: seq<Byte>): (d: Decoded<nat>)
    ensures d.Good? ==> 0 < d.used <= |s|
  {
    if s == [] then Bad
    else if s[0] < 0x80 then Good(s[0], 1)
    else VbLoop(s, 1, s[0] % 0x80, 7)
  }

  function DecodePair(s: seq<Byte>): (d: Decoded<Posting>)
    ensures d.Good? ==> 0 < d.used <= |s|
  {
    var v := DecodeVb(s);
    if v.Bad? || v.used >= |s| then Bad else Good(Posting(v.value, s[v.used]), v.used + 1)
  }

  lemma {:induction false} Multiples(p: nat, r: nat)
    requires r > 0
    ensures p <= p * r && (r > 1 ==> 2 * p <= p * r)
  {
    if r > 1 { assert p * r == 2 * p + p * (r - 2) && p * (r - 2) >= 0; }
  }

  /** A 64-bit id never trips the decoder's overflow guards. */
  lemma {:induction false} ShiftBound(v: nat, acc: nat, shift: nat, r: nat)
    requires v < U64 && r > 0 && Combines(v, acc, shift, r)
    ensures shift < 64 && (shift == 63 ==> r == 1)
  {
    Multiples(Pow2(shift), r);
    Pow2Facts();
    assert Pow2(64) == 2 * Pow2(63) == U64;
    if shift >= 64 { Pow2Monotone(64, shift); }
  }

  /** The first byte of a varbyte, and what comes behind it. */
  lemma {:induction false} VbFirst(s: seq<Byte>, used: nat, r: nat, tail: seq<Byte>)
    requires used <= |s| && s[used..] == Vb(r) + tail
    ensures used < |s| && s[used] % 0x80 == r % 0x80 && (s[used] < 0x80 <==> r < 0x80)
    ensures r < 0x80 ==> |Vb(r)| == 1
    ensures r >= 0x80 ==> |Vb(r)| == 1 + |Vb(r / 0x80)| && s[used + 1..] == Vb(r / 0x80) + tail
  {
    assert s[used] == s[used..][0] == Vb(r)[0];
    assert s[used + 1..] == s[used..][1..];
  }

  lemma {:induction false} VbLoopDecodes(s: seq<Byte>, used: nat, acc: nat, shift: nat, r: nat, tail: seq<Byte>,
                                         v: nat)
    requires used <= |s| && s[used..] == Vb(r) + tail && r > 0
    requires Combines(v, acc, shift, r) && v < U64
    ensures VbLoop(s, used, acc, shift) == Good(v, used + |Vb(r)|)
    decreases r
  {
    hide Combines, Pow2, VbLoop, Shifted, Vb;
    ShiftBound(v, acc, shift, r);
    ShiftStep(v, acc, shift, r);
    VbFirst(s, used, r, tail);
    VbLoopStep(s, used, acc, shift);
    if r >= 0x80 { VbLoopDecodes(s, used + 1, acc + Shifted(r % 0x80, shift), shift + 7, r / 0x80, tail, v); }
  }

  /** The value of the bits read and of those to come. */
  ghost predicate Combines(v: nat, acc: nat, shift: nat, r: nat) { v == acc + Pow2(shift) * r }

  lemma {:induction false} ShiftStep(v: nat, acc: nat, shift: nat, r: nat)
    requires Combines(v, acc, shift, r)
    ensures r < 0x80 ==> v == acc + Shifted(r % 0x80, shift)
    ensures Combines(v, acc + Shifted(r % 0x80, shift), shift + 7, r / 0x80)
  {
    Pow2Seven(shift);
    var p, low, high := Pow2(shift), r % 0x80, r / 0x80;
    assert p * (low + 0x80 * high) == p * low + 0x80 * (p * high);
  }

  lemma {:induction false} FirstSeven(v: nat)
    ensures Combines(v, v % 0x80, 7, v / 0x80)
  {
    Pow2Facts();
  }

  /** Decoding inverts encoding, whatever follows. */
  lemma {:induction false} DecodeVbRoundTrip(v: nat, tail: seq<Byte>)
    requires v < U64
    ensures DecodeVb(Vb(v) + tail) == Good(v, |Vb(v)|)
  {
    hide Combines, Pow2, VbLoop;
    if v >= 0x80 {
      var s := Vb(v) + tail;
      FirstSeven(v);
      assert s[1..] == Vb(v / 0x80) + tail;
      VbLoopDecodes(s, 1, v % 0x80, 7, v / 0x80, tail, v);
    }
  }

  lemma {:induction false} DecodePairRoundTrip(ps: seq<Posting>)
    requires ps != [] && ps[0].doc < U64
    ensures DecodePair(Enc(ps)) == Good(ps[0], |EncOne(ps[0])|)
    ensures Enc(ps)[|EncOne(ps[0])|..] == Enc(ps[1..])
  {
    var v, rest := Vb(ps[0].doc), Enc(ps[1..]);
    ConcatAssoc(v, [ps[0].tf], rest);
    DecodeVbRoundTrip(ps[0].doc, [ps[0].tf] + rest);
  }
}
