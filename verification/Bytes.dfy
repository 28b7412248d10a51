/** Bytes, pages, and the little-endian and variable-length integers stored in them. */
module Bytes {
  type Byte = n: nat | n < 0x100
  type Page = seq<Byte>

  const U64: nat := 0x1_0000_0000_0000_0000

  lemma ConcatAssoc<T>(a: seq<T>, b: seq<T>, c: seq<T>)
    ensures a + (b + c) == (a + b) + c
  {
  }

  // ---------------------------------------------------------------- fixed width

  function Pow256(w: nat): (p: nat)
    ensures p > 0
  {
    if w == 0 then 1 else 256 * Pow256(w - 1)
  }

  /** The low `w` bytes of n, least significant first. */
  function LE(n: nat, w: nat): (s: seq<Byte>)
    ensures |s| == w
  {
    if w == 0 then [] else [n % 256] + LE(n / 256, w - 1)
  }

  function FromLE(s: seq<Byte>): nat {
    if s == [] then 0 else s[0] + 256 * FromLE(s[1..])
  }

  lemma {:induction false} LERoundTrip(n: nat, w: nat)
    requires n < Pow256(w)
    ensures FromLE(LE(n, w)) == n
  {
    if w > 0 {
      LERoundTrip(n / 256, w - 1);
      assert LE(n, w)[1..] == LE(n / 256, w - 1);
    }
  }

  lemma WidthFacts()
    ensures Pow256(2) == 0x1_0000 && Pow256(4) == 0x1_0000_0000 && Pow256(8) == U64
  {
    assert Pow256(4) == 256 * (256 * Pow256(2));
    assert Pow256(8) == 256 * (256 * (256 * (256 * Pow256(4))));
  }

  function Zeros(n: nat): (s: seq<Byte>)
    ensures |s| == n && forall i :: 0 <= i < n ==> s[i] == 0
  {
    seq(n, _ => 0)
  }

  // ---------------------------------------------------------------- varbyte

  function Pow2(k: nat): (p: nat)
    ensures p > 0
  {
    if k == 0 then 1 else 2 * Pow2(k - 1)
  }

  lemma Pow2Seven(k: nat)
    ensures Pow2(k + 7) == 128 * Pow2(k)
  {
    assert Pow2(k + 2) == 2 * Pow2(k + 1) == 4 * Pow2(k);
    assert Pow2(k + 4) == 2 * Pow2(k + 3) == 4 * Pow2(k + 2);
    assert Pow2(k + 6) == 2 * Pow2(k + 5) == 4 * Pow2(k + 4);
  }

  lemma Pow2Facts()
    ensures Pow2(7) == 128 && Pow2(63) == 0x8000_0000_0000_0000
  {
    Pow2Seven(0);
    Pow2Seven(7);
    Pow2Seven(14);
    Pow2Seven(21);
    Pow2Seven(28);
    Pow2Seven(35);
    Pow2Seven(42);
    Pow2Seven(49);
    Pow2Seven(56);
  }

  lemma {:induction false} Pow2Monotone(a: nat, b: nat)
    requires a <= b
    ensures Pow2(a) <= Pow2(b)
  {
    if a < b { Pow2Monotone(a, b - 1); }
  }

  /** Seven bits a byte, low bits first, the top bit set on all but the last. */
  function Vb(v: nat): (s: seq<Byte>)
    ensures |s| >= 1
  {
    if v < 0x80 then [v] else [v % 0x80 + 0x80] + Vb(v / 0x80)
  }

  lemma {:induction false} VbLength(v: nat, k: nat)
    requires v < Pow2(7 * k) && 0 < k
    ensures |Vb(v)| <= k
  {
    if v >= 0x80 {
      Pow2Facts();
      if k == 1 {
        assert false;
      } else {
        Pow2Seven(7 * (k - 1));
        VbLength(v / 0x80, k - 1);
      }
    }
  }

  lemma VbAtMostTen(v: nat)
    requires v < U64
    ensures |Vb(v)| <= 10
  {
    Pow2Facts();
    Pow2Seven(63);
    VbLength(v, 10);
  }

  /** The encoder's loop. */
  method VbWrite(value: nat, out: seq<Byte>) returns (bytes: seq<Byte>)
    ensures bytes == out + Vb(value)
  {
    var v := value;
    bytes := out;
    while v >= 0x80
      invariant bytes + Vb(v) == out + Vb(value)
    {
      ghost var before := bytes;
      bytes := bytes + [v % 0x80 + 0x80];
      assert bytes + Vb(v / 0x80) == before + Vb(v);
      v := v / 0x80;
    }
    bytes := bytes + [v];
  }
}
