/** Remainders modulo a variable: the few facts the ring, the clock scan and
    the size bounds need. */
module ModFacts {
  lemma {:induction false} NoMultipleBetween(n: nat, q: int, d: int)
    requires 0 < d < n
    ensures q * n != d
  {
  }

  lemma {:induction false} ModIs(a: nat, n: nat, q: int, x: int)
    requires 0 <= x < n && a == q * n + x
    ensures a % n == x
  {
    var r := a % n;
    var t := a / n;
    assert (t - q) * n == x - r;
    if x != r {
      if x > r { NoMultipleBetween(n, t - q, x - r); }
      else {
        assert (q - t) * n == r - x;
        NoMultipleBetween(n, q - t, r - x);
      }
    }
  }

  lemma {:induction false} NotCongruent(n: nat, a: nat, b: nat, d: int)
    requires 0 < d < n && b == a + d
    ensures a % n != b % n
  {
    if a % n == b % n {
      assert (b / n - a / n) * n == d;
      NoMultipleBetween(n, b / n - a / n, d);
    }
  }

  lemma {:induction false} WindowIsInjective(n: nat, h: nat, p: nat, q: nat)
    requires 0 < n && h <= p < h + n && h <= q < h + n && p % n == q % n
    ensures p == q
  {
    if p < q { NotCongruent(n, p, q, q - p); }
    if q < p { NotCongruent(n, q, p, p - q); }
  }

  lemma {:induction false} StepBack(n: nat, t: nat)
    requires 0 < n <= t
    ensures (t - n) % n == t % n
  {
    ModIs(t - n, n, t / n - 1, t % n);
  }

  lemma {:induction false} MulMonotone(a: nat, b: nat, w: nat)
    requires a <= b
    ensures a * w <= b * w
  {
  }

  /** A product the solver need not multiply out. */
  function Times(count: nat, w: nat): nat {
    if count == 0 then 0 else Times(count - 1, w) + w
  }

  lemma {:induction false} TimesIsProduct(count: nat, w: nat)
    ensures Times(count, w) == count * w
  {
    if count > 0 { TimesIsProduct(count - 1, w); }
  }

  lemma {:induction false} TimesMonotone(a: nat, b: nat, w: nat)
    requires a <= b
    ensures Times(a, w) <= Times(b, w)
  {
    if a < b { TimesMonotone(a, b - 1, w); }
  }

  lemma {:induction false} TimesAdds(a: nat, b: nat, w: nat)
    ensures Times(a + b, w) == Times(a, w) + Times(b, w)
  {
    if b > 0 { TimesAdds(a, b - 1, w); }
  }

  lemma {:induction false} TimesDivides(a: nat, w: nat)
    requires w > 0
    ensures Times(a, w) / w == a
  {
    TimesIsProduct(a, w);
    var q := (a * w) / w;
    if q < a { MulMonotone(q + 1, a, w); }
    if a < q { MulMonotone(a + 1, q, w); }
    ModIs(a * w, w, a, 0);
    assert q * w == a * w;
  }
}
