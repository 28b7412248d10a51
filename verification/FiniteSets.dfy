/** Sizes of finite sets, members of rearranged sequences. */
module FiniteSets {
  ghost function Below(n: nat): (s: set<nat>)
    ensures |s| == n && forall i: nat :: i in s <==> i < n
  {
    if n == 0 then {} else Below(n - 1) + {n - 1}
  }

  lemma {:induction false} SubsetSize<T>(a: set<T>, b: set<T>)
    requires a <= b
    ensures |a| <= |b| && (|a| == |b| ==> a == b)
  {
    if a != {} {
      var x :| x in a;
      SubsetSize(a - {x}, b - {x});
      assert a == (a - {x}) + {x} && b == (b - {x}) + {x};
    }
  }

  ghost function Image<T>(s: seq<T>): set<T> { set x | x in s }

  lemma {:induction false} ImageSize<T>(s: seq<T>)
    requires forall i, j :: 0 <= i < j < |s| ==> s[i] != s[j]
    ensures |Image(s)| == |s|
  {
    if s != [] {
      var last := |s| - 1;
      ImageSize(s[..last]);
      assert s == s[..last] + [s[last]];
      assert Image(s) == Image(s[..last]) + {s[last]};
    }
  }

  // ---------------------------------------------------------------- rearranged sequences

  lemma {:induction false} InsertCounts<T>(r: seq<T>, at: nat, x: T)
    requires at <= |r|
    ensures multiset(r[..at] + [x] + r[at..]) == multiset(r) + multiset{x}
  {
    assert r == r[..at] + r[at..];
  }

  lemma {:induction false} SameMembers<T>(a: seq<T>, b: seq<T>)
    requires multiset(a) == multiset(b)
    ensures forall x :: x in a <==> x in b
  {
    forall x ensures x in a <==> x in b { assert x in a <==> x in multiset(a); assert x in b <==> x in multiset(b); }
  }
}
