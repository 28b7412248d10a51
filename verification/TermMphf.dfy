/** The displacement-based perfect hash over the terms: builder and lookup. Hashes and
    seeds are parameters; nothing is assumed of them. */
module TermMphf {
  import opened Options
  import opened FiniteSets
  import opened Layout
  import opened TermTable

  const UNSET: nat := 0xFFFF_FFFF
  const PER_PAGE := 128

  /** The hash of a key under a seed, and the seed of a displacement. */
  datatype Hashing = Hashing(hash: (Key, nat) -> nat, slotSeed: (nat, nat) -> nat,
                             bucketSeed: nat, baseSeed: nat, fingerprintSeed: nat)

  datatype MphfEntry = MphfEntry(loc: Loc, fingerprint: nat)

  datatype Mphf = Mphf(termCount: nat, bucketCount: nat, slotCount: nat, displacements: seq<int>,
                       pages: seq<seq<MphfEntry>>)

  function BucketOf(h: Hashing, buckets: nat, term: Key): (b: nat)
    requires buckets > 0
    ensures b < buckets
  {
    h.hash(term, h.bucketSeed) % buckets
  }

  function SlotFor(h: Hashing, slots: nat, term: Key, displacement: nat): (s: nat)
    requires slots > 0
    ensures s < slots
  {
    h.hash(term, h.slotSeed(h.baseSeed, displacement)) % slots
  }

  /** The slot a stored displacement sends a term to: a negative one names it directly. */
  function Resolve(h: Hashing, slots: nat, term: Key, displacement: int): nat
    requires slots > 0
  {
    if displacement < 0 then -displacement - 1 else SlotFor(h, slots, term, displacement)
  }

  function Fingerprint(h: Hashing, term: Key): nat {
    var f := h.hash(term, h.fingerprintSeed);
    if f == 0 then 1 else f
  }

  // ---------------------------------------------------------------- duplicates

  ghost predicate Distinct(terms: seq<Entry>) {
    forall i, j :: 0 <= i < j < |terms| ==> terms[i].key != terms[j].key
  }

  /** The numbers below n, each once. */
  ghost predicate Permutes(ids: seq<nat>, n: nat) {
    && |ids| == n && (forall k :: 0 <= k < n ==> ids[k] < n)
    && (forall i: nat :: i < n ==> i in ids)
    && (forall a, b :: 0 <= a < b < n ==> ids[a] != ids[b])
  }

  function Insert(ids: seq<nat>, at: nat, i: nat): seq<nat>
    requires at <= |ids|
  {
    ids[..at] + [i] + ids[at..]
  }

  lemma {:induction false} InsertAt(ids: seq<nat>, at: nat, i: nat)
    requires at <= |ids|
    ensures |Insert(ids, at, i)| == |ids| + 1
    ensures forall k :: 0 <= k <= |ids| ==>
              Insert(ids, at, i)[k] == if k < at then ids[k] else if k == at then i else ids[k - 1]
  {
  }

  lemma {:induction false} InsertPermutes(ids: seq<nat>, at: nat)
    requires Permutes(ids, |ids|) && at <= |ids|
    ensures Permutes(Insert(ids, at, |ids|), |ids| + 1)
  {
    var r := Insert(ids, at, |ids|);
    InsertAt(ids, at, |ids|);
    forall i: nat | i < |r| ensures i in r {
      if i < |ids| {
        assert i in ids;
        var k :| 0 <= k < |ids| && ids[k] == i;
        assert r[if k < at then k else k + 1] == i;
      } else {
        assert r[at] == i;
      }
    }
  }

  /** No id's key is below its predecessor's. */
  ghost predicate KeyOrder(terms: seq<Entry>, ids: seq<nat>) {
    && (forall k :: 0 <= k < |ids| ==> ids[k] < |terms|)
    && forall k :: 1 <= k < |ids| ==> !Less(terms[ids[k]].key, terms[ids[k - 1]].key)
  }

  lemma {:induction false} InsertOrdered(terms: seq<Entry>, ids: seq<nat>, at: nat, i: nat)
    requires KeyOrder(terms, ids) && at <= |ids| && i < |terms|
    requires at > 0 ==> !Less(terms[i].key, terms[ids[at - 1]].key)
    requires at < |ids| ==> Less(terms[i].key, terms[ids[at]].key)
    ensures KeyOrder(terms, Insert(ids, at, i))
  {
    InsertAt(ids, at, i);
    if at < |ids| && Less(terms[ids[at]].key, terms[i].key) {
      LessTrans(terms[i].key, terms[ids[at]].key, terms[i].key);
      LessIrreflexive(terms[i].key);
    }
  }

  /** Sort ids by key, inserting one after the other. */
  method SortIds(terms: seq<Entry>) returns (ids: seq<nat>)
    ensures Permutes(ids, |terms|) && KeyOrder(terms, ids)
  {
    ids := [];
    for i := 0 to |terms|
      invariant Permutes(ids, i) && KeyOrder(terms, ids)
    {
      var at: nat := |ids|;
      while at > 0 && Less(terms[i].key, terms[ids[at - 1]].key)
        invariant at <= |ids| && (at < |ids| ==> Less(terms[i].key, terms[ids[at]].key))
      {
        at := at - 1;
      }
      InsertPermutes(ids, at);
      InsertOrdered(terms, ids, at, i);
      ids := Insert(ids, at, i);
    }
  }

  /** Equal keys stand next to each other in key order. */
  method HasDuplicate(terms: seq<Entry>) returns (found: bool)
    ensures found <==> !Distinct(terms)
  {
    var ids := SortIds(terms);
    for i := 0 to |ids|
      invariant forall k :: 1 <= k < i ==> terms[ids[k - 1]].key != terms[ids[k]].key
    {
      if i > 0 && terms[ids[i - 1]].key == terms[ids[i]].key {
        assert ids[i - 1] != ids[i];
        return true;
      }
    }
    found := false;
    AllIncreasing(terms, ids);
  }

  lemma {:induction false} AllIncreasing(terms: seq<Entry>, ids: seq<nat>)
    requires Permutes(ids, |terms|) && KeyOrder(terms, ids)
    requires forall k :: 1 <= k < |ids| ==> terms[ids[k - 1]].key != terms[ids[k]].key
    ensures Distinct(terms)
  {
    forall i, j | 0 <= i < j < |terms| ensures terms[i].key != terms[j].key {
      assert i in ids && j in ids;
      var a :| 0 <= a < |ids| && ids[a] == i;
      var b :| 0 <= b < |ids| && ids[b] == j;
      if a < b { Increasing(terms, ids, a, b); } else { Increasing(terms, ids, b, a); }
      LessIrreflexive(terms[i].key);
    }
  }

  lemma {:induction false} Increasing(terms: seq<Entry>, ids: seq<nat>, a: nat, b: nat)
    requires KeyOrder(terms, ids) && a < b < |ids|
    requires forall k :: 1 <= k < |ids| ==> terms[ids[k - 1]].key != terms[ids[k]].key
    ensures Less(terms[ids[a]].key, terms[ids[b]].key)
  {
    LessTotal(terms[ids[b - 1]].key, terms[ids[b]].key);
    if a < b - 1 {
      Increasing(terms, ids, a, b - 1);
      LessTrans(terms[ids[a]].key, terms[ids[b - 1]].key, terms[ids[b]].key);
    }
  }

  // ---------------------------------------------------------------- buckets

  ghost predicate InBucket(h: Hashing, terms: seq<Entry>, count: nat, b: nat, ids: seq<nat>, n: nat)
    requires count > 0 && n <= |terms|
  {
    && (forall k :: 0 <= k < |ids| ==> ids[k] < n && BucketOf(h, count, terms[ids[k]].key) == b)
    && (forall j, k :: 0 <= j < k < |ids| ==> ids[j] != ids[k])
  }

  /** Every one of the first n terms is in its bucket, once. */
  ghost predicate Bucketed(h: Hashing, terms: seq<Entry>, buckets: seq<seq<nat>>, n: nat)
    requires n <= |terms|
  {
    && |buckets| > 0
    && (forall b :: 0 <= b < |buckets| ==> InBucket(h, terms, |buckets|, b, buckets[b], n))
    && (forall i: nat :: i < n ==> i in buckets[BucketOf(h, |buckets|, terms[i].key)])
  }

  method FillBuckets(h: Hashing, terms: seq<Entry>, count: nat) returns (buckets: seq<seq<nat>>)
    requires count > 0
    ensures |buckets| == count && Bucketed(h, terms, buckets, |terms|)
  {
    hide BucketOf;
    buckets := seq(count, _ => []);
    for i := 0 to |terms|
      invariant |buckets| == count && Bucketed(h, terms, buckets, i)
    {
      var bucket := BucketOf(h, count, terms[i].key);
      ghost var before := buckets;
      buckets := buckets[bucket := buckets[bucket] + [i]];
      forall b | 0 <= b < count ensures InBucket(h, terms, count, b, buckets[b], i + 1) {
        assert InBucket(h, terms, count, b, before[b], i);
      }
      forall j: nat | j < i + 1 ensures j in buckets[BucketOf(h, count, terms[j].key)] {
        if j < i { assert j in before[BucketOf(h, count, terms[j].key)]; }
      }
    }
  }

  /** The visiting order: every bucket once, larger ones first. */
  method SortBySize(buckets: seq<seq<nat>>) returns (order: seq<nat>)
    ensures Permutes(order, |buckets|)
    ensures forall k :: 1 <= k < |order| ==> |buckets[order[k - 1]]| >= |buckets[order[k]]|
  {
    order := [];
    for i := 0 to |buckets|
      invariant Permutes(order, i)
      invariant forall k :: 1 <= k < |order| ==> |buckets[order[k - 1]]| >= |buckets[order[k]]|
    {
      var at: nat := |order|;
      while at > 0 && |buckets[i]| > |buckets[order[at - 1]]|
        invariant at <= |order| && (at < |order| ==> |buckets[i]| > |buckets[order[at]]|)
      {
        at := at - 1;
      }
      InsertPermutes(order, at);
      InsertAt(order, at, i);
      order := Insert(order, at, i);
    }
  }

  // ---------------------------------------------------------------- placing terms

  /** Used slots, each term's slot, each bucket's displacement. */
  datatype Placement = Placement(used: seq<bool>, slots: seq<nat>, displacements: seq<int>)

  ghost function UsedSlots(p: Placement): set<nat> {
    set s: nat | s < |p.used| && p.used[s]
  }

  ghost function Placed(p: Placement): set<nat> {
    set i: nat | i < |p.slots| && p.slots[i] != UNSET
  }

  /** A placed term's slot is used, and is where its bucket's displacement sends it. */
  ghost predicate Reached(h: Hashing, terms: seq<Entry>, p: Placement, i: nat)
    requires i < |terms| && |p.slots| == |p.used| == |terms| && |p.displacements| > 0
  {
    p.slots[i] != UNSET ==>
      && p.slots[i] < |terms| && p.used[p.slots[i]]
      && Resolve(h, |terms|, terms[i].key, p.displacements[BucketOf(h, |p.displacements|, terms[i].key)]) == p.slots[i]
  }

  ghost predicate Consistent(h: Hashing, terms: seq<Entry>, p: Placement) {
    && |p.slots| == |p.used| == |terms| < UNSET && |p.displacements| > 0
    && (forall i :: 0 <= i < |terms| ==> Reached(h, terms, p, i))
    && (forall i, j :: 0 <= i < j < |terms| && p.slots[i] != UNSET ==> p.slots[i] != p.slots[j])
    && |UsedSlots(p)| == |Placed(p)| && DirectInRange(p)
  }

  /** Slots named directly exist. */
  ghost predicate DirectInRange(p: Placement) {
    |p.used| > 0 ==> forall b :: 0 <= b < |p.displacements| ==> -|p.used| <= p.displacements[b]
  }

  /** Give a term without a slot a free one. */
  function Give(p: Placement, i: nat, slot: nat): Placement
    requires i < |p.slots| && slot < |p.used|
  {
    p.(used := p.used[slot := true], slots := p.slots[i := slot])
  }

  lemma {:induction false} GiveCounts(p: Placement, i: nat, slot: nat)
    requires i < |p.slots| && slot < |p.used| && p.slots[i] == UNSET && !p.used[slot] && slot != UNSET
    ensures |UsedSlots(Give(p, i, slot))| == |UsedSlots(p)| + 1
    ensures Placed(Give(p, i, slot)) == Placed(p) + {i} && |Placed(Give(p, i, slot))| == |Placed(p)| + 1
  {
    assert UsedSlots(Give(p, i, slot)) == UsedSlots(p) + {slot};
    assert Placed(Give(p, i, slot)) == Placed(p) + {i};
  }

  lemma {:induction false} GiveKeeps(h: Hashing, terms: seq<Entry>, p: Placement, i: nat, slot: nat)
    requires Consistent(h, terms, p) && i < |terms| && slot < |terms|
    requires p.slots[i] == UNSET && !p.used[slot]
    requires Resolve(h, |terms|, terms[i].key, p.displacements[BucketOf(h, |p.displacements|, terms[i].key)]) == slot
    ensures Consistent(h, terms, Give(p, i, slot))
    ensures |Placed(Give(p, i, slot))| == |Placed(p)| + 1
  {
    var q := Give(p, i, slot);
    GiveCounts(p, i, slot);
    forall j | 0 <= j < |terms| ensures Reached(h, terms, q, j) && (j != i ==> q.slots[j] != slot) {
      assert Reached(h, terms, p, j);
    }
  }

  /** A bucket without placed terms may take any displacement. */
  lemma {:induction false} SetDisplacement(h: Hashing, terms: seq<Entry>, p: Placement, b: nat, d: int)
    requires Consistent(h, terms, p) && b < |p.displacements| && -|terms| <= d
    requires forall i :: 0 <= i < |terms| && BucketOf(h, |p.displacements|, terms[i].key) == b ==> p.slots[i] == UNSET
    ensures Consistent(h, terms, p.(displacements := p.displacements[b := d]))
  {
    var q := p.(displacements := p.displacements[b := d]);
    assert UsedSlots(q) == UsedSlots(p) && Placed(q) == Placed(p);
    forall i | 0 <= i < |terms| ensures Reached(h, terms, q, i) { assert Reached(h, terms, p, i); }
  }

  // ---------------------------------------------------------------- multi-term buckets

  /** Where a displacement sends the terms of a bucket. */
  function Candidates(h: Hashing, terms: seq<Entry>, bucket: seq<nat>, d: nat): (r: seq<nat>)
    requires |terms| > 0 && forall k :: 0 <= k < |bucket| ==> bucket[k] < |terms|
    ensures |r| == |bucket|
  {
    seq(|bucket|, k requires 0 <= k < |bucket| => SlotFor(h, |terms|, terms[bucket[k]].key, d))
  }

  /** The slots are free and differ from each other. */
  ghost predicate Available(slots: seq<nat>, used: seq<bool>) {
    && (forall k :: 0 <= k < |slots| ==> slots[k] < |used| && !used[slots[k]])
    && (forall j, k :: 0 <= j < k < |slots| ==> slots[j] != slots[k])
  }

  method TryDisplacement(h: Hashing, terms: seq<Entry>, bucket: seq<nat>, used: seq<bool>, d: nat)
    returns (ok: bool, candidates: seq<nat>)
    requires |used| == |terms| > 0 && forall k :: 0 <= k < |bucket| ==> bucket[k] < |terms|
    ensures ok <==> Available(Candidates(h, terms, bucket, d), used)
    ensures ok ==> candidates == Candidates(h, terms, bucket, d)
  {
    ghost var all := Candidates(h, terms, bucket, d);
    candidates := [];
    for i := 0 to |bucket|
      invariant candidates == all[..i] && Available(candidates, used)
    {
      var slot := SlotFor(h, |terms|, terms[bucket[i]].key, d);
      assert all[i] == slot;
      if used[slot] { return false, candidates; }
      for j := 0 to i
        invariant forall k :: 0 <= k < j ==> candidates[k] != slot
      {
        if candidates[j] == slot {
          assert all[j] == all[i];
          return false, candidates;
        }
      }
      candidates := candidates + [slot];
    }
    ok := true;
  }

  /** The first k terms of the bucket have their slots, and nothing else has changed. */
  ghost predicate FilledUpTo(p: Placement, q: Placement, bucket: seq<nat>, candidates: seq<nat>, k: nat)
    requires |bucket| == |candidates| && |q.slots| == |p.slots| == |q.used|
  {
    && (forall j :: 0 <= j < |bucket| ==> bucket[j] < |q.slots| && candidates[j] < |q.used| && candidates[j] != UNSET)
    && (forall j :: 0 <= j < k && j < |bucket| ==> q.slots[bucket[j]] == candidates[j])
    && (forall j :: k <= j < |bucket| ==> q.slots[bucket[j]] == UNSET && !q.used[candidates[j]])
    && (forall i :: 0 <= i < |q.slots| && i !in bucket ==> q.slots[i] == p.slots[i])
  }

  lemma {:induction false} FillOne(p: Placement, q: Placement, bucket: seq<nat>, candidates: seq<nat>, k: nat)
    requires |bucket| == |candidates| && |q.slots| == |p.slots| == |q.used| && k < |bucket|
    requires FilledUpTo(p, q, bucket, candidates, k)
    requires forall i, j :: 0 <= i < j < |bucket| ==> bucket[i] != bucket[j]
    requires forall i, j :: 0 <= i < j < |bucket| ==> candidates[i] != candidates[j]
    ensures FilledUpTo(p, Give(q, bucket[k], candidates[k]), bucket, candidates, k + 1)
  {
  }

  /** Give the terms of a bucket the slots its displacement names. */
  method PlaceBucket(h: Hashing, terms: seq<Entry>, bucket: seq<nat>, b: nat, d: nat, candidates: seq<nat>,
                     p: Placement) returns (q: Placement)
    requires Consistent(h, terms, p) && |terms| > 0 && b < |p.displacements|
    requires InBucket(h, terms, |p.displacements|, b, bucket, |terms|)
    requires forall i :: 0 <= i < |terms| && BucketOf(h, |p.displacements|, terms[i].key) == b ==> p.slots[i] == UNSET
    requires candidates == Candidates(h, terms, bucket, d) && Available(candidates, p.used)
    ensures Consistent(h, terms, q) && |q.displacements| == |p.displacements|
    ensures FilledUpTo(p, q, bucket, candidates, |bucket|)
  {
    SetDisplacement(h, terms, p, b, d);
    q := p.(displacements := p.displacements[b := d]);
    for k := 0 to |bucket|
      invariant Consistent(h, terms, q) && q.displacements == p.displacements[b := d]
      invariant FilledUpTo(p, q, bucket, candidates, k)
    {
      FillOne(p, q, bucket, candidates, k);
      GiveKeeps(h, terms, q, bucket[k], candidates[k]);
      q := Give(q, bucket[k], candidates[k]);
    }
  }

  /** No displacement sends the bucket to free slots. */
  ghost predicate Unplaceable(h: Hashing, terms: seq<Entry>, bucket: seq<nat>, used: seq<bool>, limit: nat) {
    && |used| == |terms| > 0 && (forall k :: 0 <= k < |bucket| ==> bucket[k] < |terms|)
    && forall d :: 0 <= d < limit ==> !Available(Candidates(h, terms, bucket, d), used)
  }

  /** A search that came to its end: two or more terms of one hash have no slot yet, those
      that have one are placed consistently, and no displacement fits the bucket. */
  ghost predicate Stuck(h: Hashing, terms: seq<Entry>, p: Placement, b: nat, bucket: seq<nat>, limit: nat) {
    && Consistent(h, terms, p) && |bucket| > 1 && InBucket(h, terms, |p.displacements|, b, bucket, |terms|)
    && (forall k :: 0 <= k < |bucket| ==> p.slots[bucket[k]] == UNSET)
    && Unplaceable(h, terms, bucket, p.used, limit)
  }

  /** The first displacement that works, if one does. */
  method FindDisplacement(h: Hashing, terms: seq<Entry>, bucket: seq<nat>, used: seq<bool>, limit: nat)
    returns (placed: bool, displacement: nat, candidates: seq<nat>)
    requires |used| == |terms| > 0 && forall k :: 0 <= k < |bucket| ==> bucket[k] < |terms|
    ensures placed ==> displacement < limit && candidates == Candidates(h, terms, bucket, displacement)
                       && Available(candidates, used) && Unplaceable(h, terms, bucket, used, displacement)
    ensures !placed ==> Unplaceable(h, terms, bucket, used, limit)
  {
    placed, candidates := false, [];
    for d := 0 to limit
      invariant Unplaceable(h, terms, bucket, used, d)
    {
      var ok;
      ok, candidates := TryDisplacement(h, terms, bucket, used, d);
      if ok { return true, d, candidates; }
    }
    displacement := limit;
  }

  /** Terms placed so far: those of the multi-term buckets among the ones visited. */
  ghost predicate MultiPlaced(h: Hashing, terms: seq<Entry>, buckets: seq<seq<nat>>, p: Placement, seen: seq<nat>)
    requires |buckets| > 0 && |p.slots| == |terms|
  {
    forall i: nat :: i < |terms| ==>
      (p.slots[i] != UNSET <==>
        BucketOf(h, |buckets|, terms[i].key) in seen && |buckets[BucketOf(h, |buckets|, terms[i].key)]| > 1)
  }

  /** One bucket of the visit. */
  method VisitBucket(h: Hashing, terms: seq<Entry>, buckets: seq<seq<nat>>, b: nat, limit: nat, p: Placement,
                     ghost seen: seq<nat>) returns (ok: bool, q: Placement)
    requires Bucketed(h, terms, buckets, |terms|) && Consistent(h, terms, p) && |p.displacements| == |buckets|
    requires b < |buckets| && b !in seen && MultiPlaced(h, terms, buckets, p, seen)
    ensures ok ==> Consistent(h, terms, q) && |q.displacements| == |buckets|
                   && MultiPlaced(h, terms, buckets, q, seen + [b])
    ensures !ok ==> q == p && Stuck(h, terms, p, b, buckets[b], limit)
  {
    var bucket := buckets[b];
    ok, q := true, p;
    assert InBucket(h, terms, |buckets|, b, bucket, |terms|);
    if |bucket| == 0 {
      SetDisplacement(h, terms, p, b, 0);
      q := p.(displacements := p.displacements[b := 0]);
    } else if |bucket| > 1 {
      assert bucket[0] < |terms|;
      var displacement, candidates;
      ok, displacement, candidates := FindDisplacement(h, terms, bucket, p.used, limit);
      if ok {
        q := PlaceBucket(h, terms, bucket, b, displacement, candidates, p);
        BucketPlaced(h, terms, buckets, b, p, q, candidates, seen);
      }
    }
  }

  lemma {:induction false} BucketPlaced(h: Hashing, terms: seq<Entry>, buckets: seq<seq<nat>>, b: nat,
                                        p: Placement, q: Placement, candidates: seq<nat>, seen: seq<nat>)
    requires Bucketed(h, terms, buckets, |terms|) && b < |buckets| && |buckets[b]| > 1
    requires |candidates| == |buckets[b]| && |q.slots| == |p.slots| == |q.used| == |terms|
    requires MultiPlaced(h, terms, buckets, p, seen) && FilledUpTo(p, q, buckets[b], candidates, |buckets[b]|)
    ensures MultiPlaced(h, terms, buckets, q, seen + [b])
  {
    var bucket := buckets[b];
    assert InBucket(h, terms, |buckets|, b, bucket, |terms|);
    forall i: nat | i < |terms|
      ensures q.slots[i] != UNSET <==>
        BucketOf(h, |buckets|, terms[i].key) in seen + [b] && |buckets[BucketOf(h, |buckets|, terms[i].key)]| > 1
    {
      if i in bucket {
        var k :| 0 <= k < |bucket| && bucket[k] == i;
        assert q.slots[bucket[k]] == candidates[k];
      }
    }
  }

  /** All buckets, in the visiting order. */
  method PlaceMulti(h: Hashing, terms: seq<Entry>, buckets: seq<seq<nat>>, order: seq<nat>, limit: nat)
    returns (ok: bool, p: Placement)
    requires |terms| < UNSET && Bucketed(h, terms, buckets, |terms|) && Permutes(order, |buckets|)
    ensures ok ==> Consistent(h, terms, p) && |p.displacements| == |buckets|
    ensures ok ==> MultiPlaced(h, terms, buckets, p, order)
    ensures !ok ==> |p.displacements| == |buckets|
                    && exists b :: 0 <= b < |buckets| && Stuck(h, terms, p, b, buckets[b], limit)
  {
    p := Placement(seq(|terms|, _ => false), seq(|terms|, _ => UNSET), seq(|buckets|, _ => -1));
    assert UsedSlots(p) == {} && Placed(p) == {};
    for k := 0 to |order|
      invariant Consistent(h, terms, p) && |p.displacements| == |buckets|
      invariant MultiPlaced(h, terms, buckets, p, order[..k])
    {
      ok, p := VisitBucket(h, terms, buckets, order[k], limit, p, order[..k]);
      if !ok { return; }
      assert order[..k] + [order[k]] == order[..k + 1];
    }
    assert order[..|order|] == order;
    ok := true;
  }

  // ---------------------------------------------------------------- single-term buckets

  /** Unused slots, in order. */
  method FreeSlots(p: Placement) returns (free: seq<nat>)
    ensures |free| + |UsedSlots(p)| == |p.used| && Available(free, p.used)
  {
    free := [];
    ghost var seen: set<nat> := {};
    for slot := 0 to |p.used|
      invariant seen == (set s: nat | s < slot && p.used[s]) && |free| + |seen| == slot
      invariant Available(free, p.used) && forall k :: 0 <= k < |free| ==> free[k] < slot
    {
      if !p.used[slot] {
        free := free + [slot];
        assert (set s: nat | s < slot + 1 && p.used[s]) == seen;
      } else {
        assert (set s: nat | s < slot + 1 && p.used[s]) == seen + {slot};
        seen := seen + {slot};
      }
    }
    assert seen == UsedSlots(p);
  }

  /** Terms placed once the single-term buckets below b have their slots. */
  ghost predicate SinglesPlaced(h: Hashing, terms: seq<Entry>, buckets: seq<seq<nat>>, p: Placement, b: nat)
    requires |buckets| > 0 && |p.slots| == |terms|
  {
    forall i: nat :: i < |terms| ==>
      (p.slots[i] != UNSET <==>
        BucketOf(h, |buckets|, terms[i].key) < b || |buckets[BucketOf(h, |buckets|, terms[i].key)]| > 1)
  }

  /** While a term has no slot there is a slot without a term. */
  lemma {:induction false} SlotLeft(p: Placement, i: nat)
    requires i < |p.slots| && p.slots[i] == UNSET
    ensures |Placed(p)| < |p.slots|
  {
    SubsetSize(Placed(p), Below(|p.slots|));
    assert i in Below(|p.slots|) && i !in Placed(p);
  }

  lemma {:induction false} SingleStep(h: Hashing, terms: seq<Entry>, buckets: seq<seq<nat>>, p: Placement, b: nat)
    requires Bucketed(h, terms, buckets, |terms|) && Consistent(h, terms, p) && |p.displacements| == |buckets|
    requires b < |buckets| && SinglesPlaced(h, terms, buckets, p, b)
    ensures |buckets[b]| != 1 ==> SinglesPlaced(h, terms, buckets, p, b + 1)
    ensures |buckets[b]| == 1 ==>
      var i := buckets[b][0];
      i < |terms| && p.slots[i] == UNSET && BucketOf(h, |buckets|, terms[i].key) == b
      && (forall j: nat :: j < |terms| && BucketOf(h, |buckets|, terms[j].key) == b ==> j == i)
  {
    assert InBucket(h, terms, |buckets|, b, buckets[b], |terms|);
    forall j: nat | j < |terms| && BucketOf(h, |buckets|, terms[j].key) == b ensures j in buckets[b] {
      assert j in buckets[BucketOf(h, |buckets|, terms[j].key)];
    }
  }

  /** Send the only term of a bucket straight to a free slot. */
  method PlaceSingle(h: Hashing, terms: seq<Entry>, buckets: seq<seq<nat>>, b: nat, slot: nat, p: Placement)
    returns (q: Placement)
    requires Bucketed(h, terms, buckets, |terms|) && Consistent(h, terms, p) && |p.displacements| == |buckets|
    requires b < |buckets| && |buckets[b]| == 1 && SinglesPlaced(h, terms, buckets, p, b)
    requires slot < |terms| && !p.used[slot]
    ensures Consistent(h, terms, q) && |q.displacements| == |buckets|
    ensures SinglesPlaced(h, terms, buckets, q, b + 1)
    ensures q.used == p.used[slot := true] && |Placed(q)| == |Placed(p)| + 1
  {
    SingleStep(h, terms, buckets, p, b);
    var i := buckets[b][0];
    var direct: int := -1 - slot;
    SetDisplacement(h, terms, p, b, direct);
    var r := p.(displacements := p.displacements[b := direct]);
    assert Placed(r) == Placed(p);
    GiveKeeps(h, terms, r, i, slot);
    q := Give(r, i, slot);
  }

  /** The free slots not yet given away. */
  ghost predicate StillFree(free: seq<nat>, next: nat, used: seq<bool>) {
    && (forall k :: 0 <= k < |free| ==> free[k] < |used|)
    && (forall k :: next <= k < |free| ==> !used[free[k]])
    && (forall j, k :: 0 <= j < k < |free| ==> free[j] != free[k])
  }

  lemma {:induction false} TakeFree(free: seq<nat>, next: nat, used: seq<bool>)
    requires StillFree(free, next, used) && next < |free|
    ensures StillFree(free, next + 1, used[free[next] := true])
  {
  }

  /** The pass over the single-term buckets: it has a free slot for every one of them. */
  method PlaceSingles(h: Hashing, terms: seq<Entry>, buckets: seq<seq<nat>>, p: Placement)
    returns (ok: bool, q: Placement)
    requires Bucketed(h, terms, buckets, |terms|) && Consistent(h, terms, p) && |p.displacements| == |buckets|
    requires SinglesPlaced(h, terms, buckets, p, 0)
    ensures !ok ==> |terms| > 0x8000_0000
    ensures ok ==> Consistent(h, terms, q) && |q.displacements| == |buckets|
    ensures ok ==> forall i :: 0 <= i < |terms| ==> q.slots[i] != UNSET
  {
    var freeSlots := FreeSlots(p);
    var nextFreeSlot := 0;
    q := p;
    for b := 0 to |buckets|
      invariant Consistent(h, terms, q) && |q.displacements| == |buckets|
      invariant SinglesPlaced(h, terms, buckets, q, b) && nextFreeSlot <= |freeSlots|
      invariant |Placed(q)| == |Placed(p)| + nextFreeSlot && StillFree(freeSlots, nextFreeSlot, q.used)
    {
      SingleStep(h, terms, buckets, q, b);
      if |buckets[b]| == 1 {
        SlotLeft(q, buckets[b][0]);
        var slot: int := freeSlots[nextFreeSlot];
        var directDisplacement: int := -1 - slot;
        if directDisplacement < -0x8000_0000 { return false, q; }
        TakeFree(freeSlots, nextFreeSlot, q.used);
        q := PlaceSingle(h, terms, buckets, b, slot, q);
        nextFreeSlot := nextFreeSlot + 1;
      }
    }
    ok := true;
  }

  // ---------------------------------------------------------------- entry pages

  /** Entry number `slot` of the pages. */
  predicate InPages(pages: seq<seq<MphfEntry>>, slot: nat) {
    slot / PER_PAGE < |pages| && slot % PER_PAGE < |pages[slot / PER_PAGE]|
  }

  function At(pages: seq<seq<MphfEntry>>, slot: nat): MphfEntry
    requires InPages(pages, slot)
  {
    pages[slot / PER_PAGE][slot % PER_PAGE]
  }

  function Set(pages: seq<seq<MphfEntry>>, slot: nat, e: MphfEntry): seq<seq<MphfEntry>>
    requires InPages(pages, slot)
  {
    pages[slot / PER_PAGE := pages[slot / PER_PAGE][slot % PER_PAGE := e]]
  }

  lemma {:induction false} SetAt(pages: seq<seq<MphfEntry>>, slot: nat, e: MphfEntry, other: nat)
    requires InPages(pages, slot) && InPages(pages, other)
    ensures InPages(Set(pages, slot, e), other)
    ensures At(Set(pages, slot, e), other) == if other == slot then e else At(pages, other)
  {
  }

  /** Both readers address the same bytes: by page and entry, and by byte offset. */
  lemma {:induction false} SlotAddress(slot: nat)
    ensures (slot * 32) / 4096 == slot / PER_PAGE && (slot * 32) % 4096 == (slot % PER_PAGE) * 32
  {
    assert slot == (slot / PER_PAGE) * PER_PAGE + slot % PER_PAGE;
    assert slot * 32 == 4096 * (slot / PER_PAGE) + (slot % PER_PAGE) * 32;
  }

  ghost predicate AllIn(pages: seq<seq<MphfEntry>>, slots: nat) {
    forall s: nat :: s < slots ==> InPages(pages, s)
  }

  /** The entries of the first n terms are in their slots. */
  ghost predicate Written(h: Hashing, terms: seq<Entry>, pages: seq<seq<MphfEntry>>, slots: seq<nat>, n: nat)
    requires n <= |terms| == |slots| && AllIn(pages, |terms|)
    requires forall i :: 0 <= i < |slots| ==> slots[i] < |terms|
  {
    forall i :: 0 <= i < n ==> At(pages, slots[i]) == MphfEntry(terms[i].loc, Fingerprint(h, terms[i].key))
  }

  ghost predicate Injective(slots: seq<nat>) {
    && (forall i :: 0 <= i < |slots| ==> slots[i] < |slots|)
    && (forall i, j :: 0 <= i < j < |slots| ==> slots[i] != slots[j])
  }

  method FillPages(h: Hashing, terms: seq<Entry>, slots: seq<nat>) returns (pages: seq<seq<MphfEntry>>)
    requires |slots| == |terms| && Injective(slots)
    ensures AllIn(pages, |terms|) && Written(h, terms, pages, slots, |terms|)
  {
    var pageCount := (|terms| + PER_PAGE - 1) / PER_PAGE;
    var none := MphfEntry(Loc(0, 0, 0, 0, 0), 0);
    pages := seq(pageCount, _ => seq(PER_PAGE, _ => none));
    assert AllIn(pages, |terms|);
    for i := 0 to |terms|
      invariant AllIn(pages, |terms|) && Written(h, terms, pages, slots, i)
    {
      var entry := MphfEntry(terms[i].loc, Fingerprint(h, terms[i].key));
      ghost var before := pages;
      pages := Set(pages, slots[i], entry);
      forall s: nat | s < |terms|
        ensures InPages(pages, s) && At(pages, s) == if s == slots[i] then entry else At(before, s)
      {
        SetAt(before, slots[i], entry, s);
      }
    }
  }

  // ---------------------------------------------------------------- the builder

  function PowerOfTwoFrom(value: nat, power: nat): nat
    requires power > 0
    decreases value - power
  {
    if power >= value then power else PowerOfTwoFrom(value, 2 * power)
  }

  lemma {:induction false} PowerAtLeast(value: nat, power: nat)
    requires power > 0
    ensures PowerOfTwoFrom(value, power) >= value && PowerOfTwoFrom(value, power) >= 1
    decreases value - power
  {
    if power < value { PowerAtLeast(value, 2 * power); }
  }

  function Max(a: nat, b: nat): nat { if a > b then a else b }

  function BucketCount(terms: nat): nat { PowerOfTwoFrom(Max(1, terms / 2), 1) }

  function MaxDisplacement(terms: nat): nat {
    var wanted := Max(65536, Max(1, terms / 8));
    if wanted < 0x10_0000 then wanted else 0x10_0000
  }

  /** The table of the terms: each has a slot of its own, its bucket's displacement leads
      there, and its location is stored there. */
  ghost predicate IsMphf(h: Hashing, terms: seq<Entry>, t: Mphf, slots: seq<nat>) {
    && t.termCount == t.slotCount == |terms| == |slots| && t.bucketCount == |t.displacements| > 0
    && Injective(slots)
    && (forall i :: 0 <= i < |terms| ==> SentTo(h, t, terms[i].key, slots[i]))
    && AllIn(t.pages, |terms|) && Written(h, terms, t.pages, slots, |terms|)
    && (|terms| > 0 ==> forall b :: 0 <= b < t.bucketCount ==> -|terms| <= t.displacements[b])
  }

  ghost predicate SentTo(h: Hashing, t: Mphf, term: Key, slot: nat)
    requires t.bucketCount == |t.displacements| > 0 && t.slotCount > 0
  {
    Resolve(h, t.slotCount, term, t.displacements[BucketOf(h, t.bucketCount, term)]) == slot
  }

  /** Why a build gives up, other than a search that found no displacement. */
  ghost predicate Hopeless(terms: seq<Entry>) {
    !Distinct(terms) || |terms| > 0x8000_0000
  }

  /** One build attempt. Success gives every term its own slot; failure has one of three
      causes. */
  method TryBuildTermMphf(h: Hashing, terms: seq<Entry>)
    returns (r: Option<Mphf>)
    requires |terms| < UNSET
    ensures r.Some? ==> Distinct(terms) && exists slots :: IsMphf(h, terms, r.value, slots)
    ensures r.None? ==> Hopeless(terms) || exists p: Placement, b, bucket ::
      |p.displacements| == BucketCount(|terms|) && Stuck(h, terms, p, b, bucket, MaxDisplacement(|terms|))
  {
    var bucketCount := BucketCount(|terms|);
    PowerAtLeast(Max(1, |terms| / 2), 1);
    var duplicate := HasDuplicate(terms);
    if duplicate { return None; }
    var buckets := FillBuckets(h, terms, bucketCount);
    var order := SortBySize(buckets);
    var ok, p := PlaceMulti(h, terms, buckets, order, MaxDisplacement(|terms|));
    if !ok { return None; }
    assert SinglesPlaced(h, terms, buckets, p, 0);
    ok, p := PlaceSingles(h, terms, buckets, p);
    if !ok { return None; }
    AllPlaced(h, terms, p);
    var pages := FillPages(h, terms, p.slots);
    r := Some(Mphf(|terms|, bucketCount, |terms|, p.displacements, pages));
    assert IsMphf(h, terms, r.value, p.slots);
  }

  lemma {:induction false} AllPlaced(h: Hashing, terms: seq<Entry>, p: Placement)
    requires Consistent(h, terms, p) && forall i :: 0 <= i < |terms| ==> p.slots[i] != UNSET
    ensures Injective(p.slots)
    ensures forall i :: 0 <= i < |terms| ==>
      Resolve(h, |terms|, terms[i].key, p.displacements[BucketOf(h, |p.displacements|, terms[i].key)]) == p.slots[i]
  {
    forall i | 0 <= i < |terms|
      ensures p.slots[i] < |terms|
      ensures var bucket := BucketOf(h, |p.displacements|, terms[i].key);
              Resolve(h, |terms|, terms[i].key, p.displacements[bucket]) == p.slots[i]
    {
      assert Reached(h, terms, p, i);
    }
  }

  // ---------------------------------------------------------------- bijection and lookup

  /** Term to slot is one to one and onto: every slot is some term's. */
  lemma {:induction false} EverySlotTaken(slots: seq<nat>, slot: nat)
    requires Injective(slots) && slot < |slots|
    ensures slot in slots
  {
    ImageSize(slots);
    SubsetSize(Image(slots), Below(|slots|));
    assert slot in Image(slots);
  }

  /** What a lookup may answer: a stored term's own location; for any other key the
      location of the one term in its slot, and only if the fingerprints agree. */
  method FindTermDataMphf(h: Hashing, t: Mphf, term: Key, ghost terms: seq<Entry>, ghost slots: seq<nat>)
    returns (r: Option<Loc>, ghost hit: nat)
    requires IsMphf(h, terms, t, slots)
    ensures forall i :: 0 <= i < |terms| && terms[i].key == term ==> r == Some(terms[i].loc)
    ensures |terms| == 0 ==> r == None
    ensures |terms| > 0 ==> hit < |terms| && SentTo(h, t, term, slots[hit])
    ensures |terms| > 0 ==>
      r == (if Fingerprint(h, terms[hit].key) == Fingerprint(h, term) then Some(terms[hit].loc) else None)
  {
    hit := 0;
    if t.termCount == 0 { return None, hit; }
    var bucket := BucketOf(h, t.bucketCount, term);
    var slot := Resolve(h, t.slotCount, term, t.displacements[bucket]);
    if slot >= t.slotCount { return None, hit; }
    var entry := At(t.pages, slot);
    EverySlotTaken(slots, slot);
    hit :| hit < |slots| && slots[hit] == slot;
    if entry.fingerprint != Fingerprint(h, term) { return None, hit; }
    r := Some(entry.loc);
  }
}
