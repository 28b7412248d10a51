/** The page cache shared by every reader: a logic table (block -> slot), a slot
    table (slot -> block, pin count, loading flag), the frames, and a clock hand.

    A get runs in two critical sections with the read in between, so the protocol
    is a state machine over atomic steps.  The functions below are the effect of
    each critical section; CachePool.dfy proves the array code against them. */
module BlockCache {
  import opened ModFacts

  type Page = seq<bv8>

  /** 32-bit "no block" / "no slot" marker and the modulus of the clock counter. */
  const NONE: nat := 0xFFFF_FFFF
  const U32: nat := 0x1_0000_0000

  datatype Slot = Slot(block: nat, ref: nat, loading: bool)
  const EMPTY := Slot(NONE, 0, false)

  datatype Cache = Cache(logic: seq<nat>, slots: seq<Slot>, evict: nat, pages: seq<Page>)

  datatype Outcome = Hit(slot: nat) | Blocked | Claimed(slot: nat) | NoSlot | OutOfRange

  // ---------------------------------------------------------------- critical sections

  predicate Busy(s: Slot) { s.ref != 0 || s.loading }

  /** The clock scan: probe at most `left` candidates, the hand wrapping at 32 bits. */
  function Scan(slots: seq<Slot>, evict: nat, left: nat): (r: (nat, nat))
    requires 0 < |slots|
    decreases left
  {
    if left == 0 then (NONE, evict)
    else
      var candidate := evict % |slots|;
      var next := (evict + 1) % U32;
      if !Busy(slots[candidate]) then (candidate, next) else Scan(slots, next, left - 1)
  }

  predicate Resident(c: Cache, b: nat)
    requires b < |c.logic|
  {
    c.logic[b] != NONE && c.logic[b] < |c.slots|
  }

  /** First critical section of a get: hit, wait, claim a slot, or give up. */
  function Enter(c: Cache, b: nat): (Cache, Outcome) {
    if b >= |c.logic| || |c.slots| == 0 then (c, OutOfRange)
    else if Resident(c, b) && c.slots[c.logic[b]].loading then (c, Blocked)
    else if Resident(c, b) && c.slots[c.logic[b]].block == b then
      (Pin(c, c.logic[b]), Hit(c.logic[b]))
    else
      var (found, hand) := Scan(c.slots, c.evict, |c.slots|);
      if found >= |c.slots| then (c.(evict := hand), NoSlot)
      else (Claim(c.(evict := hand), b, found), Claimed(found))
  }

  function Pin(c: Cache, i: nat): Cache
    requires i < |c.slots|
  {
    c.(slots := c.slots[i := c.slots[i].(ref := c.slots[i].ref + 1)])
  }

  /** Evict whatever slot i held and hand the slot to block b, pinned and loading. */
  function Claim(c: Cache, b: nat, i: nat): Cache
    requires b < |c.logic| && i < |c.slots|
  {
    var evicted := c.slots[i].block;
    var logic := if evicted != NONE && evicted < |c.logic| then c.logic[evicted := NONE] else c.logic;
    c.(logic := logic[b := i], slots := c.slots[i := Slot(b, 1, true)])
  }

  /** Second critical section: publish the frame, or undo the claim. */
  function Finish(c: Cache, b: nat, i: nat, ok: bool): Cache {
    if !ok then
      var logic := if b < |c.logic| && c.logic[b] == i then c.logic[b := NONE] else c.logic;
      c.(logic := logic, slots := if i < |c.slots| then c.slots[i := EMPTY] else c.slots)
    else if i < |c.slots| then
      c.(slots := c.slots[i := c.slots[i].(loading := false)])
    else c
  }

  /** Dropping a handle. */
  function Unpin(c: Cache, i: nat): Cache {
    if i < |c.slots| && c.slots[i].ref > 0 then
      c.(slots := c.slots[i := c.slots[i].(ref := c.slots[i].ref - 1)])
    else c
  }

  // ---------------------------------------------------------------- protocol

  /** One get request, from start to the drop of its handle.  Any number of threads
      may have any number of them in flight. */
  datatype Job =
    | Waiting(block: nat)
    | Reading(block: nat, slot: nat)
    | ReadOk(block: nat, slot: nat)
    | ReadBad(block: nat, slot: nat)
    | Held(block: nat, slot: nat)
    | Failed(block: nat)

  datatype State = State(cache: Cache, jobs: map<nat, Job>)

  datatype Event =
    | Start(r: nat, block: nat)       // a thread asks for a block
    | Attempt(r: nat)                 // first critical section, also after a wake-up
    | TryPin(r: nat)                  // worker mode's fast path: pin if ready, never claim
    | Progress(r: nat, bytes: Page)   // the unlocked read has written something
    | ReadDone(r: nat)                // the read returned the whole block
    | ReadFails(r: nat, bytes: Page)  // the read failed, the frame holds anything
    | Publish(r: nat)
    | Rollback(r: nat)
    | Drop(r: nat)

  predicate IsLoading(j: Job) { j.Reading? || j.ReadOk? || j.ReadBad? }

  function AfterEnter(b: nat, o: Outcome): Job {
    match o
    case Hit(i) => Held(b, i)
    case Blocked => Waiting(b)
    case Claimed(i) => Reading(b, i)
    case NoSlot => Failed(b)
    case OutOfRange => Failed(b)
  }

  predicate Enabled(s: State, e: Event) {
    match e
    case Start(r, b) => r !in s.jobs
    case Attempt(r) => r in s.jobs && s.jobs[r].Waiting?
    case TryPin(r) => r in s.jobs && s.jobs[r].Waiting?
    case Progress(r, _) => r in s.jobs && s.jobs[r].Reading?
    case ReadDone(r) => r in s.jobs && s.jobs[r].Reading?
    case ReadFails(r, _) => r in s.jobs && s.jobs[r].Reading?
    case Publish(r) => r in s.jobs && s.jobs[r].ReadOk?
    case Rollback(r) => r in s.jobs && s.jobs[r].ReadBad?
    case Drop(r) => r in s.jobs && s.jobs[r].Held?
  }

  function Frame(c: Cache, i: nat, bytes: Page): Cache {
    if i < |c.pages| then c.(pages := c.pages[i := bytes]) else c
  }

  function FileBlock(file: seq<Page>, b: nat): Page { if b < |file| then file[b] else [] }

  function Next(file: seq<Page>, s: State, e: Event): State
    requires Enabled(s, e)
  {
    match e
    case Start(r, b) => s.(jobs := s.jobs[r := Waiting(b)])
    case Attempt(r) =>
      var (c, o) := Enter(s.cache, s.jobs[r].block);
      State(c, s.jobs[r := AfterEnter(s.jobs[r].block, o)])
    case TryPin(r) =>
      var (c, o) := Enter(s.cache, s.jobs[r].block);
      if o.Hit? then State(c, s.jobs[r := Held(s.jobs[r].block, o.slot)]) else s
    case Progress(r, bytes) => s.(cache := Frame(s.cache, s.jobs[r].slot, bytes))
    case ReadDone(r) =>
      var Reading(b, i) := s.jobs[r];
      State(Frame(s.cache, i, FileBlock(file, b)), s.jobs[r := ReadOk(b, i)])
    case ReadFails(r, bytes) =>
      var Reading(b, i) := s.jobs[r];
      State(Frame(s.cache, i, bytes), s.jobs[r := ReadBad(b, i)])
    case Publish(r) =>
      var ReadOk(b, i) := s.jobs[r];
      State(Finish(s.cache, b, i, true), s.jobs[r := Held(b, i)])
    case Rollback(r) =>
      var ReadBad(b, i) := s.jobs[r];
      State(Finish(s.cache, b, i, false), s.jobs[r := Failed(b)])
    case Drop(r) =>
      State(Unpin(s.cache, s.jobs[r].slot), s.jobs - {r})
  }

  /** What Init leaves behind: the first min(slotCount, blockCount) blocks resident,
      the hand at the slot count, nobody holding anything. */
  function InitialCache(file: seq<Page>, slotCount: nat): Cache {
    var n: nat := if slotCount < |file| then slotCount else |file|;
    Cache(seq(|file|, b => if b < n then b else NONE),
          seq(n, (i: nat) => Slot(i, 0, false)), n % U32, file[..n])
  }

  ghost predicate IsRun(file: seq<Page>, states: seq<State>, events: seq<Event>) {
    && |states| == |events| + 1
    && forall k :: 0 <= k < |events| ==>
         Enabled(states[k], events[k]) && states[k + 1] == Next(file, states[k], events[k])
  }

  // ---------------------------------------------------------------- invariant

  ghost function Holders(jobs: map<nat, Job>, i: nat): set<nat> {
    set r | r in jobs && jobs[r].Held? && jobs[r].slot == i
  }

  /** The two tables are mutual partial inverses. */
  ghost predicate Inverse(c: Cache) {
    && (forall b :: 0 <= b < |c.logic| && c.logic[b] != NONE ==>
          c.logic[b] < |c.slots| && c.slots[c.logic[b]].block == b)
    && (forall i :: 0 <= i < |c.slots| && c.slots[i].block != NONE ==>
          c.slots[i].block < |c.logic| && c.logic[c.slots[i].block] == i)
  }

  ghost predicate Shape(file: seq<Page>, c: Cache) {
    && |c.logic| == |file| <= NONE
    && |c.slots| == |c.pages| <= |file|
    && c.evict < U32
  }

  ghost predicate SlotOk(file: seq<Page>, s: State, i: nat)
    requires i < |s.cache.slots| && |s.cache.slots| == |s.cache.pages|
  {
    var slot := s.cache.slots[i];
    if slot.loading then
      && slot.ref == 1
      && Holders(s.jobs, i) == {}
      && exists r :: r in s.jobs && IsLoading(s.jobs[r]) && s.jobs[r].slot == i
    else
      && slot.ref == |Holders(s.jobs, i)|
      && (slot.block != NONE && slot.block < |file| ==> s.cache.pages[i] == file[slot.block])
  }

  ghost predicate JobOk(file: seq<Page>, c: Cache, j: Job)
    requires |c.slots| == |c.pages|
  {
    match j
    case Waiting(_) => true
    case Failed(_) => true
    case Reading(b, i) => i < |c.slots| && b < |file| && c.slots[i] == Slot(b, 1, true)
    case ReadBad(b, i) => i < |c.slots| && b < |file| && c.slots[i] == Slot(b, 1, true)
    case ReadOk(b, i) =>
      i < |c.slots| && b < |file| && c.slots[i] == Slot(b, 1, true) && c.pages[i] == file[b]
    case Held(b, i) =>
      i < |c.slots| && b < |file| && c.slots[i].block == b && !c.slots[i].loading
  }

  predicate SameLoad(j: Job, k: Job) { IsLoading(j) && IsLoading(k) && j.slot == k.slot }

  ghost predicate Inv(file: seq<Page>, s: State) {
    && Shape(file, s.cache)
    && Inverse(s.cache)
    && (forall i :: 0 <= i < |s.cache.slots| ==> SlotOk(file, s, i))
    && (forall r :: r in s.jobs ==> JobOk(file, s.cache, s.jobs[r]))
    && (forall r, q :: r in s.jobs && q in s.jobs && SameLoad(s.jobs[r], s.jobs[q]) ==> r == q)
  }

  // ---------------------------------------------------------------- the scan

  lemma {:induction false} ScanFacts(slots: seq<Slot>, evict: nat, left: nat)
    requires 0 < |slots| <= NONE && evict < U32
    ensures var (found, hand) := Scan(slots, evict, left);
            hand < U32 && (found != NONE ==> found < |slots| && !Busy(slots[found]))
    decreases left
  {
    if left > 0 {
      ScanFacts(slots, (evict + 1) % U32, left - 1);
    }
  }

  /** The k-th candidate of a scan that starts with the hand at `evict`. */
  function Candidate(n: nat, evict: nat, k: nat): nat
    requires 0 < n
  {
    ((evict + k) % U32) % n
  }

  /** Every one of the `left` candidates from `evict` on is busy. */
  ghost predicate AllBusy(slots: seq<Slot>, evict: nat, left: nat)
    requires 0 < |slots|
  {
    forall k :: 0 <= k < left ==> Busy(slots[Candidate(|slots|, evict, k)])
  }

  lemma {:induction false} CandidateShift(n: nat, evict: nat, k: nat)
    requires 0 < n
    ensures Candidate(n, (evict + 1) % U32, k) == Candidate(n, evict, k + 1)
  {
    assert ((evict + 1) % U32 + k) % U32 == (evict + (k + 1)) % U32;
  }

  lemma {:induction false} AllBusyStep(slots: seq<Slot>, evict: nat, left: nat)
    requires 0 < |slots| && evict < U32 && 0 < left
    ensures AllBusy(slots, evict, left) <==>
            Busy(slots[evict % |slots|]) && AllBusy(slots, (evict + 1) % U32, left - 1)
  {
    var n, next := |slots|, (evict + 1) % U32;
    assert Candidate(n, evict, 0) == evict % n;
    if AllBusy(slots, evict, left) {
      forall k | 0 <= k < left - 1 ensures Busy(slots[Candidate(n, next, k)]) {
        CandidateShift(n, evict, k);
      }
    }
    if Busy(slots[evict % n]) && AllBusy(slots, next, left - 1) {
      forall k | 0 <= k < left ensures Busy(slots[Candidate(n, evict, k)]) {
        if k > 0 { CandidateShift(n, evict, k - 1); }
      }
    }
  }

  lemma {:induction false} ScanMisses(slots: seq<Slot>, evict: nat, left: nat)
    requires 0 < |slots| <= NONE && evict < U32
    ensures Scan(slots, evict, left).0 == NONE <==> AllBusy(slots, evict, left)
    decreases left
  {
    if left > 0 {
      AllBusyStep(slots, evict, left);
      ScanMisses(slots, (evict + 1) % U32, left - 1);
    }
  }

  ghost predicate Covers(n: nat, evict: nat)
    requires 0 < n
  {
    forall i :: 0 <= i < n ==> Probed(n, evict, i)
  }

  ghost predicate Probed(n: nat, evict: nat, i: nat)
    requires 0 < n
  {
    exists k :: 0 <= k < n && Candidate(n, evict, k) == i
  }

  /** With R = 2^32 mod n not zero, a scan of n probes that crosses the wrap repeats a
      slot: this is one it never probes. */
  function Skipped(n: nat, evict: nat): nat
    requires 0 < n && U32 < evict + n
  {
    var spare := evict + n - U32;
    if U32 % n + spare - 1 < n then U32 % n + spare - 1 else n - 1
  }

  lemma {:induction false} WrapMisses(n: nat, evict: nat)
    requires 0 < n <= NONE && evict < U32 < evict + n && U32 % n != 0
    ensures Skipped(n, evict) < n && !Probed(n, evict, Skipped(n, evict))
  {
    var x, before, spare, rest := Skipped(n, evict), U32 - evict, evict + n - U32, U32 % n;
    var j := x - rest;
    assert 0 <= j < spare && x < n;
    var q := U32 / n;
    forall k | 0 <= k < n ensures Candidate(n, evict, k) != x {
      if k < before {
        var past := U32 + j;
        assert past == q * n + x;
        ModIs(past, n, q, x);
        NotCongruent(n, evict + k, past, j + before - k);
      } else {
        assert (evict + k) % U32 == evict + k - U32;
        ModIs(evict + k - U32, n, 0, evict + k - U32);
      }
    }
  }

  lemma {:induction false} ReachesSlot(n: nat, evict: nat, i: nat) returns (k: nat)
    requires 0 < n && i < n
    ensures k < n && (evict + k) % n == i
  {
    var at := evict % n;
    k := if at <= i then i - at else i + n - at;
    var q := if at <= i then evict / n else evict / n + 1;
    ModIs(evict + k, n, q, i);
  }

  /** A full scan probes every slot exactly when the 32-bit hand does not cross its
      wrap inside the scan, or the slot count divides 2^32. */
  lemma {:induction false} ScanCoversIff(n: nat, evict: nat)
    requires 0 < n <= NONE && evict < U32
    ensures Covers(n, evict) <==> evict + n <= U32 || U32 % n == 0
  {
    if evict + n <= U32 || U32 % n == 0 {
      forall i | 0 <= i < n ensures Probed(n, evict, i) {
        var k := ReachesSlot(n, evict, i);
        WrapHarmless(n, evict, k);
      }
    } else {
      WrapMisses(n, evict);
    }
  }

  lemma {:induction false} WrapHarmless(n: nat, evict: nat, k: nat)
    requires 0 < n && evict < U32 && k < n <= NONE
    requires evict + n <= U32 || U32 % n == 0
    ensures Candidate(n, evict, k) == (evict + k) % n
  {
    if evict + k >= U32 {
      var q, t := U32 / n, (evict + k) / n;
      assert U32 == q * n;
      assert evict + k == t * n + (evict + k) % n;
      assert evict + k - U32 == (t - q) * n + (evict + k) % n;
      ModIs(evict + k - U32, n, t - q, (evict + k) % n);
    }
  }

  /** The clock gives up exactly when every slot is pinned or loading -- for every slot
      table of that size -- if and only if its hand cannot skip a slot in the scan. */
  lemma {:induction false} ClockGivesUpIff(n: nat, evict: nat)
    requires 0 < n <= NONE && evict < U32
    ensures (forall slots: seq<Slot> :: |slots| == n ==>
               (Scan(slots, evict, n).0 == NONE <==> forall i :: 0 <= i < n ==> Busy(slots[i])))
            <==> evict + n <= U32 || U32 % n == 0
  {
    ScanCoversIff(n, evict);
    if Covers(n, evict) {
      forall slots: seq<Slot> | |slots| == n
        ensures Scan(slots, evict, n).0 == NONE <==> forall i :: 0 <= i < n ==> Busy(slots[i])
      {
        ScanMisses(slots, evict, n);
        if AllBusy(slots, evict, n) {
          forall i | 0 <= i < n ensures Busy(slots[i]) {
            assert Probed(n, evict, i);
          }
        }
      }
    } else {
      var x :| 0 <= x < n && !Probed(n, evict, x);
      var slots := seq(n, i => if i == x then EMPTY else Slot(0, 1, false));
      forall k | 0 <= k < n ensures Busy(slots[Candidate(n, evict, k)]) {
        assert Candidate(n, evict, k) != x;
      }
      ScanMisses(slots, evict, n);
      assert Scan(slots, evict, n).0 == NONE && !Busy(slots[x]);
    }
  }
}
