/** What every run of the cache protocol keeps, and that no reachable state is stuck. */
module BlockCacheProof {
  import opened BlockCache

  lemma {:induction false} HoldersAfter(jobs: map<nat, Job>, r: nat, j: Job, i: nat)
    ensures Holders(jobs[r := j], i) ==
            if j.Held? && j.slot == i then Holders(jobs, i) + {r} else Holders(jobs, i) - {r}
  {
  }

  /** A job that changes without gaining or losing a handle changes no holder set. */
  lemma {:induction false} HoldersSame(jobs: map<nat, Job>, r: nat, j: Job)
    requires !j.Held? && (r in jobs ==> !jobs[r].Held?)
    ensures forall i :: Holders(jobs[r := j], i) == Holders(jobs, i)
  {
  }

  // ---------------------------------------------------------------- one step

  lemma {:induction false} StartKeepsInv(file: seq<Page>, s: State, r: nat, j: Job)
    requires Inv(file, s)
    requires r in s.jobs ==> s.jobs[r].Waiting?
    requires j.Waiting? || j.Failed?
    ensures Inv(file, s.(jobs := s.jobs[r := j]))
  {
    var s' := s.(jobs := s.jobs[r := j]);
    HoldersSame(s.jobs, r, j);
    forall i | 0 <= i < |s.cache.slots| ensures SlotOk(file, s', i) {
      assert SlotOk(file, s, i);
      if s.cache.slots[i].loading {
        var q :| q in s.jobs && IsLoading(s.jobs[q]) && s.jobs[q].slot == i;
        assert q in s'.jobs && s'.jobs[q] == s.jobs[q];
      }
    }
  }

  lemma {:induction false} HandKeepsInv(file: seq<Page>, s: State, hand: nat)
    requires Inv(file, s) && hand < U32
    ensures Inv(file, s.(cache := s.cache.(evict := hand)))
  {
    var s' := s.(cache := s.cache.(evict := hand));
    forall i | 0 <= i < |s.cache.slots| ensures SlotOk(file, s', i) {
      assert SlotOk(file, s, i);
    }
    forall r | r in s'.jobs ensures JobOk(file, s'.cache, s'.jobs[r]) {
      assert JobOk(file, s.cache, s.jobs[r]);
    }
  }

  lemma {:induction false} PinKeepsSlot(file: seq<Page>, s: State, r: nat, b: nat, i: nat, k: nat)
    requires Inv(file, s) && r in s.jobs && s.jobs[r] == Waiting(b)
    requires b < |file| && i < |s.cache.slots| && s.cache.slots[i].block == b && !s.cache.slots[i].loading
    requires k < |s.cache.slots|
    ensures SlotOk(file, State(Pin(s.cache, i), s.jobs[r := Held(b, i)]), k)
  {
    var s' := State(Pin(s.cache, i), s.jobs[r := Held(b, i)]);
    assert SlotOk(file, s, k);
    HoldersAfter(s.jobs, r, Held(b, i), k);
    if s.cache.slots[k].loading {
      var q :| q in s.jobs && IsLoading(s.jobs[q]) && s.jobs[q].slot == k;
      assert q in s'.jobs && s'.jobs[q] == s.jobs[q];
    }
  }

  lemma {:induction false} PinKeepsInv(file: seq<Page>, s: State, r: nat, b: nat, i: nat)
    requires Inv(file, s) && r in s.jobs && s.jobs[r] == Waiting(b)
    requires b < |file| && i < |s.cache.slots| && s.cache.slots[i].block == b && !s.cache.slots[i].loading
    ensures Inv(file, State(Pin(s.cache, i), s.jobs[r := Held(b, i)]))
  {
    hide SlotOk, Holders;
    var s' := State(Pin(s.cache, i), s.jobs[r := Held(b, i)]);
    forall k | 0 <= k < |s'.cache.slots| ensures SlotOk(file, s', k) { PinKeepsSlot(file, s, r, b, i, k); }
    forall q | q in s'.jobs ensures JobOk(file, s'.cache, s'.jobs[q]) {
      assert q != r ==> JobOk(file, s.cache, s.jobs[q]);
    }
  }

  lemma {:induction false} FreeSlotIsUnused(file: seq<Page>, s: State, i: nat)
    requires Inv(file, s) && i < |s.cache.slots| && !Busy(s.cache.slots[i])
    ensures Holders(s.jobs, i) == {}
    ensures forall r :: r in s.jobs && (IsLoading(s.jobs[r]) || s.jobs[r].Held?) ==> s.jobs[r].slot != i
  {
    assert SlotOk(file, s, i);
    forall r | r in s.jobs && (IsLoading(s.jobs[r]) || s.jobs[r].Held?) ensures s.jobs[r].slot != i {
      assert JobOk(file, s.cache, s.jobs[r]);
      assert r !in Holders(s.jobs, i);
    }
  }

  lemma {:induction false} ClaimKeepsInverse(c: Cache, b: nat, i: nat)
    requires Inverse(c) && b < |c.logic| <= NONE && i < |c.slots| <= NONE && !c.slots[i].loading
    requires c.logic[b] == NONE
    ensures Inverse(Claim(c, b, i))
  {
  }

  lemma {:induction false} ClaimKeepsInv(file: seq<Page>, s: State, r: nat, b: nat, i: nat)
    requires Inv(file, s) && r in s.jobs && s.jobs[r] == Waiting(b)
    requires b < |file| && i < |s.cache.slots| && !Busy(s.cache.slots[i]) && s.cache.logic[b] == NONE
    ensures Inv(file, State(Claim(s.cache, b, i), s.jobs[r := Reading(b, i)]))
  {
    var s' := State(Claim(s.cache, b, i), s.jobs[r := Reading(b, i)]);
    ClaimKeepsInverse(s.cache, b, i);
    FreeSlotIsUnused(file, s, i);
    HoldersSame(s.jobs, r, Reading(b, i));
    forall k | 0 <= k < |s'.cache.slots| ensures SlotOk(file, s', k) {
      assert SlotOk(file, s, k);
      if k == i {
        assert r in s'.jobs && IsLoading(s'.jobs[r]) && s'.jobs[r].slot == k;
      } else if s.cache.slots[k].loading {
        var q :| q in s.jobs && IsLoading(s.jobs[q]) && s.jobs[q].slot == k;
        assert q in s'.jobs && s'.jobs[q] == s.jobs[q];
      }
    }
    forall q | q in s'.jobs ensures JobOk(file, s'.cache, s'.jobs[q]) {
      assert q != r ==> JobOk(file, s.cache, s.jobs[q]);
    }
  }

  /** Under the invariant the first critical section never finds a foreign block in the
      slot the logic table names, and the slot it claims is free. */
  lemma {:induction false} EnterKeepsInv(file: seq<Page>, s: State, r: nat)
    requires Inv(file, s) && r in s.jobs && s.jobs[r].Waiting?
    ensures Inv(file, Next(file, s, Attempt(r)))
  {
    hide SlotOk, JobOk, SameLoad, Scan, Pin, Claim;
    var b := s.jobs[r].block;
    var c := s.cache;
    var (c', o) := Enter(c, b);
    match o
    case OutOfRange => StartKeepsInv(file, s, r, Failed(b));
    case Blocked => StartKeepsInv(file, s, r, Waiting(b));
    case Hit(i) => PinKeepsInv(file, s, r, b, i);
    case NoSlot =>
      ScanFacts(c.slots, c.evict, |c.slots|);
      HandKeepsInv(file, s, c'.evict);
      StartKeepsInv(file, s.(cache := c'), r, Failed(b));
    case Claimed(i) =>
      ScanFacts(c.slots, c.evict, |c.slots|);
      var hand := Scan(c.slots, c.evict, |c.slots|).1;
      HandKeepsInv(file, s, hand);
      ClaimKeepsInv(file, s.(cache := c.(evict := hand)), r, b, i);
  }

  lemma {:induction false} FrameKeepsInv(file: seq<Page>, s: State, r: nat, bytes: Page, j: Job)
    requires Inv(file, s) && r in s.jobs && s.jobs[r].Reading?
    requires j.Reading? || j.ReadBad? || j.ReadOk?
    requires j.block == s.jobs[r].block && j.slot == s.jobs[r].slot
    requires j.ReadOk? ==> bytes == FileBlock(file, j.block)
    ensures Inv(file, State(Frame(s.cache, j.slot, bytes), s.jobs[r := j]))
  {
    var s' := State(Frame(s.cache, j.slot, bytes), s.jobs[r := j]);
    assert JobOk(file, s.cache, s.jobs[r]);
    HoldersSame(s.jobs, r, j);
    forall k | 0 <= k < |s'.cache.slots| ensures SlotOk(file, s', k) {
      assert SlotOk(file, s, k);
      if s.cache.slots[k].loading {
        var q :| q in s.jobs && IsLoading(s.jobs[q]) && s.jobs[q].slot == k;
        assert q in s'.jobs && IsLoading(s'.jobs[q]) && s'.jobs[q].slot == k;
      }
    }
    forall q | q in s'.jobs ensures JobOk(file, s'.cache, s'.jobs[q]) {
      assert JobOk(file, s.cache, s.jobs[q]);
      assert q != r ==> !SameLoad(s.jobs[q], s.jobs[r]);
    }
    forall q, t | q in s'.jobs && t in s'.jobs && SameLoad(s'.jobs[q], s'.jobs[t]) ensures q == t {
      assert SameLoad(s.jobs[q], s.jobs[t]);
    }
  }

  lemma {:induction false} PublishKeepsSlot(file: seq<Page>, s: State, r: nat, k: nat)
    requires Inv(file, s) && r in s.jobs && s.jobs[r].ReadOk? && k < |s.cache.slots|
    ensures SlotOk(file, Next(file, s, Publish(r)), k)
  {
    var ReadOk(b, i) := s.jobs[r];
    var s' := Next(file, s, Publish(r));
    assert JobOk(file, s.cache, s.jobs[r]);
    assert SlotOk(file, s, k);
    HoldersAfter(s.jobs, r, Held(b, i), k);
    if k == i {
      assert Holders(s'.jobs, k) == {r};
    } else if s.cache.slots[k].loading {
      var q :| q in s.jobs && IsLoading(s.jobs[q]) && s.jobs[q].slot == k;
      assert q in s'.jobs && s'.jobs[q] == s.jobs[q];
    }
  }

  lemma {:induction false} PublishKeepsInv(file: seq<Page>, s: State, r: nat)
    requires Inv(file, s) && r in s.jobs && s.jobs[r].ReadOk?
    ensures Inv(file, Next(file, s, Publish(r)))
  {
    hide SlotOk, Holders;
    var ReadOk(b, i) := s.jobs[r];
    var s' := Next(file, s, Publish(r));
    assert JobOk(file, s.cache, s.jobs[r]);
    forall k | 0 <= k < |s'.cache.slots| ensures SlotOk(file, s', k) { PublishKeepsSlot(file, s, r, k); }
    forall q | q in s'.jobs ensures JobOk(file, s'.cache, s'.jobs[q]) {
      assert JobOk(file, s.cache, s.jobs[q]);
      assert q != r ==> !SameLoad(s.jobs[q], s.jobs[r]);
    }
    forall q, t | q in s'.jobs && t in s'.jobs && SameLoad(s'.jobs[q], s'.jobs[t]) ensures q == t {
      assert SameLoad(s.jobs[q], s.jobs[t]);
    }
  }

  lemma {:induction false} RollbackKeepsSlot(file: seq<Page>, s: State, r: nat, k: nat)
    requires Inv(file, s) && r in s.jobs && s.jobs[r].ReadBad? && k < |s.cache.slots|
    ensures SlotOk(file, Next(file, s, Rollback(r)), k)
  {
    var ReadBad(b, i) := s.jobs[r];
    var s' := Next(file, s, Rollback(r));
    assert JobOk(file, s.cache, s.jobs[r]);
    HoldersSame(s.jobs, r, Failed(b));
    assert SlotOk(file, s, k);
    if k != i && s.cache.slots[k].loading {
      var q :| q in s.jobs && IsLoading(s.jobs[q]) && s.jobs[q].slot == k;
      assert q in s'.jobs && s'.jobs[q] == s.jobs[q];
    }
  }

  lemma {:induction false} RollbackKeepsInv(file: seq<Page>, s: State, r: nat)
    requires Inv(file, s) && r in s.jobs && s.jobs[r].ReadBad?
    ensures Inv(file, Next(file, s, Rollback(r)))
  {
    hide SlotOk, Holders;
    var ReadBad(b, i) := s.jobs[r];
    var s' := Next(file, s, Rollback(r));
    assert JobOk(file, s.cache, s.jobs[r]);
    forall k | 0 <= k < |s'.cache.slots| ensures SlotOk(file, s', k) { RollbackKeepsSlot(file, s, r, k); }
    forall q | q in s'.jobs ensures JobOk(file, s'.cache, s'.jobs[q]) {
      assert JobOk(file, s.cache, s.jobs[q]);
      assert q != r ==> !SameLoad(s.jobs[q], s.jobs[r]);
    }
    forall q, t | q in s'.jobs && t in s'.jobs && SameLoad(s'.jobs[q], s'.jobs[t]) ensures q == t {
      assert SameLoad(s.jobs[q], s.jobs[t]);
    }
  }

  lemma {:induction false} DropKeepsInv(file: seq<Page>, s: State, r: nat)
    requires Inv(file, s) && r in s.jobs && s.jobs[r].Held?
    ensures Inv(file, Next(file, s, Drop(r)))
  {
    var Held(b, i) := s.jobs[r];
    var s' := Next(file, s, Drop(r));
    assert JobOk(file, s.cache, s.jobs[r]);
    assert SlotOk(file, s, i);
    assert r in Holders(s.jobs, i);
    forall k | 0 <= k < |s'.cache.slots| ensures SlotOk(file, s', k) {
      assert SlotOk(file, s, k);
      assert Holders(s'.jobs, k) == Holders(s.jobs, k) - {r};
      if s.cache.slots[k].loading {
        var q :| q in s.jobs && IsLoading(s.jobs[q]) && s.jobs[q].slot == k;
        assert q in s'.jobs && s'.jobs[q] == s.jobs[q];
      }
    }
    forall q | q in s'.jobs ensures JobOk(file, s'.cache, s'.jobs[q]) {
      assert JobOk(file, s.cache, s.jobs[q]);
    }
  }

  lemma {:induction false} StepKeepsInv(file: seq<Page>, s: State, e: Event)
    requires Inv(file, s) && Enabled(s, e)
    ensures Inv(file, Next(file, s, e))
  {
    match e
    case Start(r, b) => StartKeepsInv(file, s, r, Waiting(b));
    case Attempt(r) => EnterKeepsInv(file, s, r);
    case TryPin(r) =>
      var o := Enter(s.cache, s.jobs[r].block).1;
      if o.Hit? { PinKeepsInv(file, s, r, s.jobs[r].block, o.slot); }
    case Progress(r, bytes) =>
      FrameKeepsInv(file, s, r, bytes, s.jobs[r]);
      assert s.jobs[r := s.jobs[r]] == s.jobs;
    case ReadDone(r) =>
      FrameKeepsInv(file, s, r, FileBlock(file, s.jobs[r].block), ReadOk(s.jobs[r].block, s.jobs[r].slot));
    case ReadFails(r, bytes) =>
      FrameKeepsInv(file, s, r, bytes, ReadBad(s.jobs[r].block, s.jobs[r].slot));
    case Publish(r) => PublishKeepsInv(file, s, r);
    case Rollback(r) => RollbackKeepsInv(file, s, r);
    case Drop(r) => DropKeepsInv(file, s, r);
  }

  // ---------------------------------------------------------------- every run

  lemma {:induction false} InitialInv(file: seq<Page>, slotCount: nat)
    requires |file| <= NONE
    ensures Inv(file, State(InitialCache(file, slotCount), map[]))
  {
  }

  lemma {:induction false} RunKeepsInv(file: seq<Page>, states: seq<State>, events: seq<Event>, k: nat)
    requires IsRun(file, states, events) && Inv(file, states[0]) && k < |states|
    ensures Inv(file, states[k])
  {
    if k > 0 {
      RunKeepsInv(file, states, events, k - 1);
      StepKeepsInv(file, states[k - 1], events[k - 1]);
    }
  }

  /** In every run from Init: the tables are mutual partial inverses, a loading slot has
      one loader and one pin, the pin count of any other slot is the number of handles on
      it, and it holds exactly its block's file bytes. */
  lemma {:induction false} RunIsSafe(file: seq<Page>, slotCount: nat, states: seq<State>, events: seq<Event>, k: nat)
    requires |file| <= NONE && IsRun(file, states, events) && k < |states|
    requires states[0] == State(InitialCache(file, slotCount), map[])
    ensures var c, jobs := states[k].cache, states[k].jobs;
            && Inverse(c) && |c.pages| == |c.slots| && |c.logic| == |file|
            && (forall i :: 0 <= i < |c.slots| && c.slots[i].loading ==>
                  c.slots[i].ref == 1 && Holders(jobs, i) == {}
                  && exists r :: r in jobs && IsLoading(jobs[r]) && jobs[r].slot == i
                       && forall q :: q in jobs && SameLoad(jobs[q], jobs[r]) ==> q == r)
            && (forall i :: 0 <= i < |c.slots| && !c.slots[i].loading ==>
                  c.slots[i].ref == |Holders(jobs, i)|
                  && (c.slots[i].block != NONE ==>
                        c.slots[i].block < |file| && c.pages[i] == file[c.slots[i].block]))
  {
    InitialInv(file, slotCount);
    RunKeepsInv(file, states, events, k);
    var s := states[k];
    forall i | 0 <= i < |s.cache.slots|
      ensures SlotOk(file, s, i) && (s.cache.slots[i].block != NONE ==> s.cache.slots[i].block < |file|)
    {
    }
    forall i | 0 <= i < |s.cache.slots| && s.cache.slots[i].loading
      ensures exists r :: r in s.jobs && IsLoading(s.jobs[r]) && s.jobs[r].slot == i
                && forall q :: q in s.jobs && SameLoad(s.jobs[q], s.jobs[r]) ==> q == r
    {
      assert SlotOk(file, s, i);
      var r :| r in s.jobs && IsLoading(s.jobs[r]) && s.jobs[r].slot == i;
      assert forall q :: q in s.jobs && SameLoad(s.jobs[q], s.jobs[r]) ==> q == r;
    }
  }

  /** From the step that hands it out to the step that drops it, a handle names the same
      block and frame, and the frame holds that block's bytes at every state in between,
      whatever the other threads do. */
  lemma {:induction false} HeldHandleIsStable(file: seq<Page>, states: seq<State>, events: seq<Event>, r: nat, k: nat)
    requires IsRun(file, states, events) && Inv(file, states[0]) && k < |states|
    requires r in states[0].jobs && states[0].jobs[r].Held?
    requires Drop(r) !in events[..k]
    ensures r in states[k].jobs && states[k].jobs[r] == states[0].jobs[r]
    ensures var Held(b, i) := states[0].jobs[r];
            && i < |states[k].cache.slots| && i < |states[k].cache.pages| && b < |file|
            && states[k].cache.slots[i].block == b && states[k].cache.slots[i].ref > 0
            && states[k].cache.pages[i] == file[b]
  {
    HandleStays(file, states, events, r, k);
    RunKeepsInv(file, states, events, k);
    var Held(b, i) := states[k].jobs[r];
    assert JobOk(file, states[k].cache, states[k].jobs[r]);
    assert SlotOk(file, states[k], i);
    assert r in Holders(states[k].jobs, i);
  }

  lemma {:induction false} HandleStays(file: seq<Page>, states: seq<State>, events: seq<Event>, r: nat, k: nat)
    requires IsRun(file, states, events) && k < |states|
    requires r in states[0].jobs && states[0].jobs[r].Held?
    requires Drop(r) !in events[..k]
    ensures r in states[k].jobs && states[k].jobs[r] == states[0].jobs[r]
  {
    if k > 0 {
      assert events[..k][..k - 1] == events[..k - 1] && events[k - 1] in events[..k];
      HandleStays(file, states, events, r, k - 1);
    }
  }

  // ---------------------------------------------------------------- progress

  /** Steps that bring a get forward; the others poll, wait, write into a frame still loading,
      or drop a handle. */
  predicate Effective(s: State, e: Event)
    requires Enabled(s, e)
  {
    match e
    case Attempt(r) => !Enter(s.cache, s.jobs[r].block).1.Blocked?
    case ReadDone(_) => true
    case ReadFails(_, _) => true
    case Publish(_) => true
    case Rollback(_) => true
    case _ => false
  }

  /** A thread that has to wait waits for a slot whose one loader can take a step. */
  lemma {:induction false} WaiterHasLoader(file: seq<Page>, s: State, r: nat) returns (q: nat, e: Event)
    requires Inv(file, s) && r in s.jobs && s.jobs[r].Waiting?
    requires Enter(s.cache, s.jobs[r].block).1.Blocked?
    ensures q in s.jobs && IsLoading(s.jobs[q]) && s.jobs[q].slot == s.cache.logic[s.jobs[r].block]
    ensures s.jobs[q].block == s.jobs[r].block
    ensures Enabled(s, e) && Settling(e) && Effective(s, e) && Work(Next(file, s, e).jobs) < Work(s.jobs)
  {
    var i := s.cache.logic[s.jobs[r].block];
    assert SlotOk(file, s, i);
    q :| q in s.jobs && IsLoading(s.jobs[q]) && s.jobs[q].slot == i;
    assert JobOk(file, s.cache, s.jobs[q]);
    e := LoaderStep(file, s, q);
  }

  /** Steps a thread takes on its own behalf to finish a get. */
  predicate Settling(e: Event) { e.Attempt? || e.ReadDone? || e.Publish? || e.Rollback? }

  /** Own steps a get still has to take. */
  ghost function Rank(j: Job): nat {
    if j.Waiting? then 3 else if j.Reading? then 2 else if j.ReadOk? || j.ReadBad? then 1 else 0
  }

  ghost function OfRank(jobs: map<nat, Job>, k: nat): set<nat> { set r | r in jobs && Rank(jobs[r]) == k }

  /** Own steps still to take, over all gets in flight. */
  ghost function Work(jobs: map<nat, Job>): nat {
    3 * |OfRank(jobs, 3)| + 2 * |OfRank(jobs, 2)| + |OfRank(jobs, 1)|
  }

  lemma {:induction false} RankMoves(jobs: map<nat, Job>, r: nat, j: Job, k: nat)
    requires r in jobs
    ensures |OfRank(jobs[r := j], k)| + (if Rank(jobs[r]) == k then 1 else 0)
            == |OfRank(jobs, k)| + (if Rank(j) == k then 1 else 0)
  {
    hide Rank;
    var others := OfRank(jobs, k) - {r};
    assert OfRank(jobs, k) == if Rank(jobs[r]) == k then others + {r} else others;
    assert OfRank(jobs[r := j], k) == if Rank(j) == k then others + {r} else others;
  }

  lemma {:induction false} WorkFalls(jobs: map<nat, Job>, r: nat, j: Job)
    requires r in jobs && Rank(j) < Rank(jobs[r])
    ensures Work(jobs[r := j]) < Work(jobs)
  {
    RankMoves(jobs, r, j, 1);
    RankMoves(jobs, r, j, 2);
    RankMoves(jobs, r, j, 3);
  }

  lemma {:induction false} LoaderStep(file: seq<Page>, s: State, q: nat) returns (e: Event)
    requires q in s.jobs && IsLoading(s.jobs[q])
    ensures Enabled(s, e) && Settling(e) && Effective(s, e) && Work(Next(file, s, e).jobs) < Work(s.jobs)
  {
    e := if s.jobs[q].Reading? then ReadDone(q) else if s.jobs[q].ReadOk? then Publish(q) else Rollback(q);
    WorkFalls(s.jobs, q, Next(file, s, e).jobs[q]);
  }

  /** As long as some get is unfinished, some thread has a step that brings the whole
      system closer to having none. */
  lemma {:induction false} NeverStuck(file: seq<Page>, s: State) returns (e: Event)
    requires Inv(file, s) && Work(s.jobs) > 0
    ensures Enabled(s, e) && Settling(e) && Effective(s, e) && Work(Next(file, s, e).jobs) < Work(s.jobs)
  {
    if r :| r in s.jobs && IsLoading(s.jobs[r]) {
      e := LoaderStep(file, s, r);
    } else {
      assert OfRank(s.jobs, 1) == {} && OfRank(s.jobs, 2) == {};
      var r :| r in OfRank(s.jobs, 3);
      if Enter(s.cache, s.jobs[r].block).1.Blocked? {
        var q;
        q, e := WaiterHasLoader(file, s, r);
      } else {
        e := Attempt(r);
        WorkFalls(s.jobs, r, Next(file, s, e).jobs[r]);
      }
    }
  }

  /** From every state with the invariant the gets in flight can all be finished, in at
      most Work steps and without a new get or a dropped handle. */
  lemma {:induction false} EveryGetCanFinish(file: seq<Page>, s: State)
    returns (states: seq<State>, events: seq<Event>)
    requires Inv(file, s)
    ensures IsRun(file, states, events) && states[0] == s && |events| <= Work(s.jobs)
    ensures forall e :: e in events ==> Settling(e)
    ensures Work(states[|events|].jobs) == 0
    decreases Work(s.jobs)
  {
    hide Work, Next, Enabled, Inv, Effective, Settling;
    if Work(s.jobs) == 0 {
      states, events := [s], [];
    } else {
      var e := NeverStuck(file, s);
      var t := Next(file, s, e);
      StepKeepsInv(file, s, e);
      var ss, es := EveryGetCanFinish(file, t);
      PrependStep(file, s, e, ss, es);
      states, events := [s] + ss, [e] + es;
    }
  }

  lemma {:induction false} PrependStep(file: seq<Page>, s: State, e: Event, ss: seq<State>, es: seq<Event>)
    requires IsRun(file, ss, es) && Enabled(s, e) && ss[0] == Next(file, s, e)
    ensures IsRun(file, [s] + ss, [e] + es)
  {
  }

  /** Whatever step is taken, but for a new get, the work left does not grow, and it falls
      with every effective step. */
  lemma {:induction false} StepWork(file: seq<Page>, s: State, e: Event)
    requires Enabled(s, e) && !e.Start?
    ensures Work(Next(file, s, e).jobs) <= Work(s.jobs)
    ensures Effective(s, e) ==> Work(Next(file, s, e).jobs) < Work(s.jobs)
  {
    var r, t := e.r, Next(file, s, e);
    if e.Drop? {
      forall k | 1 <= k <= 3 ensures OfRank(t.jobs, k) == OfRank(s.jobs, k) { }
    } else if Rank(t.jobs[r]) < Rank(s.jobs[r]) {
      WorkFalls(s.jobs, r, t.jobs[r]);
    } else {
      assert t.jobs == s.jobs;
    }
  }

  /** How many of the first k steps of a run were effective. */
  ghost function EffectiveSteps(file: seq<Page>, states: seq<State>, events: seq<Event>, k: nat): nat
    requires IsRun(file, states, events) && k <= |events|
  {
    if k == 0 then 0
    else EffectiveSteps(file, states, events, k - 1) + if Effective(states[k - 1], events[k - 1]) then 1 else 0
  }

  /** Under every schedule: a run without new gets takes no more effective steps than there
      was work, so from some point on it takes none, and then, if work is left, one is
      always enabled (NeverStuck). */
  lemma {:induction false} EveryScheduleProgresses(file: seq<Page>, states: seq<State>, events: seq<Event>, k: nat)
    requires IsRun(file, states, events) && k <= |events|
    requires forall i :: 0 <= i < k ==> !events[i].Start?
    ensures EffectiveSteps(file, states, events, k) + Work(states[k].jobs) <= Work(states[0].jobs)
  {
    if k > 0 {
      EveryScheduleProgresses(file, states, events, k - 1);
      StepWork(file, states[k - 1], events[k - 1]);
    }
  }

  /** A get of a block in range fails at its first critical section exactly when it is not
      resident and its scan met only pinned or loading slots; off the wrap of the clock
      hand that is every slot there is. */
  lemma {:induction false} GetFailsIff(file: seq<Page>, s: State, r: nat)
    requires Inv(file, s) && r in s.jobs && s.jobs[r].Waiting?
    requires s.jobs[r].block < |file| && 0 < |s.cache.slots|
    ensures var c, b, n := s.cache, s.jobs[r].block, |s.cache.slots|;
            && (Next(file, s, Attempt(r)).jobs[r].Failed? <==>
                  c.logic[b] == NONE && AllBusy(c.slots, c.evict, n))
            && (c.evict + n <= U32 || U32 % n == 0 ==>
                  (AllBusy(c.slots, c.evict, n) <==> forall i :: 0 <= i < n ==> Busy(c.slots[i])))
  {
    var c, n := s.cache, |s.cache.slots|;
    ScanFacts(c.slots, c.evict, n);
    ScanMisses(c.slots, c.evict, n);
    ClockGivesUpIff(n, c.evict);
  }

  /** The other way to fail: a read that failed. Nothing else turns a get into Failed. */
  lemma {:induction false} FailureHasCause(file: seq<Page>, s: State, e: Event, r: nat)
    requires Inv(file, s) && Enabled(s, e)
    requires r in Next(file, s, e).jobs && Next(file, s, e).jobs[r].Failed?
    requires r in s.jobs ==> !s.jobs[r].Failed?
    ensures r in s.jobs
    ensures (e == Rollback(r) && s.jobs[r].ReadBad?)
            || (e == Attempt(r) && Enter(s.cache, s.jobs[r].block).1 in {NoSlot, OutOfRange})
  {
  }
}
