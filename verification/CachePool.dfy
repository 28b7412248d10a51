/** The array code of the page cache, proved against the critical sections of BlockCache.
    A file read is a parameter: whether it succeeded and what it left in the frames. */
module CachePool {
  import opened Options
  import opened BlockCache
  import opened BlockCacheProof

  const PAGE_SIZE := 4096
  const I32_MAX := 0x7FFF_FFFF

  /** The cache after a sequential window of `count` blocks from `start` was loaded. */
  function Window(c: Cache, file: seq<Page>, start: nat, count: nat): Cache
    requires count <= |c.slots| && count <= |c.pages| && start + count <= |file|
  {
    Cache(seq(|c.logic|, (b: nat) => if start <= b < start + count then b - start else NONE),
          seq(|c.slots|, (i: nat) => if i < count then Slot(start + i, 0, false) else EMPTY),
          count, file[start..start + count] + c.pages[count..])
  }

  /** The cache after a window load gave up once the tables were cleared. */
  function Cleared(c: Cache, pages: seq<Page>): Cache {
    Cache(seq(|c.logic|, _ => NONE), seq(|c.slots|, _ => EMPTY), c.evict, pages)
  }

  function WindowSize(c: Cache, start: nat): nat
    requires start < |c.logic|
  {
    if |c.slots| < |c.logic| - start then |c.slots| else |c.logic| - start
  }

  lemma {:induction false} WindowIsInverse(c: Cache, file: seq<Page>, start: nat, count: nat)
    requires count <= |c.slots| <= |c.logic| <= NONE && count <= |c.pages| && start + count <= |file| == |c.logic|
    ensures Inverse(Window(c, file, start, count))
  {
  }

  lemma {:induction false} ClearedIsInverse(c: Cache, pages: seq<Page>)
    ensures Inverse(Cleared(c, pages))
  {
  }

  lemma {:induction false} InitialIsInverse(file: seq<Page>, slotCount: nat)
    requires |file| <= NONE
    ensures Inverse(InitialCache(file, slotCount))
  {
  }

  class Pool {
    const logicTable: array<nat>
    const slotTable: array<Slot>
    const pages: array<Page>
    var evictSlot: nat

    ghost function View(): Cache
      reads this, logicTable, slotTable, pages
    {
      Cache(logicTable[..], slotTable[..], evictSlot, pages[..])
    }

    ghost predicate Valid()
      reads this, logicTable, slotTable, pages
    {
      && logicTable.Length <= NONE && slotTable.Length <= logicTable.Length
      && slotTable.Length == pages.Length && evictSlot < U32
      && Inverse(View())
    }

    /** Init: the eager read of the resident window may fail, and then there is no cache; a
        cache without slots reads nothing. */
    static method Init(file: seq<Page>, slotCount: nat, readOk: bool) returns (pool: Option<Pool>)
      requires |file| <= NONE
      ensures pool.None? <==> !readOk && slotCount > 0 && file != []
      ensures pool.Some? ==> fresh(pool.value) && pool.value.Valid()
      ensures pool.Some? ==> pool.value.View() == InitialCache(file, slotCount)
    {
      if !readOk && slotCount > 0 && |file| > 0 { return None; }
      var p := new Pool(file, slotCount);
      pool := Some(p);
    }

    /** The tables and frames after a good read of the resident window. */
    constructor (file: seq<Page>, slotCount: nat)
      requires |file| <= NONE
      ensures View() == InitialCache(file, slotCount) && Valid()
      ensures fresh(logicTable) && fresh(slotTable) && fresh(pages)
    {
      hide Inverse;
      var n: nat := if slotCount < |file| then slotCount else |file|;
      logicTable := new nat[|file|](_ => NONE);
      slotTable := new Slot[n](_ => EMPTY);
      pages := new Page[n](i requires 0 <= i < |file| => file[i]);
      evictSlot := n % U32;
      new;
      for block := 0 to n
        invariant forall b :: 0 <= b < |file| ==> logicTable[b] == if b < block then b else NONE
        invariant forall i :: 0 <= i < n ==> slotTable[i] == if i < block then Slot(i, 0, false) else EMPTY
        invariant forall i :: 0 <= i < n ==> pages[i] == file[i]
        invariant evictSlot == n % U32
      {
        logicTable[block] := block;
        slotTable[block] := slotTable[block].(block := block);
      }
      assert View() == InitialCache(file, slotCount);
      InitialIsInverse(file, slotCount);
    }

    /** The clock loop: the slot to evict, or NONE, and the hand where it stopped. */
    method FindVictim() returns (found: nat)
      requires slotTable.Length > 0 && evictSlot < U32
      modifies this`evictSlot
      ensures (found, evictSlot) == Scan(slotTable[..], old(evictSlot), slotTable.Length)
    {
      found := NONE;
      var scanned := 0;
      while scanned < slotTable.Length && found == NONE
        invariant scanned <= slotTable.Length && evictSlot < U32
        invariant found != NONE ==>
            (found, evictSlot) == Scan(slotTable[..], old(evictSlot), slotTable.Length)
        invariant found == NONE ==>
            Scan(slotTable[..], evictSlot, slotTable.Length - scanned)
            == Scan(slotTable[..], old(evictSlot), slotTable.Length)
        decreases slotTable.Length - scanned, if found == NONE then 1 else 0
      {
        var candidate := evictSlot % slotTable.Length;
        evictSlot := (evictSlot + 1) % U32;
        assert slotTable[..][candidate] == slotTable[candidate];
        if !Busy(slotTable[candidate]) {
          found := candidate;
          if found == NONE { return; }
        }
        scanned := scanned + 1;
      }
    }

    /** First critical section of a get, once no loader holds the block's slot. */
    method EnterGet(blockSeq: nat) returns (o: Outcome)
      requires Valid()
      modifies this`evictSlot, logicTable, slotTable
      ensures (View(), o) == Enter(old(View()), blockSeq)
      ensures Valid()
    {
      if blockSeq >= logicTable.Length || slotTable.Length == 0 { return OutOfRange; }
      var slot := logicTable[blockSeq];
      if slot != NONE && slot < slotTable.Length {
        var entry := slotTable[slot];
        if entry.loading { return Blocked; }
        if entry.block == blockSeq {
          slotTable[slot] := entry.(ref := entry.ref + 1);
          assert View() == Pin(old(View()), slot);
          return Hit(slot);
        }
      }
      ScanFacts(slotTable[..], evictSlot, slotTable.Length);
      var found := FindVictim();
      if found == NONE { return NoSlot; }
      label claim:
      var oldBlock := slotTable[found].block;
      if oldBlock != NONE { logicTable[oldBlock] := NONE; }
      slotTable[found] := Slot(blockSeq, 1, true);
      logicTable[blockSeq] := found;
      assert View() == Claim(old@claim(View()), blockSeq, found);
      ClaimKeepsInverse(old@claim(View()), blockSeq, found);
      o := Claimed(found);
    }

    /** Second critical section: publish, or undo the claim of a failed read. */
    method FinishGet(blockSeq: nat, found: nat, ok: bool)
      requires Valid() && found < slotTable.Length && slotTable[found].block == blockSeq
      modifies logicTable, slotTable
      ensures View() == Finish(old(View()), blockSeq, found, ok)
      ensures Valid()
    {
      if !ok {
        if blockSeq < logicTable.Length && logicTable[blockSeq] == found {
          logicTable[blockSeq] := NONE;
        }
        slotTable[found] := EMPTY;
      } else {
        slotTable[found] := slotTable[found].(loading := false);
      }
      assert View() == Finish(old(View()), blockSeq, found, ok);
    }

    /** BlockHandle's drop. */
    method Release(slot: nat)
      requires Valid()
      modifies slotTable
      ensures View() == Unpin(old(View()), slot)
      ensures Valid()
    {
      if slot < slotTable.Length && slotTable[slot].ref > 0 {
        slotTable[slot] := slotTable[slot].(ref := slotTable[slot].ref - 1);
      }
      assert View() == Unpin(old(View()), slot);
    }

    /** Forget every resident block, as the window loader does before it reads. */
    method ClearTables()
      requires Valid()
      modifies logicTable, slotTable
      ensures View() == Cleared(old(View()), pages[..])
    {
      for slot := 0 to slotTable.Length
        invariant slotTable[..] == old(slotTable[..])
        invariant forall b :: 0 <= b < logicTable.Length ==>
            logicTable[b] == if old(logicTable[b]) < slot then NONE else old(logicTable[b])
      {
        if slotTable[slot].block != NONE {
          logicTable[slotTable[slot].block] := NONE;
        }
        assert forall b :: 0 <= b < logicTable.Length && old(logicTable[b]) == slot ==>
            old(View()).slots[slot].block == b;
      }
      forall b | 0 <= b < logicTable.Length ensures logicTable[b] == NONE {
        assert old(View()).logic[b] == old(logicTable[b]);
      }
      for slot := 0 to slotTable.Length
        invariant forall b :: 0 <= b < logicTable.Length ==> logicTable[b] == NONE
        invariant forall i :: 0 <= i < slot ==> slotTable[i] == EMPTY
      {
        slotTable[slot] := EMPTY;
      }
    }

    /** The frames as one read of consecutive blocks leaves them. */
    method CopyFrames(file: seq<Page>, startBlock: nat, blockCount: nat)
      requires startBlock + blockCount <= |file| && blockCount <= pages.Length
      modifies pages
      ensures pages[..] == file[startBlock..startBlock + blockCount] + old(pages[..])[blockCount..]
    {
      forall i | 0 <= i < blockCount { pages[i] := file[startBlock + i]; }
    }

    /** The successful end of a window load: frames read, tables rewritten. */
    method PublishWindow(ghost c: Cache, file: seq<Page>, startBlock: nat, blockCount: nat)
      requires View() == Cleared(c, c.pages) && Valid()
      requires startBlock + blockCount <= |file| == logicTable.Length && blockCount <= slotTable.Length
      modifies this, logicTable, slotTable, pages
      ensures View() == Window(c, file, startBlock, blockCount) && Valid()
    {
      hide Inverse;
      CopyFrames(file, startBlock, blockCount);
      ghost var frames := file[startBlock..startBlock + blockCount] + c.pages[blockCount..];
      assert forall b :: 0 <= b < logicTable.Length ==> logicTable[b] == Cleared(c, c.pages).logic[b];
      assert forall i :: 0 <= i < slotTable.Length ==> slotTable[i] == Cleared(c, c.pages).slots[i];
      for offset := 0 to blockCount
        invariant pages[..] == frames
        invariant forall b :: 0 <= b < logicTable.Length ==>
            logicTable[b] == if startBlock <= b < startBlock + offset then b - startBlock else NONE
        invariant forall i :: 0 <= i < slotTable.Length ==>
            slotTable[i] == if i < offset then Slot(startBlock + i, 0, false) else EMPTY
      {
        slotTable[offset] := Slot(startBlock + offset, 0, false);
        logicTable[startBlock + offset] := offset;
      }
      evictSlot := blockCount;
      assert View() == Window(c, file, startBlock, blockCount);
      WindowIsInverse(c, file, startBlock, blockCount);
    }

    /** LoadSequentialWindow, of the single-threaded merge: refuses while a page is pinned. */
    method LoadWindow(file: seq<Page>, startBlock: nat, readOk: bool, partial: seq<Page>) returns (ok: bool)
      requires Valid() && |file| == logicTable.Length && |partial| == pages.Length
      modifies this, logicTable, slotTable, pages
      ensures Valid()
      ensures var c := old(View());
              if startBlock >= |file| || |c.slots| == 0 || exists s :: s in c.slots && s.ref > 0 then
                !ok && View() == c
              else if WindowSize(c, startBlock) * PAGE_SIZE > I32_MAX then !ok && View() == Cleared(c, c.pages)
              else if !readOk then !ok && View() == Cleared(c, partial)
              else ok && View() == Window(c, file, startBlock, WindowSize(c, startBlock))
    {
      hide Inverse;
      ghost var c := View();
      if startBlock >= logicTable.Length || slotTable.Length == 0 { return false; }
      for i := 0 to slotTable.Length
        invariant forall k :: 0 <= k < i ==> slotTable[k].ref == 0
      {
        if slotTable[i].ref > 0 {
          assert c.slots[i] in c.slots;
          return false;
        }
      }
      assert !exists s :: s in c.slots && s.ref > 0;
      ClearTables();
      ClearedIsInverse(c, pages[..]);
      var blockCount: nat := if slotTable.Length < logicTable.Length - startBlock
                             then slotTable.Length else logicTable.Length - startBlock;
      if blockCount * PAGE_SIZE > I32_MAX { return false; }
      if !readOk {
        forall i | 0 <= i < pages.Length { pages[i] := partial[i]; }
        assert View() == Cleared(c, partial);
        ClearedIsInverse(c, partial);
        return false;
      }
      PublishWindow(c, file, startBlock, blockCount);
      ok := logicTable[startBlock] != NONE;
    }
  }

  /** In its one-thread setting -- no get in flight, no handle out -- a window load keeps
      the protocol invariant, and afterwards the asked block is resident and ready. */
  lemma {:induction false} WindowKeepsInv(file: seq<Page>, c: Cache, start: nat)
    requires Inv(file, State(c, map[])) && start < |file| && 0 < |c.slots|
    ensures var c' := Window(c, file, start, WindowSize(c, start));
            && Inv(file, State(c', map[]))
            && Enter(c', start) == (Pin(c', 0), Hit(0)) && c'.pages[0] == file[start]
    ensures forall pages :: |pages| == |c.pages| ==> Inv(file, State(Cleared(c, pages), map[]))
  {
    var c' := Window(c, file, start, WindowSize(c, start));
    forall i | 0 <= i < |c'.slots| ensures SlotOk(file, State(c', map[]), i) {
      assert Holders(map[], i) == {};
    }
    forall pages, i | |pages| == |c.pages| && 0 <= i < |c.slots|
      ensures SlotOk(file, State(Cleared(c, pages), map[]), i)
    {
      assert Holders(map[], i) == {};
    }
  }
}
