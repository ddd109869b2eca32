/** The Zend memory manager heap. */
module ZendHeap {
  import opened Words
  import opened Bitset
  import opened BestFit
  import opened Bins
  import opened PageInfo
  import opened Chunks
  import opened Blocks
  import opened Inventory
  import opened HeapState
  import opened Collection
  import opened GcState
  import opened SweepState
  import opened HugeState
  import opened HeapSteps
  import opened Ownership

  class Heap {
    /** Chunk headers by chunk number. */
    var chunks: map<nat, Chunk>
    /** The ring of chunks in use, from the main chunk on, and the list of cached chunks. */
    var ring: seq<nat>
    var cached: seq<nat>
    /** Heads of the free lists; the links are in memory. */
    var freeSlot: seq<nat>
    var mem: Memory
    var hugeList: seq<HugeNode>
    var size: nat
    var peak: nat
    var realSize: nat
    var realPeak: nat
    var limit: nat
    var overflow: bool
    var chunksCount: int
    var peakChunksCount: int
    var cachedChunksCount: int
    var avgChunksCount: real
    var lastDeleteBoundary: int
    var lastDeleteCount: int
    /** REAL_PAGE_SIZE, the page size of the OS. */
    const realPage: Positive

    ghost var view: View
    /** Sizes that failed small allocations have added to `size` for good. */
    ghost var lost: nat

    ghost function Parts(): Fields
      reads this
    {
      Fields(chunks, ring, cached, freeSlot, hugeList)
    }

    ghost predicate Counts()
      reads this
    {
      && chunksCount == |ring| && cachedChunksCount == |cached|
      && realSize == CHUNK_SIZE * (|ring| + |cached|) + HugeTotal(hugeList)
      && realSize <= realPeak
    }

    /** The data structures agree and the chunk counters are right. */
    ghost predicate Core()
      reads this
    {
      Agree(Parts(), mem, view) && Counts()
    }

    /** In addition no chunk of the ring but the main chunk is empty, and the usage counters are right. */
    ghost predicate Valid()
      reads this
    {
      Core() && NoneEmpty(ring, view.world) && size == Total(view.live) + lost && size <= peak
    }

    /** zend_mm_init: the OS has returned a zeroed chunk with number `main`. */
    constructor (main: nat, realPage: Positive)
      requires main > 0
      ensures Valid() && view.live == map[] && lost == 0
      ensures ring == [main] && cached == [] && view.world == map[main := map[]] && hugeList == []
      ensures size == 0 && realSize == CHUNK_SIZE && !overflow && limit == 0x7fff_ffff_ffff_ffff
      ensures Fresh(Parts(), view) && view.nodes == [] && this.realPage == realPage
    {
      hide Agree, ChunkOk, InitChunk, ZeroedChunk, AllPagesFree, Total;
      ZeroedHeader(0);
      this.realPage := realPage;
      chunks := map[main := InitChunk(ZeroedChunk(), 0)];
      ring := [main];
      cached := [];
      freeSlot := seq(BINS, _ => 0);
      hugeList := [];
      size, peak, lost := 0, 0, 0;
      realSize, realPeak := CHUNK_SIZE, CHUNK_SIZE;
      limit, overflow := 0x7fff_ffff_ffff_ffff, false;
      chunksCount, peakChunksCount, cachedChunksCount := 1, 1, 0;
      avgChunksCount := 1.0;
      lastDeleteBoundary, lastDeleteCount := 0, 0;
      mem := _ => Data(0);
      view := View(map[main := map[]], seq(BINS, _ => []), map[], map[], []);
      new;
      TotalNone();
      InitialAgree(main, chunks[main], mem);
    }

    // ---------------------------------------------------------------- small blocks

    /** zend_mm_free_small; the slot is what lies at `ptr`. */
    method FreeSmall(ptr: nat, bin: nat, ghost sl: Slot)
      requires Valid() && ptr in view.live && view.live[ptr].block == SmallBlock(sl) && sl.bin == bin
      requires sl !in view.nodes
      modifies this`size, this`freeSlot, this`mem, this`view
      ensures Valid() && bin < BINS && bin < |old(view).free|
      ensures view == PushedView(old(view), sl) && view.live == old(view).live - {ptr} && view.nodes == old(view).nodes
      ensures size == old(size) - BinSize(bin)
      ensures MemorySame(old(mem), mem, view.live)
    {
      hide NoneEmpty, Agree, BinSize, WriteLink, SlotAddr, MemorySame, Total, HugeTotal;
      PushAgree(Parts(), mem, view, ptr, sl);
      TotalRemove(view.live, ptr);
      size := size - BinSize(bin);
      mem := WriteLink(mem, ptr, freeSlot[bin]);
      freeSlot := freeSlot[bin := ptr];
      view := PushedView(view, sl);
    }

    // ---------------------------------------------------------------------- chunks

    /** zend_mm_delete_chunk for the chunk at position `i` of the ring. */
    method DeleteChunk(i: nat, ghost pending: set<nat>)
      requires AgreeBut(Parts(), mem, view, pending) && Counts()
      requires 0 < i < |ring| && ring[i] in view.world && view.world[ring[i]] == map[]
      modifies this`chunks, this`ring, this`cached, this`realSize, this`chunksCount,
               this`cachedChunksCount, this`lastDeleteBoundary, this`lastDeleteCount, this`view
      ensures AgreeBut(Parts(), mem, view, pending) && Counts()
      ensures ring == Removed(old(ring), i) && |ring| == |old(ring)| - 1 && realSize <= old(realSize)
      ensures view == old(view).(world := view.world)
      ensures if old(chunksCount - 1 + cachedChunksCount) as real < avgChunksCount + 0.1
                 || (old(chunksCount) - 1 == old(lastDeleteBoundary) && old(lastDeleteCount) >= 4)
              then cached == [old(ring)[i]] + old(cached) && chunks == old(chunks) && view == old(view)
              else ReleasedOne(old(chunks), old(cached), old(ring)[i], chunks, cached, old(view).world, view.world)
    {
      hide AgreeBut, Removed, HugeTotal, ReleasedOne;
      chunksCount := chunksCount - 1;
      if (chunksCount + cachedChunksCount) as real < avgChunksCount + 0.1
         || (chunksCount == lastDeleteBoundary && lastDeleteCount >= 4) {
        RingSize(Parts(), mem, view, pending, i);
        CacheAgree(Parts(), mem, view, pending, i);
        cachedChunksCount := cachedChunksCount + 1;
        cached := [ring[i]] + cached;
        ring := Removed(ring, i);
      } else {
        ReleaseChunk(i, pending);
      }
    }

    /** The part of zend_mm_delete_chunk that returns memory to the OS. */
    method ReleaseChunk(i: nat, ghost pending: set<nat>)
      requires AgreeBut(Parts(), mem, view, pending)
      requires 0 < i < |ring| && ring[i] in view.world && view.world[ring[i]] == map[]
      requires realSize >= CHUNK_SIZE
      modifies this`chunks, this`ring, this`cached, this`realSize,
               this`lastDeleteBoundary, this`lastDeleteCount, this`view
      ensures AgreeBut(Parts(), mem, view, pending)
      ensures ring == Removed(old(ring), i) && |ring| == |old(ring)| - 1 && |cached| == |old(cached)|
      ensures realSize == old(realSize) - CHUNK_SIZE && view == old(view).(world := view.world)
      ensures ReleasedOne(old(chunks), old(cached), old(ring)[i], chunks, cached, old(view).world, view.world)
      ensures if old(cached) != [] then
                lastDeleteBoundary == old(lastDeleteBoundary) && lastDeleteCount == old(lastDeleteCount)
              else if old(lastDeleteBoundary) == chunksCount then
                lastDeleteBoundary == chunksCount && lastDeleteCount == old(lastDeleteCount) + 1
              else lastDeleteBoundary == chunksCount && lastDeleteCount == 0
    {
      hide AgreeBut, Removed;
      ghost var f := Parts();
      var c := ring[i];
      RingSize(f, mem, view, pending, i);
      ring := Removed(ring, i);
      realSize := realSize - CHUNK_SIZE;
      if cached == [] {
        if chunksCount != lastDeleteBoundary {
          lastDeleteBoundary := chunksCount;
          lastDeleteCount := 0;
        } else {
          lastDeleteCount := lastDeleteCount + 1;
        }
      }
      if cached == [] || chunks[c].num > chunks[cached[0]].num {
        ReleaseAgree(f, mem, view, pending, i);
        chunks := chunks - {c};
        view := view.(world := view.world - {c});
      } else {
        SwapAgree(f, mem, view, pending, i);
        chunks := chunks - {cached[0]};
        view := view.(world := view.world - {cached[0]});
        cached := [c] + cached[1..];
      }
    }

    // ---------------------------------------------------------- garbage collection

    /** The first loop of zend_mm_gc: count the free slots of every run of bin `i`. */
    method CountBin(i: nat, ghost counted: FreeLists, ghost linked: FreeLists) returns (has: bool)
      requires Counting(Parts(), mem, view, counted, linked) && LinkedOk(view, linked)
      requires i < BINS && counted[i] == [] && linked[i] == view.free[i]
      modifies this`chunks
      ensures Counting(Parts(), mem, view, counted[i := view.free[i]], linked)
      ensures has <==> SomeFull(view.world, view.free[i], i)
    {
      hide Counting, LinkedOk, SomeFull, Count, SrunEx, SrunCounter, IsLrun, NrunOffset, BinElements, SlotAddr, SlotOk;
      CountBinStart(Parts(), mem, view, counted, linked, i);
      ghost var l := view.free[i];
      has := false;
      var p := freeSlot[i];
      ghost var k := 0;
      assert l[0..] == l;
      while p != 0
        invariant k <= |l| && p == Head(l[k..])
        invariant Counting(Parts(), mem, view, counted[i := l[..k]], linked)
        invariant has <==> SomeFull(view.world, l[..k], i)
        decreases |l| - k
      {
        CountBinStep(Parts(), mem, view, counted, linked, i, k);
        var c := p / CHUNK_SIZE;
        var page := p % CHUNK_SIZE / PAGE_SIZE;
        var info := chunks[c].info[page];
        if IsLrun(info) {
          page := page - NrunOffset(info);
          info := chunks[c].info[page];
        }
        var freeCounter := SrunCounter(info) + 1;
        if freeCounter == BinElements(i) {
          has := true;
        }
        chunks := chunks[c := chunks[c].(info := chunks[c].info[page := SrunEx(i, freeCounter)])];
        p := ReadLink(mem, p);
        k := k + 1;
      }
      CountBinEnd(Parts(), mem, view, counted, linked, i, k);
    }

    /** The second loop of zend_mm_gc: unlink the slots of the fully free runs of bin `i`.
        `q` is the slot whose link leads to `p`, or null for the head of the list. */
    method UnlinkBin(i: nat, ghost counted: FreeLists, ghost linked: FreeLists)
      requires Counting(Parts(), mem, view, counted, linked) && LinkedOk(view, linked)
      requires i < BINS && counted[i] == view.free[i] && linked[i] == view.free[i]
      modifies this`freeSlot, this`mem
      ensures |view.free| == BINS == |linked|
      ensures var kept := linked[i := KeptSlots(view.world, view.free, view.free[i])];
        Counting(Parts(), mem, view, counted, kept) && LinkedOk(view, kept)
      ensures MemorySame(old(mem), mem, view.live)
    {
      hide Counting, LinkedOk, SrunCounter, IsLrun, NrunOffset, BinElements, SlotAddr, SlotOk, KeptSlots, WriteLink;
      UnlinkStart(Parts(), mem, view, counted, linked, i);
      ghost var l := view.free[i];
      ghost var kept: seq<Slot> := [];
      ghost var k := 0;
      var q: nat := 0;
      var p := freeSlot[i];
      while p != 0
        invariant k <= |l| && kept == KeptSlots(view.world, view.free, l[..k])
        invariant p == Head(l[k..]) && q == (if kept == [] then 0 else SlotAddr(kept[|kept| - 1]))
        invariant Counting(Parts(), mem, view, counted, linked[i := kept + l[k..]])
        invariant LinkedOk(view, linked[i := kept + l[k..]])
        invariant MemorySame(old(mem), mem, view.live)
        decreases |l| - k
      {
        UnlinkStep(Parts(), mem, view, counted, linked, i, k, kept);
        var c := p / CHUNK_SIZE;
        var page := p % CHUNK_SIZE / PAGE_SIZE;
        var info := chunks[c].info[page];
        if IsLrun(info) {
          page := page - NrunOffset(info);
          info := chunks[c].info[page];
        }
        if SrunCounter(info) == BinElements(i) {
          p := ReadLink(mem, p);
          if q == 0 {
            freeSlot := freeSlot[i := p];
          } else {
            mem := WriteLink(mem, q, p);
          }
        } else {
          kept := kept + [l[k]];
          q := p;
          p := ReadLink(mem, p);
        }
        k := k + 1;
      }
      UnlinkEnd(Parts(), mem, view, counted, linked, i, k, kept);
    }

    /** The third loop of zend_mm_gc, one turn: walk over the chunk at position `i` of the ring and
        delete it if it is empty; `next` is the position of the next chunk. */
    method SweepTurn(i: nat, ghost v0: View, ghost kw: World, ghost ring0: seq<nat>, ghost n: nat)
      returns (next: nat, pages: nat)
      requires n <= |ring0| && RunsKnown(v0, ring0) && SweepIn(Parts(), mem, v0, view, kw, ring0, n, i, n)
      requires i < |ring| && Counts()
      modifies this`chunks, this`ring, this`cached, this`realSize, this`chunksCount,
               this`cachedChunksCount, this`lastDeleteBoundary, this`lastDeleteCount, this`view
      ensures n < |ring0| && SweepIn(Parts(), mem, v0, view, kw, ring0, n + 1, next, n + 1)
      ensures Counts() && realSize <= old(realSize) && view == old(view).(world := view.world)
      ensures FreedIn(v0, ring0[..n + 1]) == FreedIn(v0, ring0[..n]) + pages
      ensures |ring| <= |old(ring)| && (|ring| == |old(ring)| ==> cached == old(cached) && realSize == old(realSize))
    {
      hide AgreeBut, WorldOk, Counted, Staying, FreedIn, KeptWorld, Members, HugeTotal, SweepIn, SubWorld,
           ReleasedOne, Removed, ChunkOkWith, CountersOk, Kept, Freed, ChunkOk;
      SweepVisit(Parts(), mem, v0, view, kw, ring0, n, i);
      var c := ring[i];
      var h;
      h, pages := Collect(chunks[c], v0.world[c], Counters(v0.world, v0.free, c));
      SweepCollected(Parts(), mem, v0, view, kw, ring0, n, i, h);
      chunks := chunks[c := h];
      if h.freePages == PAGES - FIRST_PAGE {
        ghost var f1, v1 := Parts(), view;
        DeleteChunk(i, Members(ring0[n + 1..]));
        SweepDeleted(f1, mem, v0, v1, kw, ring0, n, i, Parts(), view);
        next := i;
      } else {
        next := i + 1;
      }
    }

    /** The third loop of zend_mm_gc: sweep every chunk of the ring. */
    method Sweep(ghost v0: View) returns (pages: nat)
      requires |v0.free| == BINS && WorldOk(v0.world) && view == CollectedView(v0) && |ring| > 0
      requires AgreeBut(Parts(), mem, view, Members(ring)) && Counts() && Counted(Parts(), v0, Members(ring))
      requires ring[0] in view.world && view.world[ring[0]] != map[]
      modifies this`chunks, this`ring, this`cached, this`realSize, this`chunksCount,
               this`cachedChunksCount, this`lastDeleteBoundary, this`lastDeleteCount, this`view
      ensures Core() && realSize <= old(realSize)
      ensures view == old(view).(world := view.world) && SubWorld(view.world, old(view).world)
      ensures ring == Staying(old(view).world, old(ring))
      ensures RunsKnown(v0, old(ring)) && pages == FreedIn(v0, old(ring))
      ensures |ring| <= |old(ring)| && (|ring| == |old(ring)| ==> cached == old(cached) && realSize == old(realSize))
    {
      hide AgreeBut, Counted, Staying, FreedIn, KeptWorld, Members, HugeTotal, SweepIn, SubWorld, Agree, WorldOk,
           KeptLists;
      ghost var ring0, kw := ring, view.world;
      SweepRing(Parts(), mem, v0, view);
      pages := 0;
      var i: nat := 0;
      ghost var n: nat := 0;
      while i < |ring|
        invariant n <= |ring0| && RunsKnown(v0, ring0) && SweepIn(Parts(), mem, v0, view, kw, ring0, n, i, n)
        invariant Counts() && realSize <= old(realSize) && |ring| <= |old(ring)|
        invariant |ring| == |old(ring)| ==> cached == old(cached) && realSize == old(realSize)
        invariant view == old(view).(world := view.world)
        invariant pages == FreedIn(v0, ring0[..n])
        decreases |ring0| - n
      {
        var m;
        i, m := SweepTurn(i, v0, kw, ring0, n);
        pages := pages + m;
        n := n + 1;
      }
      SweepEnd(Parts(), mem, v0, view, kw, ring0, n, i);
    }

    /** A collection keeps some run of the main chunk. Otherwise it would delete the main chunk, in
        which the heap itself lives. */
    ghost predicate MainStays()
      reads this
      requires Core()
    {
      MainKept(Parts(), view)
    }

    /** The loop of zend_mm_gc over the bins, which leaves the headers to be swept. */
    method FilterBins()
      requires Agree(Parts(), mem, view)
      modifies this`chunks, this`freeSlot, this`mem
      ensures |view.free| == BINS && WorldOk(view.world) && |ring| > 0 && RunsKnown(view, ring)
      ensures AgreeBut(Parts(), mem, CollectedView(view), Members(ring)) && Counted(Parts(), view, Members(ring))
      ensures MemorySame(old(mem), mem, view.live)
    {
      hide Agree, AgreeBut, Counted, Members, WorldOk, Counting, LinkedOk, SomeFull, KeptSlots, MemorySame,
           CollectedView, CountedUpTo, LinkedUpTo, KeptWorld;
      BinsStart(Parts(), mem, view);
      MemoryStart(mem, view.live);
      for i := 0 to BINS
        invariant MemorySame(old(mem), mem, view.live)
        invariant Counting(Parts(), mem, view, CountedUpTo(view.free, i), LinkedUpTo(view.world, view.free, i))
        invariant LinkedOk(view, LinkedUpTo(view.world, view.free, i))
      {
        BinsNext(view, i);
        ghost var counted, linked := CountedUpTo(view.free, i), LinkedUpTo(view.world, view.free, i);
        var has := CountBin(i, counted, linked);
        if has {
          ghost var mem0 := mem;
          UnlinkBin(i, CountedUpTo(view.free, i + 1), linked);
          MemoryTrans(old(mem), mem0, mem, view.live);
        } else {
          BinSkipped(Parts(), mem, view, CountedUpTo(view.free, i + 1), linked, i);
        }
      }
      BinsEnd(Parts(), mem, view);
    }

    /** zend_mm_gc */
    method Gc() returns (collected: nat)
      requires Core() && MainStays()
      modifies this`chunks, this`ring, this`cached, this`freeSlot, this`mem, this`realSize, this`chunksCount,
               this`cachedChunksCount, this`lastDeleteBoundary, this`lastDeleteCount, this`view
      ensures Core() && realSize <= old(realSize) && MemorySame(old(mem), mem, view.live)
      ensures RunsKnown(old(view), old(ring)) && Collected(old(view), old(ring), view, ring)
      ensures collected == FreedIn(old(view), old(ring)) * PAGE_SIZE
      ensures |ring| <= |old(ring)| && (|ring| == |old(ring)| ==> cached == old(cached) && realSize == old(realSize))
      ensures NoneEmpty(ring, view.world) && FreedExactly(old(view), view)
    {
      hide Agree, AgreeBut, Counted, Staying, FreedIn, Members, HugeTotal, SubWorld, WorldOk, MemorySame, KeptWorld,
           KeptLists, NoneEmpty, FreedExactly;
      ghost var f0 := Parts();
      FilterBins();
      ghost var v0 := view;
      view := CollectedView(view);
      var pages := Sweep(v0);
      collected := pages * PAGE_SIZE;
      CollectedFilled(f0, v0, Parts(), mem, view);
      CollectedExactly(f0, old(mem), v0, Parts(), mem, view);
    }

    // ------------------------------------------------------------------- page runs

    /** The search of zend_mm_alloc_pages through the ring. */
    method FindInRing(count: nat) returns (found: bool, i: nat, page: nat)
      requires Core() && count >= 1
      modifies this`chunks
      ensures Core() && OnlyTails(old(chunks), chunks)
      ensures found ==> FirstFit(old(chunks), ring, count, i, page) && Takeable(chunks, ring, i, page, count)
      ensures !found ==> NoneFits(old(chunks), ring, count)
    {
      hide Agree, ChunkOk, TailAfter, IsBest, Fits, FreeRange, HugeTotal, OnlyTails, Used;
      TailsStart(chunks);
      i, page := 0, 0;
      while i < |ring|
        invariant i <= |ring| && Core() && OnlyTails(old(chunks), chunks)
        invariant forall k :: 0 <= k < i ==> ring[k] in old(chunks) && NoFit(old(chunks)[ring[k]], count)
      {
        var c := ring[i];
        ChunkAt(Parts(), mem, view, c);
        var h;
        found, page, h := FindPages(chunks[c], view.world[c], count);
        HeaderAgree(Parts(), mem, view, c, h);
        TailsNext(old(chunks), chunks, c, h);
        chunks := chunks[c := h];
        if found {
          return;
        }
        i := i + 1;
      }
      found := false;
    }

    /** The `found` part of zend_mm_alloc_pages for the chunk at position `i` of the ring; `steps`
        counts the chunks that were tried before. */
    method TakeRun(i: nat, page: nat, count: nat, steps: nat) returns (c: nat)
      requires Core() && count >= 1 && Takeable(chunks, ring, i, page, count) && (steps > 2 ==> i > 0)
      modifies this`chunks, this`ring, this`view
      ensures Core() && c == old(ring)[i] && c in old(view).world && page !in old(view).world[c]
      ensures PageAddr(c, page) !in old(view).live && view == LargeView(old(view), c, page, count)
      ensures ring == if steps > 2 && count < 8 then MovedUp(old(ring), i) else old(ring)
      ensures old(NoneEmptyBut(ring, view.world, ring[i])) ==> NoneEmpty(ring, view.world)
    {
      hide NoneEmpty, NoneEmptyBut, Agree, ChunkOk, FreeRange, HugeTotal, MarkRun, LargeView, Used;
      c := ring[i];
      ChunkAt(Parts(), mem, view, c);
      TakeRunAgree(Parts(), mem, view, i, page, count);
      TakenFilled(ring, view, i, page, count);
      var h := chunks[c];
      if steps > 2 && count < 8 {
        MovedUpAgree(Parts().(chunks := chunks[c := MarkRun(h, page, count)]), mem, LargeView(view, c, page, count), i);
        ring := MovedUp(ring, i);
      }
      chunks := chunks[c := MarkRun(h, page, count)];
      view := LargeView(view, c, page, count);
    }

    /** Ask the OS for an aligned region: either nothing, or a place that nothing else uses. */
    method OsAlloc(bytes: nat) returns (ptr: nat)
      requires Core() && bytes > 0
      ensures ptr != 0 ==> ptr % CHUNK_SIZE == 0 && ptr !in view.huge && RegionFree(view.world, view.huge, ptr, bytes, ptr)
    {
      hide InventoryOk, RingOk, LinksOk, NodesOk, ChunkOk;
      ptr := *;
      if ptr % CHUNK_SIZE != 0
         || !(forall c :: c in chunks ==> Apart(ptr, bytes, c * CHUNK_SIZE, CHUNK_SIZE))
         || !(forall i :: 0 <= i < |hugeList| ==>
                hugeList[i].ptr != ptr && Apart(ptr, bytes, hugeList[i].ptr, hugeList[i].size)) {
        ptr := 0;
      }
    }

    /** zend_mm_gc, in terms of what the allocation paths need. */
    method GcKeeping() returns (collected: nat)
      requires Core() && MainStays()
      modifies this`chunks, this`ring, this`cached, this`freeSlot, this`mem, this`realSize, this`chunksCount,
               this`cachedChunksCount, this`lastDeleteBoundary, this`lastDeleteCount, this`view
      ensures Core() && MainStays() && realSize <= old(realSize) && MemorySame(old(mem), mem, view.live)
      ensures SameBlocks(old(view), view) && NothingToCollect(view) && ring[0] == old(ring)[0]
      ensures |SmallRuns(view.world)| <= |SmallRuns(old(view).world)|
      ensures collected > 0 ==> |SmallRuns(view.world)| < |SmallRuns(old(view).world)|
      ensures NoneEmpty(ring, view.world)
      ensures collected == 0 && old(NoneEmpty(ring, view.world)) ==>
        ring == old(ring) && cached == old(cached) && realSize == old(realSize)
      ensures (collected == 0 <==> NothingToCollect(old(view))) && FreedExactly(old(view), view)
      ensures collected == 0 && old(NoneEmpty(ring, view.world)) ==> SameOnRing(old(ring), old(view).world, ring, view.world)
    {
      hide Agree, HugeTotal, MemorySame, Collected, SameBlocks, MainKept, SmallRuns, FreedIn, RunsKnown,
           NothingToCollect, NoneEmpty, FreedExactly, SameOnRing;
      ghost var f := Parts();
      collected := Gc();
      NothingReported(f, old(mem), old(view));
      CollectedSame(f, old(mem), old(view), Parts(), mem, view);
      if collected == 0 && old(NoneEmpty(ring, view.world)) {
        CollectedNothing(f, old(view), Parts(), view);
        NothingChanged(f, old(mem), old(view), Parts(), mem, view);
      }
    }

    /** The limit check and the two attempts of zend_mm_alloc_pages to get a chunk from the OS. */
    method ChunkFromOs() returns (ptr: nat)
      requires Core() && MainStays()
      requires NoneEmpty(ring, view.world)
      modifies this`chunks, this`ring, this`cached, this`freeSlot, this`mem, this`realSize, this`chunksCount,
               this`cachedChunksCount, this`lastDeleteBoundary, this`lastDeleteCount, this`view
      ensures Core() && MainStays() && ring[0] == old(ring)[0] && realSize <= old(realSize)
      ensures SameBlocks(old(view), view) && MemorySame(old(mem), mem, view.live)
      ensures ptr != 0 ==> ptr % CHUNK_SIZE == 0 && ptr !in view.huge
                           && RegionFree(view.world, view.huge, ptr, CHUNK_SIZE, ptr)
      ensures NoneEmpty(ring, view.world) && (ptr == 0 ==> NothingToCollect(view))
    {
      hide NoneEmpty, Agree, MemorySame, SameBlocks, MainKept, SmallRuns, RegionFree, HugeTotal, NothingToCollect;
      ptr := OsAlloc(CHUNK_SIZE);
      SameBlocksStart(Parts(), mem, view);
      MemoryStart(mem, view.live);
      if ptr == 0 {
        var collected := GcKeeping();
        if collected != 0 {
          ptr := OsAlloc(CHUNK_SIZE);
        }
      }
    }

    /** zend_mm_chunk_init for a chunk that joins the end of the ring. */
    method JoinCached()
      requires Core() && cached != []
      requires NoneEmpty(ring, view.world)
      modifies this`chunks, this`ring, this`cached, this`chunksCount, this`cachedChunksCount, this`peakChunksCount
      ensures Core() && ring == old(ring) + [old(cached)[0]] && cached == old(cached)[1..]
      ensures Joined(Parts(), view) && peakChunksCount == Max(old(peakChunksCount), chunksCount)
      ensures |ring| > 0 && NoneEmptyBut(ring, view.world, ring[|ring| - 1])
    {
      hide NoneEmpty, NoneEmptyBut, Agree, HugeTotal, InitChunk, Joined;
      JoinFilled(ring, view.world, view.world, cached[0]);
      JoinCachedAgree(Parts(), mem, view);
      var c, last := cached[0], ring[|ring| - 1];
      cachedChunksCount := cachedChunksCount - 1;
      cached := cached[1..];
      chunksCount := chunksCount + 1;
      peakChunksCount := Max(peakChunksCount, chunksCount);
      chunks := chunks[c := InitChunk(chunks[c], chunks[last].num + 1)];
      ring := ring + [c];
    }

    /** The region with chunk number `c` becomes the last chunk of the ring. */
    method JoinNew(c: nat)
      requires Core() && c > 0 && c !in view.world
      requires forall q :: q in view.huge ==> Apart(c * CHUNK_SIZE, CHUNK_SIZE, q, view.huge[q])
      requires NoneEmpty(ring, view.world)
      modifies this`chunks, this`ring, this`realSize, this`realPeak, this`chunksCount, this`peakChunksCount, this`view
      ensures Core() && ring == old(ring) + [c] && Joined(Parts(), view)
      ensures view == old(view).(world := old(view).world[c := map[]]) && realSize == old(realSize) + CHUNK_SIZE
      ensures realPeak == Max(old(realPeak), realSize) && peakChunksCount == Max(old(peakChunksCount), chunksCount)
      ensures |ring| > 0 && NoneEmptyBut(ring, view.world, ring[|ring| - 1])
    {
      hide NoneEmpty, NoneEmptyBut, Agree, HugeTotal, InitChunk, ZeroedChunk, Apart, Joined;
      JoinFilled(ring, view.world, view.world[c := map[]], c);
      JoinNewAgree(Parts(), mem, view, c);
      var last := ring[|ring| - 1];
      realSize := realSize + CHUNK_SIZE;
      realPeak := Max(realPeak, realSize);
      chunksCount := chunksCount + 1;
      peakChunksCount := Max(peakChunksCount, chunksCount);
      chunks := chunks[c := InitChunk(ZeroedChunk(), chunks[last].num + 1)];
      ring := ring + [c];
      view := view.(world := view.world[c := map[]]);
    }

    /** A chunk from the OS joins the ring, if there is one. */
    method NewChunk() returns (ok: bool)
      requires Core() && MainStays()
      requires NoneEmpty(ring, view.world)
      modifies this`chunks, this`ring, this`cached, this`freeSlot, this`mem, this`realSize, this`realPeak,
               this`chunksCount, this`peakChunksCount, this`cachedChunksCount,
               this`lastDeleteBoundary, this`lastDeleteCount, this`view
      ensures Core() && |ring| > 0 && ring[0] == old(ring)[0]
      ensures SameBlocks(old(view), view) && MemorySame(old(mem), mem, old(view).live)
      ensures realSize <= old(realSize) + (if ok then CHUNK_SIZE else 0) && realPeak == Max(old(realPeak), realSize)
      ensures if ok then Joined(Parts(), view) else NothingToCollect(view)
      ensures if ok then NoneEmptyBut(ring, view.world, ring[|ring| - 1]) else NoneEmpty(ring, view.world)
    {
      hide NoneEmpty, NoneEmptyBut, Agree, HugeTotal, MemorySame, SameBlocks, MainKept, RegionFree, Joined, NothingToCollect;
      var ptr := ChunkFromOs();
      RingNoDup(Parts(), mem, view);
      SameLive(old(view), view);
      if ptr != 0 {
        var c := ptr / CHUNK_SIZE;
        NewNumber(view, ptr);
        SameBlocksWorld(old(view), view, view.world[c := map[]]);
        JoinNew(c);
      }
      ok := ptr != 0;
    }

    /** The `get_chunk` loop of zend_mm_alloc_pages. It ends because every collection that frees
        something leaves fewer small runs. */
    method GrabChunk() returns (r: Grab)
      requires Core() && MainStays()
      requires NoneEmpty(ring, view.world)
      modifies this`chunks, this`ring, this`cached, this`freeSlot, this`mem, this`realSize, this`realPeak,
               this`chunksCount, this`peakChunksCount, this`cachedChunksCount,
               this`lastDeleteBoundary, this`lastDeleteCount, this`view
      ensures Core() && |ring| > 0 && ring[0] == old(ring)[0]
      ensures SameBlocks(old(view), view) && MemorySame(old(mem), mem, old(view).live)
      ensures realSize <= old(realSize) || (r.Got? && (overflow || realSize <= limit))
      ensures realPeak == Max(old(realPeak), realSize)
      ensures realSize <= old(realSize) + CHUNK_SIZE
      ensures r.Got? ==> Joined(Parts(), view)
      ensures old(cached) != [] ==> r.Got? && ring == old(ring) + [old(cached)[0]] && cached == old(cached)[1..]
                                    && realSize == old(realSize) && view == old(view)
      ensures r.LimitReached? ==> !overflow && cached == [] && realSize + CHUNK_SIZE > limit && NothingToCollect(view)
      ensures r.LimitReached? && NothingToCollect(old(view)) ==> SameOnRing(old(ring), old(view).world, ring, view.world)
      ensures r.LimitReached? ==> FreedExactly(old(view), view) && MainStays()
      ensures r.OutOfMemory? ==> (overflow || realSize + CHUNK_SIZE <= limit) && NothingToCollect(view)
      ensures if r.Got? then NoneEmptyBut(ring, view.world, ring[|ring| - 1]) else NoneEmpty(ring, view.world)
    {
      hide NoneEmpty, NoneEmptyBut, Agree, HugeTotal, MemorySame, SameBlocks, MainKept, NothingToCollect, SameOnRing, FreedExactly,
           RegionFree, Joined;
      r := MakeRoom();
      if r.Got? && cached != [] {
        JoinCached();
      } else if !r.LimitReached? {
        ghost var v1, mem1 := view, mem;
        var ok := NewChunk();
        StepTrans(old(mem), old(view), mem1, v1, mem, view);
        r := if ok then Got else OutOfMemory;
      }
    }

    /** Collect until there is a cached chunk or room under the limit (`Got`), or until a collection
        frees nothing: that is an error unless the overflow flag is set (`OutOfMemory`). */
    method MakeRoom() returns (r: Grab)
      requires Core() && MainStays()
      requires NoneEmpty(ring, view.world)
      modifies this`chunks, this`ring, this`cached, this`freeSlot, this`mem, this`realSize,
               this`chunksCount, this`cachedChunksCount, this`lastDeleteBoundary, this`lastDeleteCount, this`view
      ensures Core() && MainStays() && |ring| > 0 && ring[0] == old(ring)[0] && realSize <= old(realSize)
      ensures SameBlocks(old(view), view) && MemorySame(old(mem), mem, old(view).live)
      ensures r.Got? ==> cached != [] || realSize + CHUNK_SIZE <= limit
      ensures r.LimitReached? ==> !overflow && cached == [] && realSize + CHUNK_SIZE > limit && NothingToCollect(view)
      ensures r.LimitReached? && NothingToCollect(old(view)) ==> SameOnRing(old(ring), old(view).world, ring, view.world)
      ensures r.LimitReached? ==> FreedExactly(old(view), view)
      ensures r.OutOfMemory? ==> overflow
      ensures old(cached) != [] || old(realSize) + CHUNK_SIZE <= limit ==>
        r.Got? && view == old(view) && ring == old(ring) && cached == old(cached) && realSize == old(realSize)
      ensures NoneEmpty(ring, view.world)
    {
      hide NoneEmpty, Agree, HugeTotal, MemorySame, SameBlocks, MainKept, SmallRuns, NothingToCollect, SameOnRing,
           FreedExactly;
      SameBlocksStart(Parts(), mem, view);
      RingNoDup(Parts(), mem, view);
      MemoryStart(mem, view.live);
      while cached == [] && realSize + CHUNK_SIZE > limit
        invariant Core() && MainStays() && |ring| > 0 && ring[0] == old(ring)[0]
        invariant realSize <= old(realSize) && NoneEmpty(ring, view.world)
        invariant SameBlocks(old(view), view) && MemorySame(old(mem), mem, old(view).live)
        invariant old(cached) != [] || old(realSize) + CHUNK_SIZE <= limit ==>
          view == old(view) && ring == old(ring) && cached == old(cached) && realSize == old(realSize)
        invariant NothingToCollect(old(view)) ==> view == old(view) && ring == old(ring)
        invariant view == old(view) || (FreedExactly(old(view), view) && NothingToCollect(view))
        decreases |SmallRuns(view.world)|
      {
        ghost var f1, v1, mem1 := Parts(), view, mem;
        var collected := GcKeeping();
        SameLive(v1, view);
        if v1 != old(view) {
          FreedTwice(f1, mem1, old(view), v1, view);
        }
        StepTrans(old(mem), old(view), mem1, v1, mem, view);
        RingNoDup(Parts(), mem, view);
        if collected == 0 {
          return if overflow then OutOfMemory else LimitReached;
        }
      }
      r := Got;
    }

    /** Either a collection keeps some run of the main chunk, or the main chunk has no run at all, so
        that any page run fits in it and no collection takes place. */
    ghost predicate MainSafe()
      reads this
      requires Core()
    {
      MainKept(Parts(), view) || MainEmpty(Parts(), view)
    }

    /** The part of zend_mm_alloc_pages after the search has failed in every chunk. */
    method AllocInNew(count: nat, steps: nat) returns (r: Grab, c: nat)
      requires Core() && 1 <= count < PAGES && MainStays()
      requires NoneEmpty(ring, view.world)
      modifies this`chunks, this`ring, this`cached, this`freeSlot, this`mem, this`realSize, this`realPeak,
               this`chunksCount, this`peakChunksCount, this`cachedChunksCount,
               this`lastDeleteBoundary, this`lastDeleteCount, this`view
      ensures Core() && MemorySame(old(mem), mem, old(view).live)
      ensures realSize <= old(realSize) || (r.Got? && (overflow || realSize <= limit))
      ensures realPeak == Max(old(realPeak), realSize)
      ensures realSize <= old(realSize) + CHUNK_SIZE && |ring| > 0 && ring[0] == old(ring)[0]
      ensures r.Got? ==> Placed(old(view), view, c, FIRST_PAGE, count)
                         && c in view.world && view.world[c] == map[FIRST_PAGE := Large(count)]
      ensures old(cached) != [] ==> r.Got? && c == old(cached)[0] && realSize == old(realSize)
      ensures r.Got? ==> NewInRing(ring, c, steps > 2 && count < 8)
      ensures !r.Got? ==> SameBlocks(old(view), view)
      ensures r.LimitReached? ==> !overflow && cached == [] && realSize + CHUNK_SIZE > limit && NothingToCollect(view)
      ensures r.LimitReached? && NothingToCollect(old(view)) ==> SameOnRing(old(ring), old(view).world, ring, view.world)
      ensures r.LimitReached? ==> FreedExactly(old(view), view) && MainStays()
      ensures r.OutOfMemory? ==> (overflow || realSize + CHUNK_SIZE <= limit) && NothingToCollect(view)
      ensures NoneEmpty(ring, view.world)
    {
      hide NoneEmpty, NoneEmptyBut, Agree, HugeTotal, MemorySame, SameBlocks, MainKept, NothingToCollect, SameOnRing, FreedExactly,
           Joined, Takeable, LargeView, Placed, NewInRing;
      c := 0;
      r := GrabChunk();
      if r.Got? {
        JoinedTakeable(Parts(), mem, view, count);
        ghost var v1, ring1 := view, ring;
        NewChunkPlace(ring, |ring| - 1, steps > 2 && count < 8);
        c := TakeRun(|ring| - 1, FIRST_PAGE, count, steps);
        assert c == ring1[|ring1| - 1] && v1.world[c] == map[];
        PlacedThere(old(view), v1, c, FIRST_PAGE, count);
      }
    }

    /** zend_mm_alloc_pages */
    method AllocPages(count: nat) returns (r: Grab, c: nat, page: nat)
      requires Core() && 1 <= count < PAGES && MainSafe()
      requires NoneEmpty(ring, view.world)
      modifies this`chunks, this`ring, this`cached, this`freeSlot, this`mem, this`realSize, this`realPeak,
               this`chunksCount, this`peakChunksCount, this`cachedChunksCount,
               this`lastDeleteBoundary, this`lastDeleteCount, this`view
      ensures Core() && MemorySame(old(mem), mem, old(view).live)
      ensures realSize <= old(realSize) || (r.Got? && (overflow || realSize <= limit))
      ensures realPeak == Max(old(realPeak), realSize)
      ensures old(MainEmpty(Parts(), view)) ==> r.Got? && c == ring[0]
      ensures realSize <= old(realSize) + CHUNK_SIZE && |ring| > 0 && ring[0] == old(ring)[0]
      ensures r.Got? ==> Placed(old(view), view, c, page, count)
      ensures r.Got? ==>
        || TakenFrom(old(chunks), old(ring), old(view), view, c, page, count)
        || (NoneFits(old(chunks), old(ring), count) && page == FIRST_PAGE
            && c in view.world && view.world[c] == map[FIRST_PAGE := Large(count)])
      ensures r.Got? && !NoneFits(old(chunks), old(ring), count) ==>
        RingAfter(old(chunks), old(ring), count, c, page, ring) && cached == old(cached) && realSize == old(realSize)
      ensures NoneFits(old(chunks), old(ring), count) && old(cached) != [] ==>
        r.Got? && c == old(cached)[0] && realSize == old(realSize)
      ensures r.Got? && NoneFits(old(chunks), old(ring), count) ==> NewInRing(ring, c, |old(ring)| > 3 && count < 8)
      ensures !r.Got? ==> NoneFits(old(chunks), old(ring), count) && SameBlocks(old(view), view)
      ensures r.LimitReached? ==> !overflow && cached == [] && realSize + CHUNK_SIZE > limit && NothingToCollect(view)
      ensures r.LimitReached? && NothingToCollect(old(view)) ==> NoneFits(chunks, ring, count)
      ensures r.LimitReached? ==> (NoneFits(chunks, ring, count) <==> NoGap(old(view), count))
      ensures r.OutOfMemory? ==> (overflow || realSize + CHUNK_SIZE <= limit) && NothingToCollect(view)
      ensures NoneEmpty(ring, view.world)
    {
      hide NoneEmpty, NoneEmptyBut, Agree, HugeTotal, MemorySame, SameBlocks, MainKept, MainEmpty, NothingToCollect,
           SameOnRing, FreedExactly, NoGap, Joined, FirstFit, NoneFits, Takeable, OnlyTails, LargeView, Placed, NewInRing,
           RingAfter, MovedUp;
      ghost var f0 := Parts();
      var found, i;
      found, i, page := FindInRing(count);
      c := 0;
      if found {
        ghost var v1 := view;
        MemoryStart(mem, view.live);
        TakeableIndex(chunks, ring, i, page, count);
        FilledOther(ring, view.world, i);
        EmptyMainFits(f0, mem, view, i, page, count);
        FoundRing(old(chunks), old(ring), count, i, page);
        c := TakeRun(i, page, count, i);
        PlacedHere(f0, mem, old(view), c, page, count);
        r := Got;
      } else {
        NotEmptyMain(f0, Parts(), mem, view, count);
        r, c := AllocInNew(count, |ring| - 1);
        if r.LimitReached? {
          NoneFitsAfter(f0, old(mem), old(view), Parts(), mem, view, count);
        }
        if r.LimitReached? && NothingToCollect(old(view)) {
          NoneFitsStill(f0, old(mem), old(view), Parts(), mem, view, count);
        }
        page := FIRST_PAGE;
      }
    }

    /** zend_mm_alloc_small_slow: a new run for bin `bin`; its first element is handed out. */
    method AllocSmallSlow(bin: nat) returns (r: Grab, ptr: nat, ghost sl: Slot)
      requires Core() && bin < BINS && view.free[bin] == [] && MainSafe()
      requires NoneEmpty(ring, view.world)
      modifies this`chunks, this`ring, this`cached, this`freeSlot, this`mem, this`realSize, this`realPeak,
               this`chunksCount, this`peakChunksCount, this`cachedChunksCount,
               this`lastDeleteBoundary, this`lastDeleteCount, this`view
      ensures Core() && MemorySame(old(mem), mem, old(view).live)
      ensures realSize <= old(realSize) || (r.Got? && (overflow || realSize <= limit))
      ensures realPeak == Max(old(realPeak), realSize)
      ensures old(MainEmpty(Parts(), view)) ==> r.Got? && sl.chunk == ring[0]
      ensures realSize <= old(realSize) + CHUNK_SIZE && |ring| > 0 && ring[0] == old(ring)[0]
      ensures r.Got? ==> PlacedSmall(old(view), view, sl, bin) && ptr == SlotAddr(sl) && sl.index == 0
                         && view.free[bin] == RestSlots(sl.chunk, sl.page, bin)
      ensures r.Got? && !NoneFits(old(chunks), old(ring), BinPages(bin)) ==>
        TakenSmall(old(chunks), old(ring), old(view), view, sl, bin)
      ensures !r.Got? ==> SameBlocks(old(view), view) && NoneFits(old(chunks), old(ring), BinPages(bin))
      ensures r.LimitReached? ==> !overflow && cached == [] && realSize + CHUNK_SIZE > limit
      ensures !r.Got? ==> NothingToCollect(view)
      ensures NoneEmpty(ring, view.world)
    {
      hide NoneEmpty, NoneEmptyBut, Agree, HugeTotal, MemorySame, SameBlocks, MainKept, MainEmpty, NothingToCollect,
           FirstFit, NoneFits, LargeView, SmallView, TakenFrom, TakenSmall, Placed, PlacedSmall, BinPages, RestSlots, SlotAddr;
      Lengths(Parts(), mem, view);
      BinPagesRange(bin);
      var c, page;
      r, c, page := AllocPages(BinPages(bin));
      ptr := 0;
      sl := Slot(c, page, bin, 0);
      if r.Got? {
        ghost var mem1, v1 := mem, view;
        ptr := FormatRun(c, page, bin, old(view));
        MemoryTrans(old(mem), mem1, mem, old(view).live);
        if !NoneFits(old(chunks), old(ring), BinPages(bin)) {
          TakenThenSmall(old(chunks), old(ring), old(view), v1, view, sl, bin);
        }
      }
    }

    /** The rest of zend_mm_alloc_small_slow: the new pages become a run of bin `bin`. */
    method FormatRun(c: nat, page: nat, bin: nat, ghost v0: View) returns (ptr: nat)
      requires Core() && bin < BINS == |v0.free| && v0.free[bin] == [] && Placed(v0, view, c, page, BinPages(bin))
      requires NoneEmpty(ring, view.world)
      modifies this`chunks, this`freeSlot, this`mem, this`view
      ensures Core() && MemorySame(old(mem), mem, v0.live)
      ensures PlacedSmall(v0, view, Slot(c, page, bin, 0), bin) && ptr == SlotAddr(Slot(c, page, bin, 0))
      ensures view.free[bin] == RestSlots(c, page, bin)
      ensures c in old(view).world && |old(view).free| == BINS && view == SmallView(old(view), c, page, bin)
      ensures NoneEmpty(ring, view.world)
    {
      hide NoneEmpty, Agree, HugeTotal, MemorySame, Placed, PlacedSmall, BinPages, BinSize, BinElements, RestSlots,
           SmallView, LinkedBelow, SameOutside, PageAddr, SlotAddr, SmallInfo, Offset;
      BinTable(bin);
      SlowHeader(Parts(), mem, v0, view, c, page, bin);
      SmallFilled(ring, view, c, page, bin);
      ptr := PageAddr(c, page);
      var info := WriteSmallInfo(chunks[c].info, page, bin);
      var mem1 := LinkRun(mem, ptr, bin);
      SlowAgree(Parts(), mem, mem1, v0, view, c, page, bin);
      chunks := chunks[c := chunks[c].(info := info)];
      freeSlot := freeSlot[bin := ptr + BinSize(bin)];
      mem := mem1;
      view := SmallView(view, c, page, bin);
    }

    /** zend_mm_alloc_small. The usage counter is raised first and stays raised if the allocation
        fails; `lost` records that. */
    method AllocSmall(bin: nat) returns (r: Grab, ptr: nat, ghost sl: Slot)
      requires Valid() && bin < BINS && MainSafe()
      modifies this`chunks, this`ring, this`cached, this`freeSlot, this`mem, this`realSize, this`realPeak,
               this`chunksCount, this`peakChunksCount, this`cachedChunksCount,
               this`lastDeleteBoundary, this`lastDeleteCount, this`view, this`size, this`peak, this`lost
      ensures Valid() && MemorySame(old(mem), mem, old(view).live)
      ensures realSize <= old(realSize) || (r.Got? && (overflow || realSize <= limit))
      ensures realPeak == Max(old(realPeak), realSize)
      ensures realSize <= old(realSize) + CHUNK_SIZE && |ring| > 0 && ring[0] == old(ring)[0]
      ensures |old(view).free| == BINS
      ensures old(MainEmpty(Parts(), view)) && old(view.free[bin] == []) ==> r.Got? && sl.chunk == ring[0]
      ensures size == old(size) + BinSize(bin) && peak == Max(old(peak), size)
      ensures lost == old(lost) + if r.Got? then 0 else BinSize(bin)
      ensures r.Got? ==> PlacedSmall(old(view), view, sl, bin) && ptr == SlotAddr(sl)
      ensures old(view).free[bin] != [] ==> r.Got? && view == PoppedView(old(view), bin) && realSize == old(realSize)
      ensures r.Got? && old(view).free[bin] == [] && !NoneFits(old(chunks), old(ring), BinPages(bin)) ==>
        TakenSmall(old(chunks), old(ring), old(view), view, sl, bin)
      ensures !r.Got? ==> SameBlocks(old(view), view) && NoneFits(old(chunks), old(ring), BinPages(bin))
      ensures r.LimitReached? ==> !overflow && cached == [] && realSize + CHUNK_SIZE > limit
      ensures !r.Got? ==> NothingToCollect(view)
    {
      hide NoneEmpty, Agree, HugeTotal, MemorySame, SameBlocks, MainKept, MainEmpty, NothingToCollect, PlacedSmall,
           BinSize, SlotAddr, PoppedView, Total,
           NoneFits, TakenSmall, BinPages;
      Lengths(Parts(), mem, view);
      size := size + BinSize(bin);
      peak := Max(peak, size);
      r, ptr, sl := TakeSmall(bin);
      lost := lost + if r.Got? then 0 else BinSize(bin);
      SmallTotal(old(view), view, sl, bin, r);
    }

    /** The two branches of zend_mm_alloc_small. */
    method TakeSmall(bin: nat) returns (r: Grab, ptr: nat, ghost sl: Slot)
      requires Core() && bin < BINS == |view.free| && MainSafe()
      requires NoneEmpty(ring, view.world)
      modifies this`chunks, this`ring, this`cached, this`freeSlot, this`mem, this`realSize, this`realPeak,
               this`chunksCount, this`peakChunksCount, this`cachedChunksCount,
               this`lastDeleteBoundary, this`lastDeleteCount, this`view
      ensures Core() && MemorySame(old(mem), mem, old(view).live)
      ensures realSize <= old(realSize) || (r.Got? && (overflow || realSize <= limit))
      ensures realPeak == Max(old(realPeak), realSize)
      ensures realSize <= old(realSize) + CHUNK_SIZE && |ring| > 0 && ring[0] == old(ring)[0]
      ensures old(MainEmpty(Parts(), view)) && old(view.free[bin] == []) ==> r.Got? && sl.chunk == ring[0]
      ensures r.Got? ==> PlacedSmall(old(view), view, sl, bin) && ptr == SlotAddr(sl)
      ensures old(view).free[bin] != [] ==> r.Got? && view == PoppedView(old(view), bin) && realSize == old(realSize)
      ensures r.Got? && old(view).free[bin] == [] && !NoneFits(old(chunks), old(ring), BinPages(bin)) ==>
        TakenSmall(old(chunks), old(ring), old(view), view, sl, bin)
      ensures !r.Got? ==> SameBlocks(old(view), view) && NoneFits(old(chunks), old(ring), BinPages(bin))
      ensures r.LimitReached? ==> !overflow && cached == [] && realSize + CHUNK_SIZE > limit
      ensures !r.Got? ==> NothingToCollect(view)
      ensures NoneEmpty(ring, view.world)
    {
      hide NoneEmpty, NoneEmptyBut, Agree, HugeTotal, MemorySame, SameBlocks, MainKept, MainEmpty, NothingToCollect,
           PlacedSmall, SlotAddr, PoppedView, RestSlots,
           NoneFits, TakenSmall, BinPages;
      Lengths(Parts(), mem, view);
      PopAgree(Parts(), mem, view, bin);
      if freeSlot[bin] != 0 {
        MemoryStart(mem, view.live);
        ptr, sl := PopSmall(bin);
        r := Got;
      } else {
        r, ptr, sl := AllocSmallSlow(bin);
      }
    }

    /** The fast path of zend_mm_alloc_small: take the first slot of the free list. */
    method PopSmall(bin: nat) returns (ptr: nat, ghost sl: Slot)
      requires Core() && bin < BINS == |view.free| && view.free[bin] != []
      modifies this`freeSlot, this`view
      ensures Core() && ptr == SlotAddr(sl) && view == PoppedView(old(view), bin) && PlacedSmall(old(view), view, sl, bin)
      ensures view.world == old(view).world
    {
      hide Agree, HugeTotal, PlacedSmall, SlotAddr, PoppedView, ReadLink;
      PopAgree(Parts(), mem, view, bin);
      PopPlaced(Parts(), mem, view, bin);
      ptr, sl := freeSlot[bin], view.free[bin][0];
      freeSlot := freeSlot[bin := ReadLink(mem, ptr)];
      view := PoppedView(view, bin);
    }

    // ---------------------------------------------------------------- large blocks

    /** zend_mm_alloc_large */
    method AllocLarge(bytes: nat) returns (r: Grab, ptr: nat)
      requires Valid() && MAX_SMALL_SIZE < bytes <= MAX_LARGE_SIZE && MainSafe()
      modifies this`chunks, this`ring, this`cached, this`freeSlot, this`mem, this`realSize, this`realPeak,
               this`chunksCount, this`peakChunksCount, this`cachedChunksCount,
               this`lastDeleteBoundary, this`lastDeleteCount, this`view, this`size, this`peak
      ensures Valid() && MemorySame(old(mem), mem, old(view).live)
      ensures realSize <= old(realSize) || overflow || realSize <= limit
      ensures realPeak == Max(old(realPeak), realSize)
      ensures realSize <= old(realSize) + CHUNK_SIZE && |ring| > 0 && ring[0] == old(ring)[0]
      ensures r.Got? ==>
        && ptr !in old(view).live && ptr in view.live && view.live[ptr].block.LargeBlock?
        && view.live == old(view).live[ptr := Entry(view.live[ptr].block, PageCount(bytes) * PAGE_SIZE)]
        && view.huge == old(view).huge && view.nodes == old(view).nodes
        && size == old(size) + PageCount(bytes) * PAGE_SIZE && peak == Max(old(peak), size)
      ensures old(MainEmpty(Parts(), view)) ==> r.Got? && view.live[ptr].block.chunk == ring[0]
      ensures r.Got? && !NoneFits(old(chunks), old(ring), PageCount(bytes)) ==>
        TakenFrom(old(chunks), old(ring), old(view), view, view.live[ptr].block.chunk, view.live[ptr].block.page,
                  PageCount(bytes))
      ensures !r.Got? ==> SameBlocks(old(view), view) && size == old(size) && peak == old(peak)
      ensures !r.Got? ==> NoneFits(old(chunks), old(ring), PageCount(bytes))
      ensures r.LimitReached? ==> !overflow && cached == [] && realSize + CHUNK_SIZE > limit
      ensures !r.Got? ==> NothingToCollect(view)
    {
      hide NoneEmpty, Agree, HugeTotal, MemorySame, SameBlocks, MainKept, MainEmpty, NothingToCollect, FirstFit,
           NoneFits, LargeView, TakenFrom, Placed, PageAddr, Total;
      PageCountRange(bytes);
      var count := PageCount(bytes);
      var c, page;
      r, c, page := AllocPages(count);
      LargeTotal(old(view), view, c, page, count, r);
      ptr := PageAddr(c, page);
      if r.Got? {
        size := size + count * PAGE_SIZE;
        peak := Max(peak, size);
      }
    }

    /** zend_mm_free_large for the block at `ptr`, the run of `count` pages at page `page` of chunk
        `c`. The last run of the main chunk must stay. */
    method FreeLarge(ptr: nat, c: nat, page: nat, count: nat)
      requires Valid() && ptr in view.live && view.live[ptr].block == LargeBlock(c, page)
      requires c in view.world && page in view.world[c] && view.world[c][page] == Large(count)
      requires c == ring[0] ==> view.world[c] != map[page := Large(count)]
      modifies this`chunks, this`ring, this`cached, this`realSize, this`chunksCount,
               this`cachedChunksCount, this`lastDeleteBoundary, this`lastDeleteCount, this`view, this`size
      ensures Valid() && size == old(size) - count * PAGE_SIZE && realSize <= old(realSize)
      ensures view.live == old(view).live - {ptr} && view.huge == old(view).huge && view.nodes == old(view).nodes
      ensures view.free == old(view).free && |ring| > 0 && ring[0] == old(ring)[0]
      ensures SubWorld(view.world, FreedView(old(view), c, page).world)
    {
      hide Agree, HugeTotal, Total, FreeRun, FreedView, SubWorld, NoneEmpty, NoneEmptyBut;
      Lengths(Parts(), mem, view);
      FreeLargeSteps(Parts(), mem, view, ptr, c, page, count);
      size := size - count * PAGE_SIZE;
      chunks := chunks[c := FreeRun(chunks[c], page, count)];
      view := FreedView(view, c, page);
      SubWorldSelf(view.world);
      if chunks[c].freePages == PAGES - FIRST_PAGE {
        DeleteEmpty(c);
      }
    }

    /** zend_mm_delete_chunk for a chunk given by its number. */
    method DeleteEmpty(c: nat)
      requires Core() && c in ring && c != ring[0] && c in view.world && view.world[c] == map[]
      requires NoneEmptyBut(ring, view.world, c)
      modifies this`chunks, this`ring, this`cached, this`realSize, this`chunksCount,
               this`cachedChunksCount, this`lastDeleteBoundary, this`lastDeleteCount, this`view
      ensures Core() && realSize <= old(realSize) && |ring| > 0 && ring[0] == old(ring)[0]
      ensures view == old(view).(world := view.world) && SubWorld(view.world, old(view).world)
      ensures NoneEmpty(ring, view.world)
    {
      hide AgreeBut, HugeTotal;
      var i :| 0 <= i < |ring| && ring[i] == c;
      ghost var f0 := Parts();
      DeleteChunk(i, {});
      DeletedFilled(f0, mem, old(view), i, Parts(), view);
    }

    // ----------------------------------------------------------------- huge blocks

    /** The limit check of zend_mm_alloc_huge and its two attempts to get memory from the OS, of which
        only the success is settled here. */
    method HugeRoom(n: nat) returns (r: Grab)
      requires Core() && MainStays()
      requires NoneEmpty(ring, view.world)
      modifies this`chunks, this`ring, this`cached, this`freeSlot, this`mem, this`realSize,
               this`chunksCount, this`cachedChunksCount, this`lastDeleteBoundary, this`lastDeleteCount, this`view
      ensures Core() && MainStays() && |ring| > 0 && ring[0] == old(ring)[0] && realSize <= old(realSize)
      ensures SameBlocks(old(view), view) && MemorySame(old(mem), mem, old(view).live)
      ensures r.Got? ==> overflow || realSize + n <= limit
      ensures r.LimitReached? ==> !overflow && realSize + n > limit
      ensures !r.Got? ==> NothingToCollect(view)
      ensures NoneEmpty(ring, view.world)
    {
      hide NoneEmpty, Agree, HugeTotal, MemorySame, SameBlocks, MainKept, SmallRuns, NothingToCollect;
      SameBlocksStart(Parts(), mem, view);
      RingNoDup(Parts(), mem, view);
      MemoryStart(mem, view.live);
      if realSize + n > limit {
        var collected := GcAgain(old(mem), old(view));
        if !(collected > 0 && realSize + n <= limit) && !overflow {
          return LimitReached;
        }
      }
      var mapped: bool := *;
      if !mapped {
        var collected := GcAgain(old(mem), old(view));
        mapped := *;
        mapped := mapped && collected > 0;
      }
      r := if mapped then Got else OutOfMemory;
    }

    /** zend_mm_gc after steps that have kept all blocks. */
    method GcAgain(ghost mem0: Memory, ghost v0: View) returns (collected: nat)
      requires Core() && MainStays() && SameBlocks(v0, view) && MemorySame(mem0, mem, v0.live)
      requires NoneEmpty(ring, view.world)
      modifies this`chunks, this`ring, this`cached, this`freeSlot, this`mem, this`realSize, this`chunksCount,
               this`cachedChunksCount, this`lastDeleteBoundary, this`lastDeleteCount, this`view
      ensures Core() && MainStays() && |ring| > 0 && ring[0] == old(ring)[0] && realSize <= old(realSize)
      ensures SameBlocks(v0, view) && MemorySame(mem0, mem, v0.live) && NothingToCollect(view)
      ensures NoneEmpty(ring, view.world)
      ensures collected == 0 ==> realSize == old(realSize)
    {
      hide NoneEmpty, Agree, HugeTotal, MemorySame, SameBlocks, MainKept, SmallRuns, NothingToCollect;
      collected := GcKeeping();
      SameLive(old(view), view);
      StepTrans(mem0, v0, old(mem), old(view), mem, view);
      RingNoDup(Parts(), mem, view);
    }

    /** The place of a new region: any aligned place that nothing uses. */
    method OsPlace(bytes: nat) returns (ptr: nat)
      requires Core() && bytes > 0
      ensures ptr > 0 && ptr % CHUNK_SIZE == 0 && ptr !in view.huge
      ensures RegionFree(view.world, view.huge, ptr, bytes, ptr)
    {
      hide InventoryOk, RingOk, LinksOk, NodesOk, ChunkOk, HugeTotal;
      PlaceExists(chunks, hugeList, bytes);
      ptr :| PlaceFree(chunks, hugeList, ptr, bytes);
    }

    /** zend_mm_alloc_huge. The region is placed when its list cell exists: the OS keeps it apart
        from a chunk that the cell may have needed. */
    method AllocHuge(bytes: nat) returns (r: Grab, ptr: nat, ghost cell: Slot)
      requires Valid() && bytes > MAX_LARGE_SIZE && MainStays()
      modifies this`chunks, this`ring, this`cached, this`freeSlot, this`mem, this`realSize, this`realPeak,
               this`chunksCount, this`peakChunksCount, this`cachedChunksCount, this`hugeList,
               this`lastDeleteBoundary, this`lastDeleteCount, this`view, this`size, this`peak, this`lost
      ensures Valid() && MemorySame(old(mem), mem, old(view).live) && |ring| > 0 && ring[0] == old(ring)[0]
      ensures realSize <= old(realSize) || overflow || realSize <= limit + CHUNK_SIZE
      ensures realPeak == Max(old(realPeak), realSize) && peak == Max(old(peak), size)
      ensures r.Got? ==> PlacedHuge(old(view), view, ptr, AlignedUp(bytes, realPage), cell)
      ensures r.Got? ==> size == old(size) + AlignedUp(bytes, realPage) + BinSize(NODE_BIN) && lost == old(lost)
      ensures lost == old(lost) || lost == old(lost) + BinSize(NODE_BIN)
      ensures !r.Got? ==> SameBlocks(old(view), view)
      ensures lost > old(lost) ==> |view.free| == BINS && view.free[NODE_BIN] == []
      ensures r.LimitReached? ==> (lost == old(lost) <==> realSize + AlignedUp(bytes, realPage) > limit)
      ensures r.LimitReached? ==> !overflow && realSize + Max(AlignedUp(bytes, realPage), CHUNK_SIZE) > limit
      ensures !r.Got? ==> NothingToCollect(view)
    {
      hide NoneEmpty, Agree, HugeTotal, MemorySame, SameBlocks, MainKept, NothingToCollect, PlacedHuge, PlacedSmall,
           Total, SlotAddr, BinSize, AlignedUp, PoppedView;
      var n := AlignedUp(bytes, realPage);
      ptr, cell := 0, Slot(0, 0, 0, 0);
      AlignedUpBounds(bytes, realPage);
      BinSizes(NODE_BIN);
      r := HugeRoom(n);
      SameLive(old(view), view);
      if r.Got? {
        ghost var v1, mem1 := view, mem;
        r, ptr, cell := RecordHuge(n);
        HugeSteps(old(mem), mem1, mem, old(view), v1, view, ptr, n, cell, r);
      }
    }

    /** The part of zend_mm_alloc_huge after the OS has returned a region. */
    method RecordHuge(n: nat) returns (r: Grab, ptr: nat, ghost cell: Slot)
      requires Valid() && n > MAX_LARGE_SIZE && MainSafe() && (overflow || realSize + n <= limit)
      modifies this`chunks, this`ring, this`cached, this`freeSlot, this`mem, this`realSize, this`realPeak,
               this`chunksCount, this`peakChunksCount, this`cachedChunksCount, this`hugeList,
               this`lastDeleteBoundary, this`lastDeleteCount, this`view, this`size, this`peak, this`lost
      ensures Valid() && MemorySame(old(mem), mem, old(view).live) && |ring| > 0 && ring[0] == old(ring)[0]
      ensures overflow || realSize <= limit + CHUNK_SIZE
      ensures realPeak == Max(old(realPeak), realSize) && peak == Max(old(peak), size)
      ensures r.Got? ==> PlacedHuge(old(view), view, ptr, n, cell)
      ensures r.Got? ==> size == old(size) + n + BinSize(NODE_BIN)
      ensures lost == old(lost) + if r.Got? then 0 else BinSize(NODE_BIN)
      ensures !r.Got? ==> SameBlocks(old(view), view) && realSize <= old(realSize)
      ensures !r.Got? ==> |view.free| == BINS && view.free[NODE_BIN] == []
      ensures r.LimitReached? ==> !overflow && cached == [] && realSize + CHUNK_SIZE > limit
      ensures !r.Got? ==> NothingToCollect(view)
    {
      hide NoneEmpty, Agree, HugeTotal, MemorySame, SameBlocks, MainKept, MainEmpty, NothingToCollect, PlacedHuge,
           PlacedSmall, Total, SlotAddr, BinSize, PoppedView, HugeAdded, NoneFits, TakenSmall,
           BinPages;
      ghost var f0 := Parts();
      ptr := 0;
      var node;
      r, node, cell := AllocSmall(NODE_BIN);
      if r.Got? {
        NewCell(f0, old(mem), old(view), view, cell);
        ghost var v1 := view;
        ptr := AddHugeBlock(n, node, cell);
        SameBlocksStart(f0, old(mem), old(view));
        PlacedHugeThere(old(view), old(view), v1, ptr, n, cell);
      } else {
        StillEmpty(old(view), view, NODE_BIN);
      }
    }

    /** zend_mm_add_huge_block, and the counters. */
    method AddHugeBlock(n: nat, node: nat, ghost cell: Slot) returns (ptr: nat)
      requires Valid() && n > MAX_LARGE_SIZE && node == SlotAddr(cell) && cell.bin == NODE_BIN && cell !in view.nodes
      requires node in view.live && view.live[node].block == SmallBlock(cell)
      modifies this`hugeList, this`realSize, this`realPeak, this`size, this`peak, this`view
      ensures Valid() && ptr !in old(view).live && view == HugeAdded(old(view), ptr, n, cell)
      ensures hugeList == [HugeNode(node, ptr, n)] + old(hugeList)
      ensures realSize == old(realSize) + n && realPeak == Max(old(realPeak), realSize)
      ensures size == old(size) + n && peak == Max(old(peak), size)
    {
      hide NoneEmpty, Agree, Total, SlotAddr, RegionFree;
      ptr := OsPlace(n);
      AddHugeAgree(Parts(), mem, view, ptr, n, cell);
      TotalAdd(view.live, ptr, Entry(HugeBlock(ptr), n));
      hugeList := [HugeNode(node, ptr, n)] + hugeList;
      realSize := realSize + n;
      realPeak := Max(realPeak, realSize);
      size := size + n;
      peak := Max(peak, size);
      view := HugeAdded(view, ptr, n, cell);
    }

    /** zend_mm_get_huge_block_size, as a position of the list. */
    method FindHuge(ptr: nat) returns (i: nat)
      requires Core() && ptr in view.live && view.live[ptr].block.HugeBlock?
      ensures i < |hugeList| && hugeList[i].ptr == ptr && view.live[ptr] == Entry(HugeBlock(ptr), hugeList[i].size)
      ensures ptr in view.huge && view.huge[ptr] == hugeList[i].size
    {
      hide Agree, HugeTotal;
      HugeListed(Parts(), mem, view, ptr);
      i := 0;
      while hugeList[i].ptr != ptr
        invariant i < |hugeList| && forall k :: 0 <= k < i ==> hugeList[k].ptr != ptr
        decreases |hugeList| - i
      {
        i := i + 1;
      }
      HugeEntry(Parts(), mem, view, i);
    }

    /** Entry `i` leaves the list of huge blocks, and its region goes back to the OS. */
    method UnlinkHuge(i: nat)
      requires Valid() && i < |hugeList|
      modifies this`hugeList, this`realSize, this`size, this`view
      ensures Valid() && |old(view).nodes| == |old(hugeList)| && hugeList == Removed(old(hugeList), i)
      ensures var n := old(hugeList)[i];
        && n.ptr in old(view).live && realSize == old(realSize) - n.size && size == old(size) - n.size
        && view == HugeRemoved(old(view), n.ptr, i)
        && n.node in view.live && view.live[n.node] == Entry(SmallBlock(old(view).nodes[i]), BinSize(NODE_BIN))
        && n.node == SlotAddr(old(view).nodes[i]) && old(view).nodes[i].bin == NODE_BIN
        && old(view).nodes[i] !in view.nodes
    {
      hide NoneEmpty, Agree, HugeTotal, Total, SlotAddr, BinSize, Removed;
      RemoveHugeAgree(Parts(), mem, view, i);
      TotalRemove(view.live, hugeList[i].ptr);
      HugeTotalWithout(hugeList, i);
      var n := hugeList[i];
      hugeList := Removed(hugeList, i);
      realSize := realSize - n.size;
      size := size - n.size;
      view := HugeRemoved(view, n.ptr, i);
    }

    /** zend_mm_free_huge with zend_mm_del_huge_block. */
    method FreeHuge(ptr: nat)
      requires Valid() && ptr in view.live && view.live[ptr].block.HugeBlock?
      modifies this`hugeList, this`realSize, this`size, this`freeSlot, this`mem, this`view
      ensures Valid() && Released(old(view), view, ptr) && MemorySame(old(mem), mem, view.live)
      ensures realSize == old(realSize) - old(view).live[ptr].size
      ensures size == old(size) - old(view).live[ptr].size - BinSize(NODE_BIN)
    {
      hide NoneEmpty, Agree, HugeTotal, Total, MemorySame, SlotAddr, BinSize, Removed, Released;
      ghost var f0 := Parts();
      var i := FindHuge(ptr);
      var node := hugeList[i].node;
      UnlinkHuge(i);
      FreeSmall(node, NODE_BIN, old(view).nodes[i]);
      HugeReleased(f0, old(mem), old(view), view, i, ptr);
    }

    // ---------------------------------------------------------- the public operations

    /** zend_set_memory_limit */
    method SetLimit(bytes: nat)
      modifies this`limit
      ensures limit == Max(bytes, CHUNK_SIZE)
    {
      limit := if bytes >= CHUNK_SIZE then bytes else CHUNK_SIZE;
    }

    /** A caller stores a byte in a block it owns. */
    method Store(a: nat, x: int, ghost p: nat)
      requires Valid() && p in Owned(view) && p <= a < p + Owned(view)[p]
      modifies this`mem
      ensures Valid() && mem(a) == Data(x) && forall b: nat :: b != a ==> mem(b) == old(mem)(b)
    {
      hide NoneEmpty, Agree, Owned, HugeTotal, Total;
      OwnedLive(view, p);
      var m := mem;
      StoreInside(Parts(), mem, view, p, a, x);
      mem := (b: nat) => if b == a then Data(x) else m(b);
    }

    /** zend_mm_alloc_heap */
    method Alloc(bytes: nat) returns (r: Grab, ptr: nat)
      requires Valid() && MainSafe() && (bytes > MAX_LARGE_SIZE ==> MainStays())
      modifies this`chunks, this`ring, this`cached, this`freeSlot, this`mem, this`realSize, this`realPeak,
               this`chunksCount, this`peakChunksCount, this`cachedChunksCount, this`hugeList,
               this`lastDeleteBoundary, this`lastDeleteCount, this`view, this`size, this`peak, this`lost
      ensures Valid() && MemorySame(old(mem), mem, old(view).live) && |ring| > 0 && ring[0] == old(ring)[0]
      ensures Allocated(old(view), view, r, ptr, RoundedSize(bytes, realPage))
      ensures realSize <= old(realSize) || overflow || realSize <= limit + CHUNK_SIZE
      ensures realPeak == Max(old(realPeak), realSize) && peak == Max(old(peak), size)
      ensures (r.LimitReached? ==> !overflow) && (!r.Got? ==> NothingToCollect(view))
      ensures r.LimitReached? ==> realSize + Max(RoundedSize(bytes, realPage), CHUNK_SIZE) > limit
      ensures old(Fresh(Parts(), view)) && bytes <= MAX_LARGE_SIZE ==> r.Got? && Pinned(Parts(), view, ptr)
      ensures LostBy(old(lost), lost, bytes, r)
      ensures bytes > MAX_LARGE_SIZE && lost > old(lost) ==> |view.free| == BINS && view.free[NODE_BIN] == []
      ensures bytes > MAX_LARGE_SIZE && r.LimitReached? ==>
        (lost == old(lost) <==> realSize + RoundedSize(bytes, realPage) > limit)
    {
      hide NoneEmpty, Agree, HugeTotal, Total, MemorySame, SlotAddr, BinSize, Owned, Allocated, PlacedSmall,
           PlacedHuge, SameBlocks, MainKept, MainEmpty, NothingToCollect, PageCount, AlignedUp, PoppedView,
           SizeToBin, Pinned;
      ghost var f0 := Parts();
      if bytes <= MAX_SMALL_SIZE {
        SizeToBinIsSmallest(bytes);
        ghost var sl;
        r, ptr, sl := AllocSmall(SizeToBin(bytes));
        SmallAllocated(f0, old(mem), Parts(), old(view), view, r, ptr, sl, SizeToBin(bytes));
      } else if bytes <= MAX_LARGE_SIZE {
        r, ptr := AllocLarge(bytes);
        LargeAllocated(f0, old(mem), Parts(), old(view), view, r, ptr, PageCount(bytes) * PAGE_SIZE);
      } else {
        ghost var cell;
        r, ptr, cell := AllocHuge(bytes);
        HugeAllocated(f0, old(mem), old(view), view, r, ptr, AlignedUp(bytes, realPage), cell);
      }
    }

    /** zend_mm_free_heap for any owned block but the one large block that alone keeps the main chunk. */
    method Free(ptr: nat)
      requires Valid() && (ptr != 0 ==> ptr in Owned(view) && !LastInMain(Parts(), view, ptr))
      modifies this`chunks, this`ring, this`cached, this`freeSlot, this`mem, this`realSize, this`chunksCount,
               this`cachedChunksCount, this`lastDeleteBoundary, this`lastDeleteCount, this`hugeList, this`view, this`size
      ensures Valid() && MemorySame(old(mem), mem, view.live) && |ring| > 0 && ring[0] == old(ring)[0]
      ensures Released(old(view), view, ptr) && realSize <= old(realSize)
    {
      hide NoneEmpty, Agree, HugeTotal, Total, MemorySame, SlotAddr, BinSize, Owned, Released, Decoded, LastInMain;
      Lengths(Parts(), mem, view);
      if ptr % CHUNK_SIZE == 0 {
        if ptr != 0 {
          OwnedSlot(Parts(), mem, view, ptr);
          DecodeBlock(Parts(), mem, view, ptr);
          DecodedFacts(Parts(), view, ptr);
          FreeHuge(ptr);
        } else {
          MemoryStart(mem, view.live);
          ReleasedNull(Parts(), mem, view);
        }
      } else {
        FreeInChunk(ptr);
      }
    }

    /** The part of zend_mm_free_heap for an address inside a chunk. */
    method FreeInChunk(ptr: nat)
      requires Valid() && ptr in Owned(view) && ptr % CHUNK_SIZE != 0 && !LastInMain(Parts(), view, ptr)
      modifies this`chunks, this`ring, this`cached, this`freeSlot, this`mem, this`realSize, this`chunksCount,
               this`cachedChunksCount, this`lastDeleteBoundary, this`lastDeleteCount, this`view, this`size
      ensures Valid() && MemorySame(old(mem), mem, view.live) && |ring| > 0 && ring[0] == old(ring)[0]
      ensures Released(old(view), view, ptr) && realSize <= old(realSize)
    {
      hide NoneEmpty, Agree, HugeTotal, Total, MemorySame, SlotAddr, BinSize, Owned, Released, Decoded, FreedView,
           PushedView, SubWorld, IsSrun, SrunBin, LrunPages, LastInMain;
      Lengths(Parts(), mem, view);
      OwnedSlot(Parts(), mem, view, ptr);
      DecodeBlock(Parts(), mem, view, ptr);
      DecodedFacts(Parts(), view, ptr);
      var c, page := ptr / CHUNK_SIZE, ptr % CHUNK_SIZE / PAGE_SIZE;
      var info := chunks[c].info[page];
      if IsSrun(info) {
        FreeSmall(ptr, SrunBin(info), view.live[ptr].block.slot);
      } else {
        NotLast(Parts(), view, ptr, c, page, LrunPages(info));
        FreeLarge(ptr, c, page, LrunPages(info));
        MemoryStart(mem, view.live);
      }
      ReleasedOther(old(view), view, ptr);
    }

    /** zend_mm_size */
    method Size(ptr: nat) returns (n: nat)
      requires Valid() && ptr in Owned(view)
      ensures n == Owned(view)[ptr]
    {
      hide NoneEmpty, Agree, HugeTotal, Total, SlotAddr, BinSize, Owned, Decoded, IsSrun, SrunBin, LrunPages;
      OwnedSlot(Parts(), mem, view, ptr);
      DecodeBlock(Parts(), mem, view, ptr);
      DecodedFacts(Parts(), view, ptr);
      DecodedSize(Parts(), mem, view, ptr);
      if ptr % CHUNK_SIZE == 0 {
        var i := FindHuge(ptr);
        n := hugeList[i].size;
      } else {
        var info := chunks[ptr / CHUNK_SIZE].info[ptr % CHUNK_SIZE / PAGE_SIZE];
        n := if IsSrun(info) then BinSize(SrunBin(info)) else LrunPages(info) * PAGE_SIZE;
      }
    }

    // ---------------------------------------------------------------- reallocation

    /** A large run shrinks or grows in place. */
    method ResizeRun(ptr: nat, c: nat, page: nat, count: nat, pages: nat) returns (done: bool)
      requires Valid() && ptr in view.live && view.live[ptr].block == LargeBlock(c, page) && 1 <= pages < PAGES
      requires c in view.world && page in view.world[c] && view.world[c][page] == Large(count)
      modifies this`chunks, this`size, this`peak, this`view
      ensures Valid() && view.nodes == old(view).nodes
      ensures done ==> view.live == old(view).live[ptr := Entry(LargeBlock(c, page), pages * PAGE_SIZE)]
      ensures !done ==> view == old(view) && size == old(size) && peak == old(peak)
      ensures pages <= count ==> done
      ensures peak == Max(old(peak), size)
      ensures c in old(chunks) && PAGES == WORD_BITS * |old(chunks)[c].freeMap|
      ensures pages > count ==>
        (done <==> page + pages <= PAGES && FreeRange(old(chunks)[c].freeMap, page + count, pages - count))
    {
      hide NoneEmpty, Agree, HugeTotal, Total, PageAddr, ShrinkRun, GrowRun, FreeRange, LargeView;
      ResizeHeader(Parts(), mem, view, ptr, c, page, count);
      var h := chunks[c];
      if pages == count {
        SameEntry(view.live, ptr, Entry(LargeBlock(c, page), pages * PAGE_SIZE));
        return true;
      } else if pages > count {
        if page + pages > PAGES {
          return false;
        }
        done := PagesFree(h, page + count, pages - count);
        if !done {
          return;
        }
        GrowHeader(Parts(), mem, view, ptr, c, page, count, pages);
        h := GrowRun(h, page, count, pages);
      } else {
        ShrinkHeader(Parts(), mem, view, ptr, c, page, count, pages);
        h := ShrinkRun(h, page, count, pages);
        done := true;
      }
      LargeFilled(ring, view, c, page, pages);
      ResizedTotal(view, ptr, c, page, pages);
      size := size + pages * PAGE_SIZE - count * PAGE_SIZE;
      peak := Max(peak, size);
      chunks := chunks[c := h];
      view := LargeView(view, c, page, pages);
    }

    /** Entry `i` of the list of huge blocks gets the size `n` (zend_mm_change_huge_block_size and the
        counters). */
    method ResizeEntry(i: nat, n: nat)
      requires Valid() && i < |hugeList| && n > MAX_LARGE_SIZE
      requires n <= hugeList[i].size || Extendable(chunks, hugeList, i, n)
      modifies this`hugeList, this`realSize, this`realPeak, this`size, this`peak, this`view
      ensures Valid() && view == HugeResizedView(old(view), old(hugeList)[i].ptr, n)
      ensures realSize == old(realSize) - old(hugeList)[i].size + n && realPeak == Max(old(realPeak), realSize)
      ensures size == old(size) - old(hugeList)[i].size + n && peak == Max(old(peak), size)
    {
      hide NoneEmpty, Agree, HugeTotal, Total, Extendable, HugeResizedView;
      var e := hugeList[i];
      EntryResized(Parts(), mem, view, i, n);
      hugeList := hugeList[i := e.(size := n)];
      realSize := realSize - e.size + n;
      realPeak := Max(realPeak, realSize);
      size := size - e.size + n;
      peak := Max(peak, size);
      view := HugeResizedView(view, e.ptr, n);
    }

    /** The limit check of zend_mm_realloc_heap before a huge block grows by `more` bytes. */
    method RoomToGrow(more: nat) returns (ok: bool)
      requires Core() && MainStays()
      requires NoneEmpty(ring, view.world)
      modifies this`chunks, this`ring, this`cached, this`freeSlot, this`mem, this`realSize,
               this`chunksCount, this`cachedChunksCount, this`lastDeleteBoundary, this`lastDeleteCount, this`view
      ensures Core() && |ring| > 0 && ring[0] == old(ring)[0] && realSize <= old(realSize)
      ensures SameBlocks(old(view), view) && MemorySame(old(mem), mem, old(view).live)
      ensures ok ==> overflow || realSize + more <= limit
      ensures !ok ==> !overflow && realSize + more > limit && NothingToCollect(view)
      ensures NoneEmpty(ring, view.world)
    {
      hide NoneEmpty, Agree, HugeTotal, MemorySame, SameBlocks, MainKept, NothingToCollect;
      SameBlocksStart(Parts(), mem, view);
      RingNoDup(Parts(), mem, view);
      MemoryStart(mem, view.live);
      ok := true;
      if realSize + more > limit {
        var collected := GcAgain(mem, view);
        ok := (collected > 0 && realSize + more <= limit) || overflow;
      }
    }

    /** The part of zend_mm_realloc_heap that tries to truncate or extend a huge block. */
    method ReallocHuge(ptr: nat, bytes: nat) returns (done: bool, r: Grab)
      requires Valid() && ptr in Owned(view) && view.live[ptr].block.HugeBlock? && bytes > MAX_LARGE_SIZE && MainStays()
      modifies this`chunks, this`ring, this`cached, this`freeSlot, this`mem, this`realSize, this`realPeak,
               this`chunksCount, this`cachedChunksCount, this`hugeList,
               this`lastDeleteBoundary, this`lastDeleteCount, this`view, this`size, this`peak
      ensures Valid() && MemorySame(old(mem), mem, old(view).live) && |ring| > 0 && ring[0] == old(ring)[0]
      ensures realSize <= old(realSize) || overflow || realSize <= limit
      ensures realPeak == Max(old(realPeak), realSize) && peak == Max(old(peak), size)
      ensures done && r.Got? ==> Moved(old(view), view, ptr, ptr, AlignedUp(bytes, realPage))
      ensures !(done && r.Got?) ==> SameBlocks(old(view), view) && realSize <= old(realSize)
      ensures !(done && r.Got?) ==> size == old(size) && peak == old(peak) && realPeak == old(realPeak)
      ensures AlignedUp(bytes, realPage) == old(Owned(view))[ptr] ==> done && r.Got?
      ensures !r.OutOfMemory? && (r.LimitReached? ==> done && !overflow && NothingToCollect(view))
      ensures r.LimitReached? ==> realSize + AlignedUp(bytes, realPage) > limit + old(Owned(view))[ptr]
    {
      hide NoneEmpty, Agree, HugeTotal, Total, MemorySame, SameBlocks, MainKept, NothingToCollect, Owned, Moved,
           AlignedUp, Extendable;
      OwnedSlot(Parts(), mem, view, ptr);
      Lengths(Parts(), mem, view);
      MemoryStart(mem, view.live);
      SameBlocksStart(Parts(), mem, view);
      AlignedUpBounds(bytes, realPage);
      var i := FindHuge(ptr);
      var oldSize, n := hugeList[i].size, AlignedUp(bytes, realPage);
      r := Got;
      if n <= oldSize {
        done := *;
        done := done || n == oldSize;
      } else {
        var ok := RoomToGrow(n - oldSize);
        SameLive(old(view), view);
        if !ok {
          return true, LimitReached;
        }
        done := *;
        done := done && Extendable(chunks, hugeList, i, n);
      }
      if done {
        ghost var v1 := view;
        ResizeEntry(i, n);
        HugeMoved(old(view), v1, view, ptr, n);
      }
    }

    /** The part of zend_mm_realloc_heap that tries to keep a small or large block in its place. */
    method ReallocInChunk(ptr: nat, bytes: nat) returns (done: bool)
      requires Valid() && ptr in Owned(view) && ptr % CHUNK_SIZE != 0
      modifies this`chunks, this`size, this`peak, this`view
      ensures Valid() && (!done ==> view == old(view) && size == old(size) && peak == old(peak)) && peak == Max(old(peak), size)
      ensures done ==> Moved(old(view), view, ptr, ptr, RoundedSize(bytes, realPage))
      ensures done <==> InPlace(old(Parts()), old(view), ptr, bytes)
    {
      hide NoneEmpty, Agree, HugeTotal, Total, SlotAddr, BinSize, Owned, Decoded, IsSrun, SrunBin, LrunPages, Moved,
           PageCount, FreeRange, SizeToBin, AlignedUp;
      OwnedSlot(Parts(), mem, view, ptr);
      DecodeBlock(Parts(), mem, view, ptr);
      DecodedFacts(Parts(), view, ptr);
      DecodedSize(Parts(), mem, view, ptr);
      var c, page := ptr / CHUNK_SIZE, ptr % CHUNK_SIZE / PAGE_SIZE;
      var info := chunks[c].info[page];
      done := false;
      if IsSrun(info) {
        BinOfSize(bytes, SrunBin(info));
        if bytes <= MAX_SMALL_SIZE && SrunBin(info) == SizeToBin(bytes) {
          SameEntry(view.live, ptr, view.live[ptr]);
          MovedInPlace(view, view, ptr, view.live[ptr]);
          done := true;
        }
      } else if MAX_SMALL_SIZE < bytes <= MAX_LARGE_SIZE {
        PageCountRange(bytes);
        done := ResizeRun(ptr, c, page, LrunPages(info), PageCount(bytes));
        if done {
          MovedInPlace(old(view), view, ptr, Entry(LargeBlock(c, page), PageCount(bytes) * PAGE_SIZE));
        }
      }
    }

    /** The end of the naive reallocation: copy into the new block, free the old one, and set the peaks
        as if the two had never lived at the same time. */
    method CopyAndFree(ptr: nat, ret: nat, n: nat, peak0: nat, realPeak0: nat,
                       ghost v0: View, ghost mem0: Memory, ghost newSize: nat, ghost pin: nat)
      requires Valid() && Allocated(v0, view, Got, ret, newSize) && MemorySame(mem0, mem, v0.live)
      requires ptr in Owned(v0) && n <= Owned(v0)[ptr] && n <= newSize
      requires Pinned(Parts(), view, pin) && ptr != pin
      modifies this`chunks, this`ring, this`cached, this`freeSlot, this`mem, this`realSize, this`chunksCount,
               this`cachedChunksCount, this`lastDeleteBoundary, this`lastDeleteCount, this`hugeList, this`view, this`size,
               this`peak, this`realPeak
      ensures Valid() && |ring| > 0 && ring[0] == old(ring)[0] && realSize <= old(realSize)
      ensures peak == Max(peak0, size) && realPeak == Max(realPeak0, realSize)
      ensures Moved(v0, view, ptr, ret, newSize) && OthersSame(mem0, mem, v0, ptr) && Carried(mem0, mem, ptr, ret, n)
    {
      hide NoneEmpty, Agree, HugeTotal, Total, MemorySame, Owned, Allocated, Released, Moved, Carried, OthersSame,
           Pinned, Copied, LastInMain;
      CopyInto(Parts(), mem, v0, view, ptr, ret, newSize, n);
      mem := Copied(mem, ret, ptr, n);
      ghost var mem2 := mem;
      OwnedLive(view, ptr);
      PinnedNotLast(Parts(), mem, view, pin, ptr);
      Free(ptr);
      MovedByCopy(mem0, v0, old(mem), old(view), mem2, mem, view, ptr, ret, newSize, n);
      peak := Max(peak0, size);
      realPeak := Max(realPeak0, realSize);
    }

    /** The naive reallocation at the end of zend_mm_realloc_heap: allocate, copy, free. The peaks are
        those of the end, as if the two blocks had never lived at the same time. */
    method ReallocCopy(ptr: nat, bytes: nat, oldSize: nat, copySize: nat, ghost pin: nat) returns (r: Grab, ret: nat)
      requires Valid() && ptr in Owned(view) && oldSize == Owned(view)[ptr]
      requires Min(oldSize, copySize) <= RoundedSize(bytes, realPage)
      requires Pinned(Parts(), view, pin) && ptr != pin
      modifies this`chunks, this`ring, this`cached, this`freeSlot, this`mem, this`realSize, this`realPeak,
               this`chunksCount, this`peakChunksCount, this`cachedChunksCount, this`hugeList,
               this`lastDeleteBoundary, this`lastDeleteCount, this`view, this`size, this`peak, this`lost
      ensures Valid() && |ring| > 0 && ring[0] == old(ring)[0]
      ensures realSize <= old(realSize) || overflow || realSize <= limit + CHUNK_SIZE
      ensures realPeak == Max(old(realPeak), realSize) && peak == Max(old(peak), size)
      ensures r.Got? ==> Moved(old(view), view, ptr, ret, RoundedSize(bytes, realPage)) && ret != ptr
      ensures r.Got? ==> OthersSame(old(mem), mem, old(view), ptr)
      ensures r.Got? ==> Carried(old(mem), mem, ptr, ret, Min(oldSize, copySize))
      ensures !r.Got? ==> Allocated(old(view), view, r, ret, RoundedSize(bytes, realPage))
                          && MemorySame(old(mem), mem, old(view).live)
      ensures (r.LimitReached? ==> !overflow) && (!r.Got? ==> NothingToCollect(view))
      ensures LostBy(old(lost), lost, bytes, r)
      ensures r.LimitReached? ==> realSize + Max(RoundedSize(bytes, realPage), CHUNK_SIZE) > limit
    {
      hide NoneEmpty, Agree, HugeTotal, Total, MemorySame, Owned, Allocated, Released, Moved, MainKept, MainEmpty,
           NothingToCollect, RoundedSize, Carried, OthersSame, Pinned, Copied, Fresh, LastInMain, LostBy;
      ghost var f0 := Parts();
      PinnedKept(f0, mem, view, pin);
      var peak0, realPeak0 := peak, realPeak;
      r, ret := Alloc(bytes);
      if r.Got? {
        NewAddress(old(view), view, ptr, ret, RoundedSize(bytes, realPage));
        PinnedAfterAlloc(f0, old(view), Parts(), view, r, ret, RoundedSize(bytes, realPage), pin);
        CopyAndFree(ptr, ret, Min(oldSize, copySize), peak0, realPeak0, old(view), old(mem),
                    RoundedSize(bytes, realPage), pin);
      }
    }

    /** zend_mm_realloc_heap; the caller also owns the block at `pin`, in the main chunk. */
    method Realloc(ptr: nat, bytes: nat, copySize: nat, ghost pin: nat) returns (r: Grab, ret: nat)
      requires Valid() && (ptr != 0 ==> ptr in Owned(view))
      requires ptr != 0 ==> Min(Owned(view)[ptr], copySize) <= RoundedSize(bytes, realPage)
      requires Pinned(Parts(), view, pin) && ptr != pin
      modifies this`chunks, this`ring, this`cached, this`freeSlot, this`mem, this`realSize, this`realPeak,
               this`chunksCount, this`peakChunksCount, this`cachedChunksCount, this`hugeList,
               this`lastDeleteBoundary, this`lastDeleteCount, this`view, this`size, this`peak, this`lost
      ensures Valid() && Pinned(Parts(), view, pin)
      ensures realSize <= old(realSize) || overflow || realSize <= limit + CHUNK_SIZE
      ensures realPeak == Max(old(realPeak), realSize) && peak == Max(old(peak), size)
      ensures r.Got? ==> Moved(old(view), view, ptr, ret, RoundedSize(bytes, realPage))
      ensures r.Got? ==> OthersSame(old(mem), mem, old(view), ptr)
      ensures r.Got? && ptr != 0 ==> Carried(old(mem), mem, ptr, ret, Min(old(Owned(view))[ptr], copySize))
      ensures !r.Got? ==> Owned(view) == old(Owned(view)) && MemorySame(old(mem), mem, old(view).live)
      ensures (r.LimitReached? ==> !overflow) && (!r.Got? ==> NothingToCollect(view))
      ensures LostBy(old(lost), lost, bytes, r)
      ensures r.LimitReached? ==> realSize + Max(RoundedSize(bytes, realPage), CHUNK_SIZE) > limit
      ensures ptr != 0 && RoundedSize(bytes, realPage) == old(Owned(view))[ptr] ==> r.Got? && ret == ptr
      ensures ptr != 0 && InPlace(old(Parts()), old(view), ptr, bytes) ==> r.Got? && ret == ptr
      ensures ptr != 0 && r.Got? && ret == ptr ==>
        InPlace(old(Parts()), old(view), ptr, bytes) || HugeAgain(old(view), ptr, bytes)
    {
      hide NoneEmpty, Agree, HugeTotal, Total, MemorySame, Owned, Allocated, Moved, MainKept, MainEmpty,
           NothingToCollect, RoundedSize, Carried, OthersSame, Pinned, Decoded, Fresh, SameBlocks,
           InPlace, HugeAgain;
      if ptr == 0 {
        ghost var f0, v0, mem0 := Parts(), view, mem;
        PinnedKept(f0, mem, view, pin);
        r, ret := Alloc(bytes);
        PinnedAfterAlloc(f0, v0, Parts(), view, r, ret, RoundedSize(bytes, realPage), pin);
        NullMoved(f0, mem0, mem, v0, view, r, ret, RoundedSize(bytes, realPage));
      } else {
        r, ret := ReallocOwned(ptr, bytes, copySize, pin);
      }
    }

    /** zend_mm_realloc_heap for a block: in its place, or by a copy. */
    method ReallocOwned(ptr: nat, bytes: nat, copySize: nat, ghost pin: nat) returns (r: Grab, ret: nat)
      requires Valid() && ptr in Owned(view)
      requires Min(Owned(view)[ptr], copySize) <= RoundedSize(bytes, realPage)
      requires Pinned(Parts(), view, pin) && ptr != pin
      modifies this`chunks, this`ring, this`cached, this`freeSlot, this`mem, this`realSize, this`realPeak,
               this`chunksCount, this`peakChunksCount, this`cachedChunksCount, this`hugeList,
               this`lastDeleteBoundary, this`lastDeleteCount, this`view, this`size, this`peak, this`lost
      ensures Valid() && Pinned(Parts(), view, pin)
      ensures realSize <= old(realSize) || overflow || realSize <= limit + CHUNK_SIZE
      ensures realPeak == Max(old(realPeak), realSize) && peak == Max(old(peak), size)
      ensures r.Got? ==> Moved(old(view), view, ptr, ret, RoundedSize(bytes, realPage))
      ensures r.Got? ==> OthersSame(old(mem), mem, old(view), ptr)
      ensures r.Got? ==> Carried(old(mem), mem, ptr, ret, Min(old(Owned(view))[ptr], copySize))
      ensures !r.Got? ==> Owned(view) == old(Owned(view)) && MemorySame(old(mem), mem, old(view).live)
      ensures (r.LimitReached? ==> !overflow) && (!r.Got? ==> NothingToCollect(view))
      ensures LostBy(old(lost), lost, bytes, r)
      ensures r.LimitReached? ==> realSize + Max(RoundedSize(bytes, realPage), CHUNK_SIZE) > limit
      ensures RoundedSize(bytes, realPage) == old(Owned(view))[ptr] ==> r.Got? && ret == ptr
      ensures InPlace(old(Parts()), old(view), ptr, bytes) ==> r.Got? && ret == ptr
      ensures r.Got? && ret == ptr ==>
        InPlace(old(Parts()), old(view), ptr, bytes) || HugeAgain(old(view), ptr, bytes)
    {
      hide NoneEmpty, Agree, HugeTotal, Total, MemorySame, Owned, Allocated, Moved, MainKept, MainEmpty,
           NothingToCollect, RoundedSize, Carried, OthersSame, Pinned, Decoded, Fresh, SameBlocks,
           InPlace, HugeAgain;
      ghost var f0, v0, mem0 := Parts(), view, mem;
      PinnedKept(f0, mem, view, pin);
      var oldSize := Size(ptr);
      OwnedLive(view, ptr);
      InPlaceKinds(f0, v0, ptr, bytes);
      var done;
      done, r := ReallocInPlace(ptr, bytes);
      if done {
        ret := ptr;
        PlaceKept(f0, v0, mem0, Parts(), view, mem, ptr, oldSize, copySize, RoundedSize(bytes, realPage), r, pin);
      } else {
        ghost var v1, mem1 := view, mem;
        SameOwned(f0, v0, Parts(), view, pin);
        r, ret := ReallocCopy(ptr, bytes, oldSize, copySize, pin);
        CopyAfter(v0, mem0, v1, mem1, view, mem, ptr, ret, oldSize, copySize, RoundedSize(bytes, realPage), r);
        PinnedAfterCopy(f0, v0, Parts(), view, r, ptr, ret, RoundedSize(bytes, realPage), pin);
      }
    }

    /** The attempts of zend_mm_realloc_heap to keep the block where it is. */
    method ReallocInPlace(ptr: nat, bytes: nat) returns (done: bool, r: Grab)
      requires Valid() && ptr in Owned(view) && MainStays()
      modifies this`chunks, this`ring, this`cached, this`freeSlot, this`mem, this`realSize, this`realPeak,
               this`chunksCount, this`cachedChunksCount, this`hugeList,
               this`lastDeleteBoundary, this`lastDeleteCount, this`view, this`size, this`peak
      ensures Valid() && MemorySame(old(mem), mem, old(view).live) && |ring| > 0 && ring[0] == old(ring)[0]
      ensures realSize <= old(realSize) || overflow || realSize <= limit
      ensures realPeak == Max(old(realPeak), realSize) && peak == Max(old(peak), size)
      ensures done && r.Got? ==> Moved(old(view), view, ptr, ptr, RoundedSize(bytes, realPage))
      ensures !(done && r.Got?) ==> SameBlocks(old(view), view) && realSize <= old(realSize)
      ensures !(done && r.Got?) ==> size == old(size) && peak == old(peak) && realPeak == old(realPeak)
      ensures !r.OutOfMemory? && (r.LimitReached? ==> done && !overflow && NothingToCollect(view))
      ensures r.LimitReached? ==> realSize + RoundedSize(bytes, realPage) > limit + old(Owned(view))[ptr]
      ensures r.LimitReached? ==> bytes > MAX_LARGE_SIZE
      ensures ptr in old(view).live && !old(view).live[ptr].block.HugeBlock? ==>
        r.Got? && (done <==> InPlace(old(Parts()), old(view), ptr, bytes))
      ensures ptr in old(view).live && old(view).live[ptr].block.HugeBlock? && bytes <= MAX_LARGE_SIZE ==> !done && r.Got?
      ensures RoundedSize(bytes, realPage) == old(Owned(view))[ptr] ==> done && r.Got?
    {
      hide NoneEmpty, Agree, HugeTotal, Total, MemorySame, Owned, Moved, MainKept, NothingToCollect, Decoded,
           SameBlocks, AlignedUp, BinSize, PageCount, SizeToBin, InPlace;
      Lengths(Parts(), mem, view);
      MemoryStart(mem, view.live);
      SameBlocksStart(Parts(), mem, view);
      OwnedSlot(Parts(), mem, view, ptr);
      DecodeBlock(Parts(), mem, view, ptr);
      DecodedFacts(Parts(), view, ptr);
      if RoundedSize(bytes, realPage) == view.live[ptr].size {
        SameSizeInPlace(Parts(), mem, view, ptr, bytes, realPage);
        InPlaceKinds(Parts(), view, ptr, bytes);
      }
      done, r := false, Got;
      if ptr % CHUNK_SIZE == 0 {
        if bytes > MAX_LARGE_SIZE {
          done, r := ReallocHuge(ptr, bytes);
        }
      } else {
        done := ReallocInChunk(ptr, bytes);
      }
    }
  }
}
