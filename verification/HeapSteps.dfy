/** What the steps of the heap operations do to the heap's fields and to what they stand for. */
module HeapSteps {
  import opened Words
  import opened Bitset
  import opened BestFit
  import opened Bins
  import opened PageInfo
  import opened Chunks
  import opened Blocks
  import opened Inventory
  import opened HeapState
  import opened HugeState
  import opened Collection
  import opened GcState
  import opened SweepState

  type Positive = n: nat | n > 0 witness 1

  /** ZEND_MM_ALIGNED_SIZE_EX */
  function AlignedUp(bytes: nat, a: Positive): nat {
    (bytes + (a - 1)) / a * a
  }

  lemma AlignedUpBounds(bytes: nat, a: Positive)
    ensures bytes <= AlignedUp(bytes, a) < bytes + a
  {
    var q := (bytes + (a - 1)) / a;
    assert bytes + (a - 1) == q * a + (bytes + (a - 1)) % a;
  }

  /** A huge block and its list cell are new, and nothing else that is in use has changed. */
  ghost predicate PlacedHuge(v: View, v': View, ptr: nat, n: nat, cell: Slot) {
    && ptr !in v.live && SlotAddr(cell) !in v.live && SlotAddr(cell) != ptr
    && v'.live == v.live[SlotAddr(cell) := Entry(SmallBlock(cell), BinSize(NODE_BIN))][ptr := Entry(HugeBlock(ptr), n)]
    && v'.huge == v.huge[ptr := n] && v'.nodes == [cell] + v.nodes && |v'.free| == BINS
  }

  /** A small block that has just been placed can become a list cell. */
  lemma NewCell(f: Fields, mem: Memory, v: View, v': View, cell: Slot)
    requires Agree(f, mem, v) && PlacedSmall(v, v', cell, NODE_BIN)
    ensures cell.bin == NODE_BIN && cell !in v'.nodes
    ensures SlotAddr(cell) in v'.live && v'.live[SlotAddr(cell)].block == SmallBlock(cell)
  {
    hide Agree, SlotAddr, BinSize;
    FreshNotNode(f, mem, v, cell);
  }

  lemma HugeSteps(mem0: Memory, mem1: Memory, mem: Memory, v0: View, v1: View, v: View,
                  ptr: nat, n: nat, cell: Slot, r: Grab)
    requires SameBlocks(v0, v1) && MemorySame(mem0, mem1, v0.live) && MemorySame(mem1, mem, v1.live)
    requires (r.Got? ==> PlacedHuge(v1, v, ptr, n, cell)) && (!r.Got? ==> SameBlocks(v1, v))
    ensures MemorySame(mem0, mem, v0.live)
    ensures (r.Got? ==> PlacedHuge(v0, v, ptr, n, cell)) && (!r.Got? ==> SameBlocks(v0, v))
  {
    hide SlotAddr, BinSize;
  }

  lemma PlacedHugeThere(v0: View, v1: View, v: View, ptr: nat, n: nat, cell: Slot)
    requires SameBlocks(v0, v1) && PlacedSmall(v1, v, cell, NODE_BIN) && ptr !in v.live
    ensures PlacedHuge(v0, HugeAdded(v, ptr, n, cell), ptr, n, cell)
  {
    hide SlotAddr, BinSize;
  }

  /** A place apart from every chunk and every huge block. */
  predicate PlaceFree(chunks: map<nat, Chunk>, huge: seq<HugeNode>, ptr: nat, bytes: nat) {
    && ptr > 0 && ptr % CHUNK_SIZE == 0
    && (forall c :: c in chunks ==> Apart(ptr, bytes, c * CHUNK_SIZE, CHUNK_SIZE))
    && (forall i :: 0 <= i < |huge| ==> huge[i].ptr != ptr && Apart(ptr, bytes, huge[i].ptr, huge[i].size))
  }

  lemma {:induction false} ChunksBelow(keys: set<nat>) returns (m: nat)
    ensures forall c :: c in keys ==> c < m
  {
    m := 0;
    if keys != {} {
      var k :| k in keys;
      m := ChunksBelow(keys - {k});
      assert forall c :: c in keys ==> c == k || c in keys - {k};
      m := if k < m then m else k + 1;
    }
  }

  lemma {:induction false} HugeBelow(huge: seq<HugeNode>) returns (m: nat)
    ensures forall i :: 0 <= i < |huge| ==> huge[i].ptr + huge[i].size < m
  {
    m := 0;
    if huge != [] {
      m := HugeBelow(huge[1..]);
      assert forall i :: 0 < i < |huge| ==> huge[i] == huge[1..][i - 1];
      var e := huge[0].ptr + huge[0].size;
      m := if e < m then m else e + 1;
    }
  }

  /** Addresses are unbounded, so there is always room somewhere. */
  lemma PlaceExists(chunks: map<nat, Chunk>, huge: seq<HugeNode>, bytes: nat)
    ensures exists ptr: nat :: PlaceFree(chunks, huge, ptr, bytes)
  {
    var m := ChunksBelow(chunks.Keys);
    var k := HugeBelow(huge);
    var ptr := (m + k + 1) * CHUNK_SIZE;
    assert PlaceFree(chunks, huge, ptr, bytes);
  }

  /** ZEND_MM_SIZE_TO_NUM(size, ZEND_MM_PAGE_SIZE) */
  function PageCount(bytes: nat): nat {
    (bytes + (PAGE_SIZE - 1)) / PAGE_SIZE
  }

  lemma PageCountRange(bytes: nat)
    requires MAX_SMALL_SIZE < bytes <= MAX_LARGE_SIZE
    ensures 1 <= PageCount(bytes) < PAGES && bytes <= PageCount(bytes) * PAGE_SIZE < bytes + PAGE_SIZE
  {
  }

  lemma LargeTotal(v0: View, v: View, c: nat, page: nat, count: nat, r: Grab)
    requires (r.Got? ==> Placed(v0, v, c, page, count)) && (!r.Got? ==> SameBlocks(v0, v))
    ensures Total(v.live) == Total(v0.live) + if r.Got? then count * PAGE_SIZE else 0
    ensures r.Got? ==>
      && PageAddr(c, page) !in v0.live && v.huge == v0.huge && v.nodes == v0.nodes
      && v.live == v0.live[PageAddr(c, page) := Entry(LargeBlock(c, page), count * PAGE_SIZE)]
  {
    hide PageAddr, Total;
    if r.Got? {
      TotalAdd(v0.live, PageAddr(c, page), Entry(LargeBlock(c, page), count * PAGE_SIZE));
    }
  }

  lemma FreeLargeHeader(f: Fields, mem: Memory, v: View, ptr: nat, c: nat, page: nat, count: nat)
    requires Agree(f, mem, v) && ptr in v.live && v.live[ptr].block == LargeBlock(c, page)
    requires c in v.world && page in v.world[c] && v.world[c][page] == Large(count)
    ensures c in f.chunks && page + count <= WORD_BITS * |f.chunks[c].freeMap| && page < |f.chunks[c].info|
    ensures c in f.ring && v.live[ptr].size == count * PAGE_SIZE && ptr == PageAddr(c, page) && |f.ring| > 0
    ensures var h, v' := FreeRun(f.chunks[c], page, count), FreedView(v, c, page);
      && Agree(f.(chunks := f.chunks[c := h]), mem, v') && c in v'.world
      && (h.freePages == PAGES - FIRST_PAGE <==> v.world[c] == map[page := Large(count)])
      && (h.freePages == PAGES - FIRST_PAGE ==> v'.world[c] == map[])
      && v'.live == v.live - {ptr} && v'.huge == v.huge && v'.nodes == v.nodes && v'.free == v.free
  {
    hide AgreeBut, ChunkOkWith, PageAddr, FreeRun;
    InUseAt(f, mem, v, ptr);
    ChunkAt(f, mem, v, c);
    Lengths(f, mem, v);
    RunBounds(f.chunks[c], v.world[c], page);
    FreeRunOk(f.chunks[c], v.world[c], map[], page);
    FreeLargeAgree(f, mem, v, c, page, FreeRun(f.chunks[c], page, count));
    EmptyHeader(FreeRun(f.chunks[c], page, count), v.world[c] - {page});
    assert v.world[c] - {page} == map[] <==> v.world[c] == map[page := Large(count)] by {
      OnlyKey(v.world[c], page, Large(count));
    }
  }

  /** The whole of zend_mm_free_large before the chunk is deleted. */
  lemma FreeLargeSteps(f: Fields, mem: Memory, v: View, ptr: nat, c: nat, page: nat, count: nat)
    requires Agree(f, mem, v) && ptr in v.live && v.live[ptr].block == LargeBlock(c, page) && NoneEmpty(f.ring, v.world)
    requires c in v.world && page in v.world[c] && v.world[c][page] == Large(count)
    requires c == f.ring[0] ==> v.world[c] != map[page := Large(count)]
    ensures c in f.chunks && page + count <= WORD_BITS * |f.chunks[c].freeMap| && page < |f.chunks[c].info|
    ensures var h, v' := FreeRun(f.chunks[c], page, count), FreedView(v, c, page);
      && Agree(f.(chunks := f.chunks[c := h]), mem, v')
      && (if h.freePages == PAGES - FIRST_PAGE
          then c in f.ring && c != f.ring[0] && c in v'.world && v'.world[c] == map[] && NoneEmptyBut(f.ring, v'.world, c)
          else NoneEmpty(f.ring, v'.world))
      && v'.live == v.live - {ptr} && v'.huge == v.huge && v'.nodes == v.nodes && v'.free == v.free
      && Total(v.live) == count * PAGE_SIZE + Total(v'.live)
  {
    hide Agree, FreeRun, FreedView, Total, NoneEmpty, NoneEmptyBut, PageAddr;
    FreeLargeHeader(f, mem, v, ptr, c, page, count);
    FreedFilled(f.ring, v, c, page);
    TotalRemove(v.live, ptr);
    FreedKeeps(v, c, page);
    Lengths(f, mem, v);
    OnlyKey(v.world[c], page, Large(count));
  }

  lemma FreedKeeps(v: View, c: nat, page: nat)
    requires c in v.world
    ensures c in FreedView(v, c, page).world && FreedView(v, c, page).world[c] == v.world[c] - {page}
  {
    hide PageAddr;
  }

  lemma OnlyKey(rs: Runs, page: nat, r: Run)
    requires page in rs && rs[page] == r
    ensures rs - {page} == map[] <==> rs == map[page := r]
  {
    if rs - {page} == map[] {
      forall s | s in rs
        ensures s == page
      {
        assert s != page ==> s in rs - {page};
      }
    }
  }

  lemma PopPlaced(f: Fields, mem: Memory, v: View, b: nat)
    requires Agree(f, mem, v) && b < BINS && |v.free| == BINS && v.free[b] != []
    ensures PlacedSmall(v, PoppedView(v, b), v.free[b][0], b) && PoppedView(v, b).world == v.world
  {
    hide WorldOk, HugeOk, ChunksOk, RingOk, HugeListOk, NodesOk, BinSize, SlotAddr, BinElements, LiveOk, LinksOk;
    PopAgree(f, mem, v, b);
    assert ListOk(v.world, b, v.free[b]);
  }

  lemma SmallTotal(v0: View, v: View, sl: Slot, bin: nat, r: Grab)
    requires bin < BINS && (r.Got? ==> PlacedSmall(v0, v, sl, bin)) && (!r.Got? ==> SameBlocks(v0, v))
    ensures Total(v.live) == Total(v0.live) + if r.Got? then BinSize(bin) else 0
  {
    hide BinSize, SlotAddr, SlotOk, Total;
    if r.Got? {
      TotalAdd(v0.live, SlotAddr(sl), Entry(SmallBlock(sl), BinSize(bin)));
    }
  }

  lemma Lengths(f: Fields, mem: Memory, v: View)
    requires Agree(f, mem, v)
    ensures |v.free| == BINS && |f.heads| == BINS && |f.ring| > 0
  {
    ListsLength(f, mem, v, {});
  }

  lemma BinPagesRange(b: nat)
    requires b < BINS
    ensures 1 <= BinPages(b) < PAGES
  {
    hide BinPages;
    BinTable(b);
  }

  /** A slot is newly in use, and nothing else that is in use has changed. */
  ghost predicate PlacedSmall(v: View, v': View, sl: Slot, bin: nat) {
    && SlotOk(v'.world, sl) && sl.bin == bin && SlotAddr(sl) !in v.live
    && v'.live == v.live[SlotAddr(sl) := Entry(SmallBlock(sl), BinSize(bin))]
    && v'.huge == v.huge && v'.nodes == v.nodes && |v'.free| == BINS
  }

  lemma SlowHeader(f: Fields, mem: Memory, v0: View, v: View, c: nat, page: nat, b: nat)
    requires Agree(f, mem, v) && b < BINS && Placed(v0, v, c, page, BinPages(b)) && |v0.free| == BINS && v0.free[b] == []
    ensures c in f.chunks && page + BinPages(b) <= |f.chunks[c].info| && |f.heads| == BINS
    ensures |f.chunks[c].info| == PAGES
    ensures c in v.world && |v.free| == BINS
  {
    hide AgreeBut, ChunkOkWith, BinPages, PageAddr;
    ChunkAt(f, mem, v, c);
    ListsLength(f, mem, v, {});
    RunBounds(f.chunks[c], v.world[c], page);
  }

  lemma RunBounds(h: Chunk, rs: Runs, page: nat)
    requires ChunkOk(h, rs) && page in rs
    ensures RunValid(rs[page]) && page + Len(rs[page]) <= PAGES
  {
  }

  lemma SlowAgree(f: Fields, mem: Memory, mem': Memory, v0: View, v: View, c: nat, page: nat, b: nat)
    requires Agree(f, mem, v) && b < BINS && Placed(v0, v, c, page, BinPages(b)) && |v0.free| == BINS && v0.free[b] == []
    requires c in f.chunks && |f.heads| == BINS && BinElements(b) >= 2
    requires LinkedBelow(mem', PageAddr(c, page), b, BinElements(b) - 1)
    requires mem'(PageAddr(c, page) + Offset(b, BinElements(b) - 1)) == Link(0)
    requires SameOutside(mem, mem', PageAddr(c, page), PageAddr(c, page) + BinPages(b) * PAGE_SIZE)
    ensures c in v.world && |v.free| == BINS
    ensures Agree(f.(chunks := f.chunks[c := f.chunks[c].(info := SmallInfo(f.chunks[c].info, page, b))],
                     heads := f.heads[b := PageAddr(c, page) + BinSize(b)]), mem', SmallView(v, c, page, b))
    ensures PlacedSmall(v0, SmallView(v, c, page, b), Slot(c, page, b, 0), b)
    ensures SmallView(v, c, page, b).free[b] == RestSlots(c, page, b)
    ensures SlotAddr(Slot(c, page, b, 0)) == PageAddr(c, page)
    ensures MemorySame(mem, mem', v0.live)
  {
    hide AgreeBut, ChunkOkWith, BinPages, BinSize, BinElements, PageAddr, Offset, LinkedBelow, ChainOk, RestSlots,
         SameOutside, SmallInfo, Head, MemorySame;
    BinTable(b);
    ChunkAt(f, mem, v, c);
    RunChain(mem', c, page, b);
    SmallInfoOk(f.chunks[c], v.world[c], map[], page, b);
    assert Len(v.world[c][page]) == BinPages(b);
    RunEnd(c, page, BinPages(b));
    SmallRunAgree(f, mem, mem', v, c, page, b, f.chunks[c].(info := SmallInfo(f.chunks[c].info, page, b)));
    FirstSlotAddr(c, page, b);
    PlacedLive(v0, v, c, page, b);
  }

  lemma RunEnd(c: nat, page: nat, n: nat)
    ensures PageAddr(c, page + n) == PageAddr(c, page) + n * PAGE_SIZE
  {
  }

  lemma FirstSlotAddr(c: nat, page: nat, b: nat)
    ensures SlotAddr(Slot(c, page, b, 0)) == PageAddr(c, page)
  {
    hide BinSize;
  }

  lemma PlacedLive(v0: View, v: View, c: nat, page: nat, b: nat)
    requires b < BINS && Placed(v0, v, c, page, BinPages(b))
    ensures v.live - {PageAddr(c, page)} == v0.live
    ensures v.live[PageAddr(c, page) := Entry(SmallBlock(Slot(c, page, b, 0)), BinSize(b))]
         == v0.live[PageAddr(c, page) := Entry(SmallBlock(Slot(c, page, b, 0)), BinSize(b))]
  {
    hide PageAddr, BinSize, BinPages;
  }

  /** The main chunk holds no run. */
  ghost predicate MainEmpty(f: Fields, v: View) {
    |f.ring| > 0 && f.ring[0] in v.world && v.world[f.ring[0]] == map[]
  }

  /** A large run of `count` pages is new, and nothing else that is in use has changed. */
  ghost predicate Placed(v: View, v': View, c: nat, page: nat, count: nat) {
    && c in v'.world && page in v'.world[c] && v'.world[c][page] == Large(count)
    && PageAddr(c, page) !in v.live
    && v'.live == v.live[PageAddr(c, page) := Entry(LargeBlock(c, page), count * PAGE_SIZE)]
    && v'.huge == v.huge && v'.nodes == v.nodes
    && |v.free| == BINS == |v'.free|
    && (forall b :: 0 <= b < BINS && v.free[b] == [] ==> v'.free[b] == [])
  }

  lemma PlacedThere(v0: View, v: View, c: nat, page: nat, count: nat)
    requires SameBlocks(v0, v) && c in v.world && PageAddr(c, page) !in v.live
    ensures Placed(v0, LargeView(v, c, page, count), c, page, count)
    ensures c in LargeView(v, c, page, count).world
    ensures v.world[c] == map[] ==> LargeView(v, c, page, count).world[c] == map[page := Large(count)]
  {
    hide PageAddr;
  }

  lemma PlacedHere(f: Fields, mem: Memory, v: View, c: nat, page: nat, count: nat)
    requires Agree(f, mem, v) && c in v.world && PageAddr(c, page) !in v.live
    ensures Placed(v, LargeView(v, c, page, count), c, page, count)
  {
    SameBlocksStart(f, mem, v);
    PlacedThere(v, v, c, page, count);
  }

  lemma TakeableIndex(chunks: map<nat, Chunk>, ring: seq<nat>, i: nat, page: nat, count: nat)
    requires Takeable(chunks, ring, i, page, count)
    ensures i < |ring|
  {
  }

  /** All pages of a new chunk can be taken. */
  lemma JoinedTakeable(f: Fields, mem: Memory, v: View, count: nat)
    requires Agree(f, mem, v) && Joined(f, v) && 1 <= count < PAGES
    ensures |f.ring| > 1 && Takeable(f.chunks, f.ring, |f.ring| - 1, FIRST_PAGE, count)
    ensures f.ring[|f.ring| - 1] in v.world && v.world[f.ring[|f.ring| - 1]] == map[]
  {
    hide Agree, Used;
  }

  /** If the main chunk has no run, every page run fits in it. */
  lemma NotEmptyMain(f: Fields, f': Fields, mem: Memory, v: View, count: nat)
    requires Agree(f, mem, v) && 1 <= count < PAGES && f'.ring == f.ring
    requires (MainKept(f, v) || MainEmpty(f, v)) && NoneFits(f.chunks, f.ring, count)
    ensures MainKept(f', v) && |f'.ring| > 0 && !MainEmpty(f, v)
  {
    hide AgreeBut, NoneFits, ChunkOk, Fits, Used;
    if MainEmpty(f, v) {
      ChunkAt(f, mem, v, f.ring[0]);
      EmptyFits(f.chunks[f.ring[0]], count);
      MainNoFit(f.chunks, f.ring, count);
      assert false;
    }
  }

  /** An empty main chunk is the first that fits. */
  lemma EmptyMainFits(f: Fields, mem: Memory, v: View, i: nat, page: nat, count: nat)
    requires Agree(f, mem, v) && 1 <= count < PAGES && FirstFit(f.chunks, f.ring, count, i, page)
    ensures MainEmpty(f, v) ==> i == 0
    ensures |f.ring| > 0
  {
    hide AgreeBut, ChunkOk, Fits, Used, IsBest;
    if MainEmpty(f, v) && i > 0 {
      ChunkAt(f, mem, v, f.ring[0]);
      EmptyFits(f.chunks[f.ring[0]], count);
      assert false;
    }
  }

  lemma MainNoFit(chunks: map<nat, Chunk>, ring: seq<nat>, count: nat)
    requires NoneFits(chunks, ring, count) && |ring| > 0
    ensures ring[0] in chunks && !Fits(chunks[ring[0]].freeMap, count, FIRST_PAGE, PAGES)
  {
    hide Fits;
    assert NoFit(chunks[ring[0]], count);
  }

  lemma EmptyFits(h: Chunk, count: nat)
    requires ChunkOk(h, map[]) && 1 <= count < PAGES
    ensures Fits(h.freeMap, count, FIRST_PAGE, PAGES)
  {
    hide Bit;
    EmptyChunk(h, map[], map[]);
  }

  datatype Grab = Got | LimitReached | OutOfMemory

  lemma StepTrans(mem0: Memory, v0: View, mem1: Memory, v1: View, mem2: Memory, v2: View)
    requires SameBlocks(v0, v1) && SameBlocks(v1, v2)
    requires MemorySame(mem0, mem1, v0.live) && MemorySame(mem1, mem2, v1.live)
    ensures SameBlocks(v0, v2) && MemorySame(mem0, mem2, v0.live)
  {
  }

  lemma SameLive(v: View, v': View)
    requires SameBlocks(v, v')
    ensures v'.live == v.live
  {
  }

  lemma SameBlocksWorld(v0: View, v: View, w: World)
    requires SameBlocks(v0, v)
    ensures SameBlocks(v0, v.(world := w))
  {
  }

  lemma NewNumber(v: View, ptr: nat)
    requires ptr > 0 && ptr % CHUNK_SIZE == 0 && ptr !in v.huge
    requires RegionFree(v.world, v.huge, ptr, CHUNK_SIZE, ptr)
    ensures ptr / CHUNK_SIZE > 0 && ptr / CHUNK_SIZE !in v.world
    ensures forall q :: q in v.huge ==> Apart(ptr / CHUNK_SIZE * CHUNK_SIZE, CHUNK_SIZE, q, v.huge[q])
  {
    var c := ptr / CHUNK_SIZE;
    assert ptr == c * CHUNK_SIZE;
    assert !Apart(ptr, CHUNK_SIZE, c * CHUNK_SIZE, CHUNK_SIZE);
  }

  lemma ZeroedHeader(num: nat)
    ensures |ZeroedChunk().freeMap| > 0 && |ZeroedChunk().info| > 0
    ensures ChunkOk(InitChunk(ZeroedChunk(), num), map[]) && AllPagesFree(InitChunk(ZeroedChunk(), num))
    ensures InitChunk(ZeroedChunk(), num).freeTail == FIRST_PAGE
  {
    hide AllPagesFree, ChunkOkWith;
    ZeroedIsFree();
    InitChunkOk(ZeroedChunk(), num);
    EmptyChunk(InitChunk(ZeroedChunk(), num), map[], map[]);
  }

  function Max(a: int, b: int): int {
    if a > b then a else b
  }

  lemma SameBlocksStart(f: Fields, mem: Memory, v: View)
    requires Agree(f, mem, v)
    ensures SameBlocks(v, v)
  {
    ListsLength(f, mem, v, {});
  }

  /** The last chunk of the ring is new and all its pages are free. */
  ghost predicate Joined(f: Fields, v: View) {
    && |f.ring| > 1
    && var c := f.ring[|f.ring| - 1];
       && c in f.chunks && c in v.world && v.world[c] == map[]
       && AllPagesFree(f.chunks[c]) && f.chunks[c].freeTail == FIRST_PAGE
  }

  lemma JoinCachedAgree(f: Fields, mem: Memory, v: View)
    requires Agree(f, mem, v) && f.cached != []
    ensures |f.ring| > 0 && f.cached[0] in f.chunks && f.ring[|f.ring| - 1] in f.chunks
    ensures var c := f.cached[0];
      && |f.chunks[c].freeMap| > 0 && |f.chunks[c].info| > 0
      && var h := InitChunk(f.chunks[c], f.chunks[f.ring[|f.ring| - 1]].num + 1);
         var f' := f.(chunks := f.chunks[c := h], ring := f.ring + [c], cached := f.cached[1..]);
         Agree(f', mem, v) && Joined(f', v)
  {
    hide Agree, InitChunk, ChunkOk, AllPagesFree;
    var c := f.cached[0];
    RingNoDup(f, mem, v);
    ChunkAt(f, mem, v, c);
    ChunkAt(f, mem, v, f.ring[|f.ring| - 1]);
    JoinHeader(f.chunks[c], f.chunks[f.ring[|f.ring| - 1]].num + 1);
    ReuseAgree(f, mem, v, InitChunk(f.chunks[c], f.chunks[f.ring[|f.ring| - 1]].num + 1));
  }

  lemma JoinNewAgree(f: Fields, mem: Memory, v: View, c: nat)
    requires Agree(f, mem, v) && c > 0 && c !in v.world
    requires forall q :: q in v.huge ==> Apart(c * CHUNK_SIZE, CHUNK_SIZE, q, v.huge[q])
    ensures |f.ring| > 0 && f.ring[|f.ring| - 1] in f.chunks
    ensures |ZeroedChunk().freeMap| > 0 && |ZeroedChunk().info| > 0
    ensures var h := InitChunk(ZeroedChunk(), f.chunks[f.ring[|f.ring| - 1]].num + 1);
      var f', v' := f.(chunks := f.chunks[c := h], ring := f.ring + [c]), v.(world := v.world[c := map[]]);
      Agree(f', mem, v') && Joined(f', v')
  {
    hide Agree, InitChunk, ChunkOk, AllPagesFree, ZeroedChunk, Apart;
    RingNoDup(f, mem, v);
    ChunkAt(f, mem, v, f.ring[|f.ring| - 1]);
    var num := f.chunks[f.ring[|f.ring| - 1]].num + 1;
    ZeroedHeader(num);
    NewChunkAgree(f, mem, v, c, InitChunk(ZeroedChunk(), num));
  }

  lemma JoinHeader(h: Chunk, num: nat)
    requires ChunkOk(h, map[])
    ensures |h.freeMap| > 0 && |h.info| > 0
    ensures ChunkOk(InitChunk(h, num), map[]) && AllPagesFree(InitChunk(h, num))
    ensures InitChunk(h, num).freeTail == FIRST_PAGE
  {
    EmptyChunk(h, map[], map[]);
    InitChunkOk(h, num);
    EmptyChunk(InitChunk(h, num), map[], map[]);
  }

  ghost predicate NoFit(h: Chunk, count: nat) {
    forall s: nat, e: nat :: !Fits(h.freeMap, count, s, e)
  }

  /** No chunk of the ring has a free run that is long enough. */
  ghost predicate NoneFits(chunks: map<nat, Chunk>, ring: seq<nat>, count: nat) {
    forall k :: 0 <= k < |ring| ==> ring[k] in chunks && NoFit(chunks[ring[k]], count)
  }

  /** Which runs fit depends on the runs of the chunks only. */
  lemma NoneFitsStill(f: Fields, mem: Memory, v: View, f': Fields, mem': Memory, v': View, count: nat)
    requires Agree(f, mem, v) && Agree(f', mem', v') && SameOnRing(f.ring, v.world, f'.ring, v'.world)
    requires NoneFits(f.chunks, f.ring, count)
    ensures NoneFits(f'.chunks, f'.ring, count)
  {
    hide NoFit, BitsOk, InfoOk, CountFree, InventoryOk, LinksOk, HugeListOk, NodesOk;
    forall k | 0 <= k < |f'.ring|
      ensures f'.ring[k] in f'.chunks && NoFit(f'.chunks[f'.ring[k]], count)
    {
      var d := f.ring[k];
      assert d in f.ring && d in f.chunks && d in f'.chunks;
      assert ChunkOk(f.chunks[d], v.world[d]) && ChunkOk(f'.chunks[d], v'.world[d]);
      NoFitStill(f.chunks[d], f'.chunks[d], v.world[d], count);
    }
  }

  lemma NoFitStill(h: Chunk, h': Chunk, rs: Runs, count: nat)
    requires RunsOk(rs) && BitsOk(h.freeMap, rs) && BitsOk(h'.freeMap, rs) && NoFit(h, count)
    ensures NoFit(h', count)
  {
    hide Covered, RunsOk;
    forall s: nat, e: nat
      ensures Fits(h'.freeMap, count, s, e) ==> Fits(h.freeMap, count, s, e)
    {
    }
  }

  /** A run of chunk `d` that a collection leaves. */
  ghost predicate Stays(v: View, d: nat, s: nat) {
    d in v.world && s in v.world[d] && !Collectable(v, d, s)
  }

  /** A collection keeps the main chunk exactly if one of its runs stays. */
  lemma MainKeptExactly(f: Fields, mem: Memory, v: View)
    requires Agree(f, mem, v) && |f.ring| > 0
    ensures WorldOk(v.world) && (MainKept(f, v) <==> exists s: nat :: Stays(v, f.ring[0], s))
  {
    hide ChunksOk, LinksOk, HugeListOk, NodesOk, HugeOk, LiveOk, KeptWorld, Reclaimed, Collectable, ListOk;
    var kw := KeptWorld(v.world, v.free);
    forall s: nat
      ensures Stays(v, f.ring[0], s) <==> s in kw[f.ring[0]]
    {
      ReclaimedExactly(v, f.ring[0], s);
      KeptRun(v.world, v.free, f.ring[0], s);
    }
    if MainKept(f, v) {
      var s: nat :| s in kw[f.ring[0]];
    }
  }

  /** The test behind the walk over the main chunk: its header has 511 free pages, so that the chunk is
      deleted, exactly if no run of it stays. `h` is the header that the walk leaves. */
  lemma MainDeletedExactly(f: Fields, mem: Memory, v: View, h: Chunk)
    requires Agree(f, mem, v) && |f.ring| > 0 && f.ring[0] in v.world && RunsOk(v.world[f.ring[0]]) && |v.free| == BINS
    requires ChunkOk(h, Kept(v.world[f.ring[0]], Counters(v.world, v.free, f.ring[0])))
    ensures h.freePages == PAGES - FIRST_PAGE <==> forall s: nat :: !Stays(v, f.ring[0], s)
  {
    hide AgreeBut, ChunkOkWith, Stays, Kept, Counters;
    MainKeptExactly(f, mem, v);
    EmptyChunk(h, Kept(v.world[f.ring[0]], Counters(v.world, v.free, f.ring[0])), map[]);
  }

  /** Of the pages from `p` on, `count` belong to no run that stays, in a chunk in which some run does. */
  ghost predicate GapAt(v: View, d: nat, count: nat, p: nat) {
    && 1 <= p && p + count <= PAGES && (exists s: nat :: Stays(v, d, s))
    && forall s: nat :: Stays(v, d, s) ==> s + RunLen(v, d, s) <= p || p + count <= s
  }

  ghost function RunLen(v: View, d: nat, s: nat): nat {
    if d in v.world && s in v.world[d] && RunValid(v.world[d][s]) then Len(v.world[d][s]) else 0
  }

  /** A collection would make room for `count` pages nowhere. */
  ghost predicate NoGap(v: View, count: nat) {
    forall d: nat, p: nat :: !GapAt(v, d, count, p)
  }

  /** A chunk has room for `count` pages exactly if somewhere that many pages are in no run. */
  lemma FitsUncovered(h: Chunk, rs: Runs, count: nat)
    requires RunsOk(rs) && BitsOk(h.freeMap, rs) && count >= 1
    ensures NoFit(h, count) <==> forall p: nat :: 1 <= p && p + count <= PAGES ==> !Vacant(rs, p, count)
  {
    hide Covered, RunsOk;
    if s: nat, e: nat :| Fits(h.freeMap, count, s, e) {
      assert Used(h.freeMap, 0) && !Used(h.freeMap, s);
      forall q: nat | s <= q < s + count
        ensures !Covered(rs, q)
      {
        assert !Used(h.freeMap, q);
      }
      assert Vacant(rs, s, count);
    }
    if p: nat :| 1 <= p && p + count <= PAGES && Vacant(rs, p, count) {
      assert FreeRange(h.freeMap, p, count);
      var s, e := Widest(h.freeMap, p, count);
    }
  }

  /** A free stretch is part of a longest one. */
  lemma Widest(bits: seq<Word>, p: nat, count: nat) returns (s: nat, e: nat)
    requires p + count <= Pages(bits) && count >= 1 && FreeRange(bits, p, count)
    ensures Fits(bits, count, s, e)
  {
    hide Used;
    s, e := p, p + count;
    while s > 0 && !Used(bits, s - 1)
      invariant s <= p && FreeRange(bits, s, e - s)
    {
      s := s - 1;
    }
    while e < Pages(bits) && !Used(bits, e)
      invariant s <= p && p + count <= e <= Pages(bits) && FreeRange(bits, s, e - s)
      invariant s == 0 || Used(bits, s - 1)
    {
      e := e + 1;
    }
  }

  /** No page of the stretch is in a run. */
  ghost predicate Vacant(rs: Runs, p: nat, count: nat)
    requires RunsOk(rs)
  {
    forall q: nat :: p <= q < p + count ==> !Covered(rs, q)
  }

  /** Before a collection: a stretch is vacant in what the collection leaves exactly if it is in no run
      that stays. */
  lemma VacantAfter(v: View, v': View, d: nat, p: nat, count: nat)
    requires WorldOk(v.world) && WorldOk(v'.world) && FreedExactly(v, v') && d in v'.world && count >= 1
    requires exists s: nat :: Stays(v, d, s)
    requires 1 <= p && p + count <= PAGES
    ensures RunsOk(v'.world[d]) && (Vacant(v'.world[d], p, count) <==> GapAt(v, d, count, p))
  {
    hide Collectable, Len, RunsOk;
    var rs: Runs := v'.world[d];
    assert RunsOk(rs);
    forall s: nat
      ensures Stays(v, d, s) <==> s in rs
      ensures s in rs ==> d in v.world && s in v.world[d] && rs[s] == v.world[d][s]
    {
      StaysRun(v, v', d, s);
    }
    VacantRuns(rs, p, count);
    forall s: nat | s in rs
      ensures RunsOk(rs) && RunValid(rs[s]) && RunLen(v, d, s) == Len(rs[s])
    {
      RunsValid(rs, s);
    }
  }

  lemma RunsValid(rs: Runs, s: nat)
    requires RunsOk(rs) && s in rs
    ensures RunValid(rs[s]) && Len(rs[s]) >= 1
  {
    hide Len;
  }

  lemma StaysRun(v: View, v': View, d: nat, s: nat)
    requires FreedExactly(v, v') && d in v'.world
    ensures Stays(v, d, s) <==> s in v'.world[d]
    ensures s in v'.world[d] ==> d in v.world && s in v.world[d] && v'.world[d][s] == v.world[d][s]
  {
    hide Collectable;
    if d in v.world && s in v.world[d] {
      assert HasRun(v'.world, d, s, v.world[d][s]) <==> HasRun(v.world, d, s, v.world[d][s]) && !Collectable(v, d, s);
    }
    if s in v'.world[d] {
      assert HasRun(v'.world, d, s, v'.world[d][s]);
    }
  }

  lemma VacantRuns(rs: Runs, p: nat, count: nat)
    requires RunsOk(rs) && count >= 1
    ensures Vacant(rs, p, count) <==>
      forall s: nat :: s in rs ==> (RunsValid(rs, s); s + Len(rs[s]) <= p || p + count <= s)
  {
    hide Len;
    if Vacant(rs, p, count) {
      forall s: nat | s in rs
        ensures s + Len(rs[s]) <= p || p + count <= s
      {
        var q := if s < p then p else s;
        assert q < p + count ==> !Covered(rs, q);
      }
    }
  }

  /** After a collection no run fits exactly if there was no gap in what it leaves. */
  lemma NoneFitsAfter(f: Fields, mem: Memory, v: View, f': Fields, mem': Memory, v': View, count: nat)
    requires Agree(f, mem, v) && Agree(f', mem', v') && FreedExactly(v, v') && count >= 1
    requires NoneEmpty(f'.ring, v'.world) && MainKept(f', v')
    ensures NoneFits(f'.chunks, f'.ring, count) <==> NoGap(v, count)
  {
    hide Agree, GapAt, NoFit, FreedExactly, Stays, NoneEmpty, MainKept;
    forall d: nat
      ensures d in f'.ring <==> exists s: nat :: Stays(v, d, s)
    {
      RingStays(f, mem, v, f', mem', v', d);
    }
    forall d: nat | d in f'.ring
      ensures d in f'.chunks && (NoFit(f'.chunks[d], count) <==> forall p: nat :: !GapAt(v, d, count, p))
    {
      ChunkFitsAfter(f, mem, v, f', mem', v', d, count);
    }
    forall d: nat, p: nat
      ensures GapAt(v, d, count, p) ==> d in f'.ring
    {
      GapStays(v, d, count, p);
    }
  }

  lemma ChunkFitsAfter(f: Fields, mem: Memory, v: View, f': Fields, mem': Memory, v': View, d: nat, count: nat)
    requires Agree(f, mem, v) && Agree(f', mem', v') && FreedExactly(v, v') && count >= 1
    requires d in f'.ring && exists s: nat :: Stays(v, d, s)
    ensures d in f'.chunks && (NoFit(f'.chunks[d], count) <==> forall p: nat :: !GapAt(v, d, count, p))
  {
    hide Collectable, GapAt, NoFit, BitsOk, InfoOk, CountFree, LinksOk, HugeListOk, NodesOk, FreedExactly, HugeOk, FreeOk,
         LiveOk, RunsOk, Stays;
    assert ChunkOk(f'.chunks[d], v'.world[d]);
    NoFitAfter(f'.chunks[d], v, v', d, count);
  }

  lemma GapStays(v: View, d: nat, count: nat, p: nat)
    ensures GapAt(v, d, count, p) ==> 1 <= p && p + count <= PAGES && exists s: nat :: Stays(v, d, s)
  {
    hide Stays;
  }

  lemma NoFitAfter(h: Chunk, v: View, v': View, d: nat, count: nat)
    requires WorldOk(v.world) && WorldOk(v'.world) && FreedExactly(v, v') && d in v'.world && count >= 1
    requires (exists s: nat :: Stays(v, d, s)) && ChunkOk(h, v'.world[d])
    ensures NoFit(h, count) <==> forall p: nat :: !GapAt(v, d, count, p)
  {
    hide Collectable, GapAt, NoFit, BitsOk, InfoOk, CountFree, RunsOk, Stays, Vacant, FreedExactly, WorldOk;
    FitsUncovered(h, v'.world[d], count);
    forall p: nat
      ensures GapAt(v, d, count, p) <==> 1 <= p && p + count <= PAGES && Vacant(v'.world[d], p, count)
    {
      GapStays(v, d, count, p);
      if 1 <= p && p + count <= PAGES {
        VacantAfter(v, v', d, p, count);
      }
    }
  }

  /** The chunks of the ring after a collection are those in which a run stays. */
  lemma RingStays(f: Fields, mem: Memory, v: View, f': Fields, mem': Memory, v': View, d: nat)
    requires Agree(f, mem, v) && Agree(f', mem', v') && FreedExactly(v, v')
    requires NoneEmpty(f'.ring, v'.world) && MainKept(f', v')
    ensures d in f'.ring <==> exists s: nat :: Stays(v, d, s)
  {
    hide Collectable, ChunksOk, LinksOk, HugeListOk, NodesOk, InventoryOk, Reclaimed, FreedExactly;
    if d in f'.ring {
      var s := RingRun(f', mem', v', d);
      StaysRun(v, v', d, s);
    }
    if s: nat :| Stays(v, d, s) {
      StaysHas(v, v', d, s);
    }
  }

  lemma StaysHas(v: View, v': View, d: nat, s: nat)
    requires FreedExactly(v, v') && Stays(v, d, s)
    ensures d in v'.world && s in v'.world[d]
  {
    hide Collectable;
    assert HasRun(v'.world, d, s, v.world[d][s]) <==> HasRun(v.world, d, s, v.world[d][s]) && !Collectable(v, d, s);
  }

  lemma RingRun(f: Fields, mem: Memory, v: View, d: nat) returns (s: nat)
    requires Agree(f, mem, v) && NoneEmpty(f.ring, v.world) && MainKept(f, v) && d in f.ring
    ensures d in v.world && s in v.world[d]
  {
    hide ChunksOk, LinksOk, HugeListOk, NodesOk, InventoryOk, Reclaimed, KeptWorld;
    if d == f.ring[0] {
      s :| s in KeptWorld(v.world, v.free)[d];
      KeptRun(v.world, v.free, d, s);
    } else {
      s :| s in v.world[d];
    }
  }

  /** The first chunk of the ring with a run that is long enough, and the best-fitting run in it. */
  ghost predicate FirstFit(chunks: map<nat, Chunk>, ring: seq<nat>, count: nat, i: nat, page: nat) {
    && i < |ring| && ring[i] in chunks
    && (exists e: nat :: IsBest(chunks[ring[i]].freeMap, count, page, e))
    && (forall k :: 0 <= k < i ==> ring[k] in chunks && NoFit(chunks[ring[k]], count))
  }

  /** The best-fitting pages stand right behind the header page or behind a run. */
  lemma BestPage(h: Chunk, rs: Runs, count: nat, page: nat, e: nat)
    requires ChunkOk(h, rs) && IsBest(h.freeMap, count, page, e)
    ensures 1 <= page < PAGES && !Covered(rs, page) && (page == 1 || Covered(rs, page - 1))
  {
    hide Covered, RunsOk, InfoOk, CountFree, Used;
    assert Used(h.freeMap, 0) && !Used(h.freeMap, page);
  }

  /** The run was taken from the first chunk of the ring with one that is long enough. */
  ghost predicate TakenFrom(chunks: map<nat, Chunk>, ring: seq<nat>, v: View, v': View, c: nat, page: nat, count: nat) {
    && (exists i: nat :: FirstFit(chunks, ring, count, i, page) && c == ring[i])
    && c in v.world && v' == LargeView(v, c, page, count)
  }

  /** The ring after a run was found: a chunk that was found late moves behind the main chunk. */
  ghost predicate RingAfter(chunks: map<nat, Chunk>, ring: seq<nat>, count: nat, c: nat, page: nat, ring': seq<nat>) {
    exists i: nat :: FirstFit(chunks, ring, count, i, page) && c == ring[i]
                     && ring' == if i > 2 && count < 8 then MovedUp(ring, i) else ring
  }

  /** The ring after a run in a new chunk: the chunk is the last one, or stands behind the main chunk if
      it was found late. */
  ghost predicate NewInRing(ring: seq<nat>, c: nat, late: bool) {
    |ring| > 1 && c == if late then ring[1] else ring[|ring| - 1]
  }

  lemma FoundRing(chunks: map<nat, Chunk>, ring: seq<nat>, count: nat, i: nat, page: nat)
    requires FirstFit(chunks, ring, count, i, page)
    ensures i < |ring| && !NoneFits(chunks, ring, count)
    ensures RingAfter(chunks, ring, count, ring[i], page, if i > 2 && count < 8 then MovedUp(ring, i) else ring)
    ensures i > 2 ==> |MovedUp(ring, i)| > 0 && MovedUp(ring, i)[0] == ring[0]
  {
    hide IsBest;
    var e: nat :| IsBest(chunks[ring[i]].freeMap, count, page, e);
    BestFits(chunks[ring[i]], count, page, e);
  }

  lemma BestFits(h: Chunk, count: nat, page: nat, e: nat)
    requires IsBest(h.freeMap, count, page, e)
    ensures !NoFit(h, count)
  {
    hide Fits;
  }

  lemma NewChunkPlace(ring: seq<nat>, i: nat, late: bool)
    requires 0 < i == |ring| - 1
    ensures NewInRing(if late then MovedUp(ring, i) else ring, ring[i], late)
  {
  }

  /** The same for a run that has become a small one. */
  ghost predicate TakenSmall(chunks: map<nat, Chunk>, ring: seq<nat>, v: View, v': View, sl: Slot, bin: nat) {
    && bin < BINS == |v.free| && sl.chunk in v.world
    && TakenFrom(chunks, ring, v, LargeView(v, sl.chunk, sl.page, BinPages(bin)), sl.chunk, sl.page, BinPages(bin))
    && v' == SmallView(LargeView(v, sl.chunk, sl.page, BinPages(bin)), sl.chunk, sl.page, bin)
  }

  lemma TakenThenSmall(chunks: map<nat, Chunk>, ring: seq<nat>, v: View, v1: View, v2: View, sl: Slot, bin: nat)
    requires bin < BINS == |v.free| == |v1.free| && TakenFrom(chunks, ring, v, v1, sl.chunk, sl.page, BinPages(bin))
    requires sl.chunk in v1.world && v2 == SmallView(v1, sl.chunk, sl.page, bin)
    ensures TakenSmall(chunks, ring, v, v2, sl, bin)
  {
    hide FirstFit, BinPages, SmallView;
  }

  /** The pages are free and not past `free_tail`. */
  ghost predicate Takeable(chunks: map<nat, Chunk>, ring: seq<nat>, i: nat, page: nat, count: nat) {
    && i < |ring| && ring[i] in chunks
    && 1 <= page <= chunks[ring[i]].freeTail && page + count <= PAGES
    && PAGES == WORD_BITS * |chunks[ring[i]].freeMap| && FreeRange(chunks[ring[i]].freeMap, page, count)
  }

  /** Headers that differ in `free_tail` at most. */
  ghost predicate OnlyTails(chunks: map<nat, Chunk>, chunks': map<nat, Chunk>) {
    && chunks'.Keys == chunks.Keys
    && (forall c :: c in chunks ==> chunks'[c] == chunks[c].(freeTail := chunks'[c].freeTail))
  }

  lemma TailsStart(chunks: map<nat, Chunk>)
    ensures OnlyTails(chunks, chunks)
  {
  }

  lemma TailsNext(chunks: map<nat, Chunk>, now: map<nat, Chunk>, c: nat, h: Chunk)
    requires OnlyTails(chunks, now) && c in now && h == now[c].(freeTail := h.freeTail)
    ensures OnlyTails(chunks, now[c := h]) && c in chunks && chunks[c].freeMap == now[c].freeMap
    ensures h.freeMap == chunks[c].freeMap
  {
  }

  /** The ring with the chunk at position `i` moved right behind the main chunk. */
  function MovedUp(ring: seq<nat>, i: nat): seq<nat>
    requires 0 < i < |ring|
  {
    [ring[0], ring[i]] + ring[1..i] + ring[i + 1..]
  }

  lemma MovedUpAgree(f: Fields, mem: Memory, v: View, i: nat)
    requires Agree(f, mem, v) && 0 < i < |f.ring|
    ensures |MovedUp(f.ring, i)| == |f.ring| && Agree(f.(ring := MovedUp(f.ring, i)), mem, v)
  {
    hide AgreeBut;
    RingNoDup(f, mem, v);
    MovedUpMembers(f.ring, i);
    ReorderAgree(f, mem, v, MovedUp(f.ring, i));
  }

  lemma RingNoDup(f: Fields, mem: Memory, v: View)
    requires Agree(f, mem, v)
    ensures NoDup(f.ring) && |f.ring| > 0
  {
    hide InventoryOk, LinksOk, HugeListOk, NodesOk, ChunksOk;
  }

  /** Where position `k` of the moved ring comes from, and where position `k` goes to. */
  function CameFrom(i: nat, k: nat): nat {
    if k == 0 then 0 else if k == 1 then i else if k <= i then k - 1 else k
  }

  function GoesTo(i: nat, k: nat): nat {
    if k == 0 then 0 else if k == i then 1 else if k < i then k + 1 else k
  }

  lemma MovedUpAt(ring: seq<nat>, i: nat, k: nat)
    requires 0 < i < |ring| && k < |ring|
    ensures |MovedUp(ring, i)| == |ring| && CameFrom(i, k) < |ring| && GoesTo(i, k) < |ring|
    ensures MovedUp(ring, i)[k] == ring[CameFrom(i, k)] && MovedUp(ring, i)[GoesTo(i, k)] == ring[k]
  {
  }

  lemma MovedUpMembers(ring: seq<nat>, i: nat)
    requires 0 < i < |ring| && NoDup(ring)
    ensures |MovedUp(ring, i)| == |ring| && NoDup(MovedUp(ring, i))
    ensures forall c :: c in MovedUp(ring, i) <==> c in ring
  {
    hide MovedUp;
    var m := MovedUp(ring, i);
    MovedUpAt(ring, i, 0);
    forall k: nat | k < |ring|
      ensures ring[k] in m && m[k] in ring && CameFrom(i, k) < |ring| && m[k] == ring[CameFrom(i, k)]
    {
      MovedUpAt(ring, i, k);
    }
    forall k, l | 0 <= k < l < |m|
      ensures m[k] != m[l]
    {
      assert CameFrom(i, k) != CameFrom(i, l);
    }
  }

  lemma TakeRunAgree(f: Fields, mem: Memory, v: View, i: nat, page: nat, count: nat)
    requires Agree(f, mem, v) && count >= 1 && Takeable(f.chunks, f.ring, i, page, count)
    ensures var c := f.ring[i];
      && c in v.world && page !in v.world[c] && PageAddr(c, page) !in v.live
      && page < |f.chunks[c].info| && count <= f.chunks[c].freePages
      && Agree(f.(chunks := f.chunks[c := MarkRun(f.chunks[c], page, count)]), mem, LargeView(v, c, page, count))
  {
    hide AgreeBut, ChunkOkWith, FreeRange, MarkRun, LargeView, Used;
    var c := f.ring[i];
    ChunkAt(f, mem, v, c);
    HeaderShape(f.chunks[c], v.world[c], map[]);
    MarkRunOk(f.chunks[c], v.world[c], map[], page, count);
    LargeAgree(f, mem, v, c, page, count, MarkRun(f.chunks[c], page, count));
  }

  lemma MemoryStart(mem: Memory, live: Live)
    ensures MemorySame(mem, mem, live)
  {
  }

  lemma MemoryTrans(a: Memory, b: Memory, c: Memory, live: Live)
    requires MemorySame(a, b, live) && MemorySame(b, c, live)
    ensures MemorySame(a, c, live)
  {
  }

  lemma UnlinkStart(f: Fields, mem: Memory, v: View, counted: FreeLists, linked: FreeLists, i: nat)
    requires Counting(f, mem, v, counted, linked) && LinkedOk(v, linked) && i < BINS && linked[i] == v.free[i]
    ensures |f.heads| == BINS == |counted| == |v.free| == |linked|
    ensures f.heads[i] == Head(v.free[i]) && v.free[i][0..] == v.free[i]
    ensures linked[i := [] + v.free[i][0..]] == linked && KeptSlots(v.world, v.free, v.free[i][..0]) == []
  {
    hide RingOk, HugeListOk, NodesOk, InventoryOk, ChunksCounted, ChainOk;
    assert v.free[i][..0] == [];
    assert [] + v.free[i][0..] == v.free[i];
  }

  /** One turn of the unlinking loop at slot `k`. */
  lemma UnlinkStep(f: Fields, mem: Memory, v: View, counted: FreeLists, linked: FreeLists,
                   i: nat, k: nat, kept: seq<Slot>)
    requires i < BINS == |counted| == |linked| == |v.free| && counted[i] == v.free[i]
    requires k <= |v.free[i]| && Head(v.free[i][k..]) != 0
    requires kept == KeptSlots(v.world, v.free, v.free[i][..k])
    requires Counting(f, mem, v, counted, linked[i := kept + v.free[i][k..]])
    requires LinkedOk(v, linked[i := kept + v.free[i][k..]])
    ensures k < |v.free[i]|
    ensures var sl := v.free[i][k];
      var p := Head(v.free[i][k..]);
      var page := p % CHUNK_SIZE / PAGE_SIZE;
      var rest := v.free[i][k + 1..];
      && p == SlotAddr(sl) && p / CHUNK_SIZE == sl.chunk && sl.chunk in f.chunks
      && |f.chunks[sl.chunk].info| == PAGES && page < PAGES && sl.page < PAGES && |f.heads| == BINS
      && ReadLink(mem, p) == Head(rest)
      && (kept != [] ==> SlotAddr(kept[|kept| - 1]) != 0)
      && var h := f.chunks[sl.chunk];
         && (IsLrun(h.info[page]) ==> page - NrunOffset(h.info[page]) == sl.page)
         && (!IsLrun(h.info[page]) ==> page == sl.page)
         && if SrunCounter(h.info[sl.page]) == BinElements(i) then
              && kept == KeptSlots(v.world, v.free, v.free[i][..k + 1])
              && LinkedOk(v, linked[i := kept + rest])
              && (kept == [] ==>
                    Counting(f.(heads := f.heads[i := Head(rest)]), mem, v, counted, linked[i := kept + rest]))
              && (kept != [] ==>
                    var mem' := WriteLink(mem, SlotAddr(kept[|kept| - 1]), Head(rest));
                    Counting(f, mem', v, counted, linked[i := kept + rest]) && MemorySame(mem, mem', v.live))
            else
              && kept + [sl] == KeptSlots(v.world, v.free, v.free[i][..k + 1])
              && linked[i := kept + v.free[i][k..]] == linked[i := kept + [sl] + rest]
  {
    hide Counting, LinkedOk, SrunCounter, IsLrun, NrunOffset, BinElements, SlotAddr, SlotOk, KeptSlots, WriteLink,
         FullyFree, Reclaimed, Count, MemorySame;
    var l := v.free[i];
    var now := linked[i := kept + l[k..]];
    NonEmptyTail(f, mem, v, counted, now, i, k, kept);
    var sl, rest := l[k], l[k + 1..];
    assert l[k..] == [sl] + rest;
    assert kept + l[k..] == kept + [sl] + rest;
    assert now[i][|kept|] == sl && now[i][|kept| + 1..] == rest;
    VisitSlot(f, mem, v, counted, now, i, |kept|);
    SlotReclaimed(v.world, v.free, sl);
    KeptNext(v.world, v.free, l, k);
    if SrunCounter(f.chunks[sl.chunk].info[sl.page]) == BinElements(i) {
      assert now[i := kept + rest] == linked[i := kept + rest];
      if kept == [] {
        assert kept + [sl] + rest == [sl] + rest && kept + rest == rest;
        UnlinkFirst(f, mem, v, counted, now, i, sl, rest);
      } else {
        UnlinkLater(f, mem, v, counted, now, i, kept, sl, rest);
      }
    }
  }

  /** A non-null tail pointer means that slots are left, and every listed slot has an address. */
  lemma NonEmptyTail(f: Fields, mem: Memory, v: View, counted: FreeLists, now: FreeLists,
                     i: nat, k: nat, kept: seq<Slot>)
    requires i < BINS == |counted| == |now| == |v.free| && counted[i] == v.free[i]
    requires k <= |v.free[i]| && Head(v.free[i][k..]) != 0 && now[i] == kept + v.free[i][k..]
    requires Counting(f, mem, v, counted, now) && LinkedOk(v, now)
    ensures k < |v.free[i]| && |f.heads| == BINS
    ensures kept != [] ==> SlotAddr(kept[|kept| - 1]) != 0
    ensures Count(counted[i], v.free[i][k].chunk, v.free[i][k].page) <= 512
    ensures SlotOk(v.world, v.free[i][k]) && v.free[i][k].page < PAGES
  {
    hide RingOk, HugeListOk, NodesOk, ChunksCounted, ChainOk, SlotAddr, HugeOk, LiveOk, Len, BinElements, Count;
    assert ListOk(v.world, i, now[i]) && ListOk(v.world, i, v.free[i]);
    var sl := v.free[i][k];
    assert RunsOk(v.world[sl.chunk]);
    CountBounds(v.world, i, v.free[i], sl.chunk, sl.page);
    BinTable(i);
    if kept != [] {
      assert now[i][|kept| - 1] == kept[|kept| - 1];
      SlotNotNull(v.world, kept[|kept| - 1]);
    }
  }

  lemma KeptNext(w: World, free: FreeLists, l: seq<Slot>, k: nat)
    requires |free| == BINS && k < |l|
    ensures KeptSlots(w, free, l[..k + 1])
      == KeptSlots(w, free, l[..k]) + if Reclaimed(w, free, l[k].chunk, l[k].page) then [] else [l[k]]
  {
    hide Reclaimed;
    assert l[..k + 1][..k] == l[..k];
  }

  lemma UnlinkEnd(f: Fields, mem: Memory, v: View, counted: FreeLists, linked: FreeLists,
                  i: nat, k: nat, kept: seq<Slot>)
    requires i < BINS == |linked| == |v.free| && k <= |v.free[i]| && Head(v.free[i][k..]) == 0
    requires LinkedOk(v, linked[i := kept + v.free[i][k..]])
    requires Counting(f, mem, v, counted, linked[i := kept + v.free[i][k..]])
    ensures k == |v.free[i]| && v.free[i][..k] == v.free[i] && kept + v.free[i][k..] == kept
  {
    hide RingOk, HugeListOk, NodesOk, ChunksCounted, ChainOk, SlotAddr, SlotOk, HugeOk, LiveOk, WorldOk;
    if k < |v.free[i]| {
      assert v.free[i][k..][0] == v.free[i][k];
      assert ListOk(v.world, i, v.free[i]);
      SlotNotNull(v.world, v.free[i][k]);
    }
  }

  lemma CountBinStart(f: Fields, mem: Memory, v: View, counted: FreeLists, linked: FreeLists, i: nat)
    requires Counting(f, mem, v, counted, linked) && LinkedOk(v, linked) && i < BINS
    requires counted[i] == [] && linked[i] == v.free[i]
    ensures |f.heads| == BINS == |counted| == |v.free| == |linked|
    ensures f.heads[i] == Head(v.free[i]) && counted[i := v.free[i][..0]] == counted
    ensures !SomeFull(v.world, v.free[i][..0], i)
  {
    hide RingOk, HugeListOk, NodesOk, InventoryOk, ChunksCounted, SomeFull, ChainOk;
    SomeFullNone(v.world, i);
    assert v.free[i][..0] == [];
  }

  lemma CountBinStep(f: Fields, mem: Memory, v: View, counted: FreeLists, linked: FreeLists, i: nat, k: nat)
    requires LinkedOk(v, linked) && i < BINS == |counted| && linked[i] == v.free[i]
    requires k <= |v.free[i]| && Head(v.free[i][k..]) != 0
    requires Counting(f, mem, v, counted[i := v.free[i][..k]], linked)
    ensures k < |v.free[i]|
    ensures var sl := v.free[i][k];
      var p := Head(v.free[i][k..]);
      var page := p % CHUNK_SIZE / PAGE_SIZE;
      var n := Count(v.free[i][..k], sl.chunk, sl.page);
      && p / CHUNK_SIZE == sl.chunk && sl.chunk in f.chunks && |f.chunks[sl.chunk].info| == PAGES && page < PAGES
      && sl.page < PAGES
      && var h := f.chunks[sl.chunk];
         && (IsLrun(h.info[page]) ==> page - NrunOffset(h.info[page]) == sl.page)
         && (!IsLrun(h.info[page]) ==> page == sl.page)
         && SrunCounter(h.info[sl.page]) == n
         && ReadLink(mem, p) == Head(v.free[i][k + 1..])
         && Counting(f.(chunks := f.chunks[sl.chunk := h.(info := h.info[sl.page := SrunEx(i, n + 1)])]), mem, v,
                     counted[i := v.free[i][..k + 1]], linked)
         && (SomeFull(v.world, v.free[i][..k + 1], i) <==>
               SomeFull(v.world, v.free[i][..k], i) || n + 1 == BinElements(i))
  {
    hide Counting, LinkedOk, SomeFull, Count, SrunEx, SrunCounter, IsLrun, NrunOffset, BinElements, SlotAddr, SlotOk;
    LinkedList(v, linked, i);
    var l := v.free[i];
    SomeFullSnoc(v.world, i, l, k);
    var now := counted[i := l[..k]];
    VisitSlot(f, mem, v, now, linked, i, k);
    assert l[k..][0] == l[k];
    CountSlot(f, mem, v, now, linked, l[k]);
    assert now[i := now[i] + [l[k]]] == counted[i := l[..k + 1]];
  }

  lemma LinkedList(v: View, linked: FreeLists, i: nat)
    requires LinkedOk(v, linked) && i < BINS
    ensures |linked| == BINS == |v.free| && ListOk(v.world, i, linked[i])
  {
  }

  lemma CountBinEnd(f: Fields, mem: Memory, v: View, counted: FreeLists, linked: FreeLists, i: nat, k: nat)
    requires LinkedOk(v, linked) && i < BINS == |counted| && linked[i] == v.free[i] && k <= |v.free[i]|
    requires Counting(f, mem, v, counted[i := v.free[i][..k]], linked) && Head(v.free[i][k..]) == 0
    ensures k == |v.free[i]| && v.free[i][..k] == v.free[i]
  {
    hide RingOk, HugeListOk, NodesOk, ChunksCounted, ChainOk, SlotAddr, SlotOk, HugeOk, LiveOk, WorldOk;
    if k < |v.free[i]| {
      assert ListOk(v.world, i, linked[i]);
      assert v.free[i][k..][0] == v.free[i][k];
      SlotNotNull(v.world, v.free[i][k]);
    }
  }

  lemma RingSize(f: Fields, mem: Memory, v: View, pending: set<nat>, i: nat)
    requires AgreeBut(f, mem, v, pending) && i < |f.ring|
    ensures |Removed(f.ring, i)| == |f.ring| - 1 && f.ring[i] in f.chunks
    ensures f.cached != [] ==> f.cached[0] in f.chunks && f.cached[0] != f.ring[i]
    ensures v.world.Keys == f.chunks.Keys
  {
    hide InventoryOk, LinksOk, HugeListOk, NodesOk, ChunkOk;
  }

  lemma SameEntry(live: Live, p: nat, e: Entry)
    requires p in live && live[p] == e
    ensures live[p := e] == live
  {
  }

  lemma ResizedTotal(v: View, ptr: nat, c: nat, page: nat, pages: nat)
    requires ptr in v.live && ptr == PageAddr(c, page) && c in v.world
    ensures LargeView(v, c, page, pages).live == v.live[ptr := Entry(LargeBlock(c, page), pages * PAGE_SIZE)]
    ensures LargeView(v, c, page, pages).nodes == v.nodes
    ensures Total(LargeView(v, c, page, pages).live) == Total(v.live) - v.live[ptr].size + pages * PAGE_SIZE
  {
    hide Total, PageAddr;
    TotalReplace(v.live, ptr, Entry(LargeBlock(c, page), pages * PAGE_SIZE));
  }

  /** What the header says about a large run that is to be resized. */
  lemma ResizeHeader(f: Fields, mem: Memory, v: View, ptr: nat, c: nat, page: nat, count: nat)
    requires Agree(f, mem, v) && ptr in v.live && v.live[ptr].block == LargeBlock(c, page)
    requires c in v.world && page in v.world[c] && v.world[c][page] == Large(count)
    ensures c in f.chunks && page + count <= PAGES && page < PAGES == |f.chunks[c].info|
    ensures PAGES == WORD_BITS * |f.chunks[c].freeMap| && count >= 1
    ensures v.live[ptr].size == count * PAGE_SIZE && ptr == PageAddr(c, page)
  {
    hide AgreeBut, ChunkOkWith, PageAddr;
    InUseAt(f, mem, v, ptr);
    ChunkAt(f, mem, v, c);
    RunBounds(f.chunks[c], v.world[c], page);
  }

  lemma ShrinkHeader(f: Fields, mem: Memory, v: View, ptr: nat, c: nat, page: nat, count: nat, pages: nat)
    requires Agree(f, mem, v) && ptr in v.live && v.live[ptr].block == LargeBlock(c, page)
    requires c in v.world && page in v.world[c] && v.world[c][page] == Large(count) && 1 <= pages < count
    ensures c in f.chunks && page + count <= WORD_BITS * |f.chunks[c].freeMap| && page < |f.chunks[c].info|
    ensures Agree(f.(chunks := f.chunks[c := ShrinkRun(f.chunks[c], page, count, pages)]), mem,
                  LargeView(v, c, page, pages))
  {
    hide AgreeBut, ChunkOkWith, PageAddr, ShrinkRun, LargeView;
    ResizeHeader(f, mem, v, ptr, c, page, count);
    ChunkAt(f, mem, v, c);
    ShrinkRunOk(f.chunks[c], v.world[c], map[], page, pages);
    ResizeLargeAgree(f, mem, v, c, page, pages, ShrinkRun(f.chunks[c], page, count, pages));
  }

  lemma GrowHeader(f: Fields, mem: Memory, v: View, ptr: nat, c: nat, page: nat, count: nat, pages: nat)
    requires Agree(f, mem, v) && ptr in v.live && v.live[ptr].block == LargeBlock(c, page)
    requires c in v.world && page in v.world[c] && v.world[c][page] == Large(count) && count < pages
    requires page + pages <= PAGES && c in f.chunks && PAGES == WORD_BITS * |f.chunks[c].freeMap|
    requires FreeRange(f.chunks[c].freeMap, page + count, pages - count)
    ensures page < |f.chunks[c].info| && pages - count <= f.chunks[c].freePages
    ensures Agree(f.(chunks := f.chunks[c := GrowRun(f.chunks[c], page, count, pages)]), mem,
                  LargeView(v, c, page, pages))
  {
    hide AgreeBut, ChunkOkWith, PageAddr, GrowRun, LargeView, FreeRange;
    ResizeHeader(f, mem, v, ptr, c, page, count);
    ChunkAt(f, mem, v, c);
    GrowRunOk(f.chunks[c], v.world[c], map[], page, pages);
    ResizeLargeAgree(f, mem, v, c, page, pages, GrowRun(f.chunks[c], page, count, pages));
  }

  /** The OS could extend entry `i` of the list to `n` bytes. */
  predicate Extendable(chunks: map<nat, Chunk>, huge: seq<HugeNode>, i: nat, n: nat)
    requires i < |huge|
  {
    && (forall c :: c in chunks ==> Apart(huge[i].ptr, n, c * CHUNK_SIZE, CHUNK_SIZE))
    && (forall k :: 0 <= k < |huge| && k != i ==> Apart(huge[i].ptr, n, huge[k].ptr, huge[k].size))
  }

  lemma ExtendableFree(f: Fields, mem: Memory, v: View, i: nat, n: nat)
    requires Agree(f, mem, v) && i < |f.hugeList| && Extendable(f.chunks, f.hugeList, i, n)
    ensures RegionFree(v.world, v.huge, f.hugeList[i].ptr, n, f.hugeList[i].ptr)
  {
    hide InventoryOk, RingOk, LinksOk, NodesOk, ChunkOk, Apart;
  }

  lemma ResizedHugeTotal(v: View, ptr: nat, n: nat, l: seq<HugeNode>, i: nat)
    requires ptr in v.live && i < |l|
    ensures Total(HugeResizedView(v, ptr, n).live) == Total(v.live) - v.live[ptr].size + n
    ensures HugeTotal(l[i := l[i].(size := n)]) == HugeTotal(l) - l[i].size + n
  {
    hide Total, HugeTotal;
    TotalReplace(v.live, ptr, Entry(HugeBlock(ptr), n));
    HugeTotalUpdate(l, i, l[i].(size := n));
  }

  lemma EntryResized(f: Fields, mem: Memory, v: View, i: nat, n: nat)
    requires Agree(f, mem, v) && i < |f.hugeList| && n > MAX_LARGE_SIZE
    requires n <= f.hugeList[i].size || Extendable(f.chunks, f.hugeList, i, n)
    ensures var e := f.hugeList[i];
      var l, v' := f.hugeList[i := e.(size := n)], HugeResizedView(v, e.ptr, n);
      && Agree(f.(hugeList := l), mem, v') && v'.world == v.world
      && HugeTotal(f.hugeList) >= e.size && HugeTotal(l) == HugeTotal(f.hugeList) - e.size + n
      && Total(v.live) >= e.size && Total(v'.live) == Total(v.live) - e.size + n
  {
    hide Agree, HugeTotal, Total, RegionFree, Extendable;
    if n > f.hugeList[i].size {
      ExtendableFree(f, mem, v, i, n);
    }
    ResizeHugeAgree(f, mem, v, i, n);
    ResizedHugeTotal(v, f.hugeList[i].ptr, n, f.hugeList, i);
    HugeTotalAt(f.hugeList, i);
    TotalRemove(v.live, f.hugeList[i].ptr);
  }

  lemma TotalNone()
    ensures Total(map[]) == 0
  {
  }

  /** The cells of the list of huge blocks come from their own size's bin. */
  lemma NodeBinRight()
    ensures SizeToBin(NODE_SIZE) == NODE_BIN && BinSize(NODE_BIN) == NODE_SIZE
  {
  }

  // ------------------------------------------------------- chunks of the ring hold runs

  lemma JoinFilled(ring: seq<nat>, w: World, w': World, c: nat)
    requires NoneEmpty(ring, w) && (w' == w || w' == w[c := map[]])
    ensures NoneEmptyBut(ring + [c], w', c)
  {
  }

  lemma FilledOther(ring: seq<nat>, w: World, i: nat)
    requires NoneEmpty(ring, w) && i < |ring|
    ensures NoneEmptyBut(ring, w, ring[i])
  {
  }

  lemma SmallFilled(ring: seq<nat>, v: View, c: nat, page: nat, b: nat)
    requires NoneEmpty(ring, v.world) && c in v.world && b < BINS == |v.free|
    ensures NoneEmpty(ring, SmallView(v, c, page, b).world)
  {
    hide BinSize, PageAddr, RestSlots;
  }

  lemma LargeFilled(ring: seq<nat>, v: View, c: nat, page: nat, count: nat)
    requires NoneEmpty(ring, v.world) && c in v.world
    ensures NoneEmpty(ring, LargeView(v, c, page, count).world)
  {
    hide PageAddr;
  }

  /** A run fills its chunk, wherever the chunk then stands in the ring. */
  lemma TakenFilled(ring: seq<nat>, v: View, i: nat, page: nat, count: nat)
    requires i < |ring| && ring[i] in v.world
    ensures NoneEmptyBut(ring, v.world, ring[i]) ==> NoneEmpty(ring, LargeView(v, ring[i], page, count).world)
    ensures NoneEmptyBut(ring, v.world, ring[i]) && i > 0 ==>
      NoneEmpty(MovedUp(ring, i), LargeView(v, ring[i], page, count).world)
  {
    hide PageAddr, MovedUp;
    assert page in LargeView(v, ring[i], page, count).world[ring[i]];
    if i > 0 {
      MovedUpSame(ring, i);
    }
  }

  lemma MovedUpSame(ring: seq<nat>, i: nat)
    requires 0 < i < |ring|
    ensures MovedUp(ring, i) != [] && MovedUp(ring, i)[0] == ring[0] && forall c :: c in MovedUp(ring, i) ==> c in ring
  {
  }

  lemma FreedFilled(ring: seq<nat>, v: View, c: nat, page: nat)
    requires NoneEmpty(ring, v.world) && c in v.world
    ensures c in FreedView(v, c, page).world && NoneEmptyBut(ring, FreedView(v, c, page).world, c)
    ensures c == ring[0] || FreedView(v, c, page).world[c] != map[] ==> NoneEmpty(ring, FreedView(v, c, page).world)
  {
    hide PageAddr;
  }

  /** The empty chunk has left the ring. */
  lemma DeletedFilled(f: Fields, mem: Memory, v: View, i: nat, f': Fields, v': View)
    requires Agree(f, mem, v) && Agree(f', mem, v') && 0 < i < |f.ring| && f'.ring == Removed(f.ring, i)
    requires NoneEmptyBut(f.ring, v.world, f.ring[i]) && SubWorld(v'.world, v.world)
    ensures NoneEmpty(f'.ring, v'.world)
  {
    hide InventoryOk, ChunksOk, LinksOk, HugeListOk, NodesOk, Removed;
    RemovedMembers(f.ring, i);
    RemovedFirst(f.ring, i);
  }

  lemma SubWorldSelf(w: World)
    ensures SubWorld(w, w)
  {
  }

  lemma RemovedFirst(s: seq<nat>, i: nat)
    requires 0 < i < |s|
    ensures Removed(s, i) != [] && Removed(s, i)[0] == s[0]
  {
  }
}
