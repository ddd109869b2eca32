/** The heap as its callers see it: the blocks they own, and how an address is decoded. */
module Ownership {
  import opened Words
  import opened Bitset
  import opened Bins
  import opened PageInfo
  import opened Chunks
  import opened Blocks
  import opened Inventory
  import opened Collection
  import opened HeapState
  import opened HugeState
  import opened GcState
  import opened SweepState
  import opened HeapSteps

  /** The address of a cell of the list of huge blocks. */
  ghost predicate IsCell(v: View, p: nat) {
    exists i :: 0 <= i < |v.nodes| && SlotAddr(v.nodes[i]) == p
  }

  /** Address and size of the blocks in the hands of callers. */
  ghost function Owned(v: View): map<nat, nat> {
    map p | p in v.live && !IsCell(v, p) :: v.live[p].size
  }

  /** Size of the block that a request for `bytes` bytes yields. */
  function RoundedSize(bytes: nat, realPage: Positive): nat {
    if bytes <= MAX_SMALL_SIZE then
      SizeToBinIsSmallest(bytes);
      BinSize(SizeToBin(bytes))
    else if bytes <= MAX_LARGE_SIZE then PageCount(bytes) * PAGE_SIZE
    else AlignedUp(bytes, realPage)
  }

  /** A block is never smaller than the request. */
  lemma RoundedSizeEnough(bytes: nat, realPage: Positive)
    ensures RoundedSize(bytes, realPage) >= bytes
  {
    hide AlignedUp, BinSize, SizeToBin;
    if bytes <= MAX_SMALL_SIZE {
      SizeToBinIsSmallest(bytes);
    } else if bytes <= MAX_LARGE_SIZE {
      PageCountRange(bytes);
    } else {
      AlignedUpBounds(bytes, realPage);
    }
  }

  /** How a request changes what the size counter has lost for good: a failed small request loses the
      size of its bin, a failed huge request may lose the size of its list cell. */
  ghost predicate LostBy(before: nat, after: nat, bytes: nat, r: Grab) {
    if r.Got? then after == before
    else if bytes <= MAX_SMALL_SIZE then
      SizeToBinIsSmallest(bytes);
      after == before + BinSize(SizeToBin(bytes))
    else if bytes <= MAX_LARGE_SIZE then after == before
    else after == before || after == before + BinSize(NODE_BIN)
  }

  // -------------------------------------------------------- how ownership changes

  lemma OwnedSame(v: View, v': View)
    requires v'.live == v.live && v'.nodes == v.nodes
    ensures Owned(v') == Owned(v)
  {
    hide IsCell;
    assert forall p :: IsCell(v', p) <==> IsCell(v, p) by {
      forall p
        ensures IsCell(v', p) <==> IsCell(v, p)
      {
        CellsSame(v, v', p);
      }
    }
  }

  lemma CellsSame(v: View, v': View, p: nat)
    requires v'.nodes == v.nodes
    ensures IsCell(v', p) <==> IsCell(v, p)
  {
    hide SlotAddr;
  }

  /** Cells are live. */
  lemma CellLive(f: Fields, mem: Memory, v: View, p: nat)
    requires Agree(f, mem, v) && IsCell(v, p)
    ensures p in v.live && v.live[p].block.SmallBlock? && v.live[p].block.slot in v.nodes
  {
    hide Agree, SlotAddr, BinSize;
    var i :| 0 <= i < |v.nodes| && SlotAddr(v.nodes[i]) == p;
    NodeLive(f, mem, v, i);
  }

  /** A live small block whose slot is no cell is not at the address of one. */
  lemma OwnedSlot(f: Fields, mem: Memory, v: View, p: nat)
    requires Agree(f, mem, v) && p in Owned(v)
    ensures p in v.live && v.live[p].size == Owned(v)[p]
    ensures v.live[p].block.SmallBlock? ==> v.live[p].block.slot !in v.nodes
  {
    hide Agree, SlotAddr, BinSize, InUse, BlockSize;
    InUseAt(f, mem, v, p);
  }

  /** One more block, at a new address. */
  lemma OwnedAdded(f: Fields, mem: Memory, v: View, v': View, p: nat, e: Entry)
    requires Agree(f, mem, v) && p !in v.live && v'.live == v.live[p := e] && v'.nodes == v.nodes
    ensures p !in Owned(v) && Owned(v') == Owned(v)[p := e.size]
  {
    hide Agree, IsCell;
    forall q
      ensures IsCell(v', q) <==> IsCell(v, q)
    {
      CellsSame(v, v', q);
    }
    assert !IsCell(v, p) by {
      if IsCell(v, p) {
        CellLive(f, mem, v, p);
      }
    }
  }

  /** One block less. */
  lemma OwnedRemoved(v: View, v': View, p: nat)
    requires v'.live == v.live - {p} && v'.nodes == v.nodes
    ensures Owned(v') == Owned(v) - {p}
  {
    hide IsCell;
    forall q
      ensures IsCell(v', q) <==> IsCell(v, q)
    {
      CellsSame(v, v', q);
    }
  }

  /** A block that keeps its address and gets another size. */
  lemma OwnedResized(v: View, v': View, p: nat, e: Entry)
    requires p in Owned(v) && v'.live == v.live[p := e] && v'.nodes == v.nodes
    ensures Owned(v') == Owned(v)[p := e.size]
  {
    hide IsCell;
    forall q
      ensures IsCell(v', q) <==> IsCell(v, q)
    {
      CellsSame(v, v', q);
    }
  }

  /** One more huge block: its cell is not owned. */
  lemma OwnedHuge(f: Fields, mem: Memory, v: View, v': View, p: nat, n: nat, cell: Slot)
    requires Agree(f, mem, v) && PlacedHuge(v, v', p, n, cell)
    ensures p !in Owned(v) && Owned(v') == Owned(v)[p := n]
  {
    hide Agree, IsCell, SlotAddr, BinSize;
    forall q
      ensures IsCell(v', q) <==> IsCell(v, q) || q == SlotAddr(cell)
    {
      CellsCons(v, v', cell, q);
    }
    if IsCell(v, p) {
      CellLive(f, mem, v, p);
    }
  }

  lemma CellsCons(v: View, v': View, cell: Slot, p: nat)
    requires v'.nodes == [cell] + v.nodes
    ensures IsCell(v', p) <==> IsCell(v, p) || p == SlotAddr(cell)
  {
    hide SlotAddr;
    if p == SlotAddr(cell) {
      assert SlotAddr(v'.nodes[0]) == p;
    }
    if IsCell(v, p) {
      var i :| 0 <= i < |v.nodes| && SlotAddr(v.nodes[i]) == p;
      assert SlotAddr(v'.nodes[i + 1]) == p;
    }
    if IsCell(v', p) && p != SlotAddr(cell) {
      var i :| 0 <= i < |v'.nodes| && SlotAddr(v'.nodes[i]) == p;
      assert SlotAddr(v.nodes[i - 1]) == p;
    }
  }

  /** A huge block and its cell go. */
  lemma OwnedHugeRemoved(f: Fields, mem: Memory, v: View, v': View, i: nat, p: nat)
    requires Agree(f, mem, v) && i < |v.nodes| && p in v.live && v.live[p].block.HugeBlock?
    requires v'.live == v.live - {p} - {SlotAddr(v.nodes[i])} && v'.nodes == Removed(v.nodes, i)
    ensures Owned(v') == Owned(v) - {p}
  {
    hide Agree, IsCell, SlotAddr;
    forall q
      ensures IsCell(v, q) <==> IsCell(v', q) || q == SlotAddr(v.nodes[i])
    {
      CellsWithout(v, v', i, q);
    }
    if IsCell(v, p) {
      CellLive(f, mem, v, p);
    }
    NodesApart(f, mem, v, v', i);
  }

  lemma CellsWithout(v: View, v': View, i: nat, p: nat)
    requires i < |v.nodes| && v'.nodes == Removed(v.nodes, i)
    ensures IsCell(v, p) <==> IsCell(v', p) || p == SlotAddr(v.nodes[i])
  {
    hide SlotAddr;
    if IsCell(v, p) && p != SlotAddr(v.nodes[i]) {
      var k :| 0 <= k < |v.nodes| && SlotAddr(v.nodes[k]) == p;
      assert SlotAddr(v'.nodes[if k < i then k else k - 1]) == p;
    }
    if IsCell(v', p) {
      var k :| 0 <= k < |v'.nodes| && SlotAddr(v'.nodes[k]) == p;
      assert SlotAddr(v.nodes[if k < i then k else k + 1]) == p;
    }
  }

  lemma NodesApart(f: Fields, mem: Memory, v: View, v': View, i: nat)
    requires Agree(f, mem, v) && i < |v.nodes| && v'.nodes == Removed(v.nodes, i)
    ensures !IsCell(v', SlotAddr(v.nodes[i]))
  {
    hide Agree, SlotAddr, BinSize;
    if IsCell(v', SlotAddr(v.nodes[i])) {
      var k :| 0 <= k < |v'.nodes| && SlotAddr(v'.nodes[k]) == SlotAddr(v.nodes[i]);
      var j := if k < i then k else k + 1;
      NodeLive(f, mem, v, i);
      NodeLive(f, mem, v, j);
      NodesNoDup(f, mem, v);
    }
  }

  lemma NodesNoDup(f: Fields, mem: Memory, v: View)
    requires Agree(f, mem, v)
    ensures NoDup(v.nodes)
  {
    hide InventoryOk, ChunksOk, RingOk, LinksOk, HugeListOk;
  }

  // ----------------------------------------------------------- decoding an address

  /** What an address says about the block that is live there. */
  ghost predicate Decoded(f: Fields, v: View, p: nat)
    requires p in v.live
  {
    var b, c, page := v.live[p].block, p / CHUNK_SIZE, p % CHUNK_SIZE / PAGE_SIZE;
    && p > 0
    && (p % CHUNK_SIZE == 0 <==> b.HugeBlock?)
    && (!b.HugeBlock? ==>
          && c in f.chunks && c in v.world && c == BlockChunk(b) && page < |f.chunks[c].info|
          && var info := f.chunks[c].info[page];
             && (IsSrun(info) <==> b.SmallBlock?)
             && (b.SmallBlock? ==> SrunBin(info) == b.slot.bin && b.slot.bin < BINS)
             && (b.LargeBlock? ==> page == b.page && page in v.world[c] && v.world[c][page] == Large(LrunPages(info))))
  }

  lemma DecodeBlock(f: Fields, mem: Memory, v: View, p: nat)
    requires Agree(f, mem, v) && p in v.live
    ensures Decoded(f, v, p)
  {
    InUseAt(f, mem, v, p);
    WorldIsOk(f, mem, v);
    match v.live[p].block {
      case SmallBlock(sl) => DecodeSmall(f, mem, v, p, sl);
      case LargeBlock(c, page) => DecodeLarge(f, mem, v, p, c, page);
      case HugeBlock(_) => HugeListed(f, mem, v, p);
    }
  }

  lemma WorldIsOk(f: Fields, mem: Memory, v: View)
    requires Agree(f, mem, v)
    ensures WorldOk(v.world)
  {
  }

  lemma DecodeSmall(f: Fields, mem: Memory, v: View, p: nat, sl: Slot)
    requires Agree(f, mem, v) && p in v.live && v.live[p].block == SmallBlock(sl) && WorldOk(v.world)
    requires SlotOk(v.world, sl) && p == SlotAddr(sl)
    ensures Decoded(f, v, p)
  {
    hide Agree, SlotAddr, WorldOk, ChunkOkWith, IsSrun, IsLrun, SrunBin, BinElements, Len;
    SlotDecode(v.world, sl);
    ChunkAt(f, mem, v, sl.chunk);
    FindRun(f.chunks[sl.chunk], v.world[sl.chunk], map[], sl.page, p % CHUNK_SIZE / PAGE_SIZE);
  }

  lemma DecodeLarge(f: Fields, mem: Memory, v: View, p: nat, c: nat, page: nat)
    requires Agree(f, mem, v) && p in v.live && v.live[p].block == LargeBlock(c, page) && WorldOk(v.world)
    requires c in v.world && page in v.world[c] && v.world[c][page].Large? && p == PageAddr(c, page)
    ensures Decoded(f, v, p)
  {
    hide AgreeBut, WorldOk, ChunkOkWith, IsSrun, IsLrun, LrunPages, PageAddr;
    ChunkAt(f, mem, v, c);
    RunBounds(f.chunks[c], v.world[c], page);
    RunStart(f.chunks[c], v.world[c], page);
    DecodeAddr(c, page, 0, 1);
    SmallRunInfo(f.chunks[c], v.world[c], map[], page);
  }

  lemma RunStart(h: Chunk, rs: Runs, page: nat)
    requires ChunkOk(h, rs) && page in rs
    ensures page >= 1
  {
  }

  /** The parts of `Decoded` that a method needs to read the page information. */
  lemma DecodedFacts(f: Fields, v: View, p: nat)
    requires p in v.live && Decoded(f, v, p)
    ensures var b, c, page := v.live[p].block, p / CHUNK_SIZE, p % CHUNK_SIZE / PAGE_SIZE;
      && p > 0 && (p % CHUNK_SIZE == 0 <==> b.HugeBlock?)
      && (!b.HugeBlock? ==>
            && c in f.chunks && c in v.world && page < |f.chunks[c].info|
            && (IsSrun(f.chunks[c].info[page]) <==> b.SmallBlock?))
      && (b.SmallBlock? ==> SrunBin(f.chunks[c].info[page]) == b.slot.bin && b.slot.bin < BINS)
      && (b.LargeBlock? ==>
            && b == LargeBlock(c, page) && page in v.world[c]
            && v.world[c][page] == Large(LrunPages(f.chunks[c].info[page])))
  {
    hide IsSrun, SrunBin, LrunPages;
  }

  lemma DecodedSize(f: Fields, mem: Memory, v: View, p: nat)
    requires Agree(f, mem, v) && p in v.live && Decoded(f, v, p)
    ensures var b, c, page := v.live[p].block, p / CHUNK_SIZE, p % CHUNK_SIZE / PAGE_SIZE;
      && (b.SmallBlock? ==> v.live[p].size == BinSize(SrunBin(f.chunks[c].info[page])))
      && (b.LargeBlock? ==> v.live[p].size == LrunPages(f.chunks[c].info[page]) * PAGE_SIZE)
  {
    hide Agree, IsSrun, SrunBin, LrunPages, BinSize, SlotAddr, PageAddr;
    InUseAt(f, mem, v, p);
  }

  // ------------------------------------------------------- when a block stays in its place

  /** The large run at `page` has `pages` pages, or the pages that it lacks are free. */
  ghost predicate RoomAt(f: Fields, v: View, c: nat, page: nat, pages: nat) {
    && c in f.chunks && c in v.world && page in v.world[c] && v.world[c][page].Large?
    && PAGES == WORD_BITS * |f.chunks[c].freeMap|
    && var n := v.world[c][page].pages;
       || pages <= n
       || (page + pages <= PAGES && FreeRange(f.chunks[c].freeMap, page + n, pages - n))
  }

  /** A small or large block stays where it is when `bytes` bytes are asked for: a small one if its bin
      is the first that is large enough, a large one if the request is large and has room there. */
  ghost predicate InPlace(f: Fields, v: View, ptr: nat, bytes: nat) {
    && ptr in v.live
    && match v.live[ptr].block
       case SmallBlock(sl) =>
         sl.bin < BINS && bytes <= BinSize(sl.bin) && forall b: nat :: b < sl.bin ==> BinSize(b) < bytes
       case LargeBlock(c, page) => MAX_SMALL_SIZE < bytes <= MAX_LARGE_SIZE && RoomAt(f, v, c, page, PageCount(bytes))
       case HugeBlock(_) => false
  }

  /** A huge block for which huge memory is asked again: the OS decides whether it stays. */
  ghost predicate HugeAgain(v: View, ptr: nat, bytes: nat) {
    ptr in v.live && v.live[ptr].block.HugeBlock? && bytes > MAX_LARGE_SIZE
  }

  lemma InPlaceKinds(f: Fields, v: View, ptr: nat, bytes: nat)
    requires ptr in v.live
    ensures InPlace(f, v, ptr, bytes) ==> !v.live[ptr].block.HugeBlock?
    ensures HugeAgain(v, ptr, bytes) <==> v.live[ptr].block.HugeBlock? && bytes > MAX_LARGE_SIZE
  {
    hide BinSize, RoomAt;
  }

  lemma BinOfSize(bytes: nat, b: nat)
    requires b < BINS
    ensures bytes <= MAX_SMALL_SIZE && SizeToBin(bytes) == b <==>
      bytes <= BinSize(b) && forall c: nat :: c < b ==> BinSize(c) < bytes
  {
    hide BinSize, SizeToBin;
    BinSizes(b);
    if bytes <= MAX_SMALL_SIZE {
      SizeToBinIsSmallest(bytes);
    }
  }

  /** A request that rounds to the size of the block leaves it in its place. */
  lemma SameSizeInPlace(f: Fields, mem: Memory, v: View, ptr: nat, bytes: nat, realPage: Positive)
    requires Agree(f, mem, v) && ptr in v.live && RoundedSize(bytes, realPage) == v.live[ptr].size
    ensures InPlace(f, v, ptr, bytes) || (v.live[ptr].block.HugeBlock? && bytes > MAX_LARGE_SIZE)
  {
    hide Agree, BinSize, SizeToBin, SlotAddr, PageAddr, AlignedUp, PageCount, BinElements, FreeRange;
    InUseAt(f, mem, v, ptr);
    RoundedRanges(bytes, realPage);
    match v.live[ptr].block {
      case SmallBlock(sl) =>
        BinSizes(sl.bin);
        SizeToBinIsSmallest(bytes);
        SameBinSize(SizeToBin(bytes), sl.bin);
        BinOfSize(bytes, sl.bin);
      case LargeBlock(c, page) =>
        ResizeHeader(f, mem, v, ptr, c, page, v.world[c][page].pages);
        LargeSizes(f, mem, v, ptr);
      case HugeBlock(_) => HugeSizes(f, mem, v, ptr);
    }
  }

  /** The size of a block tells the kind of the request. */
  lemma RoundedRanges(bytes: nat, realPage: Positive)
    ensures bytes <= MAX_SMALL_SIZE <==> RoundedSize(bytes, realPage) <= MAX_SMALL_SIZE
    ensures bytes <= MAX_LARGE_SIZE <==> RoundedSize(bytes, realPage) <= MAX_LARGE_SIZE
  {
    hide BinSize, SizeToBin, AlignedUp, PageCount;
    if bytes <= MAX_SMALL_SIZE {
      SizeToBinIsSmallest(bytes);
      BinSizes(SizeToBin(bytes));
    } else if bytes <= MAX_LARGE_SIZE {
      PageCountRange(bytes);
    } else {
      AlignedUpBounds(bytes, realPage);
    }
  }

  lemma SameBinSize(b: nat, c: nat)
    requires b < BINS && c < BINS && BinSize(b) == BinSize(c)
    ensures b == c
  {
    hide BinSize;
    if b < c {
      BinSizesIncrease(b, c);
    } else if c < b {
      BinSizesIncrease(c, b);
    }
  }

  lemma LargeSizes(f: Fields, mem: Memory, v: View, ptr: nat)
    requires Agree(f, mem, v) && ptr in v.live && v.live[ptr].block.LargeBlock?
    ensures MAX_SMALL_SIZE < v.live[ptr].size <= MAX_LARGE_SIZE
  {
    hide ChunksOk, RingOk, LinksOk, HugeListOk, NodesOk, HugeOk, FreeOk, PageAddr;
    InUseAt(f, mem, v, ptr);
    var b := v.live[ptr].block;
    assert RunsOk(v.world[b.chunk]);
  }

  lemma HugeSizes(f: Fields, mem: Memory, v: View, ptr: nat)
    requires Agree(f, mem, v) && ptr in v.live && v.live[ptr].block.HugeBlock?
    ensures v.live[ptr].size > MAX_LARGE_SIZE
  {
    hide ChunksOk, RingOk, LinksOk, HugeListOk, NodesOk, WorldOk, FreeOk;
    InUseAt(f, mem, v, ptr);
  }

  // ------------------------------------------------------------ pinning the main chunk

  /** A caller owns a block in the main chunk. */
  ghost predicate Pinned(f: Fields, v: View, pin: nat) {
    && |f.ring| > 0 && pin in Owned(v) && !v.live[pin].block.HugeBlock?
    && BlockChunk(v.live[pin].block) == f.ring[0]
  }

  /** A collection keeps the run of a live block, so a pinned main chunk is never deleted. */
  lemma PinnedKept(f: Fields, mem: Memory, v: View, pin: nat)
    requires Agree(f, mem, v) && Pinned(f, v, pin)
    ensures MainKept(f, v)
  {
    hide HugeOk, LiveOk, ChunksOk, RingOk, LinksOk, HugeListOk, NodesOk, KeptWorld, Reclaimed, BinElements, WorldOk,
         IsCell;
    InUseAt(f, mem, v, pin);
    var b := v.live[pin].block;
    PinNotReclaimed(v.world, v.free, v.huge, b);
    KeptRun(v.world, v.free, BlockChunk(b), BlockPage(b));
  }

  lemma PinNotReclaimed(w: World, free: FreeLists, huge: map<nat, nat>, b: Block)
    requires FreeOk(w, free) && InUse(w, free, huge, b) && !b.HugeBlock?
    ensures BlockChunk(b) in w && BlockPage(b) in w[BlockChunk(b)]
    ensures !Reclaimed(w, free, BlockChunk(b), BlockPage(b))
  {
    hide BinElements, Count, ListOk;
    if b.SmallBlock? && Reclaimed(w, free, b.slot.chunk, b.slot.page) {
      ReclaimedFree(w, free, b.slot);
    }
  }

  /** The block is large and its run is the only one of the main chunk: freeing it would delete the
      chunk in which the heap itself lives. */
  ghost predicate LastInMain(f: Fields, v: View, p: nat) {
    && |f.ring| > 0 && p in v.live && v.live[p].block.LargeBlock? && v.live[p].block.chunk == f.ring[0]
    && f.ring[0] in v.world && v.world[f.ring[0]].Keys == {v.live[p].block.page}
  }

  lemma NotLast(f: Fields, v: View, p: nat, c: nat, page: nat, n: nat)
    requires |f.ring| > 0 && p in v.live && v.live[p].block == LargeBlock(c, page) && !LastInMain(f, v, p)
    requires c in v.world && page in v.world[c] && v.world[c][page] == Large(n)
    ensures c == f.ring[0] ==> v.world[c] != map[page := Large(n)]
  {
  }

  /** Freeing another block does not empty a pinned main chunk. */
  lemma PinnedNotLast(f: Fields, mem: Memory, v: View, pin: nat, p: nat)
    requires Agree(f, mem, v) && Pinned(f, v, pin) && p in v.live && p != pin
    ensures !LastInMain(f, v, p)
  {
    hide Agree, BinElements, SlotAddr, PageAddr, IsCell;
    InUseAt(f, mem, v, pin);
    InUseAt(f, mem, v, p);
    assert BlockPage(v.live[pin].block) in v.world[f.ring[0]].Keys;
  }

  /** The main chunk is empty, and so is every free list. */
  ghost predicate Fresh(f: Fields, v: View) {
    MainEmpty(f, v) && |v.free| == BINS && forall b :: 0 <= b < BINS ==> v.free[b] == []
  }

  // -------------------------------------------------- what an operation does for callers

  /** Live blocks of `v` are live blocks of `v'`, with the same size. */
  ghost predicate StillLive(v: View, v': View) {
    forall p :: p in v.live ==> p in v'.live && v'.live[p] == v.live[p]
  }

  /** An allocation of a block of `n` bytes: the caller owns it, or nothing has changed. */
  ghost predicate Allocated(v: View, v': View, r: Grab, ptr: nat, n: nat) {
    && StillLive(v, v')
    && (r.Got? ==> ptr !in v.live && ptr !in Owned(v) && Owned(v') == Owned(v)[ptr := n])
    && (!r.Got? ==> Owned(v') == Owned(v))
  }

  /** The caller gives the block at `ptr` back. */
  ghost predicate Released(v: View, v': View, ptr: nat) {
    && Owned(v') == Owned(v) - {ptr}
    && (forall p :: p in v'.live ==> p in v.live && v'.live[p] == v.live[p])
  }

  lemma SmallAllocated(f: Fields, mem: Memory, f': Fields, v: View, v': View, r: Grab, ptr: nat,
                       sl: Slot, bin: nat)
    requires Agree(f, mem, v) && bin < BINS && (r.Got? ==> ptr == SlotAddr(sl))
    requires (r.Got? ==> PlacedSmall(v, v', sl, bin)) && (!r.Got? ==> SameBlocks(v, v'))
    ensures Allocated(v, v', r, ptr, BinSize(bin))
    ensures r.Got? && |f'.ring| > 0 && sl.chunk == f'.ring[0] ==> Pinned(f', v', ptr)
  {
    hide Agree, Owned, SlotAddr, BinSize, SlotOk;
    if r.Got? {
      OwnedAdded(f, mem, v, v', SlotAddr(sl), Entry(SmallBlock(sl), BinSize(bin)));
    } else {
      OwnedSame(v, v');
    }
  }

  lemma LargeAllocated(f: Fields, mem: Memory, f': Fields, v: View, v': View, r: Grab, ptr: nat, n: nat)
    requires Agree(f, mem, v) && (!r.Got? ==> SameBlocks(v, v'))
    requires r.Got? ==> ptr !in v.live && ptr in v'.live && v'.live[ptr].block.LargeBlock?
                        && v'.live == v.live[ptr := Entry(v'.live[ptr].block, n)] && v'.nodes == v.nodes
    ensures Allocated(v, v', r, ptr, n)
    ensures r.Got? && |f'.ring| > 0 && v'.live[ptr].block.chunk == f'.ring[0] ==> Pinned(f', v', ptr)
  {
    hide Agree, Owned;
    if r.Got? {
      OwnedAdded(f, mem, v, v', ptr, Entry(v'.live[ptr].block, n));
    } else {
      OwnedSame(v, v');
    }
  }

  lemma HugeAllocated(f: Fields, mem: Memory, v: View, v': View, r: Grab, ptr: nat, n: nat, cell: Slot)
    requires Agree(f, mem, v)
    requires (r.Got? ==> PlacedHuge(v, v', ptr, n, cell)) && (!r.Got? ==> SameBlocks(v, v'))
    ensures Allocated(v, v', r, ptr, n)
  {
    hide Agree, Owned, SlotAddr, BinSize;
    if r.Got? {
      OwnedHuge(f, mem, v, v', ptr, n, cell);
    } else {
      OwnedSame(v, v');
    }
  }

  lemma ReleasedOther(v: View, v': View, ptr: nat)
    requires v'.live == v.live - {ptr} && v'.nodes == v.nodes
    ensures Released(v, v', ptr)
  {
    hide Owned;
    OwnedRemoved(v, v', ptr);
  }

  lemma NullNotLive(f: Fields, mem: Memory, v: View)
    requires Agree(f, mem, v)
    ensures 0 !in v.live
  {
    hide Agree, IsSrun, SrunBin, LrunPages;
    if 0 in v.live {
      DecodeBlock(f, mem, v, 0);
    }
  }

  lemma ReleasedNull(f: Fields, mem: Memory, v: View)
    requires Agree(f, mem, v)
    ensures Released(v, v, 0)
  {
    hide Agree, Owned;
    NullNotLive(f, mem, v);
    assert v.live - {0} == v.live;
    ReleasedOther(v, v, 0);
  }

  lemma HugeReleased(f: Fields, mem: Memory, v: View, v': View, i: nat, ptr: nat)
    requires Agree(f, mem, v) && i < |v.nodes| && ptr in v.live && v.live[ptr].block.HugeBlock?
    requires v'.live == v.live - {ptr} - {SlotAddr(v.nodes[i])} && v'.nodes == Removed(v.nodes, i)
    ensures Released(v, v', ptr)
  {
    hide Agree, Owned, SlotAddr;
    OwnedHugeRemoved(f, mem, v, v', i, ptr);
  }

  lemma PinnedAfterAlloc(f: Fields, v: View, f': Fields, v': View, r: Grab, ptr: nat, n: nat, pin: nat)
    requires Pinned(f, v, pin) && |f'.ring| > 0 && f'.ring[0] == f.ring[0] && Allocated(v, v', r, ptr, n)
    ensures Pinned(f', v', pin)
  {
    hide IsCell;
  }

  lemma PinnedAfterRelease(f: Fields, v: View, f': Fields, v': View, ptr: nat, pin: nat)
    requires Pinned(f, v, pin) && |f'.ring| > 0 && f'.ring[0] == f.ring[0] && Released(v, v', ptr) && pin != ptr
    ensures Pinned(f', v', pin)
  {
    hide IsCell;
    assert pin in Owned(v) - {ptr};
    assert pin in Owned(v');
  }

  // ----------------------------------------------------------------- use of memory

  /** The cells outside a block are unchanged. */
  ghost predicate WrittenIn(mem: Memory, mem': Memory, p: nat, n: nat) {
    forall a: nat :: a < p || p + n <= a ==> mem'(a) == mem(a)
  }

  /** Writing into a live block breaks no free list and changes no other block. */
  lemma WriteInside(f: Fields, mem: Memory, mem': Memory, v: View, p: nat)
    requires Agree(f, mem, v) && p in v.live && WrittenIn(mem, mem', p, v.live[p].size)
    ensures Agree(f, mem', v) && MemorySame(mem, mem', v.live - {p})
  {
    hide WorldOk, HugeOk, LiveOk, ChunksOk, RingOk, HugeListOk, NodesOk, SlotAddr, Head, ChainOk;
    forall b | 0 <= b < BINS
      ensures ChainOk(mem', v.free[b])
    {
      assert ListOk(v.world, b, v.free[b]);
      FreeSlotsApart(v, p, b);
      ChainKept(mem, mem', v.free[b]);
    }
    forall q, a: nat | q in v.live - {p} && q <= a < q + v.live[q].size
      ensures mem'(a) == mem(a)
    {
      LiveApart(v.world, v.free, v.huge, v.live, p, q);
    }
  }

  lemma FreeSlotsApart(v: View, p: nat, b: nat)
    requires InventoryOk(v.world, v.free, v.huge, v.live) && p in v.live && b < BINS
    ensures forall k :: 0 <= k < |v.free[b]| ==>
      SlotAddr(v.free[b][k]) < p || p + v.live[p].size <= SlotAddr(v.free[b][k])
  {
    hide WorldOk, HugeOk, SlotAddr, BinElements, BinSize, BlockStart, BlockSize;
    assert ListOk(v.world, b, v.free[b]);
    forall k | 0 <= k < |v.free[b]|
      ensures SlotAddr(v.free[b][k]) < p || p + v.live[p].size <= SlotAddr(v.free[b][k])
    {
      BinTable(b);
      FreeApart(v.world, v.free, v.huge, v.live, v.free[b][k], p);
    }
  }

  /** memcpy into a block that does not overlap the source. */
  function Copied(mem: Memory, to: nat, from: nat, n: nat): Memory {
    (a: nat) => if to <= a < to + n then mem(from + (a - to)) else mem(a)
  }

  /** The first `n` bytes of the block at `ptr` are now at `ret`. */
  ghost predicate Carried(mem: Memory, mem': Memory, ptr: nat, ret: nat, n: nat) {
    forall a: nat :: ret <= a < ret + n ==> mem'(a) == mem(ptr + (a - ret))
  }

  /** The bytes of every owned block but the one at `ptr` are unchanged. */
  ghost predicate OthersSame(mem: Memory, mem': Memory, v: View, ptr: nat) {
    forall q, a: nat :: q in Owned(v) && q != ptr && q <= a < q + Owned(v)[q] ==> mem'(a) == mem(a)
  }

  /** The caller now owns a block of `n` bytes at `ret` instead of the one at `ptr`. */
  ghost predicate Moved(v: View, v': View, ptr: nat, ret: nat, n: nat) {
    && (ret == ptr || ret !in Owned(v))
    && Owned(v') == (Owned(v) - {ptr})[ret := n]
    && (forall p :: p in Owned(v) && p != ptr ==> p in v'.live && v'.live[p] == v.live[p])
  }

  function Min(a: nat, b: nat): nat {
    if a < b then a else b
  }

  /** A block that has kept its address. */
  lemma MovedInPlace(v: View, v': View, ptr: nat, e: Entry)
    requires ptr in Owned(v) && v'.live == v.live[ptr := e] && v'.nodes == v.nodes
    ensures Moved(v, v', ptr, ptr, e.size)
  {
    hide IsCell;
    OwnedResized(v, v', ptr, e);
    assert (Owned(v) - {ptr})[ptr := e.size] == Owned(v)[ptr := e.size];
  }

  lemma MemoryOthers(mem: Memory, mem': Memory, v: View, ptr: nat, n: nat)
    requires MemorySame(mem, mem', v.live) && ptr in Owned(v) && n <= Owned(v)[ptr]
    ensures OthersSame(mem, mem', v, ptr) && Carried(mem, mem', ptr, ptr, n)
  {
    hide IsCell;
  }

  lemma PinnedAfterMove(f: Fields, v: View, f': Fields, v': View, ptr: nat, ret: nat, n: nat, pin: nat)
    requires Pinned(f, v, pin) && |f'.ring| > 0 && f'.ring[0] == f.ring[0] && pin != ptr && Moved(v, v', ptr, ret, n)
    ensures Pinned(f', v', pin)
  {
    hide IsCell;
    assert pin in Owned(v) - {ptr};
    assert pin in Owned(v');
  }

  /** Allocation, copy and release, taken together. */
  lemma MovedByCopy(mem0: Memory, v0: View, mem1: Memory, v1: View, mem2: Memory, mem3: Memory, v3: View,
                    ptr: nat, ret: nat, size: nat, n: nat)
    requires ptr in Owned(v0) && Allocated(v0, v1, Got, ret, size) && Released(v1, v3, ptr)
    requires MemorySame(mem0, mem1, v0.live) && MemorySame(mem2, mem3, v3.live)
    requires mem2 == Copied(mem1, ret, ptr, n) && n <= size && n <= Owned(v0)[ptr] && MemorySame(mem1, mem2, v1.live - {ret})
    ensures Moved(v0, v3, ptr, ret, size) && Carried(mem0, mem3, ptr, ret, n) && OthersSame(mem0, mem3, v0, ptr)
  {
    hide Owned, MemorySame, Copied, Carried, OthersSame;
    MovedOwned(v0, v1, v3, ptr, ret, size);
    OwnedLive(v0, ptr);
    OwnedLive(v3, ret);
    CopyCarries(mem1, ret, ptr, n);
    CarriedByCopy(mem0, v0.live, mem1, mem2, mem3, v3.live, ptr, ret, n);
    OthersByCopy(mem0, v0, mem1, v1, mem2, mem3, v3, ptr, ret, size);
  }

  lemma OwnedLive(v: View, p: nat)
    requires p in Owned(v)
    ensures p in v.live && v.live[p].size == Owned(v)[p]
  {
    hide IsCell;
  }

  lemma CopyCarries(mem: Memory, to: nat, from: nat, n: nat)
    ensures Carried(mem, Copied(mem, to, from, n), from, to, n)
  {
  }

  lemma CarriedByCopy(mem0: Memory, live0: Live, mem1: Memory, mem2: Memory, mem3: Memory, live3: Live,
                      ptr: nat, ret: nat, n: nat)
    requires ptr in live0 && n <= live0[ptr].size && ret in live3 && n <= live3[ret].size
    requires MemorySame(mem0, mem1, live0) && Carried(mem1, mem2, ptr, ret, n) && MemorySame(mem2, mem3, live3)
    ensures Carried(mem0, mem3, ptr, ret, n)
  {
    hide MemorySame;
    forall a: nat | ret <= a < ret + n
      ensures mem3(a) == mem0(ptr + (a - ret))
    {
      SameAt(mem2, mem3, live3, ret, a);
      SameAt(mem0, mem1, live0, ptr, ptr + (a - ret));
    }
  }

  lemma SameAt(mem: Memory, mem': Memory, live: Live, p: nat, a: nat)
    requires MemorySame(mem, mem', live) && p in live && p <= a < p + live[p].size
    ensures mem'(a) == mem(a)
  {
  }

  lemma OthersByCopy(mem0: Memory, v0: View, mem1: Memory, v1: View, mem2: Memory, mem3: Memory, v3: View,
                     ptr: nat, ret: nat, size: nat)
    requires StillLive(v0, v1) && ret !in v0.live && Moved(v0, v3, ptr, ret, size)
    requires MemorySame(mem0, mem1, v0.live) && MemorySame(mem1, mem2, v1.live - {ret}) && MemorySame(mem2, mem3, v3.live)
    ensures OthersSame(mem0, mem3, v0, ptr)
  {
    hide IsCell;
    forall q, a: nat | q in Owned(v0) && q != ptr && q <= a < q + Owned(v0)[q]
      ensures mem3(a) == mem0(a)
    {
      assert q in v0.live && q in v1.live - {ret} && (v1.live - {ret})[q] == v0.live[q];
      assert q in v3.live && v3.live[q] == v0.live[q];
    }
  }

  lemma MovedOwned(v0: View, v1: View, v3: View, ptr: nat, ret: nat, size: nat)
    requires ptr in Owned(v0) && Allocated(v0, v1, Got, ret, size) && Released(v1, v3, ptr)
    ensures ret != ptr && Moved(v0, v3, ptr, ret, size) && ret in Owned(v3) && Owned(v3)[ret] == size
  {
    hide IsCell;
    assert ptr in v0.live;
    assert Owned(v0)[ret := size] - {ptr} == (Owned(v0) - {ptr})[ret := size];
    forall p | p in Owned(v0) && p != ptr
      ensures p in v3.live && v3.live[p] == v0.live[p]
    {
      assert p in Owned(v3);
    }
    assert ret in Owned(v3);
  }

  lemma HugeMoved(v: View, v1: View, v': View, ptr: nat, n: nat)
    requires ptr in Owned(v) && SameBlocks(v, v1) && v' == HugeResizedView(v1, ptr, n)
    ensures Moved(v, v', ptr, ptr, n)
  {
    hide Owned, Moved;
    MovedInPlace(v, v', ptr, Entry(HugeBlock(ptr), n));
  }

  /** The copy stays inside the new block exactly when it is not longer than the block. */
  lemma CopyFits(ret: nat, ptr: nat, n: nat, size: nat)
    requires ret != ptr
    ensures n <= size <==> forall mem: Memory :: WrittenIn(mem, Copied(mem, ret, ptr, n), ret, size)
  {
    if n > size {
      var mem: Memory := (a: nat) => if a == ret + size then Data(1) else Data(0);
      var a: nat := ret + size;
      assert Copied(mem, ret, ptr, n)(a) == mem(ptr + size) == Data(0);
      assert !WrittenIn(mem, Copied(mem, ret, ptr, n), ret, size);
    }
  }

  /** memcpy into the new block keeps the heap in order. */
  lemma CopyInto(f: Fields, mem: Memory, v0: View, v: View, ptr: nat, ret: nat, size: nat, n: nat)
    requires Agree(f, mem, v) && Allocated(v0, v, Got, ret, size) && ptr in Owned(v0) && n <= size
    ensures Agree(f, Copied(mem, ret, ptr, n), v) && MemorySame(mem, Copied(mem, ret, ptr, n), v.live - {ret})
    ensures ptr in Owned(v)
  {
    hide Agree, IsCell, MemorySame;
    assert ret in Owned(v);
    OwnedLive(v, ret);
    WriteInside(f, mem, Copied(mem, ret, ptr, n), v, ret);
  }

  /** A null pointer is reallocated by a plain allocation. */
  lemma NullMoved(f: Fields, mem: Memory, mem': Memory, v: View, v': View, r: Grab, ret: nat, n: nat)
    requires Agree(f, mem, v) && Allocated(v, v', r, ret, n) && MemorySame(mem, mem', v.live)
    ensures r.Got? ==> Moved(v, v', 0, ret, n) && OthersSame(mem, mem', v, 0)
    ensures !r.Got? ==> Owned(v') == Owned(v)
  {
    hide Agree, IsCell;
    NullNotLive(f, mem, v);
    assert Owned(v) - {0} == Owned(v);
  }

  /** After a step that has kept all blocks. */
  lemma SameOwned(f: Fields, v: View, f': Fields, v': View, pin: nat)
    requires SameBlocks(v, v') && Pinned(f, v, pin) && |f'.ring| > 0 && f'.ring[0] == f.ring[0]
    ensures Owned(v') == Owned(v) && v'.live == v.live && Pinned(f', v', pin)
  {
    hide Owned;
    OwnedSame(v, v');
  }

  /** The outcome of a reallocation that has not moved the block. */
  lemma PlaceKept(f: Fields, v: View, mem: Memory, f': Fields, v': View, mem': Memory,
                  ptr: nat, oldSize: nat, copySize: nat, n: nat, r: Grab, pin: nat)
    requires ptr in Owned(v) && oldSize == Owned(v)[ptr] && MemorySame(mem, mem', v.live)
    requires Pinned(f, v, pin) && pin != ptr && |f'.ring| > 0 && f'.ring[0] == f.ring[0]
    requires (r.Got? ==> Moved(v, v', ptr, ptr, n)) && (!r.Got? ==> SameBlocks(v, v'))
    ensures OthersSame(mem, mem', v, ptr) && Carried(mem, mem', ptr, ptr, Min(oldSize, copySize))
    ensures Pinned(f', v', pin) && (!r.Got? ==> Owned(v') == Owned(v))
  {
    hide Owned, Moved, Pinned, MemorySame, SameBlocks, Carried, OthersSame;
    MemoryOthers(mem, mem', v, ptr, Min(oldSize, copySize));
    if r.Got? {
      PinnedAfterMove(f, v, f', v', ptr, ptr, n, pin);
    } else {
      SameOwned(f, v, f', v', pin);
    }
  }

  lemma NewAddress(v: View, v': View, ptr: nat, ret: nat, n: nat)
    requires Allocated(v, v', Got, ret, n) && ptr in Owned(v)
    ensures ret != ptr
  {
    hide Owned, StillLive;
  }

  /** The copy follows a step that has kept all blocks. */
  lemma CopyAfter(v0: View, mem0: Memory, v1: View, mem1: Memory, v: View, mem: Memory,
                  ptr: nat, ret: nat, oldSize: nat, copySize: nat, n: nat, r: Grab)
    requires ptr in Owned(v0) && oldSize == Owned(v0)[ptr]
    requires Owned(v1) == Owned(v0) && v1.live == v0.live && MemorySame(mem0, mem1, v0.live)
    requires r.Got? ==> Moved(v1, v, ptr, ret, n) && OthersSame(mem1, mem, v1, ptr)
    requires r.Got? ==> Carried(mem1, mem, ptr, ret, Min(oldSize, copySize))
    requires !r.Got? ==> Allocated(v1, v, r, ret, n) && MemorySame(mem1, mem, v1.live)
    ensures r.Got? ==> Moved(v0, v, ptr, ret, n) && OthersSame(mem0, mem, v0, ptr)
    ensures r.Got? ==> Carried(mem0, mem, ptr, ret, Min(oldSize, copySize))
    ensures !r.Got? ==> Allocated(v0, v, r, ret, n) && Owned(v) == Owned(v0) && MemorySame(mem0, mem, v0.live)
  {
    hide Owned;
    OwnedLive(v0, ptr);
    if r.Got? {
      OthersAfter(v0, mem0, v1, mem1, mem, ptr);
      CarriedAfter(v0.live, mem0, mem1, mem, ptr, ret, Min(oldSize, copySize));
    } else {
      MemoryTrans(mem0, mem1, mem, v0.live);
    }
  }

  lemma OthersAfter(v0: View, mem0: Memory, v1: View, mem1: Memory, mem: Memory, ptr: nat)
    requires Owned(v1) == Owned(v0) && MemorySame(mem0, mem1, v0.live) && OthersSame(mem1, mem, v1, ptr)
    ensures OthersSame(mem0, mem, v0, ptr)
  {
    hide Owned;
    forall q, a: nat | q in Owned(v0) && q != ptr && q <= a < q + Owned(v0)[q]
      ensures mem(a) == mem0(a)
    {
      OwnedLive(v0, q);
    }
  }

  lemma CarriedAfter(live0: Live, mem0: Memory, mem1: Memory, mem: Memory, ptr: nat, ret: nat, n: nat)
    requires ptr in live0 && n <= live0[ptr].size && MemorySame(mem0, mem1, live0) && Carried(mem1, mem, ptr, ret, n)
    ensures Carried(mem0, mem, ptr, ret, n)
  {
    hide MemorySame;
    forall a: nat | ret <= a < ret + n
      ensures mem(a) == mem0(ptr + (a - ret))
    {
      SameAt(mem0, mem1, live0, ptr, ptr + (a - ret));
    }
  }

  lemma PinnedAfterCopy(f: Fields, v: View, f': Fields, v': View, r: Grab, ptr: nat, ret: nat, n: nat, pin: nat)
    requires Pinned(f, v, pin) && |f'.ring| > 0 && f'.ring[0] == f.ring[0] && pin != ptr
    requires (r.Got? ==> Moved(v, v', ptr, ret, n)) && (!r.Got? ==> Allocated(v, v', r, ret, n))
    ensures Pinned(f', v', pin)
  {
    hide Owned, Moved, Allocated, Pinned;
    if r.Got? {
      PinnedAfterMove(f, v, f', v', ptr, ret, n, pin);
    } else {
      PinnedAfterAlloc(f, v, f', v', r, ret, n, pin);
    }
  }

  lemma StoreInside(f: Fields, mem: Memory, v: View, p: nat, a: nat, x: int)
    requires Agree(f, mem, v) && p in v.live && p <= a < p + v.live[p].size
    ensures Agree(f, (b: nat) => if b == a then Data(x) else mem(b), v)
  {
    hide Agree;
    WriteInside(f, mem, (b: nat) => if b == a then Data(x) else mem(b), v, p);
  }
}
