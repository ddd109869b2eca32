/** A run in which a page limit error is raised although a page is free. */
module LimitCase {
  import opened Bitset
  import opened BestFit
  import opened Bins
  import opened Chunks
  import opened Blocks
  import opened Inventory
  import opened Collection
  import opened HeapState
  import opened SweepState
  import opened HeapSteps
  import opened Ownership
  import opened ZendHeap

  /** One chunk: page 1 is a run of bin 1 whose elements are all free, the other pages are one block. */
  ghost predicate Full(ring: seq<nat>, v: View) {
    && ring == [1] && v.world == map[1 := map[1 := Small(1), 2 := Large(510)]]
    && PageAddr(1, 2) in v.live && v.live[PageAddr(1, 2)].block == LargeBlock(1, 2)
    && Collectable(v, 1, 1)
  }

  lemma FullChunk(rs: Runs)
    requires rs == map[1 := Small(1), 2 := Large(510)]
    ensures RunsOk(rs) && forall p: nat :: 1 <= p < PAGES ==> Covered(rs, p)
  {
    assert Len(rs[1]) == 1;
    forall p: nat | 1 <= p < PAGES
      ensures Covered(rs, p)
    {
      var s := if p == 1 then 1 else 2;
      assert s in rs && s <= p < s + Len(rs[s]);
    }
  }

  lemma FullRuns(f: Fields, mem: Memory, v: View)
    requires Agree(f, mem, v) && Full(f.ring, v)
    ensures 1 in f.chunks && ChunkOk(f.chunks[1], v.world[1]) && MainKept(f, v) && NoneEmpty(f.ring, v.world)
    ensures Stays(v, 1, 2) && !Stays(v, 1, 1) && RunLen(v, 1, 2) == 510
  {
    hide ChunkOk, LinksOk, HugeListOk, NodesOk, HugeOk, LiveOk, Collectable, KeptWorld, Reclaimed, RunsOk, ListOk;
    assert !Collectable(v, 1, 2) by {
      LargeStays(v, 1, 2);
    }
    ReclaimedExactly(v, 1, 2);
    KeptRun(v.world, v.free, 1, 2);
  }

  lemma LargeStays(v: View, c: nat, s: nat)
    requires c in v.world && s in v.world[c] && v.world[c][s].Large?
    ensures !Collectable(v, c, s)
  {
  }

  /** No page is free, but page 1 is not in a run that stays. */
  lemma FullFits(f: Fields, mem: Memory, v: View)
    requires Agree(f, mem, v) && Full(f.ring, v)
    ensures NoneFits(f.chunks, f.ring, 1) && !NoGap(v, 1)
  {
    hide Agree, NoFit, Stays, MainKept, RunsOk, Covered, Collectable;
    FullRuns(f, mem, v);
    FullChunk(v.world[1]);
    assert NoFit(f.chunks[1], 1) by {
      hide BitsOk, InfoOk, CountFree;
      FitsUncovered(f.chunks[1], v.world[1], 1);
      forall p: nat | 1 <= p && p + 1 <= PAGES
        ensures !Vacant(v.world[1], p, 1)
      {
        assert Covered(v.world[1], p);
      }
    }
    forall s: nat | Stays(v, 1, s)
      ensures s == 2
    {
      StaysIn(v, 1, s);
    }
    assert GapAt(v, 1, 1, 1);
  }

  lemma StaysIn(v: View, d: nat, s: nat)
    requires Stays(v, d, s)
    ensures d in v.world && s in v.world[d]
  {
  }

  /** zend_mm_alloc_pages fails at the limit, with page 1 free afterwards. */
  method FailsTooEarly(h: Heap) returns (r: Grab)
    requires h.Core() && Full(h.ring, h.view)
    requires h.cached == [] && h.realSize == CHUNK_SIZE == h.limit && !h.overflow
    modifies h
    ensures r.LimitReached? && h.Core() && !NoneFits(h.chunks, h.ring, 1)
  {
    hide NoneEmpty, Agree, HugeTotal, MemorySame, SameBlocks, MainKept, NothingToCollect, NoneFits, NoGap, Full, FirstFit,
         LargeView, MainEmpty;
    ghost var f := h.Parts();
    FullRuns(f, h.mem, h.view);
    FullFits(f, h.mem, h.view);
    FullParts(f.ring, h.view);
    var c, page;
    r, c, page := h.AllocPages(1);
  }

  lemma FullParts(ring: seq<nat>, v: View)
    requires Full(ring, v)
    ensures ring == [1] && PageAddr(1, 2) in v.live && v.live[PageAddr(1, 2)].block == LargeBlock(1, 2)
  {
  }

  // -------------------------------------------------------- how a program gets there

  lemma FirstRunAt(f: Fields, mem: Memory, v: View, count: nat, c: nat, page: nat, v': View)
    requires Agree(f, mem, v) && f.ring == [1] && TakenFrom(f.chunks, f.ring, v, v', c, page, count)
    ensures c == 1 && 1 in v.world && RunsOk(v.world[1]) && 1 <= page < PAGES
    ensures !Covered(v.world[1], page) && (page == 1 || Covered(v.world[1], page - 1))
  {
    hide LinksOk, HugeListOk, NodesOk, InventoryOk, BitsOk, InfoOk, CountFree, RunsOk, Covered, IsBest, LargeView;
    var i: nat :| FirstFit(f.chunks, f.ring, count, i, page) && c == f.ring[i];
    var e: nat :| IsBest(f.chunks[f.ring[i]].freeMap, count, page, e);
    BestPage(f.chunks[1], v.world[1], count, page, e);
  }

  /** The first block of a heap is at page 1. */
  lemma AtPageOne(f: Fields, mem: Memory, v: View, v': View, sl: Slot)
    requires Agree(f, mem, v) && f.ring == [1] && v.world == map[1 := map[]] && v.live == map[]
    requires TakenSmall(f.chunks, f.ring, v, v', sl, 1) && PlacedSmall(v, v', sl, 1)
    ensures sl == Slot(1, 1, 1, 0) && v'.world == map[1 := map[1 := Small(1)]]
    ensures v'.free[1] == RestSlots(1, 1, 1)
  {
    hide Agree, TakenFrom, RestSlots, SlotAddr;
    var v1 := LargeView(v, sl.chunk, sl.page, BinPages(1));
    FirstRunAt(f, mem, v, BinPages(1), sl.chunk, sl.page, v1);
    assert v1.world[1] == map[1 := Large(BinPages(1))];
    assert v'.world[1] == map[1 := Small(1)];
    assert v'.live[SlotAddr(sl)].block == SmallBlock(sl);
    assert v'.live.Keys == {SlotAddr(sl)};
    assert PageAddr(1, 1) in v'.live;
  }

  /** 510 pages fit behind it and nowhere else. */
  lemma BehindPageOne(f: Fields, mem: Memory, v: View)
    requires Agree(f, mem, v) && f.ring == [1] && v.world == map[1 := map[1 := Small(1)]]
    ensures !NoneFits(f.chunks, f.ring, 510)
    ensures forall v', c, page :: TakenFrom(f.chunks, f.ring, v, v', c, page, 510) ==>
      c == 1 && page == 2 && v'.world == map[1 := map[1 := Small(1), 2 := Large(510)]]
  {
    hide LinksOk, HugeListOk, NodesOk, InventoryOk, ChunkOk, NoFit, TakenFrom;
    var rs: Runs := v.world[1];
    OneRun(rs);
    assert ChunkOk(f.chunks[1], rs);
    assert !NoFit(f.chunks[1], 510) by {
      FitsBehind(f.chunks[1], rs);
    }
    forall v', c, page | TakenFrom(f.chunks, f.ring, v, v', c, page, 510)
      ensures c == 1 && page == 2 && v'.world == map[1 := map[1 := Small(1), 2 := Large(510)]]
    {
      FirstRunAt(f, mem, v, 510, c, page, v');
      TakenRun(f, v, v', c, page);
    }
  }

  lemma TakenRun(f: Fields, v: View, v': View, c: nat, page: nat)
    requires TakenFrom(f.chunks, f.ring, v, v', c, page, 510)
    ensures c in v.world && v'.world == WithRun(v.world, c, page, Large(510))
  {
  }

  lemma FitsBehind(h: Chunk, rs: Runs)
    requires rs == map[1 := Small(1)] && ChunkOk(h, rs)
    ensures !NoFit(h, 510)
  {
    hide NoFit, BitsOk, InfoOk, CountFree, Covered;
    OneRun(rs);
    FitsUncovered(h, rs, 510);
    assert Vacant(rs, 2, 510);
  }

  lemma OneRun(rs: Runs)
    requires rs == map[1 := Small(1)]
    ensures RunsOk(rs) && forall p: nat :: Covered(rs, p) <==> p == 1
  {
    assert Len(rs[1]) == 1;
    forall p: nat
      ensures Covered(rs, p) <==> p == 1
    {
      assert 1 in rs;
    }
  }

  lemma EmptyHasRoom(f: Fields, mem: Memory, v: View, count: nat)
    requires Agree(f, mem, v) && MainEmpty(f, v) && 1 <= count < PAGES
    ensures !NoneFits(f.chunks, f.ring, count)
  {
    hide AgreeBut, NoFit, ChunkOk, Fits, Used;
    ChunkAt(f, mem, v, f.ring[0]);
    EmptyFits(f.chunks[f.ring[0]], count);
    assert !NoFit(f.chunks[f.ring[0]], count) by {
      FitsNoFit(f.chunks[f.ring[0]], count);
    }
  }

  lemma FitsNoFit(h: Chunk, count: nat)
    requires Fits(h.freeMap, count, FIRST_PAGE, PAGES)
    ensures !NoFit(h, count)
  {
    hide Fits;
  }

  /** When its one live slot is pushed back, the run at page 1 can be collected. */
  lemma PushedFull(ring: seq<nat>, v: View, sl: Slot)
    requires ring == [1] && v.world == map[1 := map[1 := Small(1), 2 := Large(510)]] && |v.free| == BINS
    requires sl == Slot(1, 1, 1, 0) && v.free[1] == RestSlots(1, 1, 1) && SlotAddr(sl) != PageAddr(1, 2)
    requires PageAddr(1, 2) in v.live && v.live[PageAddr(1, 2)].block == LargeBlock(1, 2)
    ensures Full(ring, PushedView(v, sl))
  {
    hide SlotAddr, PageAddr;
    var l := PushedView(v, sl).free[1];
    assert BinElements(1) == 256 && l == [sl] + RestSlots(1, 1, 1);
    forall k: nat | k < BinElements(1)
      ensures Slot(1, 1, 1, k) in l
    {
      assert l[k] == Slot(1, 1, 1, k);
    }
  }

  /** One chunk, and no room for another. */
  ghost predicate AtLimit(h: Heap)
    reads h
  {
    h.ring == [1] && h.cached == [] && h.realSize == CHUNK_SIZE == h.limit && !h.overflow
  }

  /** The real size tells that there is one chunk. */
  lemma OneChunk(h: Heap)
    requires h.Core() && |h.ring| > 0 && h.ring[0] == 1 && h.realSize <= CHUNK_SIZE == h.limit && !h.overflow
    ensures AtLimit(h)
  {
    hide Agree, HugeTotal;
  }

  /** The first block of a new heap, of bin 1. */
  method FirstBlock(realPage: Positive) returns (h: Heap, small: nat, ghost sl: Slot)
    ensures fresh(h) && h.Valid() && AtLimit(h) && sl == Slot(1, 1, 1, 0) && small == SlotAddr(sl)
    ensures h.view.world == map[1 := map[1 := Small(1)]] && |h.view.free| == BINS && h.view.free[1] == RestSlots(1, 1, 1)
    ensures h.view.live == map[small := Entry(SmallBlock(sl), BinSize(1))] && h.view.nodes == []
  {
    hide NoneEmpty, Agree, HugeTotal, Total, MemorySame, SameBlocks, MainKept, NothingToCollect, NoneFits, TakenSmall,
         RestSlots, SlotAddr, BinPages, BinSize, PoppedView;
    h := new Heap(1, realPage);
    h.SetLimit(0);
    ghost var f0, v0, mem0 := h.Parts(), h.view, h.mem;
    OnePage();
    EmptyHasRoom(f0, mem0, v0, 1);
    var r;
    r, small, sl := h.AllocSmall(1);
    AtPageOne(f0, mem0, v0, h.view, sl);
    OneChunk(h);
  }

  /** The live slot keeps the run at page 1, and so the main chunk. */
  lemma SmallKept(f: Fields, mem: Memory, v: View, small: nat, sl: Slot)
    requires Agree(f, mem, v) && f.ring == [1] && sl.chunk == 1 && v.nodes == []
    requires small in v.live && v.live[small].block == SmallBlock(sl)
    ensures MainKept(f, v)
  {
    hide Agree, MainKept;
    assert !IsCell(v, small);
    assert small in Owned(v);
    PinnedKept(f, mem, v, small);
  }

  /** A block of 510 pages fills the chunk. */
  method FillChunk(h: Heap, small: nat, ghost sl: Slot)
    requires h.Valid() && AtLimit(h) && sl == Slot(1, 1, 1, 0) && small == SlotAddr(sl)
    requires h.view.world == map[1 := map[1 := Small(1)]] && |h.view.free| == BINS && h.view.free[1] == RestSlots(1, 1, 1)
    requires h.view.live == map[small := Entry(SmallBlock(sl), BinSize(1))] && h.view.nodes == []
    modifies h
    ensures h.Valid() && AtLimit(h) && h.view.nodes == [] && |h.view.free| == BINS && h.view.free[1] == RestSlots(1, 1, 1)
    ensures h.view.world == map[1 := map[1 := Small(1), 2 := Large(510)]]
    ensures small in h.view.live && h.view.live[small].block == SmallBlock(sl) && small != PageAddr(1, 2)
    ensures PageAddr(1, 2) in h.view.live && h.view.live[PageAddr(1, 2)].block == LargeBlock(1, 2)
  {
    hide NoneEmpty, Agree, HugeTotal, Total, MemorySame, SameBlocks, MainKept, NothingToCollect, NoneFits, TakenFrom,
         RestSlots, SlotAddr, PageAddr, BinSize, MainEmpty;
    ghost var f0, v0, mem0 := h.Parts(), h.view, h.mem;
    SmallKept(f0, mem0, v0, small, sl);
    BehindPageOne(f0, mem0, v0);
    assert PageCount(2088960) == 510;
    var r, large := h.AllocLarge(2088960);
    OneChunk(h);
    TakenAll(f0, v0, h.view, 510);
    LargeAt(h.Parts(), h.mem, h.view, large);
  }

  lemma TakenAll(f: Fields, v: View, v': View, count: nat)
    ensures forall c: nat, page: nat :: TakenFrom(f.chunks, f.ring, v, v', c, page, count) ==> v'.free == v.free
  {
  }

  lemma LargeAt(f: Fields, mem: Memory, v: View, p: nat)
    requires Agree(f, mem, v) && p in v.live && v.live[p].block.LargeBlock?
    ensures p == PageAddr(v.live[p].block.chunk, v.live[p].block.page)
  {
    hide Agree;
    InUseAt(f, mem, v, p);
  }

  /** A program that gets there: a small block, a block of 510 pages, and the small one released. The
      next page is refused, although page 1 is free then. */
  method RefusedTooEarly(realPage: Positive) returns (h: Heap, r: Grab)
    ensures fresh(h) && h.Core() && r.LimitReached? && !NoneFits(h.chunks, h.ring, 1)
  {
    hide NoneEmpty, Agree, HugeTotal, Total, NoneFits, RestSlots, SlotAddr, PageAddr, BinSize, Full, PushedView;
    var small;
    ghost var sl;
    h, small, sl := FirstBlock(realPage);
    FillChunk(h, small, sl);
    PushedFull(h.ring, h.view, sl);
    h.FreeSmall(small, 1, sl);
    r := FailsTooEarly(h);
  }

  lemma OnePage()
    ensures BinPages(1) == 1
  {
  }
}
