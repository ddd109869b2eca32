/** The parts of the heap invariant that tie the heap's own fields to the inventory. */
module HeapState {
  import opened Words
  import opened Bins
  import opened Chunks
  import opened Blocks
  import opened Inventory

  /** One entry of the list of huge blocks; `node` is the address of the list cell itself. */
  datatype HugeNode = HugeNode(node: nat, ptr: nat, size: nat)

  /** Bin of sizeof(zend_mm_huge_list), 24 bytes on a 64-bit build. */
  const NODE_SIZE: nat := 24
  const NODE_BIN: nat := 2

  /** Every header describes its runs, except those of the `pending` chunks. */
  ghost predicate ChunksOk(chunks: map<nat, Chunk>, w: World, pending: set<nat>) {
    && chunks.Keys == w.Keys
    && (forall c :: c in chunks && c !in pending ==> ChunkOk(chunks[c], w[c]))
  }

  /** Every chunk is in the ring or in the cache, once; cached chunks hold no run. */
  ghost predicate RingOk(ring: seq<nat>, cached: seq<nat>, w: World) {
    && |ring| > 0
    && NoDup(ring) && NoDup(cached)
    && (forall c :: c in ring ==> c in w)
    && (forall c :: c in cached ==> c in w && w[c] == map[] && c !in ring)
    && (forall c :: c in w ==> c in ring || c in cached)
  }

  /** The list names every huge block once. */
  ghost predicate HugeListOk(l: seq<HugeNode>, huge: map<nat, nat>) {
    && (forall i, j :: 0 <= i < j < |l| ==> l[i].ptr != l[j].ptr)
    && (forall i :: 0 <= i < |l| ==> l[i].ptr in huge && huge[l[i].ptr] == l[i].size)
    && (forall p :: p in huge ==> exists i :: 0 <= i < |l| && l[i].ptr == p)
  }

  /** Every list cell is a small block in use that no other cell shares. */
  ghost predicate NodesOk(l: seq<HugeNode>, nodes: seq<Slot>, w: World, free: FreeLists)
    requires |free| == BINS
  {
    && |nodes| == |l| && NoDup(nodes)
    && (forall i :: 0 <= i < |l| ==>
          && SlotOk(w, nodes[i]) && nodes[i].bin == NODE_BIN && nodes[i] !in free[NODE_BIN]
          && SlotAddr(nodes[i]) == l[i].node)
  }

  function HugeTotal(l: seq<HugeNode>): nat {
    if l == [] then 0 else l[0].size + HugeTotal(l[1..])
  }

  // --------------------------------------------------------------- sums of sizes

  /** Sum of the sizes of the live blocks. */
  ghost function Total(live: Live): nat {
    if live == map[] then 0
    else
      var p :| p in live;
      live[p].size + Total(live - {p})
  }

  lemma {:induction false} TotalRemove(live: Live, p: nat)
    requires p in live
    ensures Total(live) == live[p].size + Total(live - {p})
  {
    var q :| q in live && Total(live) == live[q].size + Total(live - {q});
    if p != q {
      TotalRemove(live - {q}, p);
      TotalRemove(live - {p}, q);
      assert live - {q} - {p} == live - {p} - {q};
    }
  }

  lemma TotalAdd(live: Live, p: nat, e: Entry)
    requires p !in live
    ensures Total(live[p := e]) == Total(live) + e.size
  {
    TotalRemove(live[p := e], p);
    assert live[p := e] - {p} == live;
  }

  lemma TotalReplace(live: Live, p: nat, e: Entry)
    requires p in live
    ensures Total(live[p := e]) == Total(live) - live[p].size + e.size
  {
    TotalRemove(live, p);
    TotalRemove(live[p := e], p);
    assert live[p := e] - {p} == live - {p};
  }

  lemma {:induction false} HugeTotalAt(l: seq<HugeNode>, i: nat)
    requires i < |l|
    ensures HugeTotal(l) == l[i].size + HugeTotal(l[..i] + l[i + 1..])
  {
    if i == 0 {
      assert l[..0] + l[1..] == l[1..];
    } else {
      HugeTotalAt(l[1..], i - 1);
      assert (l[..i] + l[i + 1..])[1..] == l[1..][..i - 1] + l[1..][i..];
    }
  }

  lemma {:induction false} HugeTotalUpdate(l: seq<HugeNode>, i: nat, n: HugeNode)
    requires i < |l|
    ensures HugeTotal(l[i := n]) == HugeTotal(l) - l[i].size + n.size
  {
    HugeTotalAt(l, i);
    HugeTotalAt(l[i := n], i);
    assert l[i := n][..i] + l[i := n][i + 1..] == l[..i] + l[i + 1..];
  }

  // ----------------------------------------------------------- the heap invariant

  /** The fields of the heap that hold its data structures. */
  datatype Fields = Fields(
    chunks: map<nat, Chunk>, ring: seq<nat>, cached: seq<nat>, heads: seq<nat>, hugeList: seq<HugeNode>)

  /** What the fields stand for. */
  datatype View = View(world: World, free: FreeLists, huge: map<nat, nat>, live: Live, nodes: seq<Slot>)

  /** All redundant structures agree with each other. */
  ghost predicate Agree(f: Fields, mem: Memory, v: View) {
    AgreeBut(f, mem, v, {})
  }

  /** They agree, but a collection has yet to write the headers of the `pending` chunks. */
  ghost predicate AgreeBut(f: Fields, mem: Memory, v: View, pending: set<nat>) {
    && InventoryOk(v.world, v.free, v.huge, v.live)
    && ChunksOk(f.chunks, v.world, pending)
    && RingOk(f.ring, f.cached, v.world)
    && LinksOk(f.heads, mem, v.free)
    && HugeListOk(f.hugeList, v.huge)
    && NodesOk(f.hugeList, v.nodes, v.world, v.free)
  }

  lemma EmptyInventory(w: World, free: FreeLists, huge: map<nat, nat>)
    requires |free| == BINS && (forall b :: 0 <= b < BINS ==> free[b] == [])
    requires huge == map[] && forall c :: c in w ==> c > 0 && w[c] == map[]
    ensures InventoryOk(w, free, huge, map[])
  {
    hide SlotAddr, BinElements;
  }

  /** The state that zend_mm_init leaves. */
  lemma InitialAgree(main: nat, header: Chunk, mem: Memory)
    requires main > 0 && ChunkOk(header, map[])
    ensures Agree(Fields(map[main := header], [main], [], seq(BINS, _ => 0), []), mem,
                  View(map[main := map[]], seq(BINS, _ => []), map[], map[], []))
  {
    hide ChunkOk, InventoryOk, SlotOk;
    EmptyInventory(map[main := map[]], seq(BINS, _ => []), map[]);
  }

  /** What the inventory says about the block at a live address. */
  lemma InUseAt(f: Fields, mem: Memory, v: View, p: nat)
    requires Agree(f, mem, v) && p in v.live
    ensures |v.free| == BINS
    ensures InUse(v.world, v.free, v.huge, v.live[p].block) && BlockStart(v.live[p].block) == p
    ensures v.live[p].size == BlockSize(v.world, v.huge, v.live[p].block)
  {
    hide WorldOk, HugeOk, ListOk, ChunksOk, RingOk, LinksOk, HugeListOk, NodesOk, BlockStart, BlockSize;
  }

  // -------------------------------------------------------------- small blocks

  lemma NodesPush(l: seq<HugeNode>, nodes: seq<Slot>, w: World, free: FreeLists, sl: Slot)
    requires |free| == BINS && sl.bin < BINS && NodesOk(l, nodes, w, free) && sl !in nodes
    ensures NodesOk(l, nodes, w, free[sl.bin := [sl] + free[sl.bin]])
  {
    hide SlotOk, SlotAddr;
  }

  function PushedView(v: View, sl: Slot): View
    requires sl.bin < |v.free|
  {
    v.(free := v.free[sl.bin := [sl] + v.free[sl.bin]], live := v.live - {SlotAddr(sl)})
  }

  /** Putting a live slot back on its free list. */
  lemma PushAgree(f: Fields, mem: Memory, v: View, ptr: nat, sl: Slot)
    requires Agree(f, mem, v) && ptr in v.live && v.live[ptr].block == SmallBlock(sl) && sl !in v.nodes
    ensures sl.bin < BINS == |v.free| == |f.heads| && ptr == SlotAddr(sl) && v.live[ptr].size == BinSize(sl.bin)
    ensures Agree(f.(heads := f.heads[sl.bin := ptr]), WriteLink(mem, ptr, f.heads[sl.bin]), PushedView(v, sl))
    ensures MemorySame(mem, WriteLink(mem, ptr, f.heads[sl.bin]), v.live - {ptr})
  {
    hide WorldOk, HugeOk, ListOk, ChunksOk, RingOk, HugeListOk, NodesOk, BinSize, SlotAddr, BinElements, LiveOk,
         ChainOk, InUse;
    InUseAt(f, mem, v, ptr);
    PushUse(v.world, v.free, v.huge, sl);
    PushSlot(v.world, v.free, v.huge, v.live, sl);
    LinksPush(v.world, v.huge, f.heads, mem, v.free, sl);
    NodesPush(f.hugeList, v.nodes, v.world, v.free, sl);
    var v' := PushedView(v, sl);
    NotInRest(v, ptr, sl);
    LinkOffLive(v'.world, v'.free, v'.huge, v'.live, mem, sl, f.heads[sl.bin]);
  }

  lemma PushUse(w: World, free: FreeLists, huge: map<nat, nat>, sl: Slot)
    requires |free| == BINS && InUse(w, free, huge, SmallBlock(sl))
    ensures SlotOk(w, sl) && sl.bin < BINS && sl !in free[sl.bin] && BlockStart(SmallBlock(sl)) == SlotAddr(sl)
    ensures BlockSize(w, huge, SmallBlock(sl)) == BinSize(sl.bin)
  {
  }

  /** No other live address holds the slot. */
  lemma NotInRest(v: View, ptr: nat, sl: Slot)
    requires |v.free| == BINS && LiveOk(v.world, v.free, v.huge, v.live) && ptr == SlotAddr(sl)
    ensures forall p :: p in v.live - {ptr} ==> v.live[p].block != SmallBlock(sl)
  {
    hide SlotAddr, InUse, BlockSize;
    assert BlockStart(SmallBlock(sl)) == SlotAddr(sl);
  }

  function PoppedView(v: View, b: nat): View
    requires b < |v.free| && v.free[b] != [] && b < BINS
  {
    var sl := v.free[b][0];
    v.(free := v.free[b := v.free[b][1..]],
       live := v.live[SlotAddr(sl) := Entry(SmallBlock(sl), BinSize(b))])
  }

  lemma NodesPop(l: seq<HugeNode>, nodes: seq<Slot>, w: World, free: FreeLists, b: nat)
    requires |free| == BINS && b < BINS && free[b] != [] && NodesOk(l, nodes, w, free)
    ensures NodesOk(l, nodes, w, free[b := free[b][1..]])
  {
    hide SlotOk, SlotAddr;
  }

  /** Taking the first slot of a free list. */
  lemma PopAgree(f: Fields, mem: Memory, v: View, b: nat)
    requires Agree(f, mem, v) && b < BINS
    ensures |f.heads| == BINS == |v.free| && (f.heads[b] == 0 <==> v.free[b] == [])
    ensures v.free[b] != [] ==>
      && f.heads[b] == SlotAddr(v.free[b][0]) && f.heads[b] !in v.live
      && SmallBlock(v.free[b][0]).slot.bin == b
      && Agree(f.(heads := f.heads[b := ReadLink(mem, f.heads[b])]), mem, PoppedView(v, b))
  {
    hide WorldOk, HugeOk, ChunksOk, RingOk, HugeListOk, NodesOk, BinSize, SlotAddr, BinElements, LiveOk, ChainOk;
    if v.free[b] != [] {
      assert ListOk(v.world, b, v.free[b]);
      SlotNotNull(v.world, v.free[b][0]);
      PopSlot(v.world, v.free, v.huge, v.live, b);
      LinksPop(v.world, f.heads, mem, v.free, b);
      NodesPop(f.hugeList, v.nodes, v.world, v.free, b);
    }
  }

  // ------------------------------------------------------------- chunk headers

  /** Replacing a header by one that describes the same runs. */
  lemma HeaderAgree(f: Fields, mem: Memory, v: View, c: nat, h: Chunk)
    requires Agree(f, mem, v) && c in v.world && ChunkOk(h, v.world[c])
    ensures Agree(f.(chunks := f.chunks[c := h]), mem, v)
  {
    hide InventoryOk, RingOk, LinksOk, HugeListOk, NodesOk, ChunkOk;
  }

  lemma ChunkAt(f: Fields, mem: Memory, v: View, c: nat)
    requires Agree(f, mem, v) && (c in v.world || c in f.ring || c in f.chunks || c in f.cached)
    ensures c in f.chunks && c in v.world && c > 0 && ChunkOk(f.chunks[c], v.world[c])
    ensures WORD_BITS * |f.chunks[c].freeMap| == PAGES && |f.chunks[c].info| == PAGES
    ensures c in f.cached ==> v.world[c] == map[] && c !in f.ring
  {
    hide HugeOk, FreeOk, LiveOk, LinksOk, HugeListOk, NodesOk, ChunkOkWith, RunsOk;
    HeaderShape(f.chunks[c], v.world[c], map[]);
  }

  function LargeView(v: View, c: nat, page: nat, n: nat): View
    requires c in v.world
  {
    v.(world := WithRun(v.world, c, page, Large(n)),
       live := v.live[PageAddr(c, page) := Entry(LargeBlock(c, page), n * PAGE_SIZE)])
  }

  /** Only the runs of chunk `c` differ. */
  lemma OtherChunks(f: Fields, v: View, w': World, c: nat, h: Chunk)
    requires ChunksOk(f.chunks, v.world, {}) && RingOk(f.ring, f.cached, v.world)
    requires c in v.world && c in f.ring && w'.Keys == v.world.Keys && ChunkOk(h, w'[c])
    requires forall d :: d in w' && d != c ==> w'[d] == v.world[d]
    ensures ChunksOk(f.chunks[c := h], w', {}) && RingOk(f.ring, f.cached, w')
  {
    hide ChunkOk;
  }

  /** Nodes are in runs that a change of large runs leaves alone. */
  lemma NodesLarge(f: Fields, v: View, w': World)
    requires |v.free| == BINS && NodesOk(f.hugeList, v.nodes, v.world, v.free)
    requires forall sl :: SlotOk(v.world, sl) ==> SlotOk(w', sl)
    ensures NodesOk(f.hugeList, v.nodes, w', v.free)
  {
    hide SlotOk, SlotAddr;
  }

  /** A new large run, marked in the header of its chunk. */
  lemma LargeAgree(f: Fields, mem: Memory, v: View, c: nat, page: nat, n: nat, h: Chunk)
    requires Agree(f, mem, v) && c in f.ring && c in v.world && page !in v.world[c]
    requires ChunkOk(h, v.world[c][page := Large(n)])
    ensures PageAddr(c, page) !in v.live
    ensures Agree(f.(chunks := f.chunks[c := h]), mem, LargeView(v, c, page, n))
  {
    hide HugeOk, ListOk, LiveOk, LinksOk, HugeListOk, NodesOk, RingOk, ChunksOk, PageAddr, RunsOk, BinElements, ChunkOk;
    RunsOfChunk(h, v.world[c][page := Large(n)]);
    AddLarge(v.world, v.free, v.huge, v.live, c, page, n);
    var w' := WithRun(v.world, c, page, Large(n));
    OtherChunks(f, v, w', c, h);
    NodesLarge(f, v, w');
  }

  lemma RunsOfChunk(h: Chunk, rs: Runs)
    requires ChunkOk(h, rs)
    ensures RunsOk(rs)
  {
  }

  function FreedView(v: View, c: nat, page: nat): View
    requires c in v.world
  {
    v.(world := WithoutRun(v.world, c, page), live := v.live - {PageAddr(c, page)})
  }

  /** Giving a large run back. */
  lemma FreeLargeAgree(f: Fields, mem: Memory, v: View, c: nat, page: nat, h: Chunk)
    requires Agree(f, mem, v) && PageAddr(c, page) in v.live
    requires v.live[PageAddr(c, page)].block == LargeBlock(c, page)
    requires c in v.world && ChunkOk(h, v.world[c] - {page})
    ensures c in f.ring && page in v.world[c] && v.world[c][page].Large?
    ensures v.live[PageAddr(c, page)].size == v.world[c][page].pages * PAGE_SIZE
    ensures Agree(f.(chunks := f.chunks[c := h]), mem, FreedView(v, c, page))
  {
    hide HugeOk, ListOk, LiveOk, LinksOk, HugeListOk, NodesOk, ChunksOk, PageAddr, RunsOk, BinElements, ChunkOk;
    InUseAt(f, mem, v, PageAddr(c, page));
    RunsOfChunk(h, v.world[c] - {page});
    RemoveLarge(v.world, v.free, v.huge, v.live, c, page);
    var w' := WithoutRun(v.world, c, page);
    OtherChunks(f, v, w', c, h);
    NodesLarge(f, v, w');
  }

  /** Resizing a large run in place. */
  lemma ResizeLargeAgree(f: Fields, mem: Memory, v: View, c: nat, page: nat, n: nat, h: Chunk)
    requires Agree(f, mem, v) && PageAddr(c, page) in v.live
    requires v.live[PageAddr(c, page)].block == LargeBlock(c, page)
    requires c in v.world && ChunkOk(h, v.world[c][page := Large(n)])
    ensures Agree(f.(chunks := f.chunks[c := h]), mem, LargeView(v, c, page, n))
  {
    hide HugeOk, ListOk, LiveOk, LinksOk, HugeListOk, NodesOk, ChunksOk, PageAddr, RunsOk, BinElements, ChunkOk;
    InUseAt(f, mem, v, PageAddr(c, page));
    RunsOfChunk(h, v.world[c][page := Large(n)]);
    ResizeLarge(v.world, v.free, v.huge, v.live, c, page, n);
    var w' := WithRun(v.world, c, page, Large(n));
    OtherChunks(f, v, w', c, h);
    NodesLarge(f, v, w');
  }

  // -------------------------------------------------------------- new small runs

  /** A block of another run, or a huge block, lies outside the pages of a run. */
  lemma BlockOutsideRun(w: World, huge: map<nat, nat>, c: nat, page: nat, x: Block)
    requires WorldOk(w) && HugeOk(w, huge) && c in w && page in w[c] && BlockOk(w, huge, x)
    requires !x.HugeBlock? ==> BlockChunk(x) != c || BlockPage(x) != page
    ensures BlockStart(x) + BlockSize(w, huge, x) <= PageAddr(c, page)
         || PageAddr(c, page + Len(w[c][page])) <= BlockStart(x)
  {
    hide Len, BinElements, BinSize;
    assert RunsOk(w[c]);
    if x.HugeBlock? {
      assert Apart(x.ptr, huge[x.ptr], c * CHUNK_SIZE, CHUNK_SIZE);
    } else {
      hide BlockStart, BlockSize, HugeOk, PageAddr;
      BlockInRun(w, huge, x);
      RunsApart(w, BlockChunk(x), BlockPage(x), c, page);
    }
  }

  /** The cells outside the pages of a run are unchanged. */
  ghost predicate SameOutside(mem: Memory, mem': Memory, from: nat, to: nat) {
    forall a: nat :: a < from || to <= a ==> mem'(a) == mem(a)
  }

  function SmallView(v: View, c: nat, page: nat, b: nat): View
    requires c in v.world && b < BINS == |v.free|
  {
    v.(world := WithRun(v.world, c, page, Small(b)),
       free := v.free[b := RestSlots(c, page, b)],
       live := v.live[PageAddr(c, page) := Entry(SmallBlock(Slot(c, page, b, 0)), BinSize(b))])
  }

  lemma LinksNewRun(w: World, huge: map<nat, nat>, heads: seq<nat>, mem: Memory, mem': Memory,
                    free: FreeLists, c: nat, page: nat, b: nat)
    requires WorldOk(w) && HugeOk(w, huge) && FreeOk(w, free) && LinksOk(heads, mem, free) && b < BINS
    requires c in w && page in w[c] && w[c][page].Large?
    requires SameOutside(mem, mem', PageAddr(c, page), PageAddr(c, page + Len(w[c][page])))
    requires ChainOk(mem', RestSlots(c, page, b))
    ensures LinksOk(heads[b := Head(RestSlots(c, page, b))], mem', free[b := RestSlots(c, page, b)])
  {
    hide WorldOk, HugeOk, BinElements, BinSize, PageAddr, SlotAddr, Len, RestSlots;
    forall i | 0 <= i < BINS && i != b
      ensures ChainOk(mem', free[i])
    {
      assert ListOk(w, i, free[i]);
      forall k | 0 <= k < |free[i]|
        ensures mem'(SlotAddr(free[i][k])) == mem(SlotAddr(free[i][k]))
      {
        var x := SmallBlock(free[i][k]);
        BlockOutsideRun(w, huge, c, page, x);
        SizePositive(w, huge, x);
      }
      ChainKept(mem, mem', free[i]);
    }
  }

  lemma OutsideSame(w: World, free: FreeLists, huge: map<nat, nat>, live: Live, mem: Memory, mem': Memory,
                    c: nat, page: nat)
    requires InventoryOk(w, free, huge, live) && c in w && page in w[c] && w[c][page].Large?
    requires SameOutside(mem, mem', PageAddr(c, page), PageAddr(c, page + Len(w[c][page])))
    ensures MemorySame(mem, mem', live - {PageAddr(c, page)})
  {
    hide WorldOk, HugeOk, ListOk, BinElements, BinSize, PageAddr, SlotAddr, Len, BlockSize;
    forall p, a: nat | p in live - {PageAddr(c, page)} && p <= a < p + live[p].size
      ensures mem'(a) == mem(a)
    {
      BlockOutsideRun(w, huge, c, page, live[p].block);
    }
  }

  lemma SmallRunAgree(f: Fields, mem: Memory, mem': Memory, v: View, c: nat, page: nat, b: nat, h: Chunk)
    requires Agree(f, mem, v) && PageAddr(c, page) in v.live
    requires v.live[PageAddr(c, page)].block == LargeBlock(c, page) && b < BINS == |v.free| && v.free[b] == []
    requires c in v.world && ChunkOk(h, v.world[c][page := Small(b)])
    requires page in v.world[c] && RunValid(v.world[c][page])
    requires SameOutside(mem, mem', PageAddr(c, page), PageAddr(c, page + Len(v.world[c][page])))
    requires ChainOk(mem', RestSlots(c, page, b))
    ensures |f.heads| == BINS
    ensures Agree(f.(chunks := f.chunks[c := h], heads := f.heads[b := Head(RestSlots(c, page, b))]), mem',
                  SmallView(v, c, page, b))
    ensures MemorySame(mem, mem', v.live - {PageAddr(c, page)})
  {
    hide ListOk, LiveOk, HugeListOk, ChunksOk, PageAddr, RunsOk, BinElements, BinSize, ChunkOk, HugeOk, RestSlots,
         Len, ChainOk, Head;
    InUseAt(f, mem, v, PageAddr(c, page));
    RunsOfChunk(h, v.world[c][page := Small(b)]);
    LinksNewRun(v.world, v.huge, f.heads, mem, mem', v.free, c, page, b);
    OutsideSame(v.world, v.free, v.huge, v.live, mem, mem', c, page);
    MakeSmall(v.world, v.free, v.huge, v.live, c, page, b);
    var w' := WithRun(v.world, c, page, Small(b));
    OtherChunks(f, v, w', c, h);
    NodesNewRun(f, v, c, page, b);
  }

  lemma NodesNewRun(f: Fields, v: View, c: nat, page: nat, b: nat)
    requires b < BINS == |v.free| && NodesOk(f.hugeList, v.nodes, v.world, v.free)
    requires c in v.world && page in v.world[c] && v.world[c][page].Large?
    ensures NodesOk(f.hugeList, v.nodes, WithRun(v.world, c, page, Small(b)),
                    v.free[b := RestSlots(c, page, b)])
  {
    hide SlotAddr, BinElements;
  }

  // ----------------------------------------------------- chunks, ring and cache

  /** A chunk from the OS joins the end of the ring. */
  lemma NewChunkAgree(f: Fields, mem: Memory, v: View, c: nat, h: Chunk)
    requires Agree(f, mem, v) && c > 0 && c !in v.world && ChunkOk(h, map[])
    requires forall q :: q in v.huge ==> Apart(c * CHUNK_SIZE, CHUNK_SIZE, q, v.huge[q])
    ensures c !in f.ring
    ensures Agree(f.(chunks := f.chunks[c := h], ring := f.ring + [c]), mem, v.(world := v.world[c := map[]]))
  {
    hide InventoryOk, LinksOk, HugeListOk, NodesOk, ChunkOk;
    ListsLength(f, mem, v, {});
    AddChunk(v.world, v.free, v.huge, v.live, c);
    NodesLargeByRuns(f, v, v.world[c := map[]]);
  }

  lemma ListsLength(f: Fields, mem: Memory, v: View, pending: set<nat>)
    requires AgreeBut(f, mem, v, pending)
    ensures |v.free| == BINS && |f.heads| == BINS && |f.ring| > 0
  {
  }

  lemma NodesLargeByRuns(f: Fields, v: View, w': World)
    requires |v.free| == BINS && NodesOk(f.hugeList, v.nodes, v.world, v.free)
    requires forall c, p, r :: HasRun(v.world, c, p, r) <==> HasRun(w', c, p, r)
    ensures NodesOk(f.hugeList, v.nodes, w', v.free)
  {
    hide SlotOk, NodesOk, InUse, BlockOk, BlockSize;
    SameRuns(v.world, w', v.free, v.huge);
    NodesLarge(f, v, w');
  }

  /** The first cached chunk joins the end of the ring. */
  lemma ReuseAgree(f: Fields, mem: Memory, v: View, h: Chunk)
    requires Agree(f, mem, v) && f.cached != [] && ChunkOk(h, map[])
    ensures var c := f.cached[0];
      && c in v.world && v.world[c] == map[] && c !in f.ring
      && Agree(f.(chunks := f.chunks[c := h], ring := f.ring + [c], cached := f.cached[1..]), mem, v)
  {
    hide InventoryOk, LinksOk, HugeListOk, NodesOk, ChunkOk;
    var c := f.cached[0];
    assert forall d :: d in f.cached ==> d == c || d in f.cached[1..];
  }

  function Removed<T>(s: seq<T>, i: nat): seq<T>
    requires i < |s|
  {
    s[..i] + s[i + 1..]
  }

  lemma RemovedMembers(s: seq<nat>, i: nat)
    requires i < |s| && NoDup(s)
    ensures NoDup(Removed(s, i))
    ensures forall x :: x in Removed(s, i) <==> x in s && x != s[i]
  {
    forall x | x in s && x != s[i]
      ensures x in Removed(s, i)
    {
      var k :| 0 <= k < |s| && s[k] == x;
      assert Removed(s, i)[if k < i then k else k - 1] == x;
    }
  }

  /** A chunk without runs moves from the ring to the cache. */
  lemma CacheAgree(f: Fields, mem: Memory, v: View, pending: set<nat>, i: nat)
    requires AgreeBut(f, mem, v, pending) && 0 < i < |f.ring| && f.ring[i] in v.world && v.world[f.ring[i]] == map[]
    ensures AgreeBut(f.(ring := Removed(f.ring, i), cached := [f.ring[i]] + f.cached), mem, v, pending)
  {
    hide InventoryOk, LinksOk, HugeListOk, NodesOk, ChunksOk, Removed;
    RemovedMembers(f.ring, i);
    assert f.ring[0] in Removed(f.ring, i);
  }

  /** A chunk without runs leaves the ring for the OS. */
  lemma ReleaseAgree(f: Fields, mem: Memory, v: View, pending: set<nat>, i: nat)
    requires AgreeBut(f, mem, v, pending) && 0 < i < |f.ring| && f.ring[i] in v.world && v.world[f.ring[i]] == map[]
    ensures var c := f.ring[i];
      AgreeBut(f.(chunks := f.chunks - {c}, ring := Removed(f.ring, i)), mem,
               v.(world := v.world - {c}), pending)
  {
    hide InventoryOk, LinksOk, HugeListOk, NodesOk, ChunkOk, Removed;
    var c := f.ring[i];
    RemovedMembers(f.ring, i);
    ListsLength(f, mem, v, pending);
    assert f.ring[0] in Removed(f.ring, i);
    DropChunk(v.world, v.free, v.huge, v.live, c);
    NodesLargeByRuns(f, v, v.world - {c});
  }

  /** A chunk without runs replaces the first cached chunk, which goes to the OS. */
  lemma SwapAgree(f: Fields, mem: Memory, v: View, pending: set<nat>, i: nat)
    requires AgreeBut(f, mem, v, pending) && 0 < i < |f.ring| && f.ring[i] in v.world && v.world[f.ring[i]] == map[]
    requires f.cached != []
    ensures var d := f.cached[0];
      AgreeBut(f.(chunks := f.chunks - {d}, ring := Removed(f.ring, i), cached := [f.ring[i]] + f.cached[1..]),
               mem, v.(world := v.world - {d}), pending)
  {
    hide InventoryOk, LinksOk, HugeListOk, NodesOk, ChunkOk, Removed;
    var d := f.cached[0];
    RemovedMembers(f.ring, i);
    ListsLength(f, mem, v, pending);
    assert f.ring[0] in Removed(f.ring, i);
    assert forall x :: x in f.cached ==> x == d || x in f.cached[1..];
    assert d !in f.cached[1..];
    DropChunk(v.world, v.free, v.huge, v.live, d);
    NodesLargeByRuns(f, v, v.world - {d});
  }

  /** The ring in another order. */
  lemma ReorderAgree(f: Fields, mem: Memory, v: View, ring': seq<nat>)
    requires Agree(f, mem, v) && |ring'| > 0 && NoDup(ring')
    requires forall c :: c in ring' <==> c in f.ring
    ensures Agree(f.(ring := ring'), mem, v)
  {
    hide InventoryOk, LinksOk, HugeListOk, NodesOk, ChunksOk;
  }

  // -------------------------------------------------- the links of a new small run

  /** Elements `1 <= j < k` of the run at `base` are linked to their successors. */
  ghost predicate LinkedBelow(mem: Memory, base: nat, b: nat, k: nat) {
    forall j: nat :: 1 <= j < k ==> mem(base + Offset(b, j)) == Link(base + Offset(b, j + 1))
  }

  lemma LinkElement(mem: Memory, base: nat, b: nat, k: nat, next: nat)
    requires b < BINS && 1 <= k < BinElements(b) && LinkedBelow(mem, base, b, k)
    ensures var mem' := WriteLink(mem, base + Offset(b, k), next);
      && LinkedBelow(mem', base, b, k) && mem'(base + Offset(b, k)) == Link(next)
      && SameOutside(mem, mem', base, base + BinPages(b) * PAGE_SIZE)
  {
    hide Offset, BinSize, BinElements, BinPages;
    BinTable(b);
    SlotInRun(b, k);
    forall j: nat | 1 <= j < k
      ensures Offset(b, j) + LINK_SIZE <= Offset(b, k)
    {
      ElementsApart(b, j, k);
    }
  }

  lemma NextOffset(b: nat, k: nat)
    requires b < BINS
    ensures Offset(b, k) + BinSize(b) == Offset(b, k + 1) && Offset(b, 1) == BinSize(b)
    ensures Offset(b, k) == BinSize(b) * k
  {
    hide BinSize;
    assert (k + 1) * BinSize(b) == k * BinSize(b) + BinSize(b);
  }

  lemma SameOutsideTrans(a: Memory, b: Memory, c: Memory, from: nat, to: nat)
    requires SameOutside(a, b, from, to) && SameOutside(b, c, from, to)
    ensures SameOutside(a, c, from, to)
  {
  }

  /** The loop of zend_mm_alloc_small_slow that links the elements from the second to the last. */
  method LinkRun(mem: Memory, base: nat, b: nat) returns (mem': Memory)
    requires b < BINS
    ensures LinkedBelow(mem', base, b, BinElements(b) - 1)
    ensures mem'(base + Offset(b, BinElements(b) - 1)) == Link(0)
    ensures SameOutside(mem, mem', base, base + BinPages(b) * PAGE_SIZE)
  {
    hide Offset, BinSize, BinElements, BinPages, WriteLink, SameOutside, LinkedBelow;
    BinTable(b);
    mem' := mem;
    var end := base + BinSize(b) * (BinElements(b) - 1);
    var p := base + BinSize(b);
    ghost var k := 1;
    LinkStart(mem, base, b);
    while p != end
      invariant 1 <= k < BinElements(b) && p == base + Offset(b, k)
      invariant LinkedBelow(mem', base, b, k) && SameOutside(mem, mem', base, base + BinPages(b) * PAGE_SIZE)
      decreases BinElements(b) - k
    {
      NextOffset(b, k);
      LinkElement(mem', base, b, k, p + BinSize(b));
      EndReached(b, k);
      SameOutsideTrans(mem, mem', WriteLink(mem', p, p + BinSize(b)), base, base + BinPages(b) * PAGE_SIZE);
      mem' := WriteLink(mem', p, p + BinSize(b));
      LinkedNext(mem', base, b, k);
      p := p + BinSize(b);
      k := k + 1;
    }
    EndReached(b, k);
    LinkElement(mem', base, b, k, 0);
    SameOutsideTrans(mem, mem', WriteLink(mem', p, 0), base, base + BinPages(b) * PAGE_SIZE);
    mem' := WriteLink(mem', p, 0);
  }

  lemma LinkStart(mem: Memory, base: nat, b: nat)
    requires b < BINS
    ensures LinkedBelow(mem, base, b, 1) && Offset(b, 1) == BinSize(b)
    ensures forall to: nat :: SameOutside(mem, mem, base, to)
  {
    NextOffset(b, 0);
  }

  lemma LinkedNext(mem: Memory, base: nat, b: nat, k: nat)
    requires LinkedBelow(mem, base, b, k) && mem(base + Offset(b, k)) == Link(base + Offset(b, k + 1))
    ensures LinkedBelow(mem, base, b, k + 1)
  {
  }

  /** The pointer reaches the last element exactly when `k` does. */
  lemma EndReached(b: nat, k: nat)
    requires b < BINS && 1 <= k < BinElements(b)
    ensures Offset(b, k) == BinSize(b) * (BinElements(b) - 1) <==> k == BinElements(b) - 1
  {
    hide Offset, BinSize, BinElements;
    BinTable(b);
    var last := BinElements(b) - 1;
    NextOffset(b, last);
    if k < last {
      ElementsApart(b, k, last);
    }
  }

  /** The linked elements are the rest of the run, in address order. */
  lemma RunChain(mem: Memory, c: nat, page: nat, b: nat)
    requires b < BINS && BinElements(b) >= 2 && LinkedBelow(mem, PageAddr(c, page), b, BinElements(b) - 1)
    requires mem(PageAddr(c, page) + Offset(b, BinElements(b) - 1)) == Link(0)
    ensures ChainOk(mem, RestSlots(c, page, b)) && Head(RestSlots(c, page, b)) == PageAddr(c, page) + BinSize(b)
  {
    hide Offset, BinSize, BinElements, PageAddr;
    var l := RestSlots(c, page, b);
    NextOffset(b, 0);
    forall k | 0 <= k < |l|
      ensures mem(SlotAddr(l[k])) == Link(Head(l[k + 1..]))
    {
      assert SlotAddr(l[k]) == PageAddr(c, page) + Offset(b, k + 1);
      if k + 1 < |l| {
        assert l[k + 1..][0] == l[k + 1];
      }
    }
  }

}
