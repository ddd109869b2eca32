/** What the heap holds: live blocks, the free lists and their links in memory. */
module Inventory {
  import opened Bins
  import opened Chunks
  import opened Blocks

  /** A memory cell holds user data or, in the first cells of a free slot, the link to the next one. */
  datatype Cell = Data(value: int) | Link(next: nat)

  type Memory = nat -> Cell

  const LINK_SIZE: nat := 8

  /** Store a `next_free_slot` pointer at address `p`. */
  function WriteLink(mem: Memory, p: nat, next: nat): Memory {
    (a: nat) => if p <= a < p + LINK_SIZE then Link(next) else mem(a)
  }

  function ReadLink(mem: Memory, p: nat): nat {
    match mem(p)
    case Link(next) => next
    case Data(_) => 0
  }

  // ------------------------------------------------------------------ free lists

  type FreeLists = seq<seq<Slot>>

  ghost predicate NoDup<T(!new)>(s: seq<T>) {
    forall i, j :: 0 <= i < j < |s| ==> s[i] != s[j]
  }

  /** Every element is a slot of a run of bin `b`, and none is listed twice. */
  ghost predicate ListOk(w: World, b: nat, l: seq<Slot>) {
    && NoDup(l)
    && (forall k :: 0 <= k < |l| ==> SlotOk(w, l[k]) && l[k].bin == b)
  }

  ghost predicate FreeOk(w: World, free: FreeLists) {
    && |free| == BINS
    && (forall b :: 0 <= b < BINS ==> ListOk(w, b, free[b]))
  }

  /** Address of the first slot, or the null pointer. */
  function Head(l: seq<Slot>): nat {
    if l == [] then 0 else SlotAddr(l[0])
  }

  /** The slots of `l` are linked in memory in this order. */
  ghost predicate ChainOk(mem: Memory, l: seq<Slot>) {
    forall k :: 0 <= k < |l| ==> mem(SlotAddr(l[k])) == Link(Head(l[k + 1..]))
  }

  ghost predicate LinksOk(heads: seq<nat>, mem: Memory, free: FreeLists)
    requires |free| == BINS
  {
    && |heads| == BINS
    && (forall b :: 0 <= b < BINS ==> heads[b] == Head(free[b]) && ChainOk(mem, free[b]))
  }

  // ----------------------------------------------------------------- live blocks

  datatype Entry = Entry(block: Block, size: nat)

  /** Live blocks by address. */
  type Live = map<nat, Entry>

  predicate InUse(w: World, free: FreeLists, huge: map<nat, nat>, b: Block)
    requires |free| == BINS
  {
    && BlockOk(w, huge, b)
    && (b.SmallBlock? ==> b.slot !in free[b.slot.bin])
  }

  /** The live blocks are the large runs, the huge blocks and the slots on no free list. */
  ghost predicate LiveOk(w: World, free: FreeLists, huge: map<nat, nat>, live: Live)
    requires |free| == BINS
  {
    && (forall p :: p in live ==>
          && InUse(w, free, huge, live[p].block) && BlockStart(live[p].block) == p
          && live[p].size == BlockSize(w, huge, live[p].block))
    && (forall b: Block :: InUse(w, free, huge, b) ==>
          BlockStart(b) in live && live[BlockStart(b)].block == b)
  }

  ghost predicate MemorySame(mem: Memory, mem': Memory, live: Live) {
    forall p, a: nat :: p in live && p <= a < p + live[p].size ==> mem'(a) == mem(a)
  }

  /** The runs, the free lists, the huge blocks and the live blocks agree. */
  ghost predicate InventoryOk(w: World, free: FreeLists, huge: map<nat, nat>, live: Live) {
    WorldOk(w) && HugeOk(w, huge) && FreeOk(w, free) && LiveOk(w, free, huge, live)
  }

  // ------------------------------------------------------------------- theorems

  /** Live blocks never overlap. */
  lemma LiveApart(w: World, free: FreeLists, huge: map<nat, nat>, live: Live, p: nat, q: nat)
    requires InventoryOk(w, free, huge, live) && p in live && q in live && p != q
    ensures Apart(p, live[p].size, q, live[q].size)
  {
    hide BlockStart, BlockSize, BlockOk, WorldOk, HugeOk, FreeOk;
    BlocksApart(w, huge, live[p].block, live[q].block);
  }

  /** Every slot of every small run is in use or on the free list of its bin, never both, and it is on
      that list once. */
  lemma SlotLiveOrFree(w: World, free: FreeLists, huge: map<nat, nat>, live: Live, sl: Slot)
    requires InventoryOk(w, free, huge, live) && SlotOk(w, sl)
    ensures sl in free[sl.bin] <==> !(SlotAddr(sl) in live && live[SlotAddr(sl)].block == SmallBlock(sl))
    ensures forall i, j :: 0 <= i < j < |free[sl.bin]| ==> !(free[sl.bin][i] == sl && free[sl.bin][j] == sl)
  {
    hide WorldOk, HugeOk, SlotAddr, BinElements;
    assert ListOk(w, sl.bin, free[sl.bin]);
    assert BlockStart(SmallBlock(sl)) == SlotAddr(sl);
  }

  /** A live block touches no chunk header: the first page of a chunk is never handed out. */
  lemma LiveOffHeaders(w: World, free: FreeLists, huge: map<nat, nat>, live: Live, p: nat, c: nat)
    requires InventoryOk(w, free, huge, live) && p in live && c in w
    ensures Apart(p, live[p].size, c * CHUNK_SIZE, PAGE_SIZE)
  {
    hide BlockStart, BlockSize, WorldOk, FreeOk, Len;
    var b := live[p].block;
    if b.HugeBlock? {
      HugeStart(b, w, huge);
      assert Apart(p, huge[b.ptr], c * CHUNK_SIZE, CHUNK_SIZE);
    } else {
      BlockInRun(w, huge, b);
      var d := BlockChunk(b);
      if d < c {
        assert d + 1 <= c;
      } else if c < d {
        assert c + 1 <= d;
      }
    }
  }

  lemma HugeStart(b: Block, w: World, huge: map<nat, nat>)
    requires b.HugeBlock? && BlockOk(w, huge, b)
    ensures BlockStart(b) == b.ptr && BlockSize(w, huge, b) == huge[b.ptr]
  {
  }

  /** A free slot overlaps no live block. */
  lemma FreeApart(w: World, free: FreeLists, huge: map<nat, nat>, live: Live, sl: Slot, p: nat)
    requires InventoryOk(w, free, huge, live) && SlotOk(w, sl) && p in live
    requires live[p].block != SmallBlock(sl)
    ensures Apart(SlotAddr(sl), BinSize(sl.bin), p, live[p].size)
  {
    hide WorldOk, HugeOk, FreeOk, SlotAddr, BinSize, BinElements;
    BlocksApart(w, huge, SmallBlock(sl), live[p].block);
  }

  /** Two different slots are at least a link apart. */
  lemma SlotsApart(w: World, huge: map<nat, nat>, a: Slot, b: Slot)
    requires WorldOk(w) && HugeOk(w, huge) && SlotOk(w, a) && SlotOk(w, b) && a != b
    ensures Apart(SlotAddr(a), LINK_SIZE, SlotAddr(b), LINK_SIZE)
  {
    hide WorldOk, HugeOk, SlotAddr, BinSize, BinElements;
    BlocksApart(w, huge, SmallBlock(a), SmallBlock(b));
    BinTable(a.bin);
    BinTable(b.bin);
  }

  lemma SlotNotNull(w: World, sl: Slot)
    requires WorldOk(w) && SlotOk(w, sl)
    ensures SlotAddr(sl) > 0
  {
    hide Offset, BinElements;
    assert sl.chunk > 0;
  }

  lemma SizePositive(w: World, huge: map<nat, nat>, b: Block)
    requires WorldOk(w) && HugeOk(w, huge) && BlockOk(w, huge, b)
    ensures BlockSize(w, huge, b) > 0
  {
    hide BinSize, BinElements;
    match b {
      case SmallBlock(sl) => BinTable(sl.bin);
      case LargeBlock(c, p) => assert RunsOk(w[c]) && RunValid(w[c][p]);
      case HugeBlock(ptr) =>
    }
  }

  /** Different blocks start at different addresses. */
  lemma StartsDiffer(w: World, huge: map<nat, nat>, a: Block, b: Block)
    requires WorldOk(w) && HugeOk(w, huge) && BlockOk(w, huge, a) && BlockOk(w, huge, b) && a != b
    ensures BlockStart(a) != BlockStart(b)
  {
    hide WorldOk, HugeOk, BlockOk, BlockStart, BlockSize;
    BlocksApart(w, huge, a, b);
    SizePositive(w, huge, a);
    SizePositive(w, huge, b);
  }

  // ------------------------------------- how the live blocks follow a change of state

  lemma LiveAdded(w: World, free: FreeLists, huge: map<nat, nat>, live: Live,
                  w': World, free': FreeLists, huge': map<nat, nat>, b: Block)
    requires |free| == BINS == |free'| && LiveOk(w, free, huge, live)
    requires WorldOk(w') && HugeOk(w', huge') && InUse(w', free', huge', b) && !InUse(w, free, huge, b)
    requires forall x: Block :: x != b ==> (InUse(w', free', huge', x) <==> InUse(w, free, huge, x))
    requires forall x: Block :: InUse(w, free, huge, x) && BlockOk(w', huge', x) ==>
      BlockSize(w', huge', x) == BlockSize(w, huge, x)
    ensures BlockStart(b) !in live
    ensures LiveOk(w', free', huge',
                   live[BlockStart(b) := Entry(b, BlockSize(w', huge', b))])
  {
    hide BlockStart, BlockSize, WorldOk, HugeOk;
    if BlockStart(b) in live {
      StartsDiffer(w', huge', live[BlockStart(b)].block, b);
      assert false;
    }
    var live' := live[BlockStart(b) := Entry(b, BlockSize(w', huge', b))];
    forall x: Block | InUse(w', free', huge', x)
      ensures BlockStart(x) in live' && live'[BlockStart(x)].block == x
    {
      if x != b {
        StartsDiffer(w', huge', x, b);
      }
    }
  }

  lemma LiveRemoved(w: World, free: FreeLists, huge: map<nat, nat>, live: Live,
                    w': World, free': FreeLists, huge': map<nat, nat>, b: Block)
    requires |free| == BINS == |free'| && LiveOk(w, free, huge, live)
    requires WorldOk(w) && HugeOk(w, huge) && !InUse(w', free', huge', b) && InUse(w, free, huge, b)
    requires forall x: Block :: x != b ==> (InUse(w', free', huge', x) <==> InUse(w, free, huge, x))
    requires forall x: Block :: InUse(w', free', huge', x) && BlockOk(w, huge, x) ==>
      BlockSize(w', huge', x) == BlockSize(w, huge, x)
    ensures BlockStart(b) in live && live[BlockStart(b)].block == b
    ensures LiveOk(w', free', huge', live - {BlockStart(b)})
  {
    hide BlockStart, BlockSize, WorldOk, HugeOk;
    var live' := live - {BlockStart(b)};
    forall x: Block | InUse(w', free', huge', x)
      ensures BlockStart(x) in live' && live'[BlockStart(x)].block == x
    {
      StartsDiffer(w, huge, x, b);
    }
  }

  lemma LiveKept(w: World, free: FreeLists, huge: map<nat, nat>, live: Live,
                 w': World, free': FreeLists, huge': map<nat, nat>)
    requires |free| == BINS == |free'| && LiveOk(w, free, huge, live)
    requires forall x: Block :: InUse(w', free', huge', x) <==> InUse(w, free, huge, x)
    requires forall x: Block :: InUse(w, free, huge, x) && BlockOk(w', huge', x) ==>
      BlockSize(w', huge', x) == BlockSize(w, huge, x)
    ensures LiveOk(w', free', huge', live)
  {
    hide BlockStart, BlockSize;
  }

  // ------------------------------------------------------------------ small blocks

  lemma PopSlot(w: World, free: FreeLists, huge: map<nat, nat>, live: Live, b: nat)
    requires InventoryOk(w, free, huge, live) && b < BINS && free[b] != []
    ensures var sl := free[b][0];
      && SlotAddr(sl) !in live
      && InventoryOk(w, free[b := free[b][1..]], huge,
                     live[SlotAddr(sl) := Entry(SmallBlock(sl), BinSize(b))])
  {
    hide WorldOk, HugeOk, SlotAddr, BinSize, BinElements;
    var sl := free[b][0];
    var free' := free[b := free[b][1..]];
    assert ListOk(w, b, free[b]);
    assert sl !in free'[b];
    assert FreeOk(w, free') by {
      forall i | 0 <= i < BINS
        ensures ListOk(w, i, free'[i])
      {
        assert ListOk(w, i, free[i]);
      }
    }
    forall x: Block | x != SmallBlock(sl)
      ensures InUse(w, free', huge, x) <==> InUse(w, free, huge, x)
    {
      assert free[b] == [sl] + free'[b];
    }
    LiveAdded(w, free, huge, live, w, free', huge, SmallBlock(sl));
  }

  lemma PushSlot(w: World, free: FreeLists, huge: map<nat, nat>, live: Live, sl: Slot)
    requires InventoryOk(w, free, huge, live) && InUse(w, free, huge, SmallBlock(sl))
    ensures SlotAddr(sl) in live && live[SlotAddr(sl)] == Entry(SmallBlock(sl), BinSize(sl.bin))
    ensures InventoryOk(w, free[sl.bin := [sl] + free[sl.bin]], huge, live - {SlotAddr(sl)})
  {
    hide WorldOk, HugeOk, SlotAddr, BinSize, BinElements;
    var b := sl.bin;
    var free' := free[b := [sl] + free[b]];
    assert FreeOk(w, free') by {
      forall i | 0 <= i < BINS
        ensures ListOk(w, i, free'[i])
      {
        assert ListOk(w, i, free[i]);
      }
    }
    LiveRemoved(w, free, huge, live, w, free', huge, SmallBlock(sl));
  }

  /** A block takes the place of another one at the same address. */
  lemma LiveReplaced(w: World, free: FreeLists, huge: map<nat, nat>, live: Live,
                     w': World, free': FreeLists, huge': map<nat, nat>, a: Block, b: Block)
    requires |free| == BINS == |free'| && LiveOk(w, free, huge, live)
    requires WorldOk(w') && HugeOk(w', huge') && BlockStart(a) == BlockStart(b)
    requires InUse(w, free, huge, a) && InUse(w', free', huge', b)
    requires forall x: Block :: x != b ==> (InUse(w', free', huge', x) <==> InUse(w, free, huge, x) && x != a)
    requires forall x: Block :: x != b && InUse(w', free', huge', x) && BlockOk(w, huge, x) ==>
      BlockSize(w', huge', x) == BlockSize(w, huge, x)
    requires a != b ==> !InUse(w, free, huge, b)
    ensures LiveOk(w', free', huge', live[BlockStart(b) := Entry(b, BlockSize(w', huge', b))])
  {
    hide BlockStart, BlockSize, WorldOk, HugeOk;
    var live' := live[BlockStart(b) := Entry(b, BlockSize(w', huge', b))];
    forall x: Block | InUse(w', free', huge', x)
      ensures BlockStart(x) in live' && live'[BlockStart(x)].block == x
    {
      if x != b {
        StartsDiffer(w', huge', x, b);
      }
    }
    forall p | p in live'
      ensures InUse(w', free', huge', live'[p].block) && BlockStart(live'[p].block) == p
      ensures live'[p].size == BlockSize(w', huge', live'[p].block)
    {
      if p != BlockStart(b) {
        assert live[p].block != a && live[p].block != b;
      }
    }
  }

  // ------------------------------------------------------------------ large blocks

  lemma AddLarge(w: World, free: FreeLists, huge: map<nat, nat>, live: Live, c: nat, p: nat, n: nat)
    requires InventoryOk(w, free, huge, live) && c in w && p !in w[c] && RunsOk(w[c][p := Large(n)])
    ensures PageAddr(c, p) !in live
    ensures InventoryOk(WithRun(w, c, p, Large(n)), free, huge,
                        live[PageAddr(c, p) := Entry(LargeBlock(c, p), n * PAGE_SIZE)])
  {
    hide RunsOk, PageAddr, BinSize, BinElements;
    var w' := WithRun(w, c, p, Large(n));
    SameKeysHuge(w, w', huge);
    forall x: Block | x != LargeBlock(c, p)
      ensures InUse(w', free, huge, x) <==> InUse(w, free, huge, x)
    {
    }
    assert FreeOk(w', free) by {
      KeepLists(w, w', free);
    }
    assert InUse(w', free, huge, LargeBlock(c, p));
    LiveAdded(w, free, huge, live, w', free, huge, LargeBlock(c, p));
  }

  lemma SameKeysHuge(w: World, w': World, huge: map<nat, nat>)
    requires HugeOk(w, huge) && w'.Keys <= w.Keys
    ensures HugeOk(w', huge)
  {
  }

  /** Free lists stay good in a world that keeps the listed slots. */
  lemma KeepLists(w: World, w': World, free: FreeLists)
    requires FreeOk(w, free)
    requires forall sl :: SlotOk(w, sl) && sl in free[sl.bin] ==> SlotOk(w', sl)
    ensures FreeOk(w', free)
  {
    hide SlotOk;
    forall b | 0 <= b < BINS
      ensures ListOk(w', b, free[b])
    {
      assert ListOk(w, b, free[b]);
      forall k | 0 <= k < |free[b]|
        ensures SlotOk(w', free[b][k])
      {
        assert free[b][k] in free[b];
      }
    }
  }

  lemma RemoveLarge(w: World, free: FreeLists, huge: map<nat, nat>, live: Live, c: nat, p: nat)
    requires InventoryOk(w, free, huge, live) && InUse(w, free, huge, LargeBlock(c, p))
    requires RunsOk(w[c] - {p})
    ensures PageAddr(c, p) in live
    ensures live[PageAddr(c, p)] == Entry(LargeBlock(c, p), w[c][p].pages * PAGE_SIZE)
    ensures InventoryOk(WithoutRun(w, c, p), free, huge, live - {PageAddr(c, p)})
  {
    hide RunsOk, PageAddr, BinSize, BinElements;
    var w' := WithoutRun(w, c, p);
    SameKeysHuge(w, w', huge);
    forall x: Block | x != LargeBlock(c, p)
      ensures InUse(w', free, huge, x) <==> InUse(w, free, huge, x)
    {
    }
    assert FreeOk(w', free) by {
      KeepLists(w, w', free);
    }
    LiveRemoved(w, free, huge, live, w', free, huge, LargeBlock(c, p));
  }

  lemma ResizeLarge(w: World, free: FreeLists, huge: map<nat, nat>, live: Live, c: nat, p: nat, n: nat)
    requires InventoryOk(w, free, huge, live) && InUse(w, free, huge, LargeBlock(c, p))
    requires RunsOk(w[c][p := Large(n)])
    ensures InventoryOk(WithRun(w, c, p, Large(n)), free, huge,
                        live[PageAddr(c, p) := Entry(LargeBlock(c, p), n * PAGE_SIZE)])
  {
    hide RunsOk, PageAddr, BinSize, BinElements;
    var w' := WithRun(w, c, p, Large(n));
    SameKeysHuge(w, w', huge);
    forall x: Block
      ensures InUse(w', free, huge, x) <==> InUse(w, free, huge, x)
    {
    }
    assert FreeOk(w', free) by {
      KeepLists(w, w', free);
    }
    LiveReplaced(w, free, huge, live, w', free, huge, LargeBlock(c, p), LargeBlock(c, p));
  }

  // --------------------------------------------------------------- new small runs

  /** The elements of a new run after the first, in address order. */
  function RestSlots(c: nat, p: nat, b: nat): (l: seq<Slot>)
    requires b < BINS
    ensures |l| == (if BinElements(b) == 0 then 0 else BinElements(b) - 1)
  {
    seq(if BinElements(b) == 0 then 0 else BinElements(b) - 1, (k: nat) => Slot(c, p, b, k + 1))
  }

  lemma MakeSmall(w: World, free: FreeLists, huge: map<nat, nat>, live: Live, c: nat, p: nat, b: nat)
    requires InventoryOk(w, free, huge, live) && InUse(w, free, huge, LargeBlock(c, p))
    requires b < BINS && free[b] == [] && RunsOk(w[c][p := Small(b)])
    ensures InventoryOk(WithRun(w, c, p, Small(b)), free[b := RestSlots(c, p, b)], huge,
                        live[PageAddr(c, p) := Entry(SmallBlock(Slot(c, p, b, 0)), BinSize(b))])
  {
    hide RunsOk, PageAddr, BinSize, BinElements;
    BinTable(b);
    var w' := WithRun(w, c, p, Small(b));
    var free' := free[b := RestSlots(c, p, b)];
    var first := Slot(c, p, b, 0);
    SameKeysHuge(w, w', huge);
    assert BlockStart(SmallBlock(first)) == PageAddr(c, p) by {
      assert Offset(b, 0) == 0;
    }
    NewRunLists(w, free, c, p, b);
    NewRunUse(w, free, huge, c, p, b);
    hide SlotAddr, FreeOk;
    LiveReplaced(w, free, huge, live, w', free', huge, LargeBlock(c, p), SmallBlock(first));
  }

  lemma NewRunLists(w: World, free: FreeLists, c: nat, p: nat, b: nat)
    requires FreeOk(w, free) && c in w && p in w[c] && w[c][p].Large? && b < BINS && free[b] == []
    ensures FreeOk(WithRun(w, c, p, Small(b)), free[b := RestSlots(c, p, b)])
  {
    hide BinElements;
    var w' := WithRun(w, c, p, Small(b));
    var free' := free[b := RestSlots(c, p, b)];
    forall i | 0 <= i < BINS
      ensures ListOk(w', i, free'[i])
    {
      assert ListOk(w, i, free[i]);
      if i == b {
        BinTable(b);
      }
    }
  }

  lemma NewRunUse(w: World, free: FreeLists, huge: map<nat, nat>, c: nat, p: nat, b: nat)
    requires FreeOk(w, free) && c in w && p in w[c] && w[c][p].Large? && b < BINS && free[b] == []
    ensures var w', free' := WithRun(w, c, p, Small(b)), free[b := RestSlots(c, p, b)];
      var first := SmallBlock(Slot(c, p, b, 0));
      && InUse(w', free', huge, first) && !InUse(w, free, huge, first)
      && (forall x: Block :: x != first ==>
           (InUse(w', free', huge, x) <==> InUse(w, free, huge, x) && x != LargeBlock(c, p)))
  {
    hide BinElements;
    BinTable(b);
    var w', free' := WithRun(w, c, p, Small(b)), free[b := RestSlots(c, p, b)];
    var first := SmallBlock(Slot(c, p, b, 0));
    forall x: Block | x != first
      ensures InUse(w', free', huge, x) <==> InUse(w, free, huge, x) && x != LargeBlock(c, p)
    {
      if x.SmallBlock? && x.slot.chunk == c && x.slot.page == p && SlotOk(w', x.slot) {
        assert x.slot == RestSlots(c, p, b)[x.slot.index - 1];
      }
    }
  }

  // --------------------------------------------------------- huge blocks and chunks

  /** The region is apart from every huge block but possibly the one at `except`, and from every chunk. */
  ghost predicate RegionFree(w: World, huge: map<nat, nat>, ptr: nat, size: nat, except: nat) {
    && (forall c :: c in w ==> Apart(ptr, size, c * CHUNK_SIZE, CHUNK_SIZE))
    && (forall q :: q in huge && q != except ==> Apart(ptr, size, q, huge[q]))
  }

  lemma AddHuge(w: World, free: FreeLists, huge: map<nat, nat>, live: Live, ptr: nat, size: nat)
    requires InventoryOk(w, free, huge, live)
    requires ptr > 0 && ptr % CHUNK_SIZE == 0 && size > MAX_LARGE_SIZE && ptr !in huge
    requires RegionFree(w, huge, ptr, size, ptr)
    ensures ptr !in live
    ensures InventoryOk(w, free, huge[ptr := size], live[ptr := Entry(HugeBlock(ptr), size)])
  {
    hide WorldOk, ListOk, BinSize, BinElements, SlotAddr, PageAddr;
    var huge' := huge[ptr := size];
    assert HugeOk(w, huge');
    LiveAdded(w, free, huge, live, w, free, huge', HugeBlock(ptr));
  }

  lemma RemoveHuge(w: World, free: FreeLists, huge: map<nat, nat>, live: Live, ptr: nat)
    requires InventoryOk(w, free, huge, live) && ptr in huge
    ensures ptr in live && live[ptr] == Entry(HugeBlock(ptr), huge[ptr])
    ensures InventoryOk(w, free, huge - {ptr}, live - {ptr})
  {
    hide WorldOk, ListOk, BinSize, BinElements, SlotAddr, PageAddr;
    var huge' := huge - {ptr};
    assert HugeOk(w, huge');
    LiveRemoved(w, free, huge, live, w, free, huge', HugeBlock(ptr));
  }

  /** Truncating or extending a huge block in place. */
  lemma ResizeHuge(w: World, free: FreeLists, huge: map<nat, nat>, live: Live, ptr: nat, size: nat)
    requires InventoryOk(w, free, huge, live) && ptr in huge && size > MAX_LARGE_SIZE
    requires size <= huge[ptr] || RegionFree(w, huge, ptr, size, ptr)
    ensures InventoryOk(w, free, huge[ptr := size], live[ptr := Entry(HugeBlock(ptr), size)])
  {
    hide WorldOk, ListOk, BinSize, BinElements, SlotAddr, PageAddr;
    var huge' := huge[ptr := size];
    HugeResized(w, huge, ptr, size);
    LiveReplaced(w, free, huge, live, w, free, huge', HugeBlock(ptr), HugeBlock(ptr));
  }

  lemma HugeResized(w: World, huge: map<nat, nat>, ptr: nat, size: nat)
    requires HugeOk(w, huge) && ptr in huge && size > MAX_LARGE_SIZE
    requires size <= huge[ptr] || RegionFree(w, huge, ptr, size, ptr)
    ensures HugeOk(w, huge[ptr := size])
  {
  }

  ghost predicate HasRun(w: World, c: nat, p: nat, r: Run) {
    c in w && p in w[c] && w[c][p] == r
  }

  /** Worlds with the same runs have the same slots and blocks. */
  lemma SameRuns(w: World, w': World, free: FreeLists, huge: map<nat, nat>)
    requires |free| == BINS
    requires forall c, p, r :: HasRun(w, c, p, r) <==> HasRun(w', c, p, r)
    ensures forall sl :: SlotOk(w, sl) <==> SlotOk(w', sl)
    ensures forall x: Block :: InUse(w', free, huge, x) <==> InUse(w, free, huge, x)
    ensures forall x: Block :: InUse(w, free, huge, x) && BlockOk(w', huge, x) ==>
      BlockSize(w', huge, x) == BlockSize(w, huge, x)
  {
    hide BinElements, BinSize;
    forall sl: Slot
      ensures SlotOk(w, sl) <==> SlotOk(w', sl)
    {
      assert HasRun(w, sl.chunk, sl.page, Small(sl.bin)) <==> HasRun(w', sl.chunk, sl.page, Small(sl.bin));
    }
    forall x: Block
      ensures InUse(w', free, huge, x) <==> InUse(w, free, huge, x)
      ensures BlockOk(w, huge, x) && BlockOk(w', huge, x) ==> BlockSize(w', huge, x) == BlockSize(w, huge, x)
    {
      match x {
        case LargeBlock(c, p) =>
          if c in w && p in w[c] {
            assert HasRun(w', c, p, w[c][p]);
          }
          if c in w' && p in w'[c] {
            assert HasRun(w, c, p, w'[c][p]);
          }
        case _ =>
      }
    }
  }

  /** A new chunk, without runs, at a place that no huge block uses. */
  lemma AddChunk(w: World, free: FreeLists, huge: map<nat, nat>, live: Live, c: nat)
    requires InventoryOk(w, free, huge, live) && c > 0 && c !in w
    requires forall q :: q in huge ==> Apart(c * CHUNK_SIZE, CHUNK_SIZE, q, huge[q])
    ensures InventoryOk(w[c := map[]], free, huge, live)
  {
    hide InUse, BlockOk, BlockSize, SlotOk, LiveOk, ListOk;
    var w' := w[c := map[]];
    SameRuns(w, w', free, huge);
    KeepLists(w, w', free);
    LiveKept(w, free, huge, live, w', free, huge);
  }

  /** Giving a chunk without runs back. */
  lemma DropChunk(w: World, free: FreeLists, huge: map<nat, nat>, live: Live, c: nat)
    requires InventoryOk(w, free, huge, live) && c in w && w[c] == map[]
    ensures InventoryOk(w - {c}, free, huge, live)
  {
    hide InUse, BlockOk, BlockSize, SlotOk, LiveOk, ListOk;
    var w' := w - {c};
    SameKeysHuge(w, w', huge);
    SameRuns(w, w', free, huge);
    KeepLists(w, w', free);
    LiveKept(w, free, huge, live, w', free, huge);
  }

  // ------------------------------------------------------------- links in memory

  /** Writes that miss the slots of a list leave its links alone. */
  lemma ChainKept(mem: Memory, mem': Memory, l: seq<Slot>)
    requires ChainOk(mem, l)
    requires forall k :: 0 <= k < |l| ==> mem'(SlotAddr(l[k])) == mem(SlotAddr(l[k]))
    ensures ChainOk(mem', l)
  {
  }

  lemma ChainTail(mem: Memory, l: seq<Slot>)
    requires ChainOk(mem, l) && l != []
    ensures mem(SlotAddr(l[0])) == Link(Head(l[1..])) && ChainOk(mem, l[1..])
  {
    hide SlotAddr;
    forall k | 0 <= k < |l| - 1
      ensures mem(SlotAddr(l[1..][k])) == Link(Head(l[1..][k + 1..]))
    {
      assert l[1..][k] == l[k + 1] && l[1..][k + 1..] == l[k + 2..];
    }
  }

  lemma ChainCons(mem: Memory, sl: Slot, l: seq<Slot>)
    requires ChainOk(mem, l) && mem(SlotAddr(sl)) == Link(Head(l))
    ensures ChainOk(mem, [sl] + l)
  {
    hide SlotAddr, Head;
    var l' := [sl] + l;
    forall k | 0 <= k < |l'|
      ensures mem(SlotAddr(l'[k])) == Link(Head(l'[k + 1..]))
    {
      if k == 0 {
        assert l'[1..] == l;
      } else {
        var i := k - 1;
        assert l'[k] == l[i] && l'[k + 1..] == l[i + 1..];
        assert mem(SlotAddr(l[i])) == Link(Head(l[i + 1..]));
      }
    }
  }

  /** A link written at a slot that no list holds leaves every list linked. */
  lemma LinkElsewhere(w: World, huge: map<nat, nat>, mem: Memory, sl: Slot, next: nat, l: seq<Slot>)
    requires WorldOk(w) && HugeOk(w, huge) && SlotOk(w, sl) && sl !in l
    requires forall k :: 0 <= k < |l| ==> SlotOk(w, l[k])
    requires ChainOk(mem, l)
    ensures ChainOk(WriteLink(mem, SlotAddr(sl), next), l)
  {
    hide SlotAddr, WorldOk, HugeOk, SlotOk;
    var mem' := WriteLink(mem, SlotAddr(sl), next);
    forall k | 0 <= k < |l|
      ensures mem'(SlotAddr(l[k])) == mem(SlotAddr(l[k]))
    {
      SlotsApart(w, huge, sl, l[k]);
    }
    ChainKept(mem, mem', l);
  }

  lemma LinksPop(w: World, heads: seq<nat>, mem: Memory, free: FreeLists, b: nat)
    requires FreeOk(w, free) && LinksOk(heads, mem, free) && b < BINS && free[b] != []
    ensures ReadLink(mem, heads[b]) == Head(free[b][1..])
    ensures LinksOk(heads[b := ReadLink(mem, heads[b])], mem, free[b := free[b][1..]])
  {
    hide SlotAddr;
    ChainTail(mem, free[b]);
  }

  lemma LinksPush(w: World, huge: map<nat, nat>, heads: seq<nat>, mem: Memory, free: FreeLists, sl: Slot)
    requires WorldOk(w) && HugeOk(w, huge) && FreeOk(w, free) && LinksOk(heads, mem, free)
    requires SlotOk(w, sl) && sl !in free[sl.bin]
    ensures LinksOk(heads[sl.bin := SlotAddr(sl)], WriteLink(mem, SlotAddr(sl), heads[sl.bin]),
                    free[sl.bin := [sl] + free[sl.bin]])
  {
    hide SlotAddr, WorldOk, HugeOk, BinElements;
    var mem' := WriteLink(mem, SlotAddr(sl), heads[sl.bin]);
    forall b | 0 <= b < BINS
      ensures ChainOk(mem', free[b])
    {
      assert ListOk(w, b, free[b]);
      LinkElsewhere(w, huge, mem, sl, heads[sl.bin], free[b]);
    }
    ChainCons(mem', sl, free[sl.bin]);
  }

  /** Writing the link of a slot that is not live changes no live block. */
  lemma LinkOffLive(w: World, free: FreeLists, huge: map<nat, nat>, live: Live, mem: Memory, sl: Slot, next: nat)
    requires InventoryOk(w, free, huge, live) && SlotOk(w, sl)
    requires forall p :: p in live ==> live[p].block != SmallBlock(sl)
    ensures MemorySame(mem, WriteLink(mem, SlotAddr(sl), next), live)
  {
    hide SlotAddr, WorldOk, HugeOk, FreeOk, LiveOk, BinElements, BinSize;
    BinTable(sl.bin);
    forall p, a: nat | p in live && p <= a < p + live[p].size
      ensures WriteLink(mem, SlotAddr(sl), next)(a) == mem(a)
    {
      FreeApart(w, free, huge, live, sl, p);
    }
  }

}
