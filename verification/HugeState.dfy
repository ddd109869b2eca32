/** How the heap invariant follows the list of huge blocks. */
module HugeState {
  import opened Bins
  import opened Chunks
  import opened Blocks
  import opened Inventory
  import opened HeapState

  // ------------------------------------------------------------------ list cells

  /** Every list cell is a live small block. */
  lemma NodeLive(f: Fields, mem: Memory, v: View, i: nat)
    requires Agree(f, mem, v) && i < |v.nodes|
    ensures |v.nodes| == |f.hugeList| && SlotAddr(v.nodes[i]) == f.hugeList[i].node
    ensures f.hugeList[i].node in v.live && v.live[f.hugeList[i].node] == Entry(SmallBlock(v.nodes[i]), BinSize(NODE_BIN))
    ensures v.nodes[i].bin == NODE_BIN
  {
    hide WorldOk, HugeOk, ListOk, ChunksOk, RingOk, LinksOk, HugeListOk, BinSize, SlotAddr, BinElements;
    var b := SmallBlock(v.nodes[i]);
    assert InUse(v.world, v.free, v.huge, b) && BlockStart(b) == SlotAddr(v.nodes[i]);
  }

  /** A slot at an address that was not live is no list cell. */
  lemma FreshNotNode(f: Fields, mem: Memory, v: View, sl: Slot)
    requires Agree(f, mem, v) && SlotAddr(sl) !in v.live
    ensures sl !in v.nodes
  {
    hide Agree, SlotAddr, BinSize;
    if sl in v.nodes {
      var i :| 0 <= i < |v.nodes| && v.nodes[i] == sl;
      NodeLive(f, mem, v, i);
    }
  }

  // --------------------------------------------------------------- the list itself

  lemma ListAdded(l: seq<HugeNode>, huge: map<nat, nat>, n: HugeNode)
    requires HugeListOk(l, huge) && n.ptr !in huge
    ensures HugeListOk([n] + l, huge[n.ptr := n.size])
  {
    var l', huge' := [n] + l, huge[n.ptr := n.size];
    forall p | p in huge'
      ensures exists i :: 0 <= i < |l'| && l'[i].ptr == p
    {
      if p == n.ptr {
        assert l'[0].ptr == p;
      } else {
        var i :| 0 <= i < |l| && l[i].ptr == p;
        assert l'[i + 1].ptr == p;
      }
    }
  }

  lemma ListRemoved(l: seq<HugeNode>, huge: map<nat, nat>, i: nat)
    requires HugeListOk(l, huge) && i < |l|
    ensures HugeListOk(Removed(l, i), huge - {l[i].ptr})
  {
    var l' := Removed(l, i);
    forall p | p in huge - {l[i].ptr}
      ensures exists k :: 0 <= k < |l'| && l'[k].ptr == p
    {
      var k :| 0 <= k < |l| && l[k].ptr == p;
      assert l'[if k < i then k else k - 1].ptr == p;
    }
  }

  lemma ListResized(l: seq<HugeNode>, huge: map<nat, nat>, i: nat, size: nat)
    requires HugeListOk(l, huge) && i < |l|
    ensures HugeListOk(l[i := l[i].(size := size)], huge[l[i].ptr := size])
  {
    var l', huge' := l[i := l[i].(size := size)], huge[l[i].ptr := size];
    forall p | p in huge'
      ensures exists k :: 0 <= k < |l'| && l'[k].ptr == p
    {
      assert l[i].ptr in huge;
      var k :| 0 <= k < |l| && l[k].ptr == p;
      assert l'[k].ptr == p;
    }
  }

  // ------------------------------------------------------------- the heap invariant

  function HugeAdded(v: View, ptr: nat, size: nat, sl: Slot): View {
    v.(huge := v.huge[ptr := size], live := v.live[ptr := Entry(HugeBlock(ptr), size)], nodes := [sl] + v.nodes)
  }

  /** zend_mm_add_huge_block with the list cell `sl`. */
  lemma AddHugeAgree(f: Fields, mem: Memory, v: View, ptr: nat, size: nat, sl: Slot)
    requires Agree(f, mem, v) && ptr > 0 && ptr % CHUNK_SIZE == 0 && size > MAX_LARGE_SIZE && ptr !in v.huge
    requires RegionFree(v.world, v.huge, ptr, size, ptr)
    requires SlotAddr(sl) in v.live && v.live[SlotAddr(sl)].block == SmallBlock(sl)
    requires sl.bin == NODE_BIN && sl !in v.nodes
    ensures ptr !in v.live
    ensures Agree(f.(hugeList := [HugeNode(SlotAddr(sl), ptr, size)] + f.hugeList), mem, HugeAdded(v, ptr, size, sl))
  {
    hide WorldOk, HugeOk, FreeOk, LiveOk, ChunksOk, RingOk, LinksOk, HugeListOk, SlotAddr, BinElements, RegionFree;
    ListsLength(f, mem, v, {});
    InUseAt(f, mem, v, SlotAddr(sl));
    AddHuge(v.world, v.free, v.huge, v.live, ptr, size);
    ListAdded(f.hugeList, v.huge, HugeNode(SlotAddr(sl), ptr, size));
  }

  function HugeRemoved(v: View, ptr: nat, i: nat): View
    requires i < |v.nodes|
  {
    v.(huge := v.huge - {ptr}, live := v.live - {ptr}, nodes := Removed(v.nodes, i))
  }

  /** Entry `i` leaves the list; its cell is then an ordinary small block. */
  lemma RemoveHugeAgree(f: Fields, mem: Memory, v: View, i: nat)
    requires Agree(f, mem, v) && i < |f.hugeList|
    ensures |v.nodes| == |f.hugeList|
    ensures var n, v' := f.hugeList[i], HugeRemoved(v, f.hugeList[i].ptr, i);
      && n.ptr in v.live && v.live[n.ptr] == Entry(HugeBlock(n.ptr), n.size)
      && n.node in v'.live && v'.live[n.node] == Entry(SmallBlock(v.nodes[i]), BinSize(NODE_BIN))
      && n.node == SlotAddr(v.nodes[i]) && v.nodes[i].bin == NODE_BIN && v.nodes[i] !in v'.nodes
      && Agree(f.(hugeList := Removed(f.hugeList, i)), mem, v')
  {
    hide WorldOk, HugeOk, FreeOk, LiveOk, ChunksOk, RingOk, LinksOk, SlotAddr, BinElements, BinSize, SlotOk,
         NodesOk, HugeListOk, Removed;
    ListsLength(f, mem, v, {});
    HugeEntry(f, mem, v, i);
    NodesRemoved(f.hugeList, v.nodes, v.world, v.free, i);
    NodeLive(f, mem, v, i);
    RemoveHuge(v.world, v.free, v.huge, v.live, f.hugeList[i].ptr);
    ListRemoved(f.hugeList, v.huge, i);
  }

  lemma NodesRemoved(l: seq<HugeNode>, nodes: seq<Slot>, w: World, free: FreeLists, i: nat)
    requires |free| == BINS && NodesOk(l, nodes, w, free) && i < |l|
    ensures |nodes| == |l| && NodesOk(Removed(l, i), Removed(nodes, i), w, free) && nodes[i] !in Removed(nodes, i)
  {
    hide SlotOk, SlotAddr;
    var l', nodes' := Removed(l, i), Removed(nodes, i);
    assert forall k :: 0 <= k < |l'| ==> l'[k] == l[if k < i then k else k + 1];
    assert forall k :: 0 <= k < |l'| ==> nodes'[k] == nodes[if k < i then k else k + 1];
  }

  function HugeResizedView(v: View, ptr: nat, size: nat): View {
    v.(huge := v.huge[ptr := size], live := v.live[ptr := Entry(HugeBlock(ptr), size)])
  }

  /** Entry `i` gets another size. */
  lemma ResizeHugeAgree(f: Fields, mem: Memory, v: View, i: nat, size: nat)
    requires Agree(f, mem, v) && i < |f.hugeList| && size > MAX_LARGE_SIZE
    requires size <= f.hugeList[i].size || RegionFree(v.world, v.huge, f.hugeList[i].ptr, size, f.hugeList[i].ptr)
    ensures var ptr := f.hugeList[i].ptr;
      && ptr in v.live && v.live[ptr] == Entry(HugeBlock(ptr), f.hugeList[i].size)
      && Agree(f.(hugeList := f.hugeList[i := f.hugeList[i].(size := size)]), mem, HugeResizedView(v, ptr, size))
  {
    hide WorldOk, HugeOk, FreeOk, LiveOk, ChunksOk, RingOk, LinksOk, SlotAddr, BinElements, BinSize, SlotOk, RegionFree;
    ListsLength(f, mem, v, {});
    RemoveHuge(v.world, v.free, v.huge, v.live, f.hugeList[i].ptr);
    ResizeHuge(v.world, v.free, v.huge, v.live, f.hugeList[i].ptr, size);
    ListResized(f.hugeList, v.huge, i, size);
  }

  /** A live huge block is on the list. */
  lemma HugeListed(f: Fields, mem: Memory, v: View, ptr: nat)
    requires Agree(f, mem, v) && ptr in v.live && v.live[ptr].block.HugeBlock?
    ensures ptr in v.huge && v.live[ptr] == Entry(HugeBlock(ptr), v.huge[ptr])
    ensures ptr > 0 && ptr % CHUNK_SIZE == 0
    ensures exists i :: 0 <= i < |f.hugeList| && f.hugeList[i].ptr == ptr
  {
    hide WorldOk, FreeOk, ChunksOk, RingOk, LinksOk, NodesOk, SlotAddr;
    InUseAt(f, mem, v, ptr);
  }

  lemma HugeEntry(f: Fields, mem: Memory, v: View, i: nat)
    requires Agree(f, mem, v) && i < |f.hugeList|
    ensures f.hugeList[i].ptr in v.huge && v.huge[f.hugeList[i].ptr] == f.hugeList[i].size
  {
    hide InventoryOk, ChunksOk, RingOk, LinksOk, NodesOk;
  }

  lemma HugeTotalWithout(l: seq<HugeNode>, i: nat)
    requires i < |l|
    ensures HugeTotal(l) == l[i].size + HugeTotal(Removed(l, i))
  {
    HugeTotalAt(l, i);
  }
}
