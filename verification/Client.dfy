/** A program that uses the heap: whatever it does, its blocks keep their bytes. */
module Client {
  import opened Bins
  import opened Blocks
  import opened Inventory
  import opened HeapState
  import opened GcState
  import opened SweepState
  import opened HeapSteps
  import opened Ownership
  import opened ZendHeap

  /** What the program has stored: by block, by offset. */
  type Contents = map<nat, map<nat, int>>

  /** Every block of the program holds what the program has stored there. */
  ghost predicate Holds(mem: Memory, blocks: map<nat, nat>, contents: Contents) {
    && contents.Keys == blocks.Keys
    && (forall p, k :: p in contents && k in contents[p] ==> k < blocks[p] && mem(p + k) == Data(contents[p][k]))
  }

  datatype Op =
    | Malloc(bytes: nat)
    | Release(ptr: nat)
    | Resize(ptr: nat, bytes: nat, copySize: nat)
    | Collect
    | Write(ptr: nat, offset: nat, value: int)

  class Program {
    const heap: Heap
    /** The blocks of the program with their sizes; it keeps the one at `pin` to its end. */
    var blocks: map<nat, nat>
    const pin: nat
    ghost var contents: Contents
    /** How many requests have failed. */
    var failed: nat

    ghost predicate Valid()
      reads this, heap
    {
      && heap.Valid() && Pinned(heap.Parts(), heap.view, pin)
      && blocks == Owned(heap.view) && Holds(heap.mem, blocks, contents)
      && (heap.overflow || heap.realSize <= heap.limit + CHUNK_SIZE)
      && (failed == 0 ==> heap.lost == 0)
    }

    /** As long as no request has failed, the size counter is exactly the sum of the sizes of the live
        blocks, the cells of the list of huge blocks included. */
    method UsageExact() returns (size: nat)
      requires Valid()
      ensures size == Total(heap.view.live) + heap.lost && (failed == 0 ==> size == Total(heap.view.live))
    {
      hide NoneEmpty, Agree, HugeTotal, Total, Owned, Pinned, Holds;
      size := heap.size;
    }

    /** A program starts with a first block. */
    constructor (main: nat, realPage: Positive, limit: nat, bytes: nat)
      requires main > 0 && bytes <= MAX_LARGE_SIZE
      ensures Valid() && fresh(heap) && failed == 0 && blocks == map[pin := RoundedSize(bytes, realPage)]
      ensures heap.limit == Max(limit, CHUNK_SIZE) && !heap.overflow
    {
      hide NoneEmpty, Agree, HugeTotal, Total, RoundedSize, Owned, Pinned, Holds;
      var h, p := Start(main, realPage, limit, bytes);
      HoldsNothing(h.mem, p, RoundedSize(bytes, realPage));
      heap := h;
      pin := p;
      blocks := map[p := RoundedSize(bytes, realPage)];
      contents := map[p := map[]];
      failed := 0;
    }

    // ------------------------------------------------------------- single operations

    method DoMalloc(bytes: nat) returns (r: Grab, ptr: nat)
      requires Valid()
      modifies this, heap
      ensures Valid() && heap.limit == old(heap.limit) && heap.overflow == old(heap.overflow)
      ensures r.Got? ==> ptr !in old(blocks) && blocks == old(blocks)[ptr := RoundedSize(bytes, heap.realPage)]
                         && contents == old(contents)[ptr := map[]]
      ensures !r.Got? ==> blocks == old(blocks) && contents == old(contents)
      ensures failed == old(failed) + (if r.Got? then 0 else 1) && LostBy(old(heap.lost), heap.lost, bytes, r)
    {
      hide NoneEmpty, Agree, HugeTotal, Total, RoundedSize, Owned, Pinned, MemorySame, Holds, MainKept, MainEmpty,
           NothingToCollect, Fresh, Allocated;
      ghost var f0, v0, mem0 := heap.Parts(), heap.view, heap.mem;
      PinnedKept(f0, mem0, v0, pin);
      r, ptr := heap.Alloc(bytes);
      PinnedAfterAlloc(f0, v0, heap.Parts(), heap.view, r, ptr, RoundedSize(bytes, heap.realPage), pin);
      HoldsAfterAlloc(mem0, heap.mem, v0, heap.view, contents, r, ptr, RoundedSize(bytes, heap.realPage));
      if r.Got? {
        var n := heap.Size(ptr);
        blocks := blocks[ptr := n];
        contents := contents[ptr := map[]];
      } else {
        failed := failed + 1;
      }
    }

    method DoRelease(ptr: nat)
      requires Valid() && (ptr == 0 || ptr in blocks) && ptr != pin
      modifies this, heap
      ensures Valid() && heap.limit == old(heap.limit) && heap.overflow == old(heap.overflow)
      ensures blocks == old(blocks) - {ptr} && contents == old(contents) - {ptr}
      ensures failed == old(failed) && heap.lost == old(heap.lost)
    {
      hide NoneEmpty, Agree, HugeTotal, Total, Owned, Pinned, MemorySame, Holds, Released, LastInMain;
      ghost var f0, v0, mem0 := heap.Parts(), heap.view, heap.mem;
      if ptr != 0 {
        OwnedLive(v0, ptr);
        PinnedNotLast(f0, mem0, v0, pin, ptr);
      }
      heap.Free(ptr);
      PinnedAfterRelease(f0, v0, heap.Parts(), heap.view, ptr, pin);
      HoldsAfterRelease(mem0, heap.mem, v0, heap.view, contents, ptr);
      blocks := blocks - {ptr};
      contents := contents - {ptr};
    }

    method DoResize(ptr: nat, bytes: nat, copySize: nat) returns (r: Grab, ret: nat)
      requires Valid() && (ptr == 0 || ptr in blocks) && ptr != pin
      requires ptr in blocks ==> Min(blocks[ptr], copySize) <= RoundedSize(bytes, heap.realPage)
      modifies this, heap
      ensures Valid() && heap.limit == old(heap.limit) && heap.overflow == old(heap.overflow)
      ensures r.Got? ==> (ret == ptr || ret !in old(blocks))
                         && blocks == (old(blocks) - {ptr})[ret := RoundedSize(bytes, heap.realPage)]
                         && contents == AfterResize(old(blocks), old(contents), ptr, ret, copySize)
      ensures ptr in old(blocks) && RoundedSize(bytes, heap.realPage) == old(blocks)[ptr] ==> r.Got? && ret == ptr
      ensures !r.Got? ==> blocks == old(blocks) && contents == old(contents)
      ensures failed == old(failed) + (if r.Got? then 0 else 1) && LostBy(old(heap.lost), heap.lost, bytes, r)
    {
      hide NoneEmpty, Agree, HugeTotal, Total, RoundedSize, Owned, Pinned, MemorySame, Holds, MainKept,
           NothingToCollect, Moved, OthersSame, Carried, AfterResize, InPlace, HugeAgain;
      ghost var v0, mem0 := heap.view, heap.mem;
      NullNotOwned(heap.Parts(), mem0, v0);
      r, ret := heap.Realloc(ptr, bytes, copySize, pin);
      HoldsAfterResize(mem0, heap.mem, v0, heap.view, contents, r, ptr, ret, RoundedSize(bytes, heap.realPage), copySize);
      if r.Got? {
        var n := heap.Size(ret);
        contents := AfterResize(blocks, contents, ptr, ret, copySize);
        blocks := (blocks - {ptr})[ret := n];
      } else {
        failed := failed + 1;
      }
    }

    method DoCollect() returns (collected: nat)
      requires Valid()
      modifies this, heap
      ensures Valid() && heap.limit == old(heap.limit) && heap.overflow == old(heap.overflow)
      ensures blocks == old(blocks) && contents == old(contents)
      ensures failed == old(failed) && heap.lost == old(heap.lost)
    {
      hide NoneEmpty, Agree, HugeTotal, Total, Owned, Pinned, MemorySame, Holds, MainKept, NothingToCollect,
           SameBlocks, SmallRuns;
      ghost var f0, v0, mem0 := heap.Parts(), heap.view, heap.mem;
      PinnedKept(f0, mem0, v0, pin);
      collected := heap.GcKeeping();
      RingNoDup(heap.Parts(), heap.mem, heap.view);
      SameOwned(f0, v0, heap.Parts(), heap.view, pin);
      HoldsSame(mem0, heap.mem, v0, contents);
    }

    method DoWrite(ptr: nat, offset: nat, value: int)
      requires Valid() && ptr in blocks && offset < blocks[ptr]
      modifies this, heap
      ensures Valid() && heap.limit == old(heap.limit) && heap.overflow == old(heap.overflow)
      ensures blocks == old(blocks) && ptr in old(contents)
      ensures contents == AfterWrite(old(contents), ptr, offset, value)
      ensures failed == old(failed) && heap.lost == old(heap.lost)
    {
      hide NoneEmpty, Agree, HugeTotal, Total, Owned, Pinned, AfterWrite;
      ghost var mem0 := heap.mem;
      heap.Store(ptr + offset, value, ptr);
      HoldsAfterWrite(heap.Parts(), mem0, heap.mem, heap.view, contents, ptr, offset, value);
      contents := AfterWrite(contents, ptr, offset, value);
    }

    /** What has been stored is read back. */
    method DoRead(ptr: nat, offset: nat) returns (x: int)
      requires Valid() && ptr in blocks && offset < blocks[ptr]
      ensures ptr in contents && (offset in contents[ptr] ==> x == contents[ptr][offset])
    {
      hide NoneEmpty, Agree, HugeTotal, Total, Owned, Pinned;
      match heap.mem(ptr + offset)
      case Data(v) => x := v;
      case Link(next) => x := next;
    }

    // ------------------------------------------------------------------- whole runs

    /** A program makes only such calls as it may. */
    predicate Legal(op: Op)
      reads this
    {
      match op
      case Release(ptr) => (ptr == 0 || ptr in blocks) && ptr != pin
      case Resize(ptr, bytes, copySize) =>
        && (ptr == 0 || ptr in blocks) && ptr != pin
        && (ptr in blocks ==> Min(blocks[ptr], copySize) <= RoundedSize(bytes, heap.realPage))
      case Write(ptr, offset, _) => ptr in blocks && offset < blocks[ptr]
      case _ => true
    }

    method Perform(op: Op)
      requires Valid() && Legal(op)
      modifies this, heap
      ensures Valid() && heap.limit == old(heap.limit) && heap.overflow == old(heap.overflow) && failed >= old(failed)
    {
      match op
      case Malloc(bytes) => var _, _ := DoMalloc(bytes);
      case Release(ptr) => DoRelease(ptr);
      case Resize(ptr, bytes, copySize) => var _, _ := DoResize(ptr, bytes, copySize);
      case Collect => var _ := DoCollect();
      case Write(ptr, offset, value) => DoWrite(ptr, offset, value);
    }

    /** In every state that a run reaches, the data structures of the heap agree, the counters are
        exact, memory stays within the limit and one chunk, and all blocks hold what was stored. */
    method Run(ops: seq<Op>)
      requires Valid()
      modifies this, heap
      ensures Valid() && heap.limit == old(heap.limit) && heap.overflow == old(heap.overflow)
      ensures failed >= old(failed) && (failed == 0 ==> heap.size == Total(heap.view.live))
    {
      for i := 0 to |ops|
        invariant Valid() && heap.limit == old(heap.limit) && heap.overflow == old(heap.overflow)
        invariant failed >= old(failed)
      {
        if Legal(ops[i]) {
          Perform(ops[i]);
        }
      }
    }
  }

  /** The bytes below offset `n`. */
  ghost function Below(bytes: map<nat, int>, n: nat): (r: map<nat, int>)
    ensures forall k :: k in r <==> k in bytes && k < n
    ensures forall k :: k in r ==> r[k] == bytes[k]
  {
    map k | k in bytes && k < n :: bytes[k]
  }

  /** The contents of all blocks after a reallocation that copies `copySize` bytes. */
  ghost function AfterResize(blocks: map<nat, nat>, contents: Contents, ptr: nat, ret: nat, copySize: nat): Contents {
    (contents - {ptr})[ret := if ptr in contents && ptr in blocks
                              then Below(contents[ptr], Min(blocks[ptr], copySize)) else map[]]
  }

  function AfterWrite(contents: Contents, ptr: nat, offset: nat, value: int): Contents
    requires ptr in contents
  {
    var bytes: map<nat, int> := contents[ptr][offset := value];
    contents[ptr := bytes]
  }

  /** zend_mm_init, a memory limit and a first block, which lies in the main chunk. */
  method Start(main: nat, realPage: Positive, limit: nat, bytes: nat) returns (h: Heap, p: nat)
    requires main > 0 && bytes <= MAX_LARGE_SIZE
    ensures fresh(h) && h.Valid() && Pinned(h.Parts(), h.view, p) && Owned(h.view) == map[p := RoundedSize(bytes, realPage)]
    ensures h.limit == Max(limit, CHUNK_SIZE) && !h.overflow && h.realSize <= h.limit + CHUNK_SIZE && h.lost == 0
  {
    hide NoneEmpty, Agree, HugeTotal, Total, RoundedSize, Owned, Pinned, MemorySame, MainKept, NothingToCollect,
         Allocated;
    h := new Heap(main, realPage);
    NothingOwned(h.view);
    h.SetLimit(limit);
    ghost var v0 := h.view;
    var r;
    r, p := h.Alloc(bytes);
    FirstOwned(v0, h.view, p, RoundedSize(bytes, realPage));
  }

  lemma HoldsNothing(mem: Memory, p: nat, n: nat)
    ensures Holds(mem, map[p := n], map[p := map[]])
  {
  }

  lemma NothingOwned(v: View)
    requires v.live == map[]
    ensures Owned(v) == map[]
  {
  }

  lemma FirstOwned(v: View, v': View, p: nat, n: nat)
    requires Owned(v) == map[] && Allocated(v, v', Got, p, n)
    ensures Owned(v') == map[p := n]
  {
    hide Owned;
  }

  lemma HoldsAfterAlloc(mem: Memory, mem': Memory, v: View, v': View, contents: Contents, r: Grab, ptr: nat, n: nat)
    requires Allocated(v, v', r, ptr, n) && MemorySame(mem, mem', v.live) && Holds(mem, Owned(v), contents)
    ensures r.Got? ==> ptr !in Owned(v) && Owned(v') == Owned(v)[ptr := n] && Holds(mem', Owned(v'), contents[ptr := map[]])
    ensures r.Got? ==> ptr in Owned(v')
    ensures !r.Got? ==> Owned(v') == Owned(v) && Holds(mem', Owned(v'), contents)
  {
    hide Owned, StillLive, MemorySame;
    forall p, k | p in contents && k in contents[p]
      ensures mem'(p + k) == mem(p + k)
    {
      OwnedLive(v, p);
      SameAt(mem, mem', v.live, p, p + k);
    }
  }

  lemma NullNotOwned(f: Fields, mem: Memory, v: View)
    requires Agree(f, mem, v)
    ensures 0 !in Owned(v)
  {
    hide Agree, IsCell;
    NullNotLive(f, mem, v);
  }

  lemma HoldsSame(mem: Memory, mem': Memory, v: View, contents: Contents)
    requires MemorySame(mem, mem', v.live) && Holds(mem, Owned(v), contents)
    ensures Holds(mem', Owned(v), contents)
  {
    hide Owned, MemorySame;
    forall p, k | p in contents && k in contents[p]
      ensures mem'(p + k) == mem(p + k)
    {
      OwnedLive(v, p);
      SameAt(mem, mem', v.live, p, p + k);
    }
  }

  lemma HoldsAfterRelease(mem: Memory, mem': Memory, v: View, v': View, contents: Contents, ptr: nat)
    requires Released(v, v', ptr) && MemorySame(mem, mem', v'.live) && Holds(mem, Owned(v), contents)
    ensures Owned(v') == Owned(v) - {ptr} && Holds(mem', Owned(v'), contents - {ptr})
  {
    hide Owned, MemorySame;
    var rest := contents - {ptr};
    forall p, k | p in rest && k in rest[p]
      ensures mem'(p + k) == mem(p + k)
    {
      assert p in Owned(v');
      OwnedLive(v', p);
      SameAt(mem, mem', v'.live, p, p + k);
    }
  }

  lemma HoldsAfterResize(mem: Memory, mem': Memory, v: View, v': View, contents: Contents, r: Grab,
                         ptr: nat, ret: nat, n: nat, copySize: nat)
    requires Holds(mem, Owned(v), contents) && (ptr in Owned(v) ==> Min(Owned(v)[ptr], copySize) <= n) && 0 !in Owned(v)
    requires r.Got? ==> Moved(v, v', ptr, ret, n) && OthersSame(mem, mem', v, ptr)
    requires r.Got? && ptr in Owned(v) ==> Carried(mem, mem', ptr, ret, Min(Owned(v)[ptr], copySize))
    requires !r.Got? ==> Owned(v') == Owned(v) && MemorySame(mem, mem', v.live)
    ensures r.Got? ==> Owned(v') == (Owned(v) - {ptr})[ret := n] && (ret == ptr || ret !in Owned(v)) && ret in Owned(v')
    ensures r.Got? ==> Holds(mem', Owned(v'), AfterResize(Owned(v), contents, ptr, ret, copySize))
    ensures !r.Got? ==> Owned(v') == Owned(v) && Holds(mem', Owned(v'), contents)
  {
    hide Owned, MemorySame, Carried, OthersSame, AfterResize, Holds;
    if r.Got? {
      HoldsMoved(mem, mem', v, Owned(v), Owned(v'), contents, ptr, ret, n, copySize);
    } else {
      HoldsSame(mem, mem', v, contents);
    }
  }

  lemma HoldsMoved(mem: Memory, mem': Memory, v: View, blocks: map<nat, nat>, blocks': map<nat, nat>, contents: Contents,
                   ptr: nat, ret: nat, n: nat, copySize: nat)
    requires blocks == Owned(v) && Holds(mem, blocks, contents) && (ptr in blocks ==> Min(blocks[ptr], copySize) <= n)
    requires blocks' == (blocks - {ptr})[ret := n] && OthersSame(mem, mem', v, ptr)
    requires ptr in blocks ==> Carried(mem, mem', ptr, ret, Min(blocks[ptr], copySize))
    ensures Holds(mem', blocks', AfterResize(blocks, contents, ptr, ret, copySize))
  {
    hide Owned, Carried, OthersSame;
    var now := AfterResize(blocks, contents, ptr, ret, copySize);
    assert now.Keys == blocks'.Keys;
    forall p, k | p in now && k in now[p]
      ensures k < blocks'[p] && mem'(p + k) == Data(now[p][k])
    {
      if p != ret {
        OtherByte(mem, mem', v, ptr, p, k);
      } else {
        CarriedByte(mem, mem', ptr, ret, Min(blocks[ptr], copySize), k);
      }
    }
  }

  lemma OtherByte(mem: Memory, mem': Memory, v: View, ptr: nat, p: nat, k: nat)
    requires OthersSame(mem, mem', v, ptr) && p in Owned(v) && p != ptr && k < Owned(v)[p]
    ensures mem'(p + k) == mem(p + k)
  {
    hide Owned;
  }

  lemma CarriedByte(mem: Memory, mem': Memory, ptr: nat, ret: nat, n: nat, k: nat)
    requires Carried(mem, mem', ptr, ret, n) && k < n
    ensures mem'(ret + k) == mem(ptr + k)
  {
    assert ptr + (ret + k - ret) == ptr + k;
  }

  lemma HoldsAfterWrite(f: Fields, mem: Memory, mem': Memory, v: View, contents: Contents,
                        ptr: nat, offset: nat, value: int)
    requires Agree(f, mem', v) && ptr in Owned(v) && offset < Owned(v)[ptr] && Holds(mem, Owned(v), contents)
    requires mem'(ptr + offset) == Data(value) && forall b: nat :: b != ptr + offset ==> mem'(b) == mem(b)
    ensures Holds(mem', Owned(v), AfterWrite(contents, ptr, offset, value))
  {
    hide Agree, Owned;
    var now := AfterWrite(contents, ptr, offset, value);
    forall p, k | p in now && k in now[p]
      ensures k < Owned(v)[p] && mem'(p + k) == Data(now[p][k])
    {
      if p != ptr {
        OtherBlock(f, mem', v, p, k, ptr, offset);
      } else {
        SameBlock(ptr, k, offset);
      }
    }
  }

  lemma OtherBlock(f: Fields, mem: Memory, v: View, p: nat, k: nat, ptr: nat, offset: nat)
    requires Agree(f, mem, v) && p in Owned(v) && ptr in Owned(v) && p != ptr && k < Owned(v)[p] && offset < Owned(v)[ptr]
    ensures p + k != ptr + offset
  {
    hide Agree, Owned;
    OwnedApart(f, mem, v, p, ptr);
  }

  lemma SameBlock(p: nat, k: nat, offset: nat)
    ensures p + k == p + offset <==> k == offset
  {
  }

  /** Blocks of the program never overlap. */
  lemma OwnedApart(f: Fields, mem: Memory, v: View, p: nat, q: nat)
    requires Agree(f, mem, v) && p in Owned(v) && q in Owned(v) && p != q
    ensures Apart(p, Owned(v)[p], q, Owned(v)[q])
  {
    hide InventoryOk, ChunksOk, RingOk, LinksOk, HugeListOk, NodesOk, Owned;
    OwnedLive(v, p);
    OwnedLive(v, q);
    LiveApart(v.world, v.free, v.huge, v.live, p, q);
  }
}
