/** The arena allocator: a chain of memory regions, with checkpoint and release. */
module Arena {

  /** ZEND_MM_ALIGNED_SIZE(sizeof(zend_arena)) on a 64-bit build. */
  const HEADER: nat := 24
  const ALIGNMENT: nat := 8

  /** A region with the header of the arena at `base`. */
  datatype Region = Region(base: nat, ptr: nat, end: nat)

  datatype Block = Block(addr: nat, size: nat)

  /** ZEND_MM_ALIGNED_SIZE */
  function Aligned(size: nat): (r: nat)
    ensures r % ALIGNMENT == 0 && size <= r < size + ALIGNMENT
  {
    (size + (ALIGNMENT - 1)) / ALIGNMENT * ALIGNMENT
  }

  predicate RegionOk(g: Region) {
    g.base % ALIGNMENT == 0 && g.ptr % ALIGNMENT == 0 && g.base + HEADER <= g.ptr <= g.end
  }

  predicate Apart(a: Region, b: Region) {
    a.end <= b.base || b.end <= a.base
  }

  ghost predicate ChainOk(chain: seq<Region>) {
    && chain != []
    && (forall i :: 0 <= i < |chain| ==> RegionOk(chain[i]))
    && (forall i, j :: 0 <= i < j < |chain| ==> Apart(chain[i], chain[j]))
  }

  /** The block lies in the used part of a region, behind its header. */
  predicate Inside(b: Block, g: Region) {
    b.addr % ALIGNMENT == 0 && g.base + HEADER <= b.addr && b.addr + b.size <= g.ptr
  }

  predicate Housed(b: Block, chain: seq<Region>) {
    exists i :: 0 <= i < |chain| && Inside(b, chain[i])
  }

  ghost predicate BlocksOk(chain: seq<Region>, blocks: seq<Block>) {
    && (forall k :: 0 <= k < |blocks| ==> Housed(blocks[k], chain))
    && (forall k, l :: 0 <= k < l < |blocks| ==> Disjoint(blocks[k], blocks[l]))
  }

  predicate Disjoint(a: Block, b: Block) {
    a.addr + a.size <= b.addr || b.addr + b.size <= a.addr
  }

  /** `chain` is what allocations have made of `before`: newer regions in front, and the region that
      was current may have been used further. */
  ghost predicate Extends(before: seq<Region>, chain: seq<Region>, newer: nat) {
    && before != [] && newer < |chain| && chain[newer + 1..] == before[1..]
    && chain[newer].base == before[0].base && chain[newer].end == before[0].end && before[0].ptr <= chain[newer].ptr
  }

  /** A place for a new region that touches no other one; it may be adjacent. */
  predicate PlaceFree(chain: seq<Region>, base: nat, size: nat) {
    base % ALIGNMENT == 0 && forall i :: 0 <= i < |chain| ==> base + size <= chain[i].base || chain[i].end <= base
  }

  lemma {:induction false} PlaceExists(chain: seq<Region>, size: nat) returns (top: nat)
    ensures PlaceFree(chain, top, size) && forall i :: 0 <= i < |chain| ==> chain[i].end <= top
  {
    top := 0;
    if chain != [] {
      top := PlaceExists(chain[1..], size);
      assert forall i :: 0 < i < |chain| ==> chain[i] == chain[1..][i - 1];
      top := top + Aligned(chain[0].end);
    }
  }

  class Chain {
    /** The current arena and those before it. */
    var chain: seq<Region>
    /** The blocks handed out and not released, in order. */
    ghost var blocks: seq<Block>

    ghost predicate Valid()
      reads this
    {
      ChainOk(chain) && BlocksOk(chain, blocks)
    }

    /** zend_arena_create; emalloc has returned a block at `base`. */
    constructor (base: nat, size: nat)
      requires base % ALIGNMENT == 0 && size >= HEADER
      ensures Valid() && chain == [Region(base, base + HEADER, base + size)] && blocks == []
    {
      chain := [Region(base, base + HEADER, base + size)];
      blocks := [];
    }

    /** zend_arena_alloc */
    method Alloc(size: nat) returns (ptr: nat)
      requires Valid()
      modifies this
      ensures Valid() && blocks == old(blocks) + [Block(ptr, Aligned(size))] && ptr % ALIGNMENT == 0
      ensures |old(chain)| > 0
      ensures var n, arena := Aligned(size), old(chain)[0];
        if arena.ptr + n <= arena.end then ptr == arena.ptr && chain == old(chain)[0 := arena.(ptr := ptr + n)]
        else
          && |chain| == |old(chain)| + 1 && chain[1..] == old(chain) && ptr == chain[0].base + HEADER
          && chain[0].ptr == ptr + n && chain[0].end - chain[0].base >= arena.end - arena.base
          && (chain[0].end == chain[0].ptr || chain[0].end - chain[0].base == arena.end - arena.base)
      ensures forall before, newer: nat :: Extends(before, old(chain), newer) ==>
        exists n: nat :: Extends(before, chain, n)
    {
      hide ChainOk, BlocksOk, Extends, PlaceFree, Aligned;
      CurrentOk(chain);
      var arena := chain[0];
      var n := Aligned(size);
      ptr := arena.ptr;
      if n <= arena.end - ptr {
        UseMore(chain, blocks, n);
        chain := chain[0 := arena.(ptr := ptr + n)];
      } else {
        var arenaSize := if n + HEADER > arena.end - arena.base then n + HEADER else arena.end - arena.base;
        ghost var top := PlaceExists(chain, arenaSize);
        var base: nat :| PlaceFree(chain, base, arenaSize);
        AddRegion(chain, blocks, base, arenaSize, n);
        ptr := base + HEADER;
        chain := [Region(base, base + HEADER + n, base + arenaSize)] + chain;
      }
      blocks := blocks + [Block(ptr, n)];
    }

    /** zend_arena_checkpoint */
    method Checkpoint() returns (checkpoint: nat)
      requires Valid()
      ensures checkpoint == chain[0].ptr && Extends(chain, chain, 0)
    {
      checkpoint := chain[0].ptr;
    }

    /** zend_arena_release of a checkpoint taken when the chain was `before` with `kept` blocks, with
        only allocations since. Exactly the newer arenas are freed. */
    method Release(checkpoint: nat, ghost before: seq<Region>, ghost kept: nat, ghost newer: nat) returns (freed: seq<Region>)
      requires Valid() && Extends(before, chain, newer) && checkpoint == before[0].ptr && ChainOk(before)
      requires kept <= |blocks| && BlocksOk(before, blocks[..kept])
      modifies this
      ensures Valid() && chain == before && blocks == old(blocks)[..kept]
      ensures freed == old(chain)[..newer]
    {
      freed := [];
      ghost var k := 0;
      while checkpoint > chain[0].end || checkpoint <= chain[0].base
        invariant k <= newer && chain == old(chain)[k..] && freed == old(chain)[..k] && blocks == old(blocks)
        decreases newer - k
      {
        StopsAtCheckpoint(old(chain), before, newer, k);
        freed := freed + [chain[0]];
        chain := chain[1..];
        k := k + 1;
      }
      StopsAtCheckpoint(old(chain), before, newer, k);
      chain := chain[0 := chain[0].(ptr := checkpoint)];
      blocks := blocks[..kept];
      assert before == [before[0]] + before[1..];
    }
  }

  /** The loop of zend_arena_release passes the newer regions and stops at the one that was current. */
  lemma StopsAtCheckpoint(chain: seq<Region>, before: seq<Region>, newer: nat, k: nat)
    requires ChainOk(chain) && ChainOk(before) && Extends(before, chain, newer) && k <= newer
    ensures (before[0].ptr > chain[k].end || before[0].ptr <= chain[k].base) <==> k < newer
    ensures k == newer ==> chain[k..][0 := chain[k].(ptr := before[0].ptr)] == before
  {
    assert RegionOk(before[0]);
    if k < newer {
      assert Apart(chain[k], chain[newer]);
    } else {
      assert chain[k..] == [chain[k]] + chain[k + 1..];
      assert before == [before[0]] + before[1..];
    }
  }

  lemma CurrentOk(chain: seq<Region>)
    requires ChainOk(chain)
    ensures chain != [] && RegionOk(chain[0])
  {
  }

  /** The current region has room. */
  lemma UseMore(chain: seq<Region>, blocks: seq<Block>, n: nat)
    requires ChainOk(chain) && BlocksOk(chain, blocks) && n % ALIGNMENT == 0 && chain[0].ptr + n <= chain[0].end
    ensures var chain' := chain[0 := chain[0].(ptr := chain[0].ptr + n)];
      && ChainOk(chain') && BlocksOk(chain', blocks + [Block(chain[0].ptr, n)])
      && forall before, newer: nat :: Extends(before, chain, newer) ==> Extends(before, chain', newer)
  {
    assert chain != [];
    hide ChainOk, BlocksOk, Extends;
    var b := Block(chain[0].ptr, n);
    var chain' := chain[0 := chain[0].(ptr := chain[0].ptr + n)];
    UsedChain(chain, n);
    StillInside(chain, chain', blocks, 0);
    NewBlockApart(chain, blocks, b);
    assert Inside(b, chain'[0]);
    MoreBlocks(chain', blocks, b);
    forall before, newer: nat | Extends(before, chain, newer)
      ensures Extends(before, chain', newer)
    {
      UsedExtends(before, chain, newer, n);
    }
  }

  lemma UsedChain(chain: seq<Region>, n: nat)
    requires ChainOk(chain) && n % ALIGNMENT == 0 && chain[0].ptr + n <= chain[0].end
    ensures ChainOk(chain[0 := chain[0].(ptr := chain[0].ptr + n)]) && RegionOk(chain[0])
  {
    var chain' := chain[0 := chain[0].(ptr := chain[0].ptr + n)];
    forall i, j | 0 <= i < j < |chain|
      ensures Apart(chain'[i], chain'[j])
    {
      assert Apart(chain[i], chain[j]);
    }
  }

  lemma UsedExtends(before: seq<Region>, chain: seq<Region>, newer: nat, n: nat)
    requires Extends(before, chain, newer)
    ensures Extends(before, chain[0 := chain[0].(ptr := chain[0].ptr + n)], newer)
  {
    var chain' := chain[0 := chain[0].(ptr := chain[0].ptr + n)];
    assert chain'[newer + 1..] == chain[newer + 1..];
  }

  lemma MoreBlocks(chain: seq<Region>, blocks: seq<Block>, b: Block)
    requires BlocksOk(chain, blocks) && Housed(b, chain) && forall k :: 0 <= k < |blocks| ==> Disjoint(blocks[k], b)
    ensures BlocksOk(chain, blocks + [b])
  {
    hide Housed, Disjoint;
  }

  /** Blocks stay inside when regions are used further or added in front. */
  lemma StillInside(chain: seq<Region>, chain': seq<Region>, blocks: seq<Block>, shift: nat)
    requires BlocksOk(chain, blocks) && |chain'| == |chain| + shift
    requires forall i :: 0 <= i < |chain| ==> chain'[i + shift].base == chain[i].base && chain[i].ptr <= chain'[i + shift].ptr
    ensures BlocksOk(chain', blocks)
  {
    forall k | 0 <= k < |blocks|
      ensures Housed(blocks[k], chain')
    {
      assert Housed(blocks[k], chain);
      var i :| 0 <= i < |chain| && Inside(blocks[k], chain[i]);
      var j := i + shift;
      assert Inside(blocks[k], chain'[j]);
    }
  }

  /** A block at the free end of the current region touches no other block. */
  lemma NewBlockApart(chain: seq<Region>, blocks: seq<Block>, b: Block)
    requires ChainOk(chain) && BlocksOk(chain, blocks) && b.addr == chain[0].ptr && b.addr + b.size <= chain[0].end
    ensures forall k :: 0 <= k < |blocks| ==> Disjoint(blocks[k], b)
  {
    assert RegionOk(chain[0]);
    forall k | 0 <= k < |blocks|
      ensures Disjoint(blocks[k], b)
    {
      assert Housed(blocks[k], chain);
      var i :| 0 <= i < |chain| && Inside(blocks[k], chain[i]);
      assert RegionOk(chain[i]);
      if i > 0 {
        assert Apart(chain[0], chain[i]);
      }
    }
  }

  /** A new region in front. */
  lemma AddRegion(chain: seq<Region>, blocks: seq<Block>, base: nat, size: nat, n: nat)
    requires ChainOk(chain) && BlocksOk(chain, blocks) && PlaceFree(chain, base, size)
    requires n % ALIGNMENT == 0 && n + HEADER <= size
    ensures (base + HEADER) % ALIGNMENT == 0
    ensures var chain' := [Region(base, base + HEADER + n, base + size)] + chain;
      && ChainOk(chain') && BlocksOk(chain', blocks + [Block(base + HEADER, n)])
      && forall before, newer: nat :: Extends(before, chain, newer) ==> Extends(before, chain', newer + 1)
  {
    hide BlocksOk, Extends;
    var g := Region(base, base + HEADER + n, base + size);
    var b := Block(base + HEADER, n);
    var chain' := [g] + chain;
    assert RegionOk(g);
    StillInside(chain, chain', blocks, 1);
    assert Inside(b, chain'[0]);
    PlacedApart(chain, blocks, base, size, b);
    MoreBlocks(chain', blocks, b);
    forall before, newer: nat | Extends(before, chain, newer)
      ensures Extends(before, chain', newer + 1)
    {
      AddedExtends(before, chain, newer, g);
    }
  }

  /** A block in a new region touches no other block. */
  lemma PlacedApart(chain: seq<Region>, blocks: seq<Block>, base: nat, size: nat, b: Block)
    requires ChainOk(chain) && BlocksOk(chain, blocks) && PlaceFree(chain, base, size)
    requires base <= b.addr && b.addr + b.size <= base + size
    ensures forall k :: 0 <= k < |blocks| ==> Disjoint(blocks[k], b)
  {
    forall k | 0 <= k < |blocks|
      ensures Disjoint(blocks[k], b)
    {
      assert Housed(blocks[k], chain);
      var i :| 0 <= i < |chain| && Inside(blocks[k], chain[i]);
      assert RegionOk(chain[i]);
    }
  }

  lemma AddedExtends(before: seq<Region>, chain: seq<Region>, newer: nat, g: Region)
    requires Extends(before, chain, newer)
    ensures Extends(before, [g] + chain, newer + 1)
  {
    assert ([g] + chain)[newer + 2..] == chain[newer + 1..];
  }

  /** A checkpoint, any number of allocations and a release leave the arena as it was. */
  method Scope(a: Chain, sizes: seq<nat>)
    requires a.Valid()
    modifies a
    ensures a.Valid() && a.chain == old(a.chain) && a.blocks == old(a.blocks)
  {
    var checkpoint := a.Checkpoint();
    ghost var before, kept := a.chain, |a.blocks|;
    ghost var newer: nat := 0;
    for i := 0 to |sizes|
      invariant a.Valid() && Extends(before, a.chain, newer)
      invariant kept <= |a.blocks| && a.blocks[..kept] == old(a.blocks)
    {
      var _ := a.Alloc(sizes[i]);
      newer :| Extends(before, a.chain, newer);
    }
    var _ := a.Release(checkpoint, before, kept, newer);
  }
}
