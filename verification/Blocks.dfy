/** Blocks and element slots of the heap: where they lie, and that no two of them overlap. */
module Blocks {
  import opened Bins
  import opened Chunks

  /** Runs of every chunk, by chunk number (the chunk's address divided by the chunk size). */
  type World = map<nat, Runs>

  /** One element of a small run. */
  datatype Slot = Slot(chunk: nat, page: nat, bin: nat, index: nat)

  datatype Block =
    | SmallBlock(slot: Slot)
    | LargeBlock(chunk: nat, page: nat)
    | HugeBlock(ptr: nat)

  ghost predicate WorldOk(w: World) {
    forall c :: c in w ==> c > 0 && RunsOk(w[c])
  }

  function WithRun(w: World, c: nat, p: nat, r: Run): World
    requires c in w
  {
    var rs: Runs := w[c][p := r];
    w[c := rs]
  }

  function WithoutRun(w: World, c: nat, p: nat): World
    requires c in w
  {
    var rs: Runs := w[c] - {p};
    w[c := rs]
  }

  predicate SlotOk(w: World, sl: Slot) {
    && sl.chunk in w && sl.page in w[sl.chunk]
    && w[sl.chunk][sl.page] == Small(sl.bin) && sl.bin < BINS
    && sl.index < BinElements(sl.bin)
  }

  function PageAddr(chunk: nat, page: nat): nat {
    chunk * CHUNK_SIZE + page * PAGE_SIZE
  }

  /** Distance of element `k` from the start of its run. */
  function Offset(b: nat, k: nat): nat {
    if b < BINS then k * BinSize(b) else 0
  }

  function SlotAddr(sl: Slot): nat {
    PageAddr(sl.chunk, sl.page) + Offset(sl.bin, sl.index)
  }

  /** The block is described by the runs and the huge list; a small one may be free or in use. */
  predicate BlockOk(w: World, huge: map<nat, nat>, b: Block) {
    match b
    case SmallBlock(sl) => SlotOk(w, sl)
    case LargeBlock(c, p) => c in w && p in w[c] && w[c][p].Large?
    case HugeBlock(ptr) => ptr in huge
  }

  function BlockStart(b: Block): nat {
    match b
    case SmallBlock(sl) => SlotAddr(sl)
    case LargeBlock(c, p) => PageAddr(c, p)
    case HugeBlock(ptr) => ptr
  }

  function BlockSize(w: World, huge: map<nat, nat>, b: Block): nat
    requires BlockOk(w, huge, b)
  {
    match b
    case SmallBlock(sl) => BinSize(sl.bin)
    case LargeBlock(c, p) => w[c][p].pages * PAGE_SIZE
    case HugeBlock(ptr) => huge[ptr]
  }

  predicate Apart(a: nat, n: nat, b: nat, m: nat) {
    a + n <= b || b + m <= a
  }

  /** Huge blocks are aligned and larger than any large one, and lie apart from each other and from the chunks. */
  ghost predicate HugeOk(w: World, huge: map<nat, nat>) {
    && (forall p :: p in huge ==> p > 0 && p % CHUNK_SIZE == 0 && huge[p] > MAX_LARGE_SIZE)
    && (forall p, c :: p in huge && c in w ==> Apart(p, huge[p], c * CHUNK_SIZE, CHUNK_SIZE))
    && (forall p, q :: p in huge && q in huge && p != q ==> Apart(p, huge[p], q, huge[q]))
  }

  // ------------------------------------------------------------------- geometry

  lemma MulMono(a: nat, b: nat, n: nat)
    requires a <= b
    ensures a * n <= b * n
  {
  }

  /** An element lies inside the pages of its run. */
  lemma SlotInRun(b: nat, k: nat)
    requires b < BINS && k < BinElements(b)
    ensures Offset(b, k) + BinSize(b) <= BinPages(b) * PAGE_SIZE
  {
    hide BinSize, BinElements, BinPages;
    BinTable(b);
    MulMono(k + 1, BinElements(b), BinSize(b));
    assert (k + 1) * BinSize(b) == k * BinSize(b) + BinSize(b);
    assert BinElements(b) * BinSize(b) == BinSize(b) * BinElements(b);
  }

  /** Elements of one run are apart. */
  lemma ElementsApart(b: nat, j: nat, k: nat)
    requires b < BINS && j < k
    ensures Offset(b, j) + BinSize(b) <= Offset(b, k)
  {
    hide BinSize;
    MulMono(j + 1, k, BinSize(b));
    assert (j + 1) * BinSize(b) == j * BinSize(b) + BinSize(b);
  }

  function BlockChunk(b: Block): nat
    requires !b.HugeBlock?
  {
    match b
    case SmallBlock(sl) => sl.chunk
    case LargeBlock(c, p) => c
  }

  function BlockPage(b: Block): nat
    requires !b.HugeBlock?
  {
    match b
    case SmallBlock(sl) => sl.page
    case LargeBlock(c, p) => p
  }

  /** A small or large block lies inside the pages of its run, which skip the header page. */
  lemma BlockInRun(w: World, huge: map<nat, nat>, b: Block)
    requires WorldOk(w) && BlockOk(w, huge, b) && !b.HugeBlock?
    ensures var c, s := BlockChunk(b), BlockPage(b);
      && c in w && s in w[c] && 1 <= s && s + Len(w[c][s]) <= PAGES
      && PageAddr(c, s) <= BlockStart(b)
      && BlockStart(b) + BlockSize(w, huge, b) <= PageAddr(c, s + Len(w[c][s]))
  {
    hide BinSize, BinElements, BinPages, Offset;
    var c, s := BlockChunk(b), BlockPage(b);
    assert RunsOk(w[c]);
    match b {
      case SmallBlock(sl) =>
        assert Len(w[c][s]) == BinPages(sl.bin);
        SlotInRun(sl.bin, sl.index);
      case LargeBlock(_, _) =>
    }
  }

  /** Runs of one world never share a page. */
  lemma RunsApart(w: World, c: nat, s: nat, d: nat, t: nat)
    requires WorldOk(w) && c in w && d in w && s in w[c] && t in w[d] && (c != d || s != t)
    ensures PageAddr(c, s + Len(w[c][s])) <= PageAddr(d, t) || PageAddr(d, t + Len(w[d][t])) <= PageAddr(c, s)
  {
    hide Len;
    assert RunsOk(w[c]) && RunsOk(w[d]);
    if c < d {
      assert c + 1 <= d;
    } else if d < c {
      assert d + 1 <= c;
    } else if s < t {
      assert s + Len(w[c][s]) <= t;
    } else {
      assert t + Len(w[c][t]) <= s;
    }
  }

  lemma BlocksApart(w: World, huge: map<nat, nat>, a: Block, b: Block)
    requires WorldOk(w) && HugeOk(w, huge) && BlockOk(w, huge, a) && BlockOk(w, huge, b) && a != b
    ensures Apart(BlockStart(a), BlockSize(w, huge, a), BlockStart(b), BlockSize(w, huge, b))
  {
    hide Len, BinElements, PageAddr;
    if a.HugeBlock? && b.HugeBlock? {
    } else if a.HugeBlock? {
      HugeApart(w, huge, a.ptr, b);
    } else if b.HugeBlock? {
      HugeApart(w, huge, b.ptr, a);
    } else {
      hide BlockStart, BlockSize, HugeOk;
      BlockInRun(w, huge, a);
      BlockInRun(w, huge, b);
      if BlockChunk(a) != BlockChunk(b) || BlockPage(a) != BlockPage(b) {
        RunsApart(w, BlockChunk(a), BlockPage(a), BlockChunk(b), BlockPage(b));
      } else {
        SameRunApart(w, huge, a, b);
      }
    }
  }

  lemma HugeApart(w: World, huge: map<nat, nat>, p: nat, b: Block)
    requires WorldOk(w) && HugeOk(w, huge) && p in huge && BlockOk(w, huge, b) && !b.HugeBlock?
    ensures Apart(p, huge[p], BlockStart(b), BlockSize(w, huge, b))
  {
    hide Len, BlockStart, BlockSize, WorldOk, BlockOk;
    BlockInRun(w, huge, b);
    assert Apart(p, huge[p], BlockChunk(b) * CHUNK_SIZE, CHUNK_SIZE);
  }

  lemma SameRunApart(w: World, huge: map<nat, nat>, a: Block, b: Block)
    requires BlockOk(w, huge, a) && BlockOk(w, huge, b) && a != b && !a.HugeBlock? && !b.HugeBlock?
    requires BlockChunk(a) == BlockChunk(b) && BlockPage(a) == BlockPage(b)
    ensures Apart(BlockStart(a), BlockSize(w, huge, a), BlockStart(b), BlockSize(w, huge, b))
  {
    hide BinSize, BinElements, Offset;
    var j, k := a.slot.index, b.slot.index;
    if j < k {
      ElementsApart(a.slot.bin, j, k);
    } else {
      ElementsApart(a.slot.bin, k, j);
    }
  }
}
