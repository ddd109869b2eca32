/** One chunk of 512 pages: its header, the runs it holds and the agreement between them. */
module Chunks {
  import opened Words
  import opened Bitset
  import opened BestFit
  import opened Bins
  import opened PageInfo

  /** The header fields that describe the pages of a chunk. */
  datatype Chunk = Chunk(freePages: nat, freeTail: nat, num: nat, freeMap: seq<Word>, info: seq<nat>)

  /** A run of pages in use: one large block, or the elements of one bin. */
  datatype Run = Large(pages: nat) | Small(bin: nat)

  /** Runs by their first page. */
  type Runs = map<nat, Run>

  predicate RunValid(r: Run) {
    match r
    case Large(n) => 1 <= n
    case Small(b) => b < BINS
  }

  function Len(r: Run): nat
    requires RunValid(r)
  {
    match r
    case Large(n) => n
    case Small(b) => BinPages(b)
  }

  // ----------------------------------------------------------- the chunk invariant

  ghost predicate RunsOk(rs: Runs) {
    && (forall s :: s in rs ==>
          RunValid(rs[s]) && 1 <= Len(rs[s]) && FIRST_PAGE <= s && s + Len(rs[s]) <= PAGES)
    && (forall s, t :: s in rs && t in rs && s < t ==> s + Len(rs[s]) <= t)
  }

  ghost predicate Covered(rs: Runs, p: nat)
    requires RunsOk(rs)
  {
    exists s :: s in rs && s <= p < s + Len(rs[s])
  }

  /** The set bits are the header page and the pages of the runs. */
  ghost predicate BitsOk(bits: seq<Word>, rs: Runs)
    requires RunsOk(rs)
  {
    && WORD_BITS * |bits| == PAGES
    && (forall p: nat :: p < PAGES ==> (Used(bits, p) <==> p == 0 || Covered(rs, p)))
  }

  ghost predicate StartsBelow(rs: Runs, tail: nat) {
    forall s :: s in rs ==> s < tail
  }

  function Counter(ctr: map<nat, nat>, s: nat): nat {
    if s in ctr then ctr[s] else 0
  }

  /** `info` describes every run at its first page, and every other page of a small run. */
  ghost predicate RunInfoOk(info: seq<nat>, s: nat, r: Run, n: nat)
    requires |info| == PAGES && RunValid(r) && s + Len(r) <= PAGES && 1 <= Len(r)
  {
    match r
    case Large(k) => info[s] == Lrun(k)
    case Small(b) => info[s] == SrunEx(b, n)
                     && (forall p :: s < p < s + BinPages(b) ==> info[p] == Nrun(b, p - s))
  }

  ghost predicate InfoOk(info: seq<nat>, rs: Runs, ctr: map<nat, nat>)
    requires RunsOk(rs)
  {
    && |info| == PAGES
    && info[0] == Lrun(FIRST_PAGE)
    && (forall s :: s in rs ==> RunInfoOk(info, s, rs[s], Counter(ctr, s)))
  }

  /** Number of clear bits among the first `k`. */
  function CountFree(bits: seq<Word>, k: nat): nat
    requires k <= WORD_BITS * |bits|
  {
    if k == 0 then 0 else CountFree(bits, k - 1) + (if Used(bits, k - 1) then 0 else 1)
  }

  /** The header agrees with the runs; small runs carry the free counters `ctr`. */
  ghost predicate ChunkOkWith(c: Chunk, rs: Runs, ctr: map<nat, nat>) {
    && RunsOk(rs)
    && BitsOk(c.freeMap, rs)
    && StartsBelow(rs, c.freeTail) && c.freeTail <= PAGES
    && InfoOk(c.info, rs, ctr)
    && c.freePages == CountFree(c.freeMap, PAGES)
  }

  ghost predicate ChunkOk(c: Chunk, rs: Runs) {
    ChunkOkWith(c, rs, map[])
  }

  // ------------------------------------------------------------ counting free pages

  function Overlap(start: nat, len: nat, k: nat): nat {
    if k <= start then 0 else if k >= start + len then len else k - start
  }

  lemma {:induction false} CountWith(bits: seq<Word>, bits': seq<Word>, start: nat, len: nat, k: nat)
    requires |bits| == |bits'| && k <= WORD_BITS * |bits|
    requires forall p: nat :: p < k ==> (Used(bits', p) <==> Used(bits, p) || start <= p < start + len)
    requires forall p: nat :: p < k && start <= p < start + len ==> !Used(bits, p)
    ensures CountFree(bits, k) == CountFree(bits', k) + Overlap(start, len, k)
  {
    hide Used;
    if k > 0 {
      CountWith(bits, bits', start, len, k - 1);
    }
  }

  lemma {:induction false} CountAtLeast(bits: seq<Word>, start: nat, len: nat, k: nat)
    requires k <= WORD_BITS * |bits|
    requires forall p: nat :: p < k && start <= p < start + len ==> !Used(bits, p)
    ensures CountFree(bits, k) >= Overlap(start, len, k)
  {
    hide Used;
    if k > 0 {
      CountAtLeast(bits, start, len, k - 1);
    }
  }

  /** With too few free pages there is no run to find, so skipping the search loses nothing. */
  lemma TooFewFree(c: Chunk, rs: Runs, ctr: map<nat, nat>, count: nat)
    requires ChunkOkWith(c, rs, ctr) && c.freePages < count
    ensures forall s: nat, e: nat :: !Fits(c.freeMap, count, s, e)
  {
    hide Used;
    forall s: nat, e: nat | Fits(c.freeMap, count, s, e)
      ensures false
    {
      CountAtLeast(c.freeMap, s, e - s, PAGES);
    }
  }

  lemma {:induction false} CountBound(bits: seq<Word>, k: nat)
    requires k <= WORD_BITS * |bits|
    ensures CountFree(bits, k) <= k
  {
    hide Used;
    if k > 0 {
      CountBound(bits, k - 1);
    }
  }

  /** 511 free pages mean that no run is left: this is what lets a chunk be recycled. */
  lemma {:induction false} CountFull(bits: seq<Word>, k: nat, p: nat)
    requires k <= WORD_BITS * |bits| && p < k && Used(bits, p)
    ensures CountFree(bits, k) < k
  {
    hide Used;
    CountBound(bits, k - 1);
    if p < k - 1 {
      CountFull(bits, k - 1, p);
    }
  }

  // ------------------------------------------------------------------ small facts

  lemma RunCovers(rs: Runs, s: nat, p: nat)
    requires RunsOk(rs) && s in rs && s <= p < s + Len(rs[s])
    ensures Covered(rs, p)
  {
  }

  lemma LenPositive(r: Run)
    requires RunValid(r)
    ensures Len(r) >= 1
  {
    if r.Small? {
      BinTable(r.bin);
    }
  }

  // --------------------------------------------------------- adding, removing a run

  /** Adding a run over free pages. */
  lemma AddRun(rs: Runs, page: nat, r: Run)
    requires RunsOk(rs) && RunValid(r) && FIRST_PAGE <= page && page + Len(r) <= PAGES
    requires forall p: nat :: page <= p < page + Len(r) ==> !Covered(rs, p)
    ensures RunsOk(rs[page := r])
    ensures forall p: nat :: Covered(rs[page := r], p) <==> Covered(rs, p) || page <= p < page + Len(r)
  {
    hide Len;
    LenPositive(r);
    var rs' := rs[page := r];
    assert !Covered(rs, page);
    forall s | s in rs
      ensures s < page ==> s + Len(rs[s]) <= page
      ensures page < s ==> page + Len(r) <= s
    {
      RunCovers(rs, s, s);
    }
    assert RunsOk(rs');
    forall p: nat
      ensures Covered(rs', p) <==> Covered(rs, p) || page <= p < page + Len(r)
    {
      if Covered(rs, p) {
        var s :| s in rs && s <= p < s + Len(rs[s]);
        RunCovers(rs', s, p);
      }
      if page <= p < page + Len(r) {
        RunCovers(rs', page, p);
      }
    }
  }

  /** Removing a run uncovers exactly its pages. */
  lemma RemoveRun(rs: Runs, page: nat)
    requires RunsOk(rs) && page in rs
    ensures RunsOk(rs - {page})
    ensures forall p: nat :: Covered(rs - {page}, p)
                        <==> Covered(rs, p) && !(page <= p < page + Len(rs[page]))
  {
    hide Len;
    var rs' := rs - {page};
    assert RunsOk(rs');
    forall p: nat
      ensures Covered(rs', p) <==> Covered(rs, p) && !(page <= p < page + Len(rs[page]))
    {
      if Covered(rs', p) {
        var s :| s in rs' && s <= p < s + Len(rs'[s]);
        RunCovers(rs, s, p);
      }
      if Covered(rs, p) && !(page <= p < page + Len(rs[page])) {
        var s :| s in rs && s <= p < s + Len(rs[s]);
        RunCovers(rs', s, p);
      }
    }
  }

  /** Setting the bits of pages that a new set of runs covers in addition. */
  lemma BitsAdded(bits: seq<Word>, rs: Runs, rs': Runs, page: nat, n: nat)
    requires RunsOk(rs) && RunsOk(rs') && BitsOk(bits, rs) && 1 <= page && page + n <= PAGES
    requires forall p: nat :: page <= p < page + n ==> !Covered(rs, p)
    requires forall p: nat :: Covered(rs', p) <==> Covered(rs, p) || page <= p < page + n
    ensures BitsOk(WithRange(bits, page, n), rs')
    ensures CountFree(bits, PAGES) == CountFree(WithRange(bits, page, n), PAGES) + n
  {
    hide Used, Covered, WithRange, RunsOk;
    WithRangeIsUnion(bits, page, n);
    CountWith(bits, WithRange(bits, page, n), page, n, PAGES);
  }

  /** Clearing the bits of pages that a new set of runs no longer covers. */
  lemma BitsRemoved(bits: seq<Word>, rs: Runs, rs': Runs, page: nat, n: nat)
    requires RunsOk(rs) && RunsOk(rs') && BitsOk(bits, rs) && 1 <= page && page + n <= PAGES
    requires forall p: nat :: page <= p < page + n ==> Covered(rs, p)
    requires forall p: nat :: Covered(rs', p) <==> Covered(rs, p) && !(page <= p < page + n)
    ensures BitsOk(WithoutRange(bits, page, n), rs')
    ensures CountFree(WithoutRange(bits, page, n), PAGES) == CountFree(bits, PAGES) + n
  {
    hide Used, Covered, WithoutRange, RunsOk;
    WithoutRangeIsDifference(bits, page, n);
    CountWith(WithoutRange(bits, page, n), bits, page, n, PAGES);
  }

  // ------------------------------------------------------------- header operations

  /** Mark a run of free pages as one large run (the `found` part of zend_mm_alloc_pages). */
  function MarkRun(c: Chunk, page: nat, count: nat): Chunk
    requires page + count <= WORD_BITS * |c.freeMap| && page < |c.info| && count <= c.freePages
  {
    Chunk(c.freePages - count,
          if page == c.freeTail then page + count else c.freeTail,
          c.num,
          WithRange(c.freeMap, page, count),
          c.info[page := Lrun(count)])
  }

  lemma MarkRunOk(c: Chunk, rs: Runs, ctr: map<nat, nat>, page: nat, count: nat)
    requires ChunkOkWith(c, rs, ctr)
    requires 1 <= page <= c.freeTail && count >= 1 && page + count <= PAGES
    requires FreeRange(c.freeMap, page, count)
    ensures count <= c.freePages && page !in rs
    ensures ChunkOkWith(MarkRun(c, page, count), rs[page := Large(count)], ctr)
  {
    hide Used, Covered, WithRange, RunsOk, CountFree, FreeRange;
    var r := Large(count);
    FreePagesUncovered(c.freeMap, rs, page, count);
    AddRun(rs, page, r);
    var rs' := rs[page := r];
    forall p: nat
      ensures Covered(rs', p) <==> Covered(rs, p) || page <= p < page + count
    {
      assert Covered(rs', p) <==> Covered(rs, p) || page <= p < page + Len(r);
    }
    BitsAdded(c.freeMap, rs, rs', page, count);
    PageNotStart(rs, page);
    InfoSet(c.info, rs, ctr, page, r, Lrun(count));
  }

  lemma FreePagesUncovered(bits: seq<Word>, rs: Runs, page: nat, count: nat)
    requires RunsOk(rs) && BitsOk(bits, rs) && page + count <= PAGES
    requires FreeRange(bits, page, count)
    ensures forall p: nat :: page <= p < page + count ==> !Covered(rs, p)
  {
    hide Covered, RunsOk;
    forall p: nat | page <= p < page + count
      ensures !Covered(rs, p)
    {
      assert !Used(bits, p);
    }
  }

  lemma PageNotStart(rs: Runs, page: nat)
    requires RunsOk(rs) && !Covered(rs, page)
    ensures page !in rs
  {
    assert page in rs ==> Covered(rs, page);
  }

  /** Writing the description of a new large run disturbs no other run. */
  lemma InfoSet(info: seq<nat>, rs: Runs, ctr: map<nat, nat>, page: nat, r: Run, word: nat)
    requires RunsOk(rs) && InfoOk(info, rs, ctr) && 1 <= page < PAGES && r.Large?
    requires RunsOk(rs[page := r]) && word == Lrun(r.pages)
    ensures InfoOk(info[page := word], rs[page := r], ctr)
  {
    var rs' := rs[page := r];
    assert page in rs' && page + Len(rs'[page]) <= PAGES;
    forall s | s in rs'
      ensures RunInfoOk(info[page := word], s, rs'[s], Counter(ctr, s))
    {
      if s != page {
        assert s in rs && RunInfoOk(info, s, rs[s], Counter(ctr, s));
        assert s < page ==> s + Len(rs'[s]) <= page;
      }
    }
  }

  /** Free a run (zend_mm_free_pages_ex without the deletion of the chunk). */
  function FreeRun(c: Chunk, page: nat, count: nat): Chunk
    requires page + count <= WORD_BITS * |c.freeMap| && page < |c.info|
  {
    Chunk(c.freePages + count,
          if c.freeTail == page + count then page else c.freeTail,
          c.num,
          WithoutRange(c.freeMap, page, count),
          c.info[page := 0])
  }

  lemma FreeRunOk(c: Chunk, rs: Runs, ctr: map<nat, nat>, page: nat)
    requires ChunkOkWith(c, rs, ctr) && page in rs
    ensures page + Len(rs[page]) <= PAGES
    ensures ChunkOkWith(FreeRun(c, page, Len(rs[page])), rs - {page}, ctr)
  {
    hide Used, Covered, WithoutRange, CountFree, Len;
    var n := Len(rs[page]);
    RemoveRun(rs, page);
    forall p: nat | page <= p < page + n
      ensures Covered(rs, p)
    {
      RunCovers(rs, page, p);
    }
    BitsRemoved(c.freeMap, rs, rs - {page}, page, n);
    InfoClear(c.info, rs, ctr, page);
    FreedTail(rs, page, c.freeTail);
  }

  /** Lowering `free_tail` to the freed page keeps every remaining start below it. */
  lemma FreedTail(rs: Runs, page: nat, tail: nat)
    requires RunsOk(rs) && page in rs && StartsBelow(rs, tail)
    ensures StartsBelow(rs - {page}, if tail == page + Len(rs[page]) then page else tail)
  {
  }

  lemma InfoClear(info: seq<nat>, rs: Runs, ctr: map<nat, nat>, page: nat)
    requires RunsOk(rs) && InfoOk(info, rs, ctr) && page in rs && RunsOk(rs - {page})
    ensures InfoOk(info[page := 0], rs - {page}, ctr)
  {
    var rs' := rs - {page};
    forall s | s in rs'
      ensures RunInfoOk(info[page := 0], s, rs'[s], Counter(ctr, s))
    {
      assert s in rs && RunInfoOk(info, s, rs[s], Counter(ctr, s));
      assert s < page ==> s + Len(rs[s]) <= page;
    }
  }

  /** Replacing the run at `page` by one over its own and free pages. */
  lemma ReplaceRun(rs: Runs, page: nat, r: Run)
    requires RunsOk(rs) && page in rs && RunValid(r) && page + Len(r) <= PAGES
    requires forall p: nat :: page <= p < page + Len(r) ==>
      !Covered(rs, p) || page <= p < page + Len(rs[page])
    ensures RunsOk(rs[page := r])
    ensures forall p: nat ::
      (Covered(rs[page := r], p) <==>
        (Covered(rs, p) && !(page <= p < page + Len(rs[page]))) || page <= p < page + Len(r))
  {
    hide Covered, Len;
    RemoveRun(rs, page);
    var rest := rs - {page};
    AddRun(rest, page, r);
    assert rest[page := r] == rs[page := r];
    forall p: nat
      ensures Covered(rs[page := r], p) <==>
        (Covered(rs, p) && !(page <= p < page + Len(rs[page]))) || page <= p < page + Len(r)
    {
      assert Covered(rest[page := r], p) <==> Covered(rest, p) || page <= p < page + Len(r);
    }
  }

  /** Give the tail pages of a large run back (zend_mm_realloc_heap, smaller size). */
  function ShrinkRun(c: Chunk, page: nat, prior: nat, count: nat): Chunk
    requires count <= prior && page + prior <= WORD_BITS * |c.freeMap| && page < |c.info|
  {
    c.(freePages := c.freePages + (prior - count),
       freeMap := WithoutRange(c.freeMap, page + count, prior - count),
       info := c.info[page := Lrun(count)])
  }

  lemma ShrinkRunOk(c: Chunk, rs: Runs, ctr: map<nat, nat>, page: nat, count: nat)
    requires ChunkOkWith(c, rs, ctr) && page in rs && rs[page].Large? && 1 <= count < rs[page].pages
    ensures page + rs[page].pages <= PAGES
    ensures ChunkOkWith(ShrinkRun(c, page, rs[page].pages, count), rs[page := Large(count)], ctr)
  {
    hide Used, Covered, WithoutRange, CountFree;
    var prior := rs[page].pages;
    var rs' := rs[page := Large(count)];
    assert Len(rs[page]) == prior && Len(Large(count)) == count;
    ReplaceRun(rs, page, Large(count));
    forall p: nat | page <= p < page + prior
      ensures Covered(rs, p)
    {
      RunCovers(rs, page, p);
    }
    forall p: nat
      ensures Covered(rs', p) <==> Covered(rs, p) && !(page + count <= p < page + prior)
    {
      assert Covered(rs', p) <==>
        (Covered(rs, p) && !(page <= p < page + Len(rs[page]))) || page <= p < page + Len(Large(count));
    }
    BitsRemoved(c.freeMap, rs, rs', page + count, prior - count);
    InfoSet(c.info, rs, ctr, page, Large(count), Lrun(count));
    SameStarts(rs, page, Large(count), c.freeTail);
  }

  lemma SameStarts(rs: Runs, page: nat, r: Run, tail: nat)
    requires StartsBelow(rs, tail) && page in rs
    ensures StartsBelow(rs[page := r], tail)
  {
  }

  /** Take the free pages behind a large run (zend_mm_realloc_heap, larger size in place).
      `free_tail` is left alone, even when the run now reaches past it. */
  function GrowRun(c: Chunk, page: nat, prior: nat, count: nat): Chunk
    requires prior <= count && page + count <= WORD_BITS * |c.freeMap| && page < |c.info|
    requires count - prior <= c.freePages
  {
    c.(freePages := c.freePages - (count - prior),
       freeMap := WithRange(c.freeMap, page + prior, count - prior),
       info := c.info[page := Lrun(count)])
  }

  lemma GrowRunOk(c: Chunk, rs: Runs, ctr: map<nat, nat>, page: nat, count: nat)
    requires ChunkOkWith(c, rs, ctr) && page in rs && rs[page].Large? && rs[page].pages < count
    requires page + count <= PAGES
    requires FreeRange(c.freeMap, page + rs[page].pages, count - rs[page].pages)
    ensures count - rs[page].pages <= c.freePages
    ensures ChunkOkWith(GrowRun(c, page, rs[page].pages, count), rs[page := Large(count)], ctr)
  {
    hide Used, Covered, WithRange, CountFree, FreeRange;
    var prior := rs[page].pages;
    var rs' := rs[page := Large(count)];
    assert Len(rs[page]) == prior && Len(Large(count)) == count;
    FreePagesUncovered(c.freeMap, rs, page + prior, count - prior);
    ReplaceRun(rs, page, Large(count));
    forall p: nat | page <= p < page + prior
      ensures Covered(rs, p)
    {
      RunCovers(rs, page, p);
    }
    forall p: nat
      ensures Covered(rs', p) <==> Covered(rs, p) || page + prior <= p < page + count
    {
      assert Covered(rs', p) <==>
        (Covered(rs, p) && !(page <= p < page + Len(rs[page]))) || page <= p < page + Len(Large(count));
    }
    BitsAdded(c.freeMap, rs, rs', page + prior, count - prior);
    InfoSet(c.info, rs, ctr, page, Large(count), Lrun(count));
    SameStarts(rs, page, Large(count), c.freeTail);
  }

  /** zend_mm_bitset_is_free_range on the free map of a header. */
  method PagesFree(c: Chunk, start: nat, len: nat) returns (r: bool)
    requires len >= 1 && start + len <= WORD_BITS * |c.freeMap|
    ensures r <==> FreeRange(c.freeMap, start, len)
  {
    hide FreeRange;
    var words := new Word[|c.freeMap|](i requires 0 <= i < |c.freeMap| => c.freeMap[i]);
    assert words[..] == c.freeMap;
    r := IsFreeRange(words, start, len);
  }

  function SmallInfoAt(info: seq<nat>, page: nat, b: nat, p: nat): nat
    requires b < BINS && p < |info|
  {
    if p == page then Srun(b)
    else if page < p < page + BinPages(b) then Nrun(b, p - page)
    else info[p]
  }

  /** The page descriptions of a new small run (zend_mm_alloc_small_slow). */
  function SmallInfo(info: seq<nat>, page: nat, b: nat): (r: seq<nat>)
    requires b < BINS
    ensures |r| == |info|
  {
    seq(|info|, (p: nat) requires p < |info| => SmallInfoAt(info, page, b, p))
  }

  /** The writes of zend_mm_alloc_small_slow to the page map. */
  method WriteSmallInfo(info: seq<nat>, page: nat, b: nat) returns (r: seq<nat>)
    requires b < BINS && page + BinPages(b) <= |info| && BinPages(b) >= 1
    ensures r == SmallInfo(info, page, b)
  {
    hide BinPages, Srun, Nrun;
    r := info[page := Srun(b)];
    if BinPages(b) > 1 {
      var i := 1;
      while i < BinPages(b)
        invariant 1 <= i <= BinPages(b) && |r| == |info|
        invariant forall p: nat :: p < |info| ==>
          r[p] == if page < p < page + i || p == page then SmallInfoAt(info, page, b, p) else info[p]
      {
        r := r[page + i := Nrun(b, i)];
        i := i + 1;
      }
    }
    assert forall p: nat :: p < |info| ==> r[p] == SmallInfoAt(info, page, b, p);
  }

  lemma SmallInfoOk(c: Chunk, rs: Runs, ctr: map<nat, nat>, page: nat, b: nat)
    requires ChunkOkWith(c, rs, ctr) && b < BINS && page in rs && rs[page] == Large(BinPages(b))
    requires page !in ctr
    ensures ChunkOkWith(c.(info := SmallInfo(c.info, page, b)), rs[page := Small(b)], ctr)
  {
    hide Used, Covered, CountFree, BinPages;
    var rs' := rs[page := Small(b)];
    assert Len(rs[page]) == Len(Small(b));
    ReplaceRun(rs, page, Small(b));
    forall p: nat | page <= p < page + Len(rs[page])
      ensures Covered(rs, p)
    {
      RunCovers(rs, page, p);
    }
    forall p: nat
      ensures Covered(rs', p) <==> Covered(rs, p)
    {
      assert Covered(rs', p) <==>
        (Covered(rs, p) && !(page <= p < page + Len(rs[page]))) || page <= p < page + Len(Small(b));
    }
    SmallInfoRuns(c.info, rs, ctr, page, b);
    SameStarts(rs, page, Small(b), c.freeTail);
  }

  lemma SmallInfoRuns(info: seq<nat>, rs: Runs, ctr: map<nat, nat>, page: nat, b: nat)
    requires RunsOk(rs) && InfoOk(info, rs, ctr) && b < BINS && page in rs && page !in ctr
    requires RunsOk(rs[page := Small(b)])
    ensures InfoOk(SmallInfo(info, page, b), rs[page := Small(b)], ctr)
  {
    hide BinPages;
    var rs' := rs[page := Small(b)];
    var info' := SmallInfo(info, page, b);
    forall s | s in rs'
      ensures RunInfoOk(info', s, rs'[s], Counter(ctr, s))
    {
      if s != page {
        assert s in rs && RunInfoOk(info, s, rs[s], Counter(ctr, s));
        assert s < page ==> s + Len(rs'[s]) <= page;
        assert page < s ==> page + Len(rs'[page]) <= s;
        assert forall p: nat :: s <= p < s + Len(rs'[s]) ==> info'[p] == info[p];
      } else {
        assert info'[s] == Srun(b) && Counter(ctr, s) == 0;
      }
    }
  }

  /** The header that zend_mm_chunk_init and zend_mm_init leave: word 0 of the bitset and entry 0
      of the map are written, everything else is what the chunk had. */
  function InitChunk(c: Chunk, num: nat): Chunk
    requires |c.freeMap| > 0 && |c.info| > 0
  {
    Chunk(PAGES - FIRST_PAGE, FIRST_PAGE, num, c.freeMap[0 := 1], c.info[0 := Lrun(FIRST_PAGE)])
  }

  /** A recycled or zeroed chunk is one whose pages, the header page apart, are all free. */
  ghost predicate AllPagesFree(c: Chunk) {
    && WORD_BITS * |c.freeMap| == PAGES && |c.info| == PAGES
    && (forall p: nat :: 0 < p < PAGES ==> !Used(c.freeMap, p))
  }

  /** A chunk as the OS returns it. */
  function ZeroedChunk(): Chunk {
    Chunk(0, 0, 0, seq(8, _ => 0), seq(PAGES, _ => 0))
  }

  lemma ZeroedIsFree()
    ensures AllPagesFree(ZeroedChunk())
  {
    hide Bit;
    forall p: nat | 0 < p < PAGES
      ensures !Used(ZeroedChunk().freeMap, p)
    {
      BitUniform(p % WORD_BITS);
    }
  }

  lemma InitChunkOk(c: Chunk, num: nat)
    requires AllPagesFree(c)
    ensures ChunkOk(InitChunk(c, num), map[])
  {
    hide Bit;
    var bits := c.freeMap[0 := 1];
    forall p: nat | p < PAGES
      ensures Used(bits, p) <==> p == 0
    {
      if p < WORD_BITS {
        LowestBit(1, p);
      } else {
        assert Used(bits, p) == Used(c.freeMap, p);
      }
    }
    OnlyFirstUsed(bits, PAGES);
  }

  lemma {:induction false} OnlyFirstUsed(bits: seq<Word>, k: nat)
    requires 1 <= k <= WORD_BITS * |bits|
    requires forall p: nat :: p < k ==> (Used(bits, p) <==> p == 0)
    ensures CountFree(bits, k) == k - 1
  {
    hide Used;
    if k > 1 {
      OnlyFirstUsed(bits, k - 1);
    }
  }

  /** The test `free_pages == ZEND_MM_PAGES - ZEND_MM_FIRST_PAGE` holds exactly when no run is left. */
  lemma EmptyChunk(c: Chunk, rs: Runs, ctr: map<nat, nat>)
    requires ChunkOkWith(c, rs, ctr)
    ensures c.freePages == PAGES - FIRST_PAGE <==> rs == map[]
    ensures rs == map[] ==> AllPagesFree(c)
  {
    hide Used;
    if rs == map[] {
      OnlyFirstUsed(c.freeMap, PAGES);
    } else {
      var s :| s in rs;
      RunCovers(rs, s, s);
      TwoUsed(c.freeMap, PAGES, s);
    }
  }

  lemma {:induction false} TwoUsed(bits: seq<Word>, k: nat, p: nat)
    requires k <= WORD_BITS * |bits| && 0 < p < k && Used(bits, 0) && Used(bits, p)
    ensures CountFree(bits, k) < k - 1
  {
    hide Used;
    if p < k - 1 {
      TwoUsed(bits, k - 1, p);
    } else {
      CountFull(bits, k - 1, 0);
    }
  }

  // ------------------------------------------------------------ searching a chunk

  /** A used page at or after `free_tail` continues a run: runs start below `free_tail`, but a run
      that grew in place may reach past it. */
  lemma TailBoundHolds(c: Chunk, rs: Runs, ctr: map<nat, nat>)
    requires ChunkOkWith(c, rs, ctr)
    ensures TailBound(c.freeMap, c.freeTail)
  {
    hide Used;
    forall p: nat | 0 < p && c.freeTail <= p < PAGES && Used(c.freeMap, p)
      ensures Used(c.freeMap, p - 1)
    {
      assert Covered(rs, p);
      var s :| s in rs && s <= p < s + Len(rs[s]);
      assert s < c.freeTail;
      RunCovers(rs, s, p - 1);
    }
  }

  /** A used page behind a free one is the first page of a run. */
  lemma UsedAfterFree(bits: seq<Word>, rs: Runs, e: nat)
    requires RunsOk(rs) && BitsOk(bits, rs) && 0 < e < PAGES && Used(bits, e) && !Used(bits, e - 1)
    ensures e in rs
  {
    hide Used;
    assert Covered(rs, e) && !Covered(rs, e - 1);
    var s :| s in rs && s <= e < s + Len(rs[s]);
    var n := Len(rs[s]);
    assert s < e ==> s <= e - 1 < s + n;
  }

  lemma {:induction false} TrailingExists(bits: seq<Word>, t: nat) returns (s: nat)
    requires |bits| > 0 && Used(bits, 0) && t < Pages(bits)
    requires AllFree(bits, t, Pages(bits))
    ensures s <= t && MaxFree(bits, s, Pages(bits))
    decreases t
  {
    hide Used;
    assert !Used(bits, t);
    if Used(bits, t - 1) {
      s := t;
    } else {
      s := TrailingExists(bits, t - 1);
    }
  }

  lemma TailUnchanged(bits: seq<Word>, count: nat, tail: nat, found: bool, page: nat, tail': nat)
    requires |bits| > 0 && TailAfter(bits, count, tail, found, page, tail')
    requires ExactInside(bits, count) || Used(bits, Pages(bits) - 1)
    ensures tail' == tail
  {
  }

  lemma TailAtTrailing(bits: seq<Word>, count: nat, tail: nat, found: bool, page: nat, tail': nat, t: nat)
    requires |bits| > 0 && TailAfter(bits, count, tail, found, page, tail')
    requires !ExactInside(bits, count) && MaxFree(bits, t, Pages(bits))
    ensures tail' == if found && page == t then t + count else t
  {
    assert !Used(bits, Pages(bits) - 1);
  }

  lemma StartsBeforeTrailing(bits: seq<Word>, rs: Runs, t: nat)
    requires RunsOk(rs) && BitsOk(bits, rs) && MaxFree(bits, t, Pages(bits))
    ensures StartsBelow(rs, t)
  {
    hide Used;
    forall s | s in rs
      ensures s < t
    {
      RunCovers(rs, s, s);
      assert Used(bits, s);
    }
  }

  lemma BestFacts(bits: seq<Word>, count: nat, page: nat, e: nat)
    requires |bits| > 0 && Used(bits, 0) && count >= 1 && IsBest(bits, count, page, e)
    ensures MaxFree(bits, page, e) && 1 <= page && page + count <= e <= Pages(bits)
    ensures FreeRange(bits, page, count)
  {
    hide Used;
    assert !Used(bits, page);
  }

  lemma TrailingNotInside(bits: seq<Word>, count: nat, page: nat)
    requires |bits| > 0 && IsBest(bits, count, page, Pages(bits))
    ensures !ExactInside(bits, count) && !Used(bits, Pages(bits) - 1)
  {
    hide Used;
    forall s: nat, e: nat | e < Pages(bits) && MaxFree(bits, s, e)
      ensures e - s != count
    {
      assert Used(bits, e) && e < page && s < e;
      assert e - s == count ==> Fits(bits, count, s, e);
    }
  }

  lemma TrailingUnique(bits: seq<Word>, page: nat, t: nat)
    requires MaxFree(bits, page, Pages(bits)) && MaxFree(bits, t, Pages(bits))
    ensures page == t
  {
    hide Used;
    assert page < t ==> !Taken(bits, t - 1);
    assert t < page ==> !Taken(bits, page - 1);
  }

  /** The new `free_tail` is above every run, and not below the pages that were found. */
  lemma SearchTail(c: Chunk, rs: Runs, ctr: map<nat, nat>, count: nat, found: bool, page: nat, tail: nat)
    requires ChunkOkWith(c, rs, ctr) && count >= 1
    requires found ==> exists e: nat :: IsBest(c.freeMap, count, page, e)
    requires TailAfter(c.freeMap, count, c.freeTail, found, page, tail)
    ensures StartsBelow(rs, tail) && tail <= PAGES
    ensures found ==> 1 <= page <= tail && page + count <= PAGES && FreeRange(c.freeMap, page, count)
  {
    hide Used, Covered, IsBest, TailAfter, RunsOk, Len, CountFree;
    var bits := c.freeMap;
    var inside := ExactInside(bits, count) || Used(bits, PAGES - 1);
    var t := PAGES;
    if inside {
      TailUnchanged(bits, count, c.freeTail, found, page, tail);
    } else {
      assert AllFree(bits, PAGES - 1, PAGES);
      t := TrailingExists(bits, PAGES - 1);
      TailAtTrailing(bits, count, c.freeTail, found, page, tail, t);
      StartsBeforeTrailing(bits, rs, t);
    }
    if found {
      var e: nat :| IsBest(bits, count, page, e);
      BestFacts(bits, count, page, e);
      if e == PAGES {
        TrailingNotInside(bits, count, page);
        TrailingUnique(bits, page, t);
      } else {
        assert !Used(bits, e - 1);
        UsedAfterFree(bits, rs, e);
        assert e < tail;
      }
    }
  }

  /** One chunk's turn in zend_mm_alloc_pages: the pages that are found, and the header with the
      `free_tail` that the scan leaves behind, found or not. */
  method FindPages(c: Chunk, ghost rs: Runs, count: nat) returns (found: bool, page: nat, c': Chunk)
    requires ChunkOk(c, rs) && count >= 1
    ensures ChunkOk(c', rs) && c' == c.(freeTail := c'.freeTail)
    ensures c.freePages < count ==> !found && c' == c
    ensures c.freePages >= count ==> TailAfter(c.freeMap, count, c.freeTail, found, page, c'.freeTail)
    ensures !found ==> forall s: nat, e: nat :: !Fits(c.freeMap, count, s, e)
    ensures found ==> exists e: nat :: IsBest(c.freeMap, count, page, e)
    ensures found ==> 1 <= page <= c'.freeTail && page + count <= PAGES
                      && FreeRange(c.freeMap, page, count)
    ensures TailFree(c) ==> TailFree(c') && (found ==> page + count <= c'.freeTail)
  {
    hide Used, RunsOk, InfoOk, CountFree, TailAfter, IsBest, Fits, FreeRange, Covered, TailFree;
    if c.freePages < count {
      TooFewFree(c, rs, map[], count);
      return false, 0, c;
    }
    TailBoundHolds(c, rs, map[]);
    var tail;
    found, page, tail := Search(c.freeMap, c.freeTail, count);
    SearchTail(c, rs, map[], count, found, page, tail);
    if TailFree(c) {
      SearchKeepsTail(c, rs, map[], count, found, page, tail);
    }
    c' := c.(freeTail := tail);
  }

  // ------------------------------------------------- when the pages from free_tail on are free

  /** No page at or behind `free_tail` is in use. */
  ghost predicate TailFree(c: Chunk) {
    forall p: nat :: c.freeTail <= p < WORD_BITS * |c.freeMap| ==> !Used(c.freeMap, p)
  }

  /** Growth in place is the one operation that can lose this, exactly when the run passes `free_tail`. */
  lemma GrowTail(c: Chunk, page: nat, prior: nat, count: nat)
    requires prior < count && page + count <= WORD_BITS * |c.freeMap| && page < |c.info| && count - prior <= c.freePages
    ensures TailFree(GrowRun(c, page, prior, count)) <==> TailFree(c) && page + count <= c.freeTail
  {
    hide Used, WithRange;
    WithRangeIsUnion(c.freeMap, page + prior, count - prior);
    var c' := GrowRun(c, page, prior, count);
    assert Used(c'.freeMap, page + count - 1);
    forall p: nat | p < WORD_BITS * |c.freeMap|
      ensures Used(c.freeMap, p) ==> Used(c'.freeMap, p)
    {
    }
  }

  lemma MarkTail(c: Chunk, page: nat, count: nat)
    requires page + count <= WORD_BITS * |c.freeMap| && page < |c.info| && 1 <= count <= c.freePages && TailFree(c)
    ensures TailFree(MarkRun(c, page, count)) <==> page == c.freeTail || page + count <= c.freeTail
  {
    hide Used, WithRange;
    WithRangeIsUnion(c.freeMap, page, count);
    assert Used(MarkRun(c, page, count).freeMap, page + count - 1);
  }

  lemma FreeTail(c: Chunk, page: nat, count: nat)
    requires page + count <= WORD_BITS * |c.freeMap| && page < |c.info| && TailFree(c)
    ensures TailFree(FreeRun(c, page, count))
  {
    hide Used, WithoutRange;
    WithoutRangeIsDifference(c.freeMap, page, count);
  }

  lemma ShrinkTail(c: Chunk, page: nat, prior: nat, count: nat)
    requires count <= prior && page + prior <= WORD_BITS * |c.freeMap| && page < |c.info| && TailFree(c)
    ensures TailFree(ShrinkRun(c, page, prior, count))
  {
    hide Used, WithoutRange;
    WithoutRangeIsDifference(c.freeMap, page + count, prior - count);
  }

  lemma SameTail(c: Chunk, info: seq<nat>)
    ensures TailFree(c.(info := info)) <==> TailFree(c)
  {
  }

  /** The search keeps it, and so does taking the pages that were found. */
  lemma SearchKeepsTail(c: Chunk, rs: Runs, ctr: map<nat, nat>, count: nat, found: bool, page: nat, tail: nat)
    requires ChunkOkWith(c, rs, ctr) && count >= 1 && TailFree(c)
    requires found ==> exists e: nat :: IsBest(c.freeMap, count, page, e)
    requires TailAfter(c.freeMap, count, c.freeTail, found, page, tail)
    ensures TailFree(c.(freeTail := tail)) && (found ==> page + count <= tail)
  {
    hide Used, Covered, IsBest, TailAfter, RunsOk, Len, CountFree, InfoOk;
    var bits := c.freeMap;
    var inside := ExactInside(bits, count) || Used(bits, PAGES - 1);
    var t := PAGES;
    if inside {
      TailUnchanged(bits, count, c.freeTail, found, page, tail);
    } else {
      assert AllFree(bits, PAGES - 1, PAGES);
      t := TrailingExists(bits, PAGES - 1);
      TailAtTrailing(bits, count, c.freeTail, found, page, tail, t);
    }
    if found {
      var e: nat :| IsBest(bits, count, page, e);
      BestFacts(bits, count, page, e);
      if e == PAGES {
        TrailingNotInside(bits, count, page);
        TrailingUnique(bits, page, t);
      } else {
        assert Used(bits, e);
      }
    }
  }

  /** The first block of a new chunk takes page 1; growing it by a page leaves a used page behind
      `free_tail`. */
  lemma GrowthPassesTail()
    ensures var c := InitChunk(ZeroedChunk(), 0); var c1 := MarkRun(c, 1, 1);
      && ChunkOk(c1, map[1 := Large(1)]) && TailFree(c) && TailFree(c1) && FreeRange(c1.freeMap, 2, 1)
      && ChunkOk(GrowRun(c1, 1, 1, 2), map[1 := Large(2)]) && !TailFree(GrowRun(c1, 1, 1, 2))
  {
    hide Used, WithRange, ChunkOkWith;
    ZeroedIsFree();
    InitChunkOk(ZeroedChunk(), 0);
    var c := InitChunk(ZeroedChunk(), 0);
    EmptyChunk(c, map[], map[]);
    assert FreeRange(c.freeMap, 1, 1);
    var none: Runs := map[];
    MarkRunOk(c, none, map[], 1, 1);
    assert none[1 := Large(1)] == map[1 := Large(1)];
    MarkTail(c, 1, 1);
    var c1 := MarkRun(c, 1, 1);
    WithRangeIsUnion(c.freeMap, 1, 1);
    var one: Runs := map[1 := Large(1)];
    GrowRunOk(c1, one, map[], 1, 2);
    assert one[1 := Large(2)] == map[1 := Large(2)];
    GrowTail(c1, 1, 1, 2);
  }

  // ----------------------------------------------------- collecting the free runs

  /** All elements of the run are free, and the counter is wide enough to say so. */
  predicate FullyFree(r: Run, n: nat)
    requires RunValid(r)
  {
    r.Small? && r.bin != 0 && n == BinElements(r.bin)
  }

  /** The runs that the walk over a chunk keeps. */
  ghost function Kept(rs: Runs, ctr: map<nat, nat>): (kept: Runs)
    requires RunsOk(rs)
    ensures forall s :: s in kept <==> s in rs && !FullyFree(rs[s], Counter(ctr, s))
    ensures forall s :: s in kept ==> kept[s] == rs[s]
  {
    map s | s in rs && !FullyFree(rs[s], Counter(ctr, s)) :: rs[s]
  }

  /** The runs when the walk has reached page `i`. */
  ghost function KeptBelow(rs: Runs, ctr: map<nat, nat>, i: nat): Runs
    requires RunsOk(rs)
  {
    map s | s in rs && (s >= i || !FullyFree(rs[s], Counter(ctr, s))) :: rs[s]
  }

  /** The counters that the walk has not reset yet. */
  ghost function CountersFrom(ctr: map<nat, nat>, i: nat): map<nat, nat> {
    map s | s in ctr && s >= i :: ctr[s]
  }

  ghost predicate CountersOk(rs: Runs, ctr: map<nat, nat>)
    requires RunsOk(rs)
  {
    forall s :: s in ctr ==> s in rs && rs[s].Small? && ctr[s] <= BinElements(rs[s].bin)
  }

  /** Page `i` is not inside a run. */
  ghost predicate Aligned(rs: Runs, i: nat)
    requires RunsOk(rs)
  {
    forall s :: s in rs && s < i ==> s + Len(rs[s]) <= i
  }

  lemma SubRuns(rs: Runs, sub: Runs)
    requires RunsOk(rs) && forall s :: s in sub ==> s in rs && sub[s] == rs[s]
    ensures RunsOk(sub)
  {
  }

  lemma AlignedStart(c: Chunk, rs: Runs, sub: Runs, ctr: map<nat, nat>, i: nat)
    requires RunsOk(rs) && Aligned(rs, i) && 1 <= i < PAGES
    requires forall s :: s in sub ==> s in rs && sub[s] == rs[s]
    requires forall s :: s in rs && s >= i ==> s in sub
    requires ChunkOkWith(c, sub, ctr)
    ensures Used(c.freeMap, i) <==> i in rs
  {
    hide Used;
    assert Used(c.freeMap, i) <==> Covered(sub, i);
    if Covered(sub, i) {
      var s :| s in sub && s <= i < s + Len(sub[s]);
    }
    if i in rs {
      RunCovers(sub, i, i);
    }
  }

  lemma AlignedNext(rs: Runs, i: nat)
    requires RunsOk(rs) && Aligned(rs, i)
    ensures i in rs ==> Aligned(rs, i + Len(rs[i]))
    ensures i !in rs ==> Aligned(rs, i + 1)
  {
    hide Len;
  }

  /** Only the counters of runs that exist matter. */
  lemma SameCounters(c: Chunk, rs: Runs, ctr: map<nat, nat>, ctr': map<nat, nat>)
    requires ChunkOkWith(c, rs, ctr)
    requires forall s :: s in rs ==> rs[s].Large? || Counter(ctr, s) == Counter(ctr', s)
    ensures ChunkOkWith(c, rs, ctr')
  {
    hide Covered, Used, CountFree;
    forall s | s in rs
      ensures RunInfoOk(c.info, s, rs[s], Counter(ctr', s))
    {
      assert RunInfoOk(c.info, s, rs[s], Counter(ctr, s));
    }
  }

  /** Rewriting the first page of a small run with another counter. */
  lemma SetCounter(c: Chunk, rs: Runs, ctr: map<nat, nat>, s: nat, n: nat)
    requires ChunkOkWith(c, rs, ctr) && s in rs && rs[s].Small?
    ensures ChunkOkWith(c.(info := c.info[s := SrunEx(rs[s].bin, n)]), rs, ctr[s := n])
  {
    hide Covered, Used, CountFree;
    var info' := c.info[s := SrunEx(rs[s].bin, n)];
    forall t | t in rs
      ensures RunInfoOk(info', t, rs[t], Counter(ctr[s := n], t))
    {
      assert RunInfoOk(c.info, t, rs[t], Counter(ctr, t));
      assert t < s ==> t + Len(rs[t]) <= s;
    }
  }

  lemma SmallRunInfo(c: Chunk, rs: Runs, ctr: map<nat, nat>, s: nat)
    requires ChunkOkWith(c, rs, ctr) && s in rs && Counter(ctr, s) <= 512
    ensures rs[s].Small? <==> IsSrun(c.info[s])
    ensures rs[s].Small? ==> SrunBin(c.info[s]) == rs[s].bin
    ensures rs[s].Small? ==>
      (SrunCounter(c.info[s]) == BinElements(rs[s].bin) <==> FullyFree(rs[s], Counter(ctr, s)))
    ensures rs[s].Large? ==> LrunPages(c.info[s]) == rs[s].pages
  {
    hide Covered, Used, CountFree, SrunEx, Lrun, IsSrun, SrunBin, SrunCounter, LrunPages, BinElements;
    assert RunInfoOk(c.info, s, rs[s], Counter(ctr, s));
    match rs[s] {
      case Small(b) =>
        SrunFields(b, Counter(ctr, s));
        BinTable(b);
      case Large(n) =>
        LrunFields(n);
    }
  }

  /** The state of the walk over a chunk at page `i`. */
  ghost predicate WalkAt(c: Chunk, rs: Runs, ctr: map<nat, nat>, i: nat)
    requires RunsOk(rs)
  {
    Aligned(rs, i) && ChunkOkWith(c, KeptBelow(rs, ctr, i), CountersFrom(ctr, i))
  }

  lemma WalkGap(c: Chunk, rs: Runs, ctr: map<nat, nat>, i: nat)
    requires RunsOk(rs) && CountersOk(rs, ctr) && WalkAt(c, rs, ctr, i) && i !in rs
    ensures WalkAt(c, rs, ctr, i + 1)
  {
    hide ChunkOkWith, RunsOk, FullyFree;
    AlignedNext(rs, i);
    assert KeptBelow(rs, ctr, i + 1) == KeptBelow(rs, ctr, i);
    assert CountersFrom(ctr, i + 1) == CountersFrom(ctr, i);
  }

  lemma NoStartInside(rs: Runs, i: nat)
    requires RunsOk(rs) && i in rs
    ensures RunValid(rs[i]) && 1 <= Len(rs[i])
    ensures forall s :: s in rs && i < s ==> i + Len(rs[i]) <= s
  {
  }

  /** Past a run that stays, once its counter reads zero. */
  lemma WalkPast(c: Chunk, rs: Runs, ctr: map<nat, nat>, ctr0: map<nat, nat>, i: nat)
    requires RunsOk(rs) && CountersOk(rs, ctr) && Aligned(rs, i) && i in rs
    requires !FullyFree(rs[i], Counter(ctr, i))
    requires ChunkOkWith(c, KeptBelow(rs, ctr, i), ctr0)
    requires forall s :: s != i ==> Counter(ctr0, s) == Counter(CountersFrom(ctr, i), s)
    requires rs[i].Large? || Counter(ctr0, i) == 0
    ensures WalkAt(c, rs, ctr, i + Len(rs[i]))
  {
    hide ChunkOkWith, RunsOk, FullyFree, Len;
    AlignedNext(rs, i);
    NoStartInside(rs, i);
    var i' := i + Len(rs[i]);
    assert KeptBelow(rs, ctr, i') == KeptBelow(rs, ctr, i);
    SameCounters(c, KeptBelow(rs, ctr, i), ctr0, CountersFrom(ctr, i'));
  }

  /** Past a run that is given back. */
  lemma WalkFree(c: Chunk, rs: Runs, ctr: map<nat, nat>, i: nat)
    requires RunsOk(rs) && CountersOk(rs, ctr) && WalkAt(c, rs, ctr, i) && i in rs
    requires FullyFree(rs[i], Counter(ctr, i))
    ensures i + Len(rs[i]) <= WORD_BITS * |c.freeMap| && i < |c.info|
    ensures WalkAt(FreeRun(c, i, Len(rs[i])), rs, ctr, i + Len(rs[i]))
  {
    hide RunsOk, FullyFree, Len, FreeRun, ChunkOkWith, Aligned;
    AlignedNext(rs, i);
    NoStartInside(rs, i);
    var i' := i + Len(rs[i]);
    var now := KeptBelow(rs, ctr, i);
    HeaderShape(c, now, CountersFrom(ctr, i));
    FreeRunOk(c, now, CountersFrom(ctr, i), i);
    KeptWithout(rs, ctr, i);
    SameCounters(FreeRun(c, i, Len(rs[i])), now - {i}, CountersFrom(ctr, i), CountersFrom(ctr, i'));
  }

  lemma HeaderShape(c: Chunk, rs: Runs, ctr: map<nat, nat>)
    requires ChunkOkWith(c, rs, ctr)
    ensures RunsOk(rs) && WORD_BITS * |c.freeMap| == PAGES && |c.info| == PAGES
  {
  }

  lemma KeptWithout(rs: Runs, ctr: map<nat, nat>, i: nat)
    requires RunsOk(rs) && i in rs && FullyFree(rs[i], Counter(ctr, i))
    ensures KeptBelow(rs, ctr, i + Len(rs[i])) == KeptBelow(rs, ctr, i) - {i}
  {
    hide FullyFree, Len;
    NoStartInside(rs, i);
  }

  lemma WalkStart(c: Chunk, rs: Runs, ctr: map<nat, nat>)
    requires ChunkOkWith(c, rs, ctr) && CountersOk(rs, ctr)
    ensures WalkAt(c, rs, ctr, FIRST_PAGE)
  {
    assert KeptBelow(rs, ctr, FIRST_PAGE) == rs;
    SameCounters(c, rs, ctr, CountersFrom(ctr, FIRST_PAGE));
  }

  lemma WalkEnd(c: Chunk, rs: Runs, ctr: map<nat, nat>, i: nat)
    requires RunsOk(rs) && CountersOk(rs, ctr) && WalkAt(c, rs, ctr, i) && c.freeTail <= i
    ensures ChunkOk(c, Kept(rs, ctr))
    ensures forall s :: s in rs ==> s < i
  {
    hide Covered, Used, CountFree, Len, FullyFree;
    var now := KeptBelow(rs, ctr, i);
    forall s | s in rs
      ensures s < i
    {
      assert s >= i ==> s in now;
    }
    assert now == Kept(rs, ctr);
    SameCounters(c, now, CountersFrom(ctr, i), map[]);
  }

  /** Pages of the fully free runs that start below page `i`. */
  ghost function Freed(rs: Runs, ctr: map<nat, nat>, i: nat): nat
    requires RunsOk(rs)
  {
    if i == 0 then 0
    else Freed(rs, ctr, i - 1)
         + if i - 1 in rs && FullyFree(rs[i - 1], Counter(ctr, i - 1)) then Len(rs[i - 1]) else 0
  }

  lemma {:induction false} FreedSkip(rs: Runs, ctr: map<nat, nat>, i: nat, j: nat)
    requires RunsOk(rs) && i <= j && forall s :: i <= s < j ==> s !in rs
    ensures Freed(rs, ctr, j) == Freed(rs, ctr, i)
    decreases j
  {
    hide RunsOk, FullyFree;
    if i < j {
      FreedSkip(rs, ctr, i, j - 1);
    }
  }

  lemma FreedRun(rs: Runs, ctr: map<nat, nat>, i: nat)
    requires RunsOk(rs) && i in rs
    ensures Freed(rs, ctr, i + Len(rs[i]))
      == Freed(rs, ctr, i) + if FullyFree(rs[i], Counter(ctr, i)) then Len(rs[i]) else 0
  {
    hide FullyFree, Len;
    NoStartInside(rs, i);
    FreedSkip(rs, ctr, i + 1, i + Len(rs[i]));
  }

  /** Pages are freed exactly when some run is fully free. */
  lemma {:induction false} FreedPositive(rs: Runs, ctr: map<nat, nat>, i: nat)
    requires RunsOk(rs) && i <= PAGES
    ensures Freed(rs, ctr, i) > 0 <==> exists s :: s in rs && s < i && FullyFree(rs[s], Counter(ctr, s))
  {
    hide FullyFree, Len;
    if i > 0 {
      FreedPositive(rs, ctr, i - 1);
    }
  }

  /** The walk of zend_mm_gc over the pages of one chunk. */
  method Collect(c: Chunk, ghost rs: Runs, ghost ctr: map<nat, nat>) returns (c': Chunk, collected: nat)
    requires ChunkOkWith(c, rs, ctr) && CountersOk(rs, ctr)
    ensures ChunkOk(c', Kept(rs, ctr)) && c'.num == c.num
    ensures c'.freePages == c.freePages + collected && collected == Freed(rs, ctr, PAGES)
    ensures TailFree(c) ==> TailFree(c')
  {
    hide TailFree, RunsOk, CountersOk, WalkAt, Covered, FullyFree, KeptBelow, Kept, ChunkOkWith, Used, Freed;
    c' := c;
    collected := 0;
    var i := FIRST_PAGE;
    WalkStart(c, rs, ctr);
    RunsOkOf(c, rs, ctr);
    FreedStart(rs, ctr);
    while i < c'.freeTail
      invariant 1 <= i <= PAGES && RunsOk(rs) && WalkAt(c', rs, ctr, i)
      invariant collected == Freed(rs, ctr, i)
      invariant c'.num == c.num && c'.freePages == c.freePages + collected
      invariant TailFree(c) ==> TailFree(c')
      decreases PAGES - i
    {
      WalkFacts(c', rs, ctr, i);
      if i in rs {
        FreedRun(rs, ctr, i);
      } else {
        FreedSkip(rs, ctr, i, i + 1);
      }
      if Used(c'.freeMap, i) {
        var info := c'.info[i];
        if IsSrun(info) {
          var bin := SrunBin(info);
          var count := BinPages(bin);
          if SrunCounter(info) == BinElements(bin) {
            WalkFree(c', rs, ctr, i);
            if TailFree(c') {
              FreeTail(c', i, count);
            }
            c' := FreeRun(c', i, count);
            collected := collected + count;
          } else {
            WalkReset(c', rs, ctr, i);
            SameTail(c', c'.info[i := Srun(bin)]);
            c' := c'.(info := c'.info[i := Srun(bin)]);
          }
          i := i + count;
        } else {
          WalkLarge(c', rs, ctr, i);
          i := i + LrunPages(info);
        }
      } else {
        WalkGap(c', rs, ctr, i);
        i := i + 1;
      }
    }
    WalkEnd(c', rs, ctr, i);
    FreedSkip(rs, ctr, i, PAGES);
  }

  lemma FreedStart(rs: Runs, ctr: map<nat, nat>)
    requires RunsOk(rs)
    ensures Freed(rs, ctr, FIRST_PAGE) == 0
  {
    FreedSkip(rs, ctr, 0, 1);
  }

  lemma RunsOkOf(c: Chunk, rs: Runs, ctr: map<nat, nat>)
    requires ChunkOkWith(c, rs, ctr)
    ensures RunsOk(rs)
  {
  }

  /** What the header says about page `i` of the walk. */
  lemma WalkFacts(c: Chunk, rs: Runs, ctr: map<nat, nat>, i: nat)
    requires RunsOk(rs) && CountersOk(rs, ctr) && WalkAt(c, rs, ctr, i) && 1 <= i < c.freeTail
    ensures i < PAGES == WORD_BITS * |c.freeMap| == |c.info|
    ensures Used(c.freeMap, i) <==> i in rs
    ensures i in rs ==> RunValid(rs[i]) && 1 <= Len(rs[i]) && i + Len(rs[i]) <= PAGES
    ensures i in rs ==> (rs[i].Small? <==> IsSrun(c.info[i]))
    ensures i in rs && rs[i].Small? ==>
      && SrunBin(c.info[i]) == rs[i].bin && Len(rs[i]) == BinPages(rs[i].bin)
      && (SrunCounter(c.info[i]) == BinElements(rs[i].bin) <==> FullyFree(rs[i], Counter(ctr, i)))
    ensures i in rs && rs[i].Large? ==>
      LrunPages(c.info[i]) == Len(rs[i]) && !FullyFree(rs[i], Counter(ctr, i))
  {
    hide Covered, Used, CountFree, IsSrun, SrunBin, SrunCounter, LrunPages, BinElements, BinPages;
    var now := KeptBelow(rs, ctr, i);
    AlignedStart(c, rs, now, CountersFrom(ctr, i), i);
    if i in rs {
      assert i in now && Counter(CountersFrom(ctr, i), i) == Counter(ctr, i);
      if i in ctr {
        BinTable(rs[i].bin);
      }
      SmallRunInfo(c, now, CountersFrom(ctr, i), i);
    }
  }

  lemma WalkReset(c: Chunk, rs: Runs, ctr: map<nat, nat>, i: nat)
    requires RunsOk(rs) && CountersOk(rs, ctr) && WalkAt(c, rs, ctr, i) && i in rs && rs[i].Small?
    requires !FullyFree(rs[i], Counter(ctr, i)) && i < |c.info|
    ensures WalkAt(c.(info := c.info[i := Srun(rs[i].bin)]), rs, ctr, i + Len(rs[i]))
  {
    hide FullyFree, Len, ChunkOkWith, Aligned;
    var now := KeptBelow(rs, ctr, i);
    SetCounter(c, now, CountersFrom(ctr, i), i, 0);
    assert SrunEx(rs[i].bin, 0) == Srun(rs[i].bin);
    WalkPast(c.(info := c.info[i := Srun(rs[i].bin)]), rs, ctr, CountersFrom(ctr, i)[i := 0], i);
  }

  lemma WalkLarge(c: Chunk, rs: Runs, ctr: map<nat, nat>, i: nat)
    requires RunsOk(rs) && CountersOk(rs, ctr) && WalkAt(c, rs, ctr, i) && i in rs && rs[i].Large?
    ensures WalkAt(c, rs, ctr, i + Len(rs[i]))
  {
    hide Len, ChunkOkWith, Aligned;
    WalkPast(c, rs, ctr, CountersFrom(ctr, i), i);
  }

}
