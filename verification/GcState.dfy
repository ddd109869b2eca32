/** The states of a heap while zend_mm_gc counts the free slots and unlinks them. */
module GcState {
  import opened Bins
  import opened PageInfo
  import opened Chunks
  import opened Blocks
  import opened Inventory
  import opened Collection
  import opened HeapState

  /** Every header carries the counters of the slots counted so far. */
  ghost predicate ChunksCounted(chunks: map<nat, Chunk>, w: World, counted: FreeLists)
    requires WorldOk(w) && |counted| == BINS
  {
    && chunks.Keys == w.Keys
    && (forall c :: c in chunks ==> ChunkOkWith(chunks[c], w[c], Counters(w, counted, c)))
  }

  /** `counted` slots are in the counters, `linked` are the lists that memory holds. */
  ghost predicate Counting(f: Fields, mem: Memory, v: View, counted: FreeLists, linked: FreeLists) {
    && InventoryOk(v.world, v.free, v.huge, v.live)
    && |counted| == BINS && ChunksCounted(f.chunks, v.world, counted)
    && RingOk(f.ring, f.cached, v.world)
    && |linked| == BINS && LinksOk(f.heads, mem, linked)
    && HugeListOk(f.hugeList, v.huge)
    && NodesOk(f.hugeList, v.nodes, v.world, v.free)
  }

  function NoLists(): (r: FreeLists)
    ensures |r| == BINS && forall b :: 0 <= b < BINS ==> r[b] == []
  {
    seq(BINS, _ => [])
  }

  /** Before the first list is counted all counters are zero. */
  lemma CountingStart(f: Fields, mem: Memory, v: View)
    requires Agree(f, mem, v)
    ensures Counting(f, mem, v, NoLists(), v.free)
  {
    hide HugeOk, FreeOk, LiveOk, RingOk, LinksOk, HugeListOk, NodesOk, RunsOk, ChunkOkWith;
    ListsLength(f, mem, v, {});
    forall c | c in f.chunks
      ensures ChunkOkWith(f.chunks[c], v.world[c], Counters(v.world, NoLists(), c))
    {
      RunsOfChunk(f.chunks[c], v.world[c]);
      ZeroCounters(f.chunks[c], v.world, c);
    }
  }

  lemma ZeroCounters(h: Chunk, w: World, c: nat)
    requires c in w && RunsOk(w[c]) && ChunkOk(h, w[c])
    ensures ChunkOkWith(h, w[c], Counters(w, NoLists(), c))
  {
    hide ChunkOkWith, Len;
    SameCounters(h, w[c], map[], Counters(w, NoLists(), c));
  }

  /** Where the header of its chunk leads from any address inside a small run. */
  lemma FindRun(h: Chunk, rs: Runs, ctr: map<nat, nat>, s: nat, page: nat)
    requires ChunkOkWith(h, rs, ctr) && s in rs && rs[s].Small? && s <= page < s + Len(rs[s])
    requires Counter(ctr, s) <= 512
    ensures |h.info| == PAGES && page < PAGES
    ensures IsSrun(h.info[page]) && SrunBin(h.info[page]) == rs[s].bin
    ensures IsLrun(h.info[page]) <==> page != s
    ensures page != s ==> NrunOffset(h.info[page]) == page - s
    ensures h.info[s] == SrunEx(rs[s].bin, Counter(ctr, s))
    ensures IsSrun(h.info[s]) && SrunBin(h.info[s]) == rs[s].bin
    ensures Counter(ctr, s) < 512 ==> SrunCounter(h.info[s]) == Counter(ctr, s)
  {
    hide Covered, CountFree, SrunEx, Nrun, IsSrun, IsLrun, SrunBin, SrunCounter, NrunOffset, BinPages;
    assert RunInfoOk(h.info, s, rs[s], Counter(ctr, s));
    SrunFields(rs[s].bin, Counter(ctr, s));
    if page != s {
      NrunFields(rs[s].bin, page - s);
    }
  }

  /** The page number that the address of a slot gives lies inside the slot's run. */
  lemma SlotDecode(w: World, sl: Slot)
    requires WorldOk(w) && SlotOk(w, sl)
    ensures SlotAddr(sl) / CHUNK_SIZE == sl.chunk && SlotAddr(sl) % CHUNK_SIZE != 0
    ensures sl.page <= SlotAddr(sl) % CHUNK_SIZE / PAGE_SIZE < sl.page + Len(w[sl.chunk][sl.page])
  {
    hide BinElements, BinPages, Offset, BinSize, RunsOk;
    SlotInPages(w, sl);
    DecodeAddr(sl.chunk, sl.page, Offset(sl.bin, sl.index), Len(w[sl.chunk][sl.page]));
  }

  lemma SlotInPages(w: World, sl: Slot)
    requires WorldOk(w) && SlotOk(w, sl)
    ensures RunsOk(w[sl.chunk]) && 1 <= sl.page && sl.page + Len(w[sl.chunk][sl.page]) <= PAGES
    ensures Offset(sl.bin, sl.index) < Len(w[sl.chunk][sl.page]) * PAGE_SIZE
  {
    hide BinElements, BinPages, Offset, BinSize;
    assert RunsOk(w[sl.chunk]);
    SlotInRun(sl.bin, sl.index);
    BinTable(sl.bin);
  }

  lemma DecodeAddr(c: nat, page: nat, off: nat, len: nat)
    requires 1 <= page && page + len <= PAGES && off < len * PAGE_SIZE
    ensures (PageAddr(c, page) + off) / CHUNK_SIZE == c
    ensures (PageAddr(c, page) + off) % CHUNK_SIZE == page * PAGE_SIZE + off
    ensures page <= (PageAddr(c, page) + off) % CHUNK_SIZE / PAGE_SIZE < page + len
  {
    var r := page * PAGE_SIZE + off;
    assert r < CHUNK_SIZE;
    assert PageAddr(c, page) + off == c * CHUNK_SIZE + r;
    DivModUnique(c, r);
  }

  lemma DivModUnique(c: nat, r: nat)
    requires r < CHUNK_SIZE
    ensures (c * CHUNK_SIZE + r) / CHUNK_SIZE == c && (c * CHUNK_SIZE + r) % CHUNK_SIZE == r
  {
  }

  // ------------------------------------------------------------ counting one slot

  lemma CountSnoc(l: seq<Slot>, sl: Slot, c: nat, s: nat)
    ensures Count(l + [sl], c, s) == Count(l, c, s) + if OfRun(sl, c, s) then 1 else 0
  {
    assert (l + [sl])[..|l|] == l;
  }

  lemma CountedElsewhere(h: Chunk, w: World, counted: FreeLists, b: nat, sl: Slot, c: nat)
    requires WorldOk(w) && |counted| == BINS && b < BINS && c in w && c != sl.chunk
    requires ChunkOkWith(h, w[c], Counters(w, counted, c))
    ensures ChunkOkWith(h, w[c], Counters(w, counted[b := counted[b] + [sl]], c))
  {
    hide ChunkOkWith, Len;
    var counted' := counted[b := counted[b] + [sl]];
    assert RunsOk(w[c]);
    forall s | s in w[c] && w[c][s].Small?
      ensures Counter(Counters(w, counted, c), s) == Counter(Counters(w, counted', c), s)
    {
      CountSnoc(counted[b], sl, c, s);
    }
    SameCounters(h, w[c], Counters(w, counted, c), Counters(w, counted', c));
  }

  lemma NextCounters(w: World, counted: FreeLists, sl: Slot, n: nat)
    requires |counted| == BINS && SlotOk(w, sl) && RunsOk(w[sl.chunk])
    requires n == Count(counted[sl.bin], sl.chunk, sl.page)
    ensures var counted' := counted[sl.bin := counted[sl.bin] + [sl]];
      forall s :: s in w[sl.chunk] ==>
        (w[sl.chunk][s].Large? ||
         Counter(Counters(w, counted, sl.chunk)[sl.page := n + 1], s) == Counter(Counters(w, counted', sl.chunk), s))
  {
    hide Len, BinElements, Count;
    var c := sl.chunk;
    forall s | s in w[c] && w[c][s].Small?
      ensures Counter(Counters(w, counted, c)[sl.page := n + 1], s)
           == Counter(Counters(w, counted[sl.bin := counted[sl.bin] + [sl]], c), s)
    {
      CountSnoc(counted[sl.bin], sl, c, s);
    }
  }

  /** Writing the next counter value into the run of the slot counts the slot. */
  lemma CountedHere(h: Chunk, w: World, counted: FreeLists, sl: Slot)
    requires WorldOk(w) && |counted| == BINS && SlotOk(w, sl)
    requires ChunkOkWith(h, w[sl.chunk], Counters(w, counted, sl.chunk))
    ensures |h.info| == PAGES && sl.page < PAGES
    ensures var n := Count(counted[sl.bin], sl.chunk, sl.page);
      ChunkOkWith(h.(info := h.info[sl.page := SrunEx(sl.bin, n + 1)]), w[sl.chunk],
                  Counters(w, counted[sl.bin := counted[sl.bin] + [sl]], sl.chunk))
  {
    hide ChunkOkWith, Len, BinElements, SrunEx, Count;
    var c, b := sl.chunk, sl.bin;
    var n := Count(counted[b], c, sl.page);
    var counted' := counted[b := counted[b] + [sl]];
    HeaderShape(h, w[c], Counters(w, counted, c));
    SetCounter(h, w[c], Counters(w, counted, c), sl.page, n + 1);
    NextCounters(w, counted, sl, n);
    SameCounters(h.(info := h.info[sl.page := SrunEx(b, n + 1)]), w[c],
                 Counters(w, counted, c)[sl.page := n + 1], Counters(w, counted', c));
  }

  lemma ChunksCountSlot(chunks: map<nat, Chunk>, w: World, counted: FreeLists, sl: Slot)
    requires WorldOk(w) && |counted| == BINS && ChunksCounted(chunks, w, counted) && SlotOk(w, sl)
    ensures sl.chunk in chunks && |chunks[sl.chunk].info| == PAGES && sl.page < PAGES
    ensures var h := chunks[sl.chunk];
      var n := Count(counted[sl.bin], sl.chunk, sl.page);
      ChunksCounted(chunks[sl.chunk := h.(info := h.info[sl.page := SrunEx(sl.bin, n + 1)])], w,
                    counted[sl.bin := counted[sl.bin] + [sl]])
  {
    hide ChunkOkWith, SlotOk, SrunEx, Count, RunsOk;
    SlotFacts(w, sl);
    var h := chunks[sl.chunk];
    CountedHere(h, w, counted, sl);
    forall c | c in chunks && c != sl.chunk
      ensures ChunkOkWith(chunks[c], w[c], Counters(w, counted[sl.bin := counted[sl.bin] + [sl]], c))
    {
      CountedElsewhere(chunks[c], w, counted, sl.bin, sl, c);
    }
  }

  lemma CountSlot(f: Fields, mem: Memory, v: View, counted: FreeLists, linked: FreeLists, sl: Slot)
    requires Counting(f, mem, v, counted, linked) && SlotOk(v.world, sl)
    ensures sl.chunk in f.chunks && |f.chunks[sl.chunk].info| == PAGES && sl.page < PAGES
    ensures var h := f.chunks[sl.chunk];
      var n := Count(counted[sl.bin], sl.chunk, sl.page);
      Counting(f.(chunks := f.chunks[sl.chunk := h.(info := h.info[sl.page := SrunEx(sl.bin, n + 1)])]), mem, v,
               counted[sl.bin := counted[sl.bin] + [sl]], linked)
  {
    hide RingOk, LinksOk, HugeListOk, NodesOk, SlotOk, SrunEx, Count, WorldOk, HugeOk, FreeOk, LiveOk, ChunksCounted;
    SlotFacts(v.world, sl);
    ChunksCountSlot(f.chunks, v.world, counted, sl);
  }

  lemma SlotFacts(w: World, sl: Slot)
    requires SlotOk(w, sl)
    ensures sl.chunk in w && sl.page in w[sl.chunk] && w[sl.chunk][sl.page] == Small(sl.bin) && sl.bin < BINS
  {
  }

  // ---------------------------------------------------------- unlinking the slots

  /** The lists in memory are made of free slots. */
  ghost predicate LinkedOk(v: View, linked: FreeLists) {
    && |linked| == BINS == |v.free|
    && (forall b :: 0 <= b < BINS ==> ListOk(v.world, b, linked[b]))
    && (forall b, x :: 0 <= b < BINS && x in linked[b] ==> x in v.free[b])
  }

  /** A list without the element between `kept` and `rest`. */
  lemma ListDrop(w: World, b: nat, kept: seq<Slot>, x: Slot, rest: seq<Slot>)
    requires ListOk(w, b, kept + [x] + rest)
    ensures ListOk(w, b, kept + rest)
  {
    hide SlotOk;
    var l, l' := kept + [x] + rest, kept + rest;
    forall k | 0 <= k < |l'|
      ensures l'[k] == l[if k < |kept| then k else k + 1]
    {
    }
  }

  /** Removing the first element: the head moves on. */
  lemma ChainDropFirst(mem: Memory, x: Slot, rest: seq<Slot>)
    requires ChainOk(mem, [x] + rest)
    ensures mem(SlotAddr(x)) == Link(Head(rest)) && ChainOk(mem, rest)
  {
    hide SlotAddr;
    ChainTail(mem, [x] + rest);
    assert ([x] + rest)[1..] == rest;
  }

  /** Removing a later element: its predecessor's link skips it. */
  lemma ChainDrop(w: World, huge: map<nat, nat>, b: nat, mem: Memory, kept: seq<Slot>, x: Slot, rest: seq<Slot>)
    requires WorldOk(w) && HugeOk(w, huge) && ListOk(w, b, kept + [x] + rest) && kept != []
    requires ChainOk(mem, kept + [x] + rest)
    ensures mem(SlotAddr(x)) == Link(Head(rest))
    ensures ChainOk(WriteLink(mem, SlotAddr(kept[|kept| - 1]), Head(rest)), kept + rest)
  {
    hide SlotAddr, WorldOk, HugeOk, SlotOk;
    var l, l' := kept + [x] + rest, kept + rest;
    var q := |kept| - 1;
    var mem' := WriteLink(mem, SlotAddr(kept[q]), Head(rest));
    assert l[|kept|] == x && l[|kept| + 1..] == rest;
    ListDrop(w, b, kept, x, rest);
    forall k | 0 <= k < |l'|
      ensures mem'(SlotAddr(l'[k])) == Link(Head(l'[k + 1..]))
    {
      if k == q {
        assert l'[k + 1..] == rest && l'[k] == kept[q];
      } else {
        assert l'[q] == kept[q];
        SlotsApart(w, huge, l'[k], kept[q]);
        if k < q {
          assert l[k] == l'[k] && l[k + 1..][0] == l[k + 1] == l'[k + 1] == l'[k + 1..][0];
        } else {
          assert l[k + 1] == l'[k] && l[k + 2..] == l'[k + 1..];
        }
      }
    }
  }

  lemma UnlinkFirst(f: Fields, mem: Memory, v: View, counted: FreeLists, linked: FreeLists,
                    b: nat, x: Slot, rest: seq<Slot>)
    requires Counting(f, mem, v, counted, linked) && LinkedOk(v, linked) && b < BINS
    requires linked[b] == [x] + rest
    ensures |f.heads| == BINS && ReadLink(mem, SlotAddr(x)) == Head(rest)
    ensures Counting(f.(heads := f.heads[b := Head(rest)]), mem, v, counted, linked[b := rest])
    ensures LinkedOk(v, linked[b := rest])
  {
    hide RingOk, HugeListOk, NodesOk, SlotOk, SlotAddr, WorldOk, HugeOk, FreeOk, LiveOk, ChunksCounted, ChainOk;
    ChainDropFirst(mem, x, rest);
    assert [] + [x] + rest == [x] + rest && [] + rest == rest;
    ListDrop(v.world, b, [], x, rest);
  }

  lemma UnlinkLater(f: Fields, mem: Memory, v: View, counted: FreeLists, linked: FreeLists,
                    b: nat, kept: seq<Slot>, x: Slot, rest: seq<Slot>)
    requires Counting(f, mem, v, counted, linked) && LinkedOk(v, linked) && b < BINS && kept != []
    requires linked[b] == kept + [x] + rest
    ensures ReadLink(mem, SlotAddr(x)) == Head(rest)
    ensures var mem' := WriteLink(mem, SlotAddr(kept[|kept| - 1]), Head(rest));
      && Counting(f, mem', v, counted, linked[b := kept + rest])
      && LinkedOk(v, linked[b := kept + rest])
      && MemorySame(mem, mem', v.live)
  {
    hide RingOk, HugeListOk, NodesOk, SlotOk, SlotAddr, WorldOk, HugeOk, FreeOk, LiveOk, ChunksCounted, ChainOk,
         WriteLink, MemorySame;
    var q := kept[|kept| - 1];
    var mem' := WriteLink(mem, SlotAddr(q), Head(rest));
    assert (kept + [x] + rest)[|kept| - 1] == q;
    ChainDrop(v.world, v.huge, b, mem, kept, x, rest);
    ListDrop(v.world, b, kept, x, rest);
    forall i | 0 <= i < BINS && i != b
      ensures ChainOk(mem', linked[i])
    {
      assert ListOk(v.world, i, linked[i]);
      LinkElsewhere(v.world, v.huge, mem, q, Head(rest), linked[i]);
    }
    FreeNotLive(v, q);
    LinkOffLive(v.world, v.free, v.huge, v.live, mem, q, Head(rest));
    UnlinkLists(v, linked, b, kept, x, rest);
  }

  lemma UnlinkLists(v: View, linked: FreeLists, b: nat, kept: seq<Slot>, x: Slot, rest: seq<Slot>)
    requires LinkedOk(v, linked) && b < BINS && linked[b] == kept + [x] + rest
    ensures LinkedOk(v, linked[b := kept + rest])
  {
    hide SlotOk;
    ListDrop(v.world, b, kept, x, rest);
  }

  lemma FreeNotLive(v: View, sl: Slot)
    requires InventoryOk(v.world, v.free, v.huge, v.live) && sl.bin < BINS && sl in v.free[sl.bin]
    ensures forall p :: p in v.live ==> v.live[p].block != SmallBlock(sl)
  {
    hide WorldOk, HugeOk, ListOk, BlockOk, BlockStart, BlockSize;
  }

  // ------------------------------------------------------------ sweeping the chunks

  /** The view that a collection produces. */
  ghost function CollectedView(v: View): View
    requires |v.free| == BINS && WorldOk(v.world)
  {
    v.(world := KeptWorld(v.world, v.free), free := KeptLists(v.world, v.free))
  }

  /** The headers of the chunks `cs` still carry the counters of all the free slots. */
  ghost predicate Counted(f: Fields, v: View, cs: set<nat>)
    requires |v.free| == BINS && WorldOk(v.world)
  {
    forall c :: c in cs ==>
      && c in f.chunks && c in v.world
      && ChunkOkWith(f.chunks[c], v.world[c], Counters(v.world, v.free, c))
      && CountersOk(v.world[c], Counters(v.world, v.free, c))
  }

  ghost function Members(s: seq<nat>): set<nat> {
    set x | x in s
  }

  lemma NodesCollected(f: Fields, v: View)
    requires InventoryOk(v.world, v.free, v.huge, v.live)
    requires NodesOk(f.hugeList, v.nodes, v.world, v.free)
    ensures NodesOk(f.hugeList, v.nodes, KeptWorld(v.world, v.free), KeptLists(v.world, v.free))
  {
    hide WorldOk, HugeOk, ListOk, LiveOk, KeptWorld, KeptLists, SlotAddr, SlotOk;
    var w', free' := KeptWorld(v.world, v.free), KeptLists(v.world, v.free);
    forall i | 0 <= i < |v.nodes|
      ensures SlotOk(w', v.nodes[i]) && v.nodes[i] !in free'[NODE_BIN]
    {
      var x := SmallBlock(v.nodes[i]);
      CollectionKeepsUse(v.world, v.free, v.huge, x);
      assert InUse(v.world, v.free, v.huge, x);
      assert InUse(w', free', v.huge, x);
    }
  }

  lemma CachedCollected(h: Chunk, w: World, free: FreeLists, c: nat)
    requires WorldOk(w) && |free| == BINS && c in w && w[c] == map[]
    requires ChunkOkWith(h, w[c], Counters(w, free, c))
    ensures KeptWorld(w, free)[c] == map[] && ChunkOk(h, map[])
  {
    hide ChunkOkWith;
    SameCounters(h, w[c], Counters(w, free, c), map[]);
  }

  lemma SweepStart(f: Fields, mem: Memory, v: View)
    requires |v.free| == BINS && Counting(f, mem, v, v.free, KeptLists(v.world, v.free))
    ensures AgreeBut(f, mem, CollectedView(v), Members(f.ring))
    ensures Counted(f, v, Members(f.ring))
  {
    hide HugeOk, LiveOk, HugeListOk, NodesOk, LinksOk, ListOk, ChunkOkWith, RunsOk, KeptLists, ChunkOk;
    CollectionKeepsLive(v.world, v.free, v.huge, v.live);
    NodesCollected(f, v);
    forall c | c in f.chunks && c !in Members(f.ring)
      ensures KeptWorld(v.world, v.free)[c] == map[] && ChunkOk(f.chunks[c], map[])
    {
      CachedCollected(f.chunks[c], v.world, v.free, c);
    }
    forall c | c in f.ring
      ensures CountersOk(v.world[c], Counters(v.world, v.free, c))
    {
      CountersInRange(v.world, v.free, c);
    }
  }

  /** One chunk is swept. */
  lemma SweepChunk(f: Fields, mem: Memory, v: View, v': View, pending: set<nat>, c: nat, h: Chunk)
    requires |v.free| == BINS && WorldOk(v.world) && c in v.world
    requires AgreeBut(f, mem, v', pending) && c in v'.world && c in f.chunks
    requires v'.world[c] == Kept(v.world[c], Counters(v.world, v.free, c))
    requires ChunkOk(h, Kept(v.world[c], Counters(v.world, v.free, c)))
    ensures AgreeBut(f.(chunks := f.chunks[c := h]), mem, v', pending - {c})
  {
    hide InventoryOk, RingOk, LinksOk, HugeListOk, NodesOk, ChunkOk, Kept, WorldOk;
  }

  /** Pages given back by sweeping the chunks of a list. */
  ghost function FreedIn(v: View, cs: seq<nat>): nat
    requires |v.free| == BINS && WorldOk(v.world) && forall c :: c in cs ==> c in v.world
  {
    if cs == [] then 0
    else FreedIn(v, cs[..|cs| - 1])
         + Freed(v.world[cs[|cs| - 1]], Counters(v.world, v.free, cs[|cs| - 1]), PAGES)
  }

  /** The chunks of a list that keep some run; these stay in the ring. */
  ghost function Staying(w: World, cs: seq<nat>): seq<nat> {
    if cs == [] then []
    else
      var c := cs[|cs| - 1];
      Staying(w, cs[..|cs| - 1]) + if c in w && w[c] == map[] then [] else [c]
  }

  /** Small runs of the heap. */
  ghost function SmallRuns(w: World): set<(nat, nat)> {
    set c, s | c in w && s in w[c] && w[c][s].Small? :: (c, s)
  }

  /** A collection that frees pages leaves fewer small runs, and never more. */
  lemma FewerRuns(v: View, w': World)
    requires |v.free| == BINS && WorldOk(v.world)
    requires forall c, s :: c in w' && s in w'[c] ==>
      c in v.world && s in v.world[c] && w'[c][s] == v.world[c][s] && !Reclaimed(v.world, v.free, c, s)
    ensures SmallRuns(w') <= SmallRuns(v.world) && |SmallRuns(w')| <= |SmallRuns(v.world)|
    ensures (exists c: nat, s: nat :: Reclaimed(v.world, v.free, c, s)) ==> |SmallRuns(w')| < |SmallRuns(v.world)|
  {
    hide WorldOk;
    assert SmallRuns(w') <= SmallRuns(v.world);
    SubsetSize(SmallRuns(w'), SmallRuns(v.world));
    if c: nat, s: nat :| Reclaimed(v.world, v.free, c, s) {
      assert (c, s) in SmallRuns(v.world);
      assert (c, s) !in SmallRuns(w') by {
        hide Reclaimed;
      }
    }
  }

  /** Some pages are freed exactly when some run of the list is reclaimed. */
  lemma {:induction false} FreedInPositive(v: View, cs: seq<nat>)
    requires |v.free| == BINS && WorldOk(v.world) && forall c :: c in cs ==> c in v.world
    ensures FreedIn(v, cs) > 0 <==> exists c: nat, s: nat :: c in cs && Reclaimed(v.world, v.free, c, s)
  {
    hide WorldOk, Reclaimed, Freed;
    if cs != [] {
      var init, c := cs[..|cs| - 1], cs[|cs| - 1];
      FreedInPositive(v, init);
      FreedChunkPositive(v, c);
      assert cs == init + [c];
    }
  }

  lemma FreedChunkPositive(v: View, c: nat)
    requires |v.free| == BINS && WorldOk(v.world) && c in v.world
    ensures Freed(v.world[c], Counters(v.world, v.free, c), PAGES) > 0
       <==> exists s: nat :: Reclaimed(v.world, v.free, c, s)
  {
    hide Freed, Len, BinElements;
    var rs, ctr := v.world[c], Counters(v.world, v.free, c);
    assert RunsOk(rs);
    FreedPositive(rs, ctr, PAGES);
    forall s | s in rs
      ensures FullyFree(rs[s], Counter(ctr, s)) <==> Reclaimed(v.world, v.free, c, s)
    {
    }
    if s :| s in rs && s < PAGES && FullyFree(rs[s], Counter(ctr, s)) {
      assert Reclaimed(v.world, v.free, c, s);
    }
    if s: nat :| Reclaimed(v.world, v.free, c, s) {
      assert s in rs && s < PAGES && FullyFree(rs[s], Counter(ctr, s));
    }
  }

  // --------------------------------------------------- the loops over one free list

  /** Some run of the bin has all its elements in the list. */
  ghost predicate SomeFull(w: World, l: seq<Slot>, b: nat)
    requires b < BINS
  {
    exists c: nat, s: nat :: HasRun(w, c, s, Small(b)) && Count(l, c, s) == BinElements(b)
  }

  lemma SomeFullNone(w: World, b: nat)
    requires b < BINS
    ensures !SomeFull(w, [], b)
  {
    BinTable(b);
  }

  lemma ListPrefix(w: World, b: nat, l: seq<Slot>, k: nat)
    requires ListOk(w, b, l) && k <= |l|
    ensures ListOk(w, b, l[..k])
  {
    hide SlotOk;
  }

  lemma SomeFullSnoc(w: World, b: nat, l: seq<Slot>, k: nat)
    requires b < BINS && ListOk(w, b, l) && k < |l|
    ensures SlotOk(w, l[k]) && l[k].bin == b
    ensures Count(l[..k], l[k].chunk, l[k].page) < BinElements(b) <= 512
    ensures l[..k + 1] == l[..k] + [l[k]]
    ensures SomeFull(w, l[..k + 1], b) <==>
      SomeFull(w, l[..k], b) || Count(l[..k], l[k].chunk, l[k].page) + 1 == BinElements(b)
  {
    hide BinElements;
    var sl := l[k];
    assert l[..k + 1] == l[..k] + [sl];
    ListPrefix(w, b, l, k + 1);
    forall c: nat, s: nat
      ensures Count(l[..k + 1], c, s) == Count(l[..k], c, s) + if OfRun(sl, c, s) then 1 else 0
    {
      CountSnoc(l[..k], sl, c, s);
    }
    BinTable(b);
    CountBounds(w, b, l[..k + 1], sl.chunk, sl.page);
    assert HasRun(w, sl.chunk, sl.page, Small(b));
    if SomeFull(w, l[..k], b) {
      var c: nat, s: nat :| HasRun(w, c, s, Small(b)) && Count(l[..k], c, s) == BinElements(b);
      CountBounds(w, b, l[..k + 1], c, s);
      assert Count(l[..k + 1], c, s) == BinElements(b);
    }
  }

  /** What the loops read through the address of a listed slot. */
  lemma VisitSlot(f: Fields, mem: Memory, v: View, counted: FreeLists, linked: FreeLists, b: nat, j: nat)
    requires Counting(f, mem, v, counted, linked) && LinkedOk(v, linked) && b < BINS && j < |linked[b]|
    requires Count(counted[b], linked[b][j].chunk, linked[b][j].page) <= 512
    ensures var sl := linked[b][j];
      var p := SlotAddr(sl);
      var page := p % CHUNK_SIZE / PAGE_SIZE;
      var n := Count(counted[b], sl.chunk, sl.page);
      && p > 0 && p / CHUNK_SIZE == sl.chunk && sl.chunk in f.chunks && sl.bin == b && SlotOk(v.world, sl)
      && |f.chunks[sl.chunk].info| == PAGES && page < PAGES
      && var h := f.chunks[sl.chunk];
         && (IsLrun(h.info[page]) ==> page - NrunOffset(h.info[page]) == sl.page)
         && (!IsLrun(h.info[page]) ==> page == sl.page)
         && (n < 512 ==> SrunCounter(h.info[sl.page]) == n)
         && (SrunCounter(h.info[sl.page]) == BinElements(b) <==> FullyFree(Small(b), n))
         && ReadLink(mem, p) == Head(linked[b][j + 1..])
  {
    hide RingOk, HugeListOk, NodesOk, SlotAddr, HugeOk, FreeOk, LiveOk, BinElements, FullyFree,
         IsLrun, NrunOffset, SrunCounter, IsSrun, SrunBin;
    var sl := linked[b][j];
    assert ListOk(v.world, b, linked[b]);
    SlotNotNull(v.world, sl);
    SlotDecode(v.world, sl);
    SlotFacts(v.world, sl);
    var rs, ctr := v.world[sl.chunk], Counters(v.world, counted, sl.chunk);
    var h := f.chunks[sl.chunk];
    FindRun(h, rs, ctr, sl.page, SlotAddr(sl) % CHUNK_SIZE / PAGE_SIZE);
    SmallRunInfo(h, rs, ctr, sl.page);
    assert ChainOk(mem, linked[b]);
  }

  lemma SlotReclaimed(w: World, free: FreeLists, sl: Slot)
    requires |free| == BINS && SlotOk(w, sl)
    ensures Reclaimed(w, free, sl.chunk, sl.page)
       <==> FullyFree(Small(sl.bin), Count(free[sl.bin], sl.chunk, sl.page))
  {
  }

  /** A list none of whose runs is full stays as it is. */
  lemma {:induction false} NothingReclaimed(v: View, b: nat, l: seq<Slot>)
    requires FreeOk(v.world, v.free) && b < BINS && !SomeFull(v.world, v.free[b], b)
    requires forall k :: 0 <= k < |l| ==> SlotOk(v.world, l[k]) && l[k].bin == b
    ensures KeptSlots(v.world, v.free, l) == l
  {
    hide BinElements, SomeFull, Reclaimed;
    if l != [] {
      var init, sl := l[..|l| - 1], l[|l| - 1];
      NothingReclaimed(v, b, init);
      NotReclaimed(v, b, sl);
      assert l == init + [sl];
    }
  }

  lemma NotReclaimed(v: View, b: nat, sl: Slot)
    requires FreeOk(v.world, v.free) && b < BINS && !SomeFull(v.world, v.free[b], b)
    requires SlotOk(v.world, sl) && sl.bin == b
    ensures !Reclaimed(v.world, v.free, sl.chunk, sl.page)
  {
    hide BinElements;
    assert HasRun(v.world, sl.chunk, sl.page, Small(b));
  }

  // --------------------------------------------------------- the loop over the bins

  /** The lists of the first `i` bins. */
  ghost function CountedUpTo(free: FreeLists, i: nat): (r: FreeLists)
    requires |free| == BINS
    ensures |r| == BINS && forall b :: 0 <= b < BINS ==> r[b] == if b < i then free[b] else []
  {
    seq(BINS, (b: nat) requires b < BINS => if b < i then free[b] else [])
  }

  /** The lists in memory when the first `i` bins have been filtered. */
  ghost function LinkedUpTo(w: World, free: FreeLists, i: nat): (r: FreeLists)
    requires |free| == BINS
    ensures |r| == BINS
    ensures forall b :: 0 <= b < BINS ==> r[b] == if b < i then KeptSlots(w, free, free[b]) else free[b]
  {
    seq(BINS, (b: nat) requires b < BINS => if b < i then KeptSlots(w, free, free[b]) else free[b])
  }

  lemma BinsStart(f: Fields, mem: Memory, v: View)
    requires Agree(f, mem, v)
    ensures |v.free| == BINS && WorldOk(v.world)
    ensures Counting(f, mem, v, CountedUpTo(v.free, 0), LinkedUpTo(v.world, v.free, 0))
    ensures LinkedOk(v, LinkedUpTo(v.world, v.free, 0))
  {
    hide Counting, ListOk, LiveOk, HugeOk, RingOk, LinksOk, HugeListOk, NodesOk, ChunksOk, KeptSlots, WorldOk;
    CountingStart(f, mem, v);
    assert CountedUpTo(v.free, 0) == NoLists();
    assert LinkedUpTo(v.world, v.free, 0) == v.free;
  }

  lemma BinsNext(v: View, i: nat)
    requires |v.free| == BINS && i < BINS
    ensures CountedUpTo(v.free, i)[i := v.free[i]] == CountedUpTo(v.free, i + 1)
    ensures LinkedUpTo(v.world, v.free, i)[i := KeptSlots(v.world, v.free, v.free[i])]
         == LinkedUpTo(v.world, v.free, i + 1)
    ensures CountedUpTo(v.free, i)[i] == [] && LinkedUpTo(v.world, v.free, i)[i] == v.free[i]
  {
    hide KeptSlots;
  }

  /** A bin without a full run needs no filtering. */
  lemma BinSkipped(f: Fields, mem: Memory, v: View, counted: FreeLists, linked: FreeLists, i: nat)
    requires Counting(f, mem, v, counted, linked) && i < BINS == |v.free| && linked[i] == v.free[i]
    requires !SomeFull(v.world, v.free[i], i)
    ensures linked[i := KeptSlots(v.world, v.free, v.free[i])] == linked
  {
    hide RingOk, LinksOk, HugeListOk, NodesOk, ChunksCounted, SomeFull, KeptSlots, SlotOk, LiveOk, HugeOk, WorldOk;
    assert ListOk(v.world, i, v.free[i]);
    NothingReclaimed(v, i, v.free[i]);
  }

  lemma BinsEnd(f: Fields, mem: Memory, v: View)
    requires |v.free| == BINS && WorldOk(v.world)
    requires Counting(f, mem, v, CountedUpTo(v.free, BINS), LinkedUpTo(v.world, v.free, BINS))
    ensures AgreeBut(f, mem, CollectedView(v), Members(f.ring))
    ensures Counted(f, v, Members(f.ring)) && |f.ring| > 0
    ensures (forall c :: c in f.ring ==> c in v.world) && KeptWorld(v.world, v.free).Keys == v.world.Keys
  {
    hide InventoryOk, LinksOk, HugeListOk, NodesOk, ChunksCounted, KeptSlots, AgreeBut, Counted, WorldOk, Members,
         KeptWorld;
    assert CountedUpTo(v.free, BINS) == v.free;
    assert LinkedUpTo(v.world, v.free, BINS) == KeptLists(v.world, v.free);
    SweepStart(f, mem, v);
    KeptKeys(v.world, v.free);
  }

}
