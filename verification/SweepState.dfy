/** The states of a heap while zend_mm_gc walks over its chunks. */
module SweepState {
  import opened Bins
  import opened Chunks
  import opened Blocks
  import opened Inventory
  import opened Collection
  import opened HeapState
  import opened GcState

  /** Of the chunk and the first cached one, the younger goes to the OS and the other is cached. */
  ghost predicate ReleasedOne(chunks: map<nat, Chunk>, cached: seq<nat>, c: nat,
                              chunks': map<nat, Chunk>, cached': seq<nat>, w: World, w': World)
  {
    && c in chunks && (cached != [] ==> cached[0] in chunks)
    && if cached == [] || chunks[c].num > chunks[cached[0]].num then
         chunks' == chunks - {c} && w' == w - {c} && cached' == cached
       else
         chunks' == chunks - {cached[0]} && w' == w - {cached[0]} && cached' == [c] + cached[1..]
  }

  /** Some of the chunks of a world, with the same runs. */
  ghost predicate SubWorld(w: World, w0: World) {
    forall c :: c in w ==> c in w0 && w[c] == w0[c]
  }

  ghost predicate RunsKnown(v0: View, ring0: seq<nat>) {
    |v0.free| == BINS && WorldOk(v0.world) && forall c :: c in ring0 ==> c in v0.world
  }

  /** The chunks to be swept, and the runs they will keep; the main chunk keeps some. */
  ghost predicate Sweepable(v0: View, kw: World, ring0: seq<nat>) {
    && RunsKnown(v0, ring0) && kw == KeptWorld(v0.world, v0.free) && NoDup(ring0)
    && ring0 != [] && ring0[0] in kw && kw[ring0[0]] != map[]
  }

  /** The ring when the first `n` chunks have been swept and the next one stands at `i`. */
  ghost predicate RingAt(ring: seq<nat>, kw: World, ring0: seq<nat>, n: nat, i: nat)
    requires n <= |ring0|
  {
    ring == Staying(kw, ring0[..n]) + ring0[n..] && i == |Staying(kw, ring0[..n])| && (n > 0 ==> i > 0)
  }

  /** The sweep has passed the first `n` chunks of the ring, stands at position `i`, and has
      written the headers of the first `done` chunks. */
  ghost predicate SweepIn(f: Fields, mem: Memory, v0: View, v: View, kw: World,
                          ring0: seq<nat>, n: nat, i: nat, done: nat)
    requires n <= done <= |ring0| && RunsKnown(v0, ring0)
  {
    && Sweepable(v0, kw, ring0) && RingAt(f.ring, kw, ring0, n, i)
    && AgreeBut(f, mem, v, Members(ring0[done..])) && Counted(f, v0, Members(ring0[done..]))
    && SubWorld(v.world, kw)
  }

  // ----------------------------------------------------------------- the ring

  lemma StayingNext(w: World, cs: seq<nat>, n: nat)
    requires n < |cs|
    ensures Staying(w, cs[..n + 1]) == Staying(w, cs[..n]) + if cs[n] in w && w[cs[n]] == map[] then [] else [cs[n]]
  {
    assert cs[..n + 1][..n] == cs[..n];
  }

  lemma RingStart(kw: World, ring0: seq<nat>)
    ensures RingAt(ring0, kw, ring0, 0, 0)
  {
    assert ring0[..0] == [] && ring0[0..] == ring0 && [] + ring0 == ring0;
  }

  lemma RingVisit(ring: seq<nat>, kw: World, ring0: seq<nat>, n: nat, i: nat)
    requires n <= |ring0| && RingAt(ring, kw, ring0, n, i)
    ensures i < |ring| <==> n < |ring0|
    ensures n < |ring0| ==> ring[i] == ring0[n]
    ensures n == |ring0| ==> ring == Staying(kw, ring0) && ring0[..n] == ring0 && Members(ring0[n..]) == {}
    ensures forall c :: c in ring0[n..] ==> c in ring
  {
    hide Staying;
    if n == |ring0| {
      assert ring0[..n] == ring0 && ring0[n..] == [];
    }
  }

  /** Moving on past a chunk that stays. */
  lemma RingPast(ring: seq<nat>, kw: World, ring0: seq<nat>, n: nat, i: nat)
    requires n < |ring0| && RingAt(ring, kw, ring0, n, i) && !(ring0[n] in kw && kw[ring0[n]] == map[])
    ensures RingAt(ring, kw, ring0, n + 1, i + 1)
  {
    hide Staying;
    StayingNext(kw, ring0, n);
    assert ring0[n..] == [ring0[n]] + ring0[n + 1..];
    assert Staying(kw, ring0[..n]) + ([ring0[n]] + ring0[n + 1..]) == Staying(kw, ring0[..n + 1]) + ring0[n + 1..];
  }

  /** A chunk that leaves the ring. */
  lemma RingDrop(ring: seq<nat>, kw: World, ring0: seq<nat>, n: nat, i: nat)
    requires n < |ring0| && RingAt(ring, kw, ring0, n, i) && ring0[n] in kw && kw[ring0[n]] == map[] && i > 0
    ensures i < |ring| && RingAt(Removed(ring, i), kw, ring0, n + 1, i)
  {
    hide Staying;
    StayingNext(kw, ring0, n);
    assert ring0[n..] == [ring0[n]] + ring0[n + 1..];
    assert Removed(ring, i) == Staying(kw, ring0[..n + 1]) + ring0[n + 1..];
  }

  lemma PendingNext(ring0: seq<nat>, n: nat)
    requires n < |ring0| && NoDup(ring0)
    ensures Members(ring0[n..]) - {ring0[n]} == Members(ring0[n + 1..]) && ring0[n] in Members(ring0[n..])
  {
    assert ring0[n..] == [ring0[n]] + ring0[n + 1..];
    assert ring0[n] !in ring0[n + 1..];
  }

  // ------------------------------------------------------------- one chunk's turn

  lemma SweepRing(f: Fields, mem: Memory, v0: View, v: View)
    requires |v0.free| == BINS && WorldOk(v0.world) && v == CollectedView(v0)
    requires AgreeBut(f, mem, v, Members(f.ring)) && Counted(f, v0, Members(f.ring))
    requires |f.ring| > 0 && f.ring[0] in v.world && v.world[f.ring[0]] != map[]
    ensures RunsKnown(v0, f.ring)
    ensures SweepIn(f, mem, v0, v, v.world, f.ring, 0, 0, 0) && FreedIn(v0, f.ring[..0]) == 0
  {
    hide InventoryOk, LinksOk, HugeListOk, NodesOk, ChunksOk, Counted, WorldOk, KeptWorld, RingAt;
    KeptKeys(v0.world, v0.free);
    RingStart(v.world, f.ring);
    assert f.ring[0..] == f.ring;
  }

  lemma SweepVisit(f: Fields, mem: Memory, v0: View, v: View, kw: World, ring0: seq<nat>, n: nat, i: nat)
    requires n <= |ring0| && RunsKnown(v0, ring0) && SweepIn(f, mem, v0, v, kw, ring0, n, i, n) && i < |f.ring|
    ensures n < |ring0| && f.ring[i] == ring0[n]
    ensures var c := ring0[n];
      && c in f.chunks && c in v0.world && RunsOk(v0.world[c])
      && ChunkOkWith(f.chunks[c], v0.world[c], Counters(v0.world, v0.free, c))
      && CountersOk(v0.world[c], Counters(v0.world, v0.free, c))
      && FreedIn(v0, ring0[..n + 1])
         == FreedIn(v0, ring0[..n]) + Freed(v0.world[c], Counters(v0.world, v0.free, c), PAGES)
  {
    hide AgreeBut, RunsOk, ChunkOkWith, CountersOk, KeptWorld, Freed, RingAt, SubWorld;
    RingVisit(f.ring, kw, ring0, n, i);
    PendingNext(ring0, n);
    assert ring0[..n + 1][..n] == ring0[..n];
  }

  lemma SweepMember(f: Fields, mem: Memory, v0: View, v: View, kw: World, pending: set<nat>, c: nat)
    requires AgreeBut(f, mem, v, pending) && c in f.ring && SubWorld(v.world, kw)
    requires |v0.free| == BINS && WorldOk(v0.world) && kw == KeptWorld(v0.world, v0.free)
    ensures c in v.world && c in kw && c in v0.world && c in f.chunks
    ensures v.world[c] == kw[c] == Kept(v0.world[c], Counters(v0.world, v0.free, c))
  {
    hide InventoryOk, LinksOk, HugeListOk, NodesOk, ChunkOk, Kept, RunsOk;
  }

  lemma EmptyHeader(h: Chunk, rs: Runs)
    requires ChunkOk(h, rs)
    ensures h.freePages == PAGES - FIRST_PAGE <==> rs == map[]
  {
    EmptyChunk(h, rs, map[]);
  }

  lemma CountedNext(f: Fields, v0: View, ring0: seq<nat>, n: nat, h: Chunk)
    requires |v0.free| == BINS && WorldOk(v0.world) && n < |ring0| && NoDup(ring0)
    requires Counted(f, v0, Members(ring0[n..]))
    ensures Counted(f.(chunks := f.chunks[ring0[n] := h]), v0, Members(ring0[n + 1..]))
  {
    hide ChunkOkWith, CountersOk, WorldOk;
    PendingNext(ring0, n);
  }

  /** After the walk over a chunk: its header is final, and it is empty exactly if it keeps no run. */
  lemma SweepCollected(f: Fields, mem: Memory, v0: View, v: View, kw: World,
                       ring0: seq<nat>, n: nat, i: nat, h: Chunk)
    requires n < |ring0| && RunsKnown(v0, ring0) && SweepIn(f, mem, v0, v, kw, ring0, n, i, n)
    requires i < |f.ring| && f.ring[i] == ring0[n]
    requires ChunkOk(h, Kept(v0.world[ring0[n]], Counters(v0.world, v0.free, ring0[n])))
    ensures var c := ring0[n];
      var f' := f.(chunks := f.chunks[c := h]);
      && c in v.world && c in kw && v.world[c] == kw[c]
      && (h.freePages == PAGES - FIRST_PAGE <==> kw[c] == map[])
      && SweepIn(f', mem, v0, v, kw, ring0, n, i, n + 1) && AgreeBut(f', mem, v, Members(ring0[n + 1..]))
      && (kw[c] == map[] ==> i > 0)
      && (kw[c] != map[] ==> SweepIn(f', mem, v0, v, kw, ring0, n + 1, i + 1, n + 1))
  {
    hide AgreeBut, Counted, KeptWorld, ChunkOk, Kept, WorldOk, RingAt, SubWorld, Members;
    var c := ring0[n];
    SweepMember(f, mem, v0, v, kw, Members(ring0[n..]), c);
    EmptyHeader(h, kw[c]);
    SweepChunk(f, mem, v0, v, Members(ring0[n..]), c, h);
    PendingNext(ring0, n);
    CountedNext(f, v0, ring0, n, h);
    if kw[c] != map[] {
      RingPast(f.ring, kw, ring0, n, i);
    } else {
      RingNotMain(f.ring, kw, ring0, n, i);
    }
  }

  lemma RingNotMain(ring: seq<nat>, kw: World, ring0: seq<nat>, n: nat, i: nat)
    requires n < |ring0| && RingAt(ring, kw, ring0, n, i)
    requires ring0[0] in kw && kw[ring0[0]] != map[] && ring0[n] in kw && kw[ring0[n]] == map[]
    ensures i > 0
  {
    hide Staying;
    assert n != 0;
  }

  /** After an empty chunk is deleted the sweep stands at the next one. */
  lemma SweepDeleted(f: Fields, mem: Memory, v0: View, v: View, kw: World, ring0: seq<nat>, n: nat, i: nat,
                     f': Fields, v': View)
    requires n < |ring0| && RunsKnown(v0, ring0) && SweepIn(f, mem, v0, v, kw, ring0, n, i, n + 1)
    requires 0 < i < |f.ring| && ring0[n] in kw && kw[ring0[n]] == map[] && f.ring[i] == ring0[n]
    requires AgreeBut(f', mem, v', Members(ring0[n + 1..])) && f'.ring == Removed(f.ring, i)
    requires (f'.chunks == f.chunks && v' == v)
          || ReleasedOne(f.chunks, f.cached, f.ring[i], f'.chunks, f'.cached, v.world, v'.world)
    ensures SweepIn(f', mem, v0, v', kw, ring0, n + 1, i, n + 1)
  {
    hide KeptWorld, WorldOk, RingAt, AgreeBut, Members, Counted, Removed;
    RingDrop(f.ring, kw, ring0, n, i);
    RingVisit(f.ring, kw, ring0, n, i);
    CountedDeleted(f, mem, v0, v, ring0, n, i, f', v');
  }

  lemma CountedDeleted(f: Fields, mem: Memory, v0: View, v: View, ring0: seq<nat>, n: nat, i: nat, f': Fields, v': View)
    requires |v0.free| == BINS && WorldOk(v0.world) && n < |ring0| && NoDup(ring0)
    requires i < |f.ring| && f.ring[i] == ring0[n] && AgreeBut(f, mem, v, Members(ring0[n + 1..]))
    requires forall c :: c in ring0[n..] ==> c in f.ring
    requires Counted(f, v0, Members(ring0[n + 1..]))
    requires f'.chunks == f.chunks
          || ReleasedOne(f.chunks, f.cached, f.ring[i], f'.chunks, f'.cached, v.world, v'.world)
    ensures Counted(f', v0, Members(ring0[n + 1..]))
  {
    hide WorldOk, ChunkOkWith, CountersOk, InventoryOk, LinksOk, HugeListOk, NodesOk, ChunksOk;
    PendingNext(ring0, n);
    assert forall c :: c in ring0[n + 1..] ==> c in ring0[n..];
  }

  lemma SweepEnd(f: Fields, mem: Memory, v0: View, v: View, kw: World, ring0: seq<nat>, n: nat, i: nat)
    requires n <= |ring0| && RunsKnown(v0, ring0) && SweepIn(f, mem, v0, v, kw, ring0, n, i, n) && i >= |f.ring|
    ensures Agree(f, mem, v) && SubWorld(v.world, kw) && n == |ring0| && ring0[..n] == ring0
    ensures f.ring == Staying(kw, ring0)
  {
    hide KeptWorld, WorldOk, RingAt, AgreeBut, Members, Counted;
    RingVisit(f.ring, kw, ring0, n, i);
  }

  // --------------------------------------------------------- a whole collection

  /** Every chunk of the ring but the main chunk, and possibly chunk `d`, holds a run. */
  ghost predicate NoneEmptyBut(ring: seq<nat>, w: World, d: nat) {
    ring != [] && forall c :: c in ring && c != ring[0] && c != d ==> c in w && w[c] != map[]
  }

  /** Between operations no chunk but the main chunk is without a run. */
  ghost predicate NoneEmpty(ring: seq<nat>, w: World) {
    ring != [] && NoneEmptyBut(ring, w, ring[0])
  }

  ghost predicate MainKept(f: Fields, v: View) {
    && |v.free| == BINS && WorldOk(v.world) && |f.ring| > 0
    && f.ring[0] in KeptWorld(v.world, v.free) && KeptWorld(v.world, v.free)[f.ring[0]] != map[]
  }

  /** What zend_mm_gc does: exactly the fully free runs of bins other than 0 are gone, the free lists
      have lost exactly their slots, and the chunks that are left without a run have left the ring. */
  ghost predicate Collected(v: View, ring: seq<nat>, v': View, ring': seq<nat>)
    requires RunsKnown(v, ring)
  {
    && v'.live == v.live && v'.huge == v.huge && v'.nodes == v.nodes
    && v'.free == KeptLists(v.world, v.free)
    && SubWorld(v'.world, KeptWorld(v.world, v.free))
    && ring' == Staying(KeptWorld(v.world, v.free), ring)
  }

  // ------------------------------------------- nothing is left for a second collection

  lemma {:induction false} CountKept(w: World, free: FreeLists, l: seq<Slot>, c: nat, s: nat)
    requires |free| == BINS && !Reclaimed(w, free, c, s)
    ensures Count(KeptSlots(w, free, l), c, s) == Count(l, c, s)
  {
    hide Reclaimed;
    if l != [] {
      var init, last := l[..|l| - 1], l[|l| - 1];
      CountKept(w, free, init, c, s);
      var kept := KeptSlots(w, free, init);
      CountSnoc(kept, last, c, s);
      assert kept + [] == kept;
    }
  }

  /** A kept run has as many free slots as before, so a second collection keeps it too. */
  lemma StillNotReclaimed(w: World, free: FreeLists, w': World, c: nat, s: nat)
    requires |free| == BINS && WorldOk(w) && SubWorld(w', KeptWorld(w, free)) && c in w' && s in w'[c]
    ensures !Reclaimed(w', KeptLists(w, free), c, s)
  {
    hide KeptWorld, Count, BinElements, Len, WorldOk;
    KeptRun(w, free, c, s);
    assert c in w && s in w[c] && w'[c][s] == w[c][s];
    if RunValid(w[c][s]) && w[c][s].Small? {
      CountKept(w, free, free[w[c][s].bin], c, s);
    }
  }

  lemma CollectedOnce(w: World, free: FreeLists, w': World)
    requires |free| == BINS && WorldOk(w) && WorldOk(w') && SubWorld(w', KeptWorld(w, free))
    ensures KeptWorld(w', KeptLists(w, free)) == w'
  {
    hide Reclaimed, WorldOk, SubWorld;
    var again := KeptWorld(w', KeptLists(w, free));
    KeptKeys(w', KeptLists(w, free));
    forall c | c in w'
      ensures again[c] == w'[c]
    {
      forall s: nat
        ensures s in again[c] <==> s in w'[c]
        ensures s in again[c] ==> again[c][s] == w'[c][s]
      {
        hide KeptWorld;
        KeptRun(w', KeptLists(w, free), c, s);
        if s in w'[c] {
          StillNotReclaimed(w, free, w', c, s);
        }
      }
      SameRunMap(again[c], w'[c]);
    }
  }

  lemma SameRunMap(a: Runs, b: Runs)
    requires forall s: nat :: s in a <==> s in b
    requires forall s: nat :: s in a ==> a[s] == b[s]
    ensures a == b
  {
  }

  /** The main chunk survives a collection, and would survive the next one. */
  lemma MainKeptAfter(f: Fields, mem: Memory, v: View, f': Fields, v': View)
    requires RunsKnown(v, f.ring) && MainKept(f, v) && Collected(v, f.ring, v', f'.ring)
    requires Agree(f', mem, v')
    ensures MainKept(f', v') && f'.ring[0] == f.ring[0]
  {
    hide KeptWorld, KeptLists, SubWorld, WorldOk, HugeOk, FreeOk, LiveOk, ChunksOk, LinksOk, HugeListOk, NodesOk;
    StayingFirst(KeptWorld(v.world, v.free), f.ring);
    CollectedOnce(v.world, v.free, v'.world);
    SubWorldAt(v'.world, KeptWorld(v.world, v.free), f.ring[0]);
  }

  lemma SubWorldAt(w: World, w0: World, c: nat)
    requires SubWorld(w, w0) && c in w
    ensures c in w0 && w[c] == w0[c]
  {
  }

  lemma {:induction false} StayingFirst(w: World, cs: seq<nat>)
    requires cs != [] && cs[0] in w && w[cs[0]] != map[]
    ensures |Staying(w, cs)| > 0 && Staying(w, cs)[0] == cs[0]
  {
    if |cs| > 1 {
      StayingFirst(w, cs[..|cs| - 1]);
    } else {
      assert cs[..0] == [];
    }
  }

  /** A collection that returns pages leaves strictly fewer small runs. */
  lemma CollectionProgress(v: View, ring: seq<nat>, v': View, ring': seq<nat>)
    requires RunsKnown(v, ring) && Collected(v, ring, v', ring')
    ensures |SmallRuns(v'.world)| <= |SmallRuns(v.world)|
    ensures FreedIn(v, ring) > 0 ==> |SmallRuns(v'.world)| < |SmallRuns(v.world)|
  {
    hide KeptWorld, KeptLists, WorldOk, SmallRuns, FreedIn, Staying, Reclaimed;
    forall c, s | c in v'.world && s in v'.world[c]
      ensures c in v.world && s in v.world[c] && v'.world[c][s] == v.world[c][s] && !Reclaimed(v.world, v.free, c, s)
    {
      KeptRun(v.world, v.free, c, s);
    }
    FewerRuns(v, v'.world);
    FreedInPositive(v, ring);
  }

  /** Lists only get shorter: an empty one stays empty. */
  lemma EmptyStaysEmpty(v: View, ring: seq<nat>, v': View, ring': seq<nat>, b: nat)
    requires RunsKnown(v, ring) && Collected(v, ring, v', ring') && b < BINS && v.free[b] == []
    ensures |v'.free| == BINS && v'.free[b] == []
  {
    hide KeptWorld, WorldOk, Staying;
  }

  /** No small run is left that a collection would give back. */
  ghost predicate NothingToCollect(v: View) {
    |v.free| == BINS && forall c: nat, s: nat :: !Reclaimed(v.world, v.free, c, s)
  }

  /** The same blocks are in use, and lists without a slot have not gained one. */
  ghost predicate SameBlocks(v: View, v': View) {
    && v'.live == v.live && v'.huge == v.huge && v'.nodes == v.nodes
    && |v.free| == BINS == |v'.free|
    && (forall b :: 0 <= b < BINS && v.free[b] == [] ==> v'.free[b] == [])
  }

  lemma StillEmpty(v: View, v': View, b: nat)
    requires SameBlocks(v, v') && b < BINS && v.free[b] == []
    ensures |v'.free| == BINS && v'.free[b] == []
  {
  }

  lemma CollectedSame(f: Fields, mem: Memory, v: View, f': Fields, mem': Memory, v': View)
    requires RunsKnown(v, f.ring) && MainKept(f, v) && Collected(v, f.ring, v', f'.ring) && Agree(f', mem', v')
    ensures MainKept(f', v') && f'.ring[0] == f.ring[0] && SameBlocks(v, v') && NothingToCollect(v')
    ensures |SmallRuns(v'.world)| <= |SmallRuns(v.world)|
    ensures FreedIn(v, f.ring) > 0 ==> |SmallRuns(v'.world)| < |SmallRuns(v.world)|
  {
    hide KeptWorld, KeptLists, SubWorld, Staying, WorldOk, Agree, MainKept, SmallRuns, FreedIn, Reclaimed;
    MainKeptAfter(f, mem', v, f', v');
    CollectionProgress(v, f.ring, v', f'.ring);
    forall b | 0 <= b < BINS && v.free[b] == []
      ensures v'.free[b] == []
    {
      EmptyStaysEmpty(v, f.ring, v', f'.ring, b);
    }
    KeptListsLength(v.world, v.free);
    forall c: nat, s: nat
      ensures !Reclaimed(v'.world, v'.free, c, s)
    {
      ReclaimedIsRun(v'.world, v'.free, c, s);
      if c in v'.world && s in v'.world[c] {
        StillNotReclaimed(v.world, v.free, v'.world, c, s);
      }
    }
  }

  lemma KeptListsLength(w: World, free: FreeLists)
    requires |free| == BINS
    ensures |KeptLists(w, free)| == BINS
  {
  }

  lemma ReclaimedIsRun(w: World, free: FreeLists, c: nat, s: nat)
    requires |free| == BINS
    ensures Reclaimed(w, free, c, s) ==> c in w && s in w[c]
  {
  }

  // ----------------------------------------------------- collections that find nothing

  lemma {:induction false} StayingMembers(w: World, cs: seq<nat>, c: nat)
    ensures c in Staying(w, cs) <==> c in cs && !(c in w && w[c] == map[])
  {
    if cs != [] {
      StayingMembers(w, cs[..|cs| - 1], c);
      assert cs == cs[..|cs| - 1] + [cs[|cs| - 1]];
    }
  }

  lemma {:induction false} StayingAll(w: World, cs: seq<nat>)
    requires forall c :: c in cs ==> !(c in w && w[c] == map[])
    ensures Staying(w, cs) == cs
  {
    if cs != [] {
      StayingAll(w, cs[..|cs| - 1]);
      assert cs == cs[..|cs| - 1] + [cs[|cs| - 1]];
    }
  }

  /** A collection leaves no chunk without a run in the ring. */
  lemma CollectedFilled(f: Fields, v: View, f': Fields, mem': Memory, v': View)
    requires RunsKnown(v, f.ring) && Collected(v, f.ring, v', f'.ring) && Agree(f', mem', v')
    ensures NoneEmpty(f'.ring, v'.world)
  {
    hide KeptWorld, KeptLists, Staying, WorldOk, InventoryOk, ChunksOk, LinksOk, HugeListOk, NodesOk;
    forall c | c in f'.ring
      ensures c in v'.world && v'.world[c] != map[]
    {
      StayingMembers(KeptWorld(v.world, v.free), f.ring, c);
    }
  }

  /** A collection that frees no page leaves the ring as it is. */
  lemma CollectedNothing(f: Fields, v: View, f': Fields, v': View)
    requires RunsKnown(v, f.ring) && Collected(v, f.ring, v', f'.ring) && MainKept(f, v) && NoneEmpty(f.ring, v.world)
    requires FreedIn(v, f.ring) == 0
    ensures f'.ring == f.ring
  {
    hide KeptWorld, KeptLists, Staying, WorldOk, SubWorld, FreedIn, Reclaimed;
    var kw := KeptWorld(v.world, v.free);
    FreedInPositive(v, f.ring);
    forall c | c in f.ring
      ensures !(c in kw && kw[c] == map[])
    {
      if c != f.ring[0] {
        var s: nat :| s in v.world[c];
        KeptRun(v.world, v.free, c, s);
      }
    }
    StayingAll(kw, f.ring);
  }

  // ------------------------------------------------------ what exactly a collection frees

  /** A small run, of a bin other than 0, whose elements are all on the free list. */
  ghost predicate Collectable(v: View, c: nat, s: nat) {
    && c in v.world && s in v.world[c] && v.world[c][s].Small?
    && var b := v.world[c][s].bin;
       && 0 < b < BINS == |v.free|
       && forall k: nat :: k < BinElements(b) ==> Slot(c, s, b, k) in v.free[b]
  }

  /** The runs that a collection gives back are exactly those whose elements are all free. */
  lemma ReclaimedExactly(v: View, c: nat, s: nat)
    requires WorldOk(v.world) && FreeOk(v.world, v.free)
    ensures Reclaimed(v.world, v.free, c, s) <==> Collectable(v, c, s)
  {
    hide BinElements, Count;
    if c in v.world && s in v.world[c] && v.world[c][s].Small? {
      var b := v.world[c][s].bin;
      assert RunsOk(v.world[c]) && RunValid(v.world[c][s]);
      assert ListOk(v.world, b, v.free[b]);
      CountBounds(v.world, b, v.free[b], c, s);
      BinTable(b);
    }
  }

  /** After a collection, a run exists exactly if it did before and was not all free. */
  ghost predicate FreedExactly(v: View, v': View) {
    forall c: nat, s: nat, r: Run :: HasRun(v'.world, c, s, r) <==> HasRun(v.world, c, s, r) && !Collectable(v, c, s)
  }

  lemma CollectedExactly(f: Fields, mem: Memory, v: View, f': Fields, mem': Memory, v': View)
    requires Agree(f, mem, v) && Agree(f', mem', v')
    requires RunsKnown(v, f.ring) && Collected(v, f.ring, v', f'.ring)
    ensures FreedExactly(v, v')
  {
    hide KeptWorld, KeptLists, Staying, WorldOk, ListOk, HugeOk, LiveOk, ChunksOk, LinksOk, HugeListOk, NodesOk,
         Reclaimed, Collectable;
    forall c: nat, s: nat, r: Run
      ensures HasRun(v'.world, c, s, r) <==> HasRun(v.world, c, s, r) && !Collectable(v, c, s)
    {
      ReclaimedExactly(v, c, s);
      KeptRun(v.world, v.free, c, s);
      StayingMembers(KeptWorld(v.world, v.free), f.ring, c);
    }
  }

  /** The ring and the runs of its chunks are the same. */
  ghost predicate SameOnRing(ring: seq<nat>, w: World, ring': seq<nat>, w': World) {
    ring' == ring && forall c :: c in ring ==> c in w && c in w' && w'[c] == w[c]
  }

  /** A collection reports nothing exactly if there is nothing to collect. */
  lemma NothingReported(f: Fields, mem: Memory, v: View)
    requires Agree(f, mem, v) && RunsKnown(v, f.ring)
    ensures FreedIn(v, f.ring) == 0 <==> NothingToCollect(v)
  {
    hide FreedIn, WorldOk, InventoryOk, ChunksOk, LinksOk, HugeListOk, NodesOk;
    FreedInPositive(v, f.ring);
    forall c: nat, s: nat | Reclaimed(v.world, v.free, c, s)
      ensures c in f.ring
    {
    }
  }

  /** With nothing to collect, a collection leaves all runs alone. */
  lemma NothingChanged(f: Fields, mem: Memory, v: View, f': Fields, mem': Memory, v': View)
    requires Agree(f, mem, v) && Agree(f', mem', v') && MainKept(f, v) && NoneEmpty(f.ring, v.world)
    requires RunsKnown(v, f.ring) && Collected(v, f.ring, v', f'.ring) && NothingToCollect(v)
    ensures SameOnRing(f.ring, v.world, f'.ring, v'.world)
  {
    hide FreedIn, WorldOk, InventoryOk, ChunksOk, LinksOk, HugeListOk, NodesOk, Reclaimed, Collectable, MainKept,
         NoneEmpty, Collected;
    NothingReported(f, mem, v);
    CollectedNothing(f, v, f', v');
    CollectedExactly(f, mem, v, f', mem', v');
    forall c | c in f.ring
      ensures c in v.world && c in v'.world && v'.world[c] == v.world[c]
    {
      forall s: nat
        ensures s in v'.world[c] <==> s in v.world[c]
        ensures s in v.world[c] ==> v'.world[c][s] == v.world[c][s]
      {
        SameRunAt(f, mem, v, v', c, s);
      }
    }
  }

  lemma SameRunAt(f: Fields, mem: Memory, v: View, v': View, c: nat, s: nat)
    requires Agree(f, mem, v) && NothingToCollect(v) && FreedExactly(v, v') && c in v.world && c in v'.world
    ensures s in v'.world[c] <==> s in v.world[c]
    ensures s in v.world[c] ==> v'.world[c][s] == v.world[c][s]
  {
    hide Reclaimed, Collectable, ChunksOk, LinksOk, HugeListOk, NodesOk, HugeOk, LiveOk, RingOk;
    ReclaimedExactly(v, c, s);
    if s in v.world[c] {
      assert HasRun(v.world, c, s, v.world[c][s]);
    }
    if s in v'.world[c] {
      assert HasRun(v'.world, c, s, v'.world[c][s]);
    }
  }

  /** Two collections in a row free no more than the first. */
  lemma FreedTwice(f: Fields, mem: Memory, v0: View, v1: View, v2: View)
    requires Agree(f, mem, v1) && NothingToCollect(v1) && FreedExactly(v0, v1) && FreedExactly(v1, v2)
    ensures FreedExactly(v0, v2)
  {
    hide Reclaimed, Collectable, ChunksOk, LinksOk, HugeListOk, NodesOk, HugeOk, LiveOk, RingOk;
    forall c: nat, s: nat, r: Run
      ensures HasRun(v2.world, c, s, r) <==> HasRun(v1.world, c, s, r)
    {
      ReclaimedExactly(v1, c, s);
    }
  }
}
