/** What a garbage collection does to the runs and the free lists. */
module Collection {
  import opened Bins
  import opened Chunks
  import opened Blocks
  import opened Inventory

  predicate OfRun(sl: Slot, c: nat, s: nat) {
    sl.chunk == c && sl.page == s
  }

  /** Number of slots of a list that belong to the run at page `s` of chunk `c`. */
  function Count(l: seq<Slot>, c: nat, s: nat): nat {
    if l == [] then 0
    else Count(l[..|l| - 1], c, s) + (if OfRun(l[|l| - 1], c, s) then 1 else 0)
  }

  /** The free counters that counting the lists leaves in chunk `c`. */
  ghost function Counters(w: World, lists: FreeLists, c: nat): (ctr: map<nat, nat>)
    requires c in w && |lists| == BINS && RunsOk(w[c])
    ensures forall s :: s in ctr <==> s in w[c] && w[c][s].Small?
    ensures forall s :: s in ctr ==> ctr[s] == Count(lists[w[c][s].bin], c, s)
  {
    map s | s in w[c] && w[c][s].Small? :: Count(lists[w[c][s].bin], c, s)
  }

  // ------------------------------------------------- counts are numbers of elements

  ghost function Indices(l: seq<Slot>, c: nat, s: nat): set<nat> {
    set k | 0 <= k < |l| && OfRun(l[k], c, s) :: l[k].index
  }

  ghost function Below(n: nat): (r: set<nat>)
    ensures |r| == n && forall k: nat :: k in r <==> k < n
  {
    if n == 0 then {} else Below(n - 1) + {n - 1}
  }

  lemma SubsetSize<T>(a: set<T>, b: set<T>)
    requires a <= b
    ensures |a| <= |b| && (|a| == |b| ==> a == b)
  {
    assert b == a + (b - a);
    assert |b| == |a| + |b - a|;
  }

  /** The slots of one run and bin differ in their index, so counting them counts indices. */
  lemma {:induction false} CountIsIndices(l: seq<Slot>, b: nat, c: nat, s: nat)
    requires NoDup(l) && forall k :: 0 <= k < |l| ==> l[k].bin == b
    ensures Count(l, c, s) == |Indices(l, c, s)|
  {
    if l == [] {
      assert Indices(l, c, s) == {};
    } else {
      var init, last := l[..|l| - 1], l[|l| - 1];
      CountIsIndices(init, b, c, s);
      if OfRun(last, c, s) {
        NewIndex(l, b, c, s);
      } else {
        assert Indices(l, c, s) == Indices(init, c, s) by {
          IndicesInit(l, c, s);
        }
      }
    }
  }

  lemma IndicesInit(l: seq<Slot>, c: nat, s: nat)
    requires l != []
    ensures Indices(l, c, s) == Indices(l[..|l| - 1], c, s)
      + (if OfRun(l[|l| - 1], c, s) then {l[|l| - 1].index} else {})
  {
    var init, last := l[..|l| - 1], l[|l| - 1];
    forall i | i in Indices(l, c, s)
      ensures i in Indices(init, c, s) || (OfRun(last, c, s) && i == last.index)
    {
      var k :| 0 <= k < |l| && OfRun(l[k], c, s) && l[k].index == i;
      if k < |l| - 1 {
        assert init[k] == l[k];
      }
    }
    forall i | i in Indices(init, c, s)
      ensures i in Indices(l, c, s)
    {
      var k :| 0 <= k < |init| && OfRun(init[k], c, s) && init[k].index == i;
      assert l[k] == init[k];
    }
    if OfRun(last, c, s) {
      assert l[|l| - 1] == last;
    }
  }

  lemma NewIndex(l: seq<Slot>, b: nat, c: nat, s: nat)
    requires l != [] && NoDup(l) && forall k :: 0 <= k < |l| ==> l[k].bin == b
    requires OfRun(l[|l| - 1], c, s)
    ensures l[|l| - 1].index !in Indices(l[..|l| - 1], c, s)
    ensures Indices(l, c, s) == Indices(l[..|l| - 1], c, s) + {l[|l| - 1].index}
  {
    IndicesInit(l, c, s);
    var init, last := l[..|l| - 1], l[|l| - 1];
    forall k | 0 <= k < |init| && OfRun(init[k], c, s)
      ensures init[k].index != last.index
    {
      assert l[k] != last;
    }
  }

  /** A run never has more free slots than elements, and as many only if all its elements are free. */
  lemma CountBounds(w: World, b: nat, l: seq<Slot>, c: nat, s: nat)
    requires ListOk(w, b, l) && b < BINS && c in w && s in w[c] && w[c][s] == Small(b)
    ensures Count(l, c, s) <= BinElements(b)
    ensures Count(l, c, s) == BinElements(b) <==> forall k: nat :: k < BinElements(b) ==> Slot(c, s, b, k) in l
  {
    hide BinElements;
    CountIsIndices(l, b, c, s);
    assert Indices(l, c, s) <= Below(BinElements(b));
    SubsetSize(Indices(l, c, s), Below(BinElements(b)));
    if Count(l, c, s) == BinElements(b) {
      forall k: nat | k < BinElements(b)
        ensures Slot(c, s, b, k) in l
      {
        assert k in Indices(l, c, s);
        var j :| 0 <= j < |l| && OfRun(l[j], c, s) && l[j].index == k;
        assert l[j] == Slot(c, s, b, k);
      }
    }
    if forall k: nat :: k < BinElements(b) ==> Slot(c, s, b, k) in l {
      AllIndices(l, b, c, s, BinElements(b));
      assert Indices(l, c, s) == Below(BinElements(b));
    }
  }

  lemma AllIndices(l: seq<Slot>, b: nat, c: nat, s: nat, n: nat)
    requires forall k: nat :: k < n ==> Slot(c, s, b, k) in l
    ensures Below(n) <= Indices(l, c, s)
  {
    forall k | k in Below(n)
      ensures k in Indices(l, c, s)
    {
      assert Slot(c, s, b, k) in l;
      var j :| 0 <= j < |l| && l[j] == Slot(c, s, b, k);
      assert OfRun(l[j], c, s) && l[j].index == k;
    }
  }

  lemma CountersInRange(w: World, free: FreeLists, c: nat)
    requires FreeOk(w, free) && c in w && RunsOk(w[c])
    ensures CountersOk(w[c], Counters(w, free, c))
  {
    hide BinElements, Len;
    forall s | s in Counters(w, free, c)
      ensures Counters(w, free, c)[s] <= BinElements(w[c][s].bin)
    {
      var b := w[c][s].bin;
      assert ListOk(w, b, free[b]);
      CountBounds(w, b, free[b], c, s);
    }
  }

  // ------------------------------------------------------------ the collected heap

  /** The run at page `s` of chunk `c` is given back: all its elements are free. */
  ghost predicate Reclaimed(w: World, free: FreeLists, c: nat, s: nat)
    requires |free| == BINS
  {
    && c in w && s in w[c] && RunValid(w[c][s]) && w[c][s].Small?
    && FullyFree(w[c][s], Count(free[w[c][s].bin], c, s))
  }

  /** The runs that a collection leaves. */
  ghost function KeptWorld(w: World, free: FreeLists): (w': World)
    requires |free| == BINS && WorldOk(w)
    ensures w'.Keys == w.Keys
  {
    map c | c in w :: Kept(w[c], Counters(w, free, c))
  }

  /** The part of a list whose runs stay. */
  ghost function KeptSlots(w: World, free: FreeLists, l: seq<Slot>): (r: seq<Slot>)
    requires |free| == BINS
  {
    if l == [] then []
    else
      var last := l[|l| - 1];
      KeptSlots(w, free, l[..|l| - 1]) + (if Reclaimed(w, free, last.chunk, last.page) then [] else [last])
  }

  ghost function KeptLists(w: World, free: FreeLists): (r: FreeLists)
    requires |free| == BINS
    ensures |r| == BINS
    ensures forall b :: 0 <= b < BINS ==> r[b] == KeptSlots(w, free, free[b])
  {
    seq(BINS, (b: nat) requires b < BINS => KeptSlots(w, free, free[b]))
  }

  lemma {:induction false} KeptSlotsMembers(w: World, free: FreeLists, l: seq<Slot>, x: Slot)
    requires |free| == BINS
    ensures x in KeptSlots(w, free, l) <==> x in l && !Reclaimed(w, free, x.chunk, x.page)
  {
    hide Reclaimed;
    if l != [] {
      KeptSlotsMembers(w, free, l[..|l| - 1], x);
      assert l == l[..|l| - 1] + [l[|l| - 1]];
    }
  }

  lemma {:induction false} KeptSlotsNoDup(w: World, free: FreeLists, l: seq<Slot>)
    requires |free| == BINS && NoDup(l)
    ensures NoDup(KeptSlots(w, free, l))
  {
    hide Reclaimed;
    if l != [] {
      var init, last := l[..|l| - 1], l[|l| - 1];
      KeptSlotsNoDup(w, free, init);
      KeptSlotsMembers(w, free, init, last);
      assert last !in init;
    }
  }

  lemma KeptRun(w: World, free: FreeLists, c: nat, s: nat)
    requires |free| == BINS && WorldOk(w)
    ensures c in w && s in w[c] && !Reclaimed(w, free, c, s) <==>
      c in KeptWorld(w, free) && s in KeptWorld(w, free)[c]
    ensures c in KeptWorld(w, free) && s in KeptWorld(w, free)[c] ==> KeptWorld(w, free)[c][s] == w[c][s]
  {
    hide Len, BinElements;
    if c in w && s in w[c] {
      assert RunsOk(w[c]);
    }
  }

  lemma KeptWorldOk(w: World, free: FreeLists)
    requires |free| == BINS && WorldOk(w)
    ensures WorldOk(KeptWorld(w, free))
  {
    hide RunsOk;
    forall c | c in w
      ensures RunsOk(KeptWorld(w, free)[c])
    {
      KeptRunsOk(w[c], Counters(w, free, c));
    }
  }

  lemma KeptRunsOk(rs: Runs, ctr: map<nat, nat>)
    requires RunsOk(rs)
    ensures RunsOk(Kept(rs, ctr))
  {
    hide Len, FullyFree;
    SubRuns(rs, Kept(rs, ctr));
  }

  lemma KeptListsOk(w: World, free: FreeLists)
    requires WorldOk(w) && FreeOk(w, free)
    ensures FreeOk(KeptWorld(w, free), KeptLists(w, free))
  {
    hide Reclaimed, KeptWorld, KeptSlots, WorldOk, BinElements;
    var w', free' := KeptWorld(w, free), KeptLists(w, free);
    forall b | 0 <= b < BINS
      ensures ListOk(w', b, free'[b])
    {
      assert ListOk(w, b, free[b]);
      KeptSlotsNoDup(w, free, free[b]);
      forall k | 0 <= k < |free'[b]|
        ensures SlotOk(w', free'[b][k]) && free'[b][k].bin == b
      {
        var sl := free'[b][k];
        KeptSlotsMembers(w, free, free[b], sl);
        KeptRun(w, free, sl.chunk, sl.page);
      }
    }
  }

  /** A collection changes neither which blocks are in use nor their sizes. */
  lemma CollectionKeepsUse(w: World, free: FreeLists, huge: map<nat, nat>, x: Block)
    requires WorldOk(w) && FreeOk(w, free)
    ensures InUse(KeptWorld(w, free), KeptLists(w, free), huge, x) <==> InUse(w, free, huge, x)
    ensures InUse(w, free, huge, x) && BlockOk(KeptWorld(w, free), huge, x) ==>
      BlockSize(KeptWorld(w, free), huge, x) == BlockSize(w, huge, x)
  {
    hide KeptWorld, KeptSlots, WorldOk, BinElements, BinSize, FullyFree;
    match x {
      case SmallBlock(sl) =>
        KeptRun(w, free, sl.chunk, sl.page);
        if SlotOk(w, sl) {
          KeptSlotsMembers(w, free, free[sl.bin], sl);
          if Reclaimed(w, free, sl.chunk, sl.page) {
            ReclaimedFree(w, free, sl);
          }
        }
      case LargeBlock(c, p) =>
        KeptRun(w, free, c, p);
      case HugeBlock(_) =>
    }
  }

  /** Every slot of a reclaimed run is on its free list. */
  lemma ReclaimedFree(w: World, free: FreeLists, sl: Slot)
    requires FreeOk(w, free) && SlotOk(w, sl) && Reclaimed(w, free, sl.chunk, sl.page)
    ensures sl in free[sl.bin]
  {
    hide BinElements;
    assert ListOk(w, sl.bin, free[sl.bin]);
    CountBounds(w, sl.bin, free[sl.bin], sl.chunk, sl.page);
  }

  /** A collection leaves every live block alone. */
  lemma CollectionKeepsLive(w: World, free: FreeLists, huge: map<nat, nat>, live: Live)
    requires InventoryOk(w, free, huge, live)
    ensures InventoryOk(KeptWorld(w, free), KeptLists(w, free), huge, live)
  {
    hide KeptWorld, KeptLists, BlockOk, BlockSize, ListOk, WorldOk;
    KeptWorldOk(w, free);
    KeptKeys(w, free);
    SameKeysHuge(w, KeptWorld(w, free), huge);
    KeptListsOk(w, free);
    forall x: Block
      ensures InUse(KeptWorld(w, free), KeptLists(w, free), huge, x) <==> InUse(w, free, huge, x)
      ensures InUse(w, free, huge, x) && BlockOk(KeptWorld(w, free), huge, x) ==>
        BlockSize(KeptWorld(w, free), huge, x) == BlockSize(w, huge, x)
    {
      CollectionKeepsUse(w, free, huge, x);
    }
    LiveKept(w, free, huge, live, KeptWorld(w, free), KeptLists(w, free), huge);
  }

  lemma KeptKeys(w: World, free: FreeLists)
    requires |free| == BINS && WorldOk(w)
    ensures KeptWorld(w, free).Keys == w.Keys
  {
  }
}
