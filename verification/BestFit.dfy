/** The page search of one chunk: a word-skipping best-fit scan of the page bitset. */
module BestFit {
  import opened Words
  import opened Bitset

  function Pages(bits: seq<Word>): nat {
    WORD_BITS * |bits|
  }

  // ------------------------------------------------------------ what is searched

  /** `s <= p < e` is a maximal run of free pages. */
  ghost predicate MaxFree(bits: seq<Word>, s: nat, e: nat) {
    && s < e <= Pages(bits)
    && (forall p: nat :: s <= p < e ==> !Used(bits, p))
    && (s == 0 || Used(bits, s - 1))
    && (e == Pages(bits) || Used(bits, e))
  }

  ghost predicate Fits(bits: seq<Word>, count: nat, s: nat, e: nat) {
    MaxFree(bits, s, e) && e - s >= count
  }

  /** The earliest among the shortest maximal free runs of at least `count` pages. */
  ghost predicate IsBest(bits: seq<Word>, count: nat, s: nat, e: nat) {
    && Fits(bits, count, s, e)
    && (forall s': nat, e': nat :: Fits(bits, count, s', e') ==>
          e - s < e' - s' || (e - s == e' - s' && s <= s'))
  }

  /** Some maximal free run of exactly `count` pages ends before the last page. */
  ghost predicate ExactInside(bits: seq<Word>, count: nat) {
    exists s: nat, e: nat :: e < Pages(bits) && MaxFree(bits, s, e) && e - s == count
  }

  /** No run of used pages starts at or after `tail`. */
  ghost predicate TailBound(bits: seq<Word>, tail: nat) {
    forall p: nat :: 0 < p && tail <= p < Pages(bits) && Used(bits, p) ==> Used(bits, p - 1)
  }

  // ----------------------------------------------------- one word of the bitset

  lemma UsedAt(bits: seq<Word>, wi: nat, k: nat)
    requires wi < |bits| && k < WORD_BITS
    ensures WORD_BITS * wi + k < Pages(bits)
    ensures Used(bits, WORD_BITS * wi + k) <==> Bit(bits[wi], k)
  {
    hide Bit;
    assert (WORD_BITS * wi + k) / WORD_BITS == wi && (WORD_BITS * wi + k) % WORD_BITS == k;
  }

  /** `tmp` is word `wi` with every bit below page `q` set. */
  ghost predicate Filled(bits: seq<Word>, wi: nat, q: nat, tmp: Word)
    requires wi < |bits|
  {
    forall k: nat :: k < WORD_BITS ==>
      (Bit(tmp, k) <==> WORD_BITS * wi + k < q || Bit(bits[wi], k))
  }

  /** `tmp` is word `wi` with every bit up to page `page` cleared. */
  ghost predicate Cleared(bits: seq<Word>, wi: nat, page: nat, tmp: Word)
    requires wi < |bits|
  {
    forall k: nat :: k < WORD_BITS ==>
      (Bit(tmp, k) <==> WORD_BITS * wi + k > page && Bit(bits[wi], k))
  }

  ghost predicate AllUsed(bits: seq<Word>, from: nat, to: nat)
    requires to <= Pages(bits)
  {
    forall p: nat :: from <= p < to ==> Used(bits, p)
  }

  ghost predicate AllFree(bits: seq<Word>, from: nat, to: nat)
    requires to <= Pages(bits)
  {
    forall p: nat :: from <= p < to ==> !Used(bits, p)
  }

  lemma FullWord(bits: seq<Word>, wi: nat, q: nat)
    requires wi < |bits| && WORD_BITS * wi <= q && Filled(bits, wi, q, ONES)
    ensures AllUsed(bits, q, WORD_BITS * wi + WORD_BITS)
  {
    hide Bit;
    forall p: nat | q <= p < WORD_BITS * wi + WORD_BITS
      ensures Used(bits, p)
    {
      var k := p - WORD_BITS * wi;
      UsedAt(bits, wi, k);
      BitUniform(k);
    }
  }

  lemma FirstClear(bits: seq<Word>, wi: nat, q: nat, tmp: Word)
    requires wi < |bits| && WORD_BITS * wi <= q && Filled(bits, wi, q, tmp) && tmp != ONES
    ensures var page := WORD_BITS * wi + Nts(tmp);
      && q <= page < WORD_BITS * wi + WORD_BITS
      && AllUsed(bits, q, page) && !Used(bits, page)
      && Cleared(bits, wi, page, ClearLow(tmp))
  {
    hide Bit, Nts, TrailingOnes, ClearLow;
    NtsIsTrailingOnes(tmp);
    var n := Nts(tmp);
    var page := WORD_BITS * wi + n;
    TrailingOnesBits(tmp, n);
    UsedAt(bits, wi, n);
    forall p: nat | q <= p < page
      ensures Used(bits, p)
    {
      TrailingOnesBits(tmp, p - WORD_BITS * wi);
      UsedAt(bits, wi, p - WORD_BITS * wi);
    }
    forall k: nat | k < WORD_BITS
      ensures Bit(ClearLow(tmp), k) <==> WORD_BITS * wi + k > page && Bit(bits[wi], k)
    {
      ClearLowBits(tmp, k);
    }
  }

  lemma EmptyWord(bits: seq<Word>, wi: nat, page: nat)
    requires wi < |bits| && Cleared(bits, wi, page, 0)
    requires page < WORD_BITS * wi + WORD_BITS
    requires WORD_BITS * wi > page ==> AllFree(bits, page, WORD_BITS * wi)
    requires page < Pages(bits) && !Used(bits, page)
    ensures AllFree(bits, page, WORD_BITS * wi + WORD_BITS)
  {
    hide Bit;
    forall p: nat | page <= p < WORD_BITS * wi + WORD_BITS
      ensures !Used(bits, p)
    {
      if p >= WORD_BITS * wi && p != page {
        UsedAt(bits, wi, p - WORD_BITS * wi);
        BitUniform(p - WORD_BITS * wi);
      }
    }
  }

  lemma FirstSet(bits: seq<Word>, wi: nat, page: nat, tmp: Word)
    requires wi < |bits| && Cleared(bits, wi, page, tmp) && tmp != 0
    requires WORD_BITS * wi > page ==> AllFree(bits, page, WORD_BITS * wi)
    requires page < Pages(bits) && !Used(bits, page)
    ensures var e := WORD_BITS * wi + Ntz(tmp);
      && page < e < WORD_BITS * wi + WORD_BITS
      && AllFree(bits, page, e) && Used(bits, e)
      && Filled(bits, wi, e, FillLow(tmp))
  {
    hide Bit, Ntz, TrailingZeros, FillLow;
    NtzIsTrailingZeros(tmp);
    var n := Ntz(tmp);
    var e := WORD_BITS * wi + n;
    TrailingZerosBits(tmp, n);
    UsedAt(bits, wi, n);
    forall p: nat | page <= p < e
      ensures !Used(bits, p)
    {
      if p >= WORD_BITS * wi && p != page {
        TrailingZerosBits(tmp, p - WORD_BITS * wi);
        UsedAt(bits, wi, p - WORD_BITS * wi);
      }
    }
    forall k: nat | k < WORD_BITS
      ensures Bit(FillLow(tmp), k) <==> WORD_BITS * wi + k < e || Bit(bits[wi], k)
    {
      FillLowBits(tmp, k);
    }
  }

  lemma LoadWord(bits: seq<Word>, wi: nat, q: nat)
    requires wi < |bits| && q <= WORD_BITS * wi
    ensures Filled(bits, wi, q, bits[wi])
    ensures q < WORD_BITS * wi ==> Cleared(bits, wi, q, bits[wi])
  {
  }

  // ------------------------------------------------------------- the whole scan

  predicate Taken(bits: seq<Word>, p: int) {
    0 <= p < Pages(bits) && Used(bits, p)
  }

  /** No free run crosses page `q`. */
  ghost predicate Boundary(bits: seq<Word>, q: nat) {
    q <= Pages(bits) && (q == 0 || q == Pages(bits) || Used(bits, q - 1) || Used(bits, q))
  }

  /** `best` and `bestLen` summarise the free runs that end at or before page `q`. */
  ghost predicate Scanned(bits: seq<Word>, count: nat, q: nat, best: int, bestLen: nat) {
    if best < 0 then
      bestLen == Pages(bits) && (forall s: nat, e: nat :: Fits(bits, count, s, e) ==> e > q)
    else
      && best > 0 && bestLen > count && best + bestLen <= q
      && MaxFree(bits, best, best + bestLen)
      && (forall s: nat, e: nat :: Fits(bits, count, s, e) && e <= q ==>
            bestLen < e - s || (bestLen == e - s && best <= s))
  }

  lemma NoRunAcross(bits: seq<Word>, q: nat, s: nat, e: nat)
    requires Boundary(bits, q) && MaxFree(bits, s, e)
    ensures e <= q || q <= s
  {
    assert s < q < e ==> !Taken(bits, q - 1) && !Taken(bits, q);
  }

  lemma UsedBoundary(bits: seq<Word>, q: nat)
    requires q < Pages(bits) && Used(bits, q)
    ensures Boundary(bits, q)
  {
  }

  /** Skipping used pages keeps the summary. */
  lemma SkipUsed(bits: seq<Word>, count: nat, q: nat, q': nat, best: int, bestLen: nat)
    requires Boundary(bits, q) && Scanned(bits, count, q, best, bestLen)
    requires q < q' <= Pages(bits) && AllUsed(bits, q, q')
    ensures Boundary(bits, q') && Scanned(bits, count, q', best, bestLen)
  {
    assert Used(bits, q' - 1);
    forall s: nat, e: nat | Fits(bits, count, s, e) && e <= q'
      ensures e <= q
    {
      assert !Used(bits, e - 1);
    }
  }

  /** A free page right after the scanned part starts a maximal free run. */
  lemma RunFound(bits: seq<Word>, q: nat, page: nat, e: nat)
    requires |bits| > 0 && Used(bits, 0) && Boundary(bits, q)
    requires q <= page < e <= Pages(bits) && AllUsed(bits, q, page) && AllFree(bits, page, e)
    requires e == Pages(bits) || Used(bits, e)
    ensures page > 0 && MaxFree(bits, page, e)
  {
    assert !Used(bits, page);
    assert page > q ==> Used(bits, page - 1);
  }

  lemma SameStart(bits: seq<Word>, s: nat, e: nat, e': nat)
    requires MaxFree(bits, s, e) && MaxFree(bits, s, e')
    ensures e == e'
  {
    assert e < e' ==> !Taken(bits, e);
    assert e' < e ==> !Taken(bits, e');
  }

  /** The next maximal run after the scanned part is the only one up to its end. */
  lemma OnlyNext(bits: seq<Word>, q: nat, page: nat, e: nat, s': nat, e': nat)
    requires MaxFree(bits, page, e) && MaxFree(bits, s', e') && e' <= e
    requires Boundary(bits, q) && q <= page && AllUsed(bits, q, page)
    ensures e' <= q || (s' == page && e' == e)
  {
    NoRunAcross(bits, q, s', e');
    assert !Used(bits, s') && (s' > 0 ==> Used(bits, s' - 1));
    assert page < s' ==> !Taken(bits, s' - 1);
    if s' == page {
      SameStart(bits, page, e, e');
    }
  }

  /** Taking the next run into account extends the summary to its end. */
  lemma ScanRun(bits: seq<Word>, count: nat, q: nat, page: nat, e: nat, best: int, bestLen: nat)
    requires MaxFree(bits, page, e) && page > 0
    requires Boundary(bits, q) && q <= page && AllUsed(bits, q, page)
    requires Scanned(bits, count, q, best, bestLen)
    requires e - page != count
    ensures if e - page >= count && e - page < bestLen
            then Scanned(bits, count, e, page, e - page)
            else Scanned(bits, count, e, best, bestLen)
  {
    forall s': nat, e': nat | Fits(bits, count, s', e') && e' <= e
      ensures e' <= q || (s' == page && e' == e)
    {
      OnlyNext(bits, q, page, e, s', e');
    }
  }

  /** A run of exactly the wanted length that is met first is the best one. */
  lemma ExactIsBest(bits: seq<Word>, count: nat, q: nat, page: nat, e: nat, best: int, bestLen: nat)
    requires MaxFree(bits, page, e) && e - page == count
    requires Boundary(bits, q) && q <= page && AllUsed(bits, q, page)
    requires Scanned(bits, count, q, best, bestLen)
    ensures IsBest(bits, count, page, e)
  {
    forall s': nat, e': nat | Fits(bits, count, s', e')
      ensures e - page < e' - s' || (e - page == e' - s' && page <= s')
    {
      assert s' < e';
      if e' <= e {
        OnlyNext(bits, q, page, e, s', e');
      } else {
        NoRunAcross(bits, q, s', e');
        StartAfter(bits, q, page, e, s', e');
      }
    }
  }

  lemma StartAfter(bits: seq<Word>, q: nat, page: nat, e: nat, s': nat, e': nat)
    requires MaxFree(bits, page, e) && MaxFree(bits, s', e') && q <= s'
    requires q <= page && AllUsed(bits, q, page)
    ensures page <= s'
  {
    assert !Used(bits, s');
  }

  /** After the last used page the trailing run is the only one left. */
  lemma {:induction false} TrailingFree(bits: seq<Word>, tail: nat, i: nat, p: nat)
    requires TailBound(bits, tail) && 0 < i && tail <= i <= p < Pages(bits)
    requires !Used(bits, i - 1)
    ensures !Used(bits, p)
    decreases p
  {
    if i < p {
      TrailingFree(bits, tail, i, p - 1);
    }
  }

  /** The trailing run against the summary of all the others. */
  lemma TrailingChoice(bits: seq<Word>, count: nat, q: nat, page: nat, best: int, bestLen: nat)
    requires MaxFree(bits, page, Pages(bits)) && page > 0
    requires Boundary(bits, q) && q <= page && AllUsed(bits, q, page)
    requires Scanned(bits, count, q, best, bestLen)
    ensures var len := Pages(bits) - page;
      if len >= count && len < bestLen then IsBest(bits, count, page, Pages(bits))
      else if best > 0 then IsBest(bits, count, best, best + bestLen)
      else forall s: nat, e: nat :: !Fits(bits, count, s, e)
  {
    forall s': nat, e': nat | Fits(bits, count, s', e')
      ensures e' <= q || (s' == page && e' == Pages(bits))
    {
      OnlyNext(bits, q, page, Pages(bits), s', e');
    }
  }

  lemma NoExactBefore(bits: seq<Word>, count: nat, q: nat, page: nat, best: int, bestLen: nat)
    requires MaxFree(bits, page, Pages(bits))
    requires Boundary(bits, q) && q <= page && AllUsed(bits, q, page)
    requires Scanned(bits, count, q, best, bestLen)
    ensures !ExactInside(bits, count)
    ensures forall t: nat :: MaxFree(bits, t, Pages(bits)) ==> t == page
  {
    forall s': nat, e': nat | e' < Pages(bits) && MaxFree(bits, s', e')
      ensures e' - s' != count
    {
      OnlyNext(bits, q, page, Pages(bits), s', e');
      assert e' - s' == count ==> Fits(bits, count, s', e');
    }
    forall t: nat | MaxFree(bits, t, Pages(bits))
      ensures t == page
    {
      OnlyNext(bits, q, page, Pages(bits), t, Pages(bits));
    }
  }

  /** What the scan leaves in `free_tail`. */
  ghost predicate TailAfter(bits: seq<Word>, count: nat, tail: nat, found: bool, page: nat, tail': nat)
    requires |bits| > 0
  {
    if ExactInside(bits, count) || Used(bits, Pages(bits) - 1) then tail' == tail
    else forall t: nat :: MaxFree(bits, t, Pages(bits)) ==>
      tail' == if found && page == t then t + count else t
  }

  lemma ScanStart(bits: seq<Word>, count: nat)
    requires |bits| > 0 && Used(bits, 0) && count >= 1
    ensures Boundary(bits, 0) && Scanned(bits, count, 0, -1, Pages(bits))
    ensures Filled(bits, 0, 0, bits[0])
  {
    LoadWord(bits, 0, 0);
  }

  /** Every page has been scanned and the last one is used. */
  lemma ScanEnd(bits: seq<Word>, count: nat, tail: nat, q: nat, best: int, bestLen: nat)
    requires q < Pages(bits) && AllUsed(bits, q, Pages(bits))
    requires Scanned(bits, count, Pages(bits), best, bestLen)
    ensures if best > 0 then IsBest(bits, count, best, best + bestLen)
            else forall s: nat, e: nat :: !Fits(bits, count, s, e)
    ensures forall found, page: nat :: TailAfter(bits, count, tail, found, page, tail)
  {
    assert Used(bits, Pages(bits) - 1);
  }

  lemma ExactTail(bits: seq<Word>, count: nat, tail: nat, page: nat, e: nat)
    requires |bits| > 0 && e < Pages(bits) && MaxFree(bits, page, e) && e - page == count
    ensures TailAfter(bits, count, tail, true, page, tail)
  {
    assert ExactInside(bits, count);
  }

  /** Free pages up to `tail` are free to the end of the chunk. */
  lemma TrailingRun(bits: seq<Word>, q: nat, page: nat, tail: nat, i: nat)
    requires |bits| > 0 && Used(bits, 0) && Boundary(bits, q) && TailBound(bits, tail)
    requires q <= page < i <= Pages(bits) && AllUsed(bits, q, page) && AllFree(bits, page, i)
    requires i >= tail || i == Pages(bits)
    ensures page > 0 && MaxFree(bits, page, Pages(bits))
  {
    assert !Used(bits, i - 1);
    forall p: nat | i <= p < Pages(bits)
      ensures !Used(bits, p)
    {
      TrailingFree(bits, tail, i, p);
    }
    RunFound(bits, q, page, Pages(bits));
  }

  lemma TrailingTail(bits: seq<Word>, count: nat, tail: nat, q: nat, page: nat, best: int, bestLen: nat)
    requires |bits| > 0 && MaxFree(bits, page, Pages(bits))
    requires Boundary(bits, q) && q <= page && AllUsed(bits, q, page)
    requires Scanned(bits, count, q, best, bestLen)
    ensures TailAfter(bits, count, tail, true, page, page + count)
    ensures best > 0 ==> TailAfter(bits, count, tail, true, best, page)
    ensures TailAfter(bits, count, tail, false, 0, page)
  {
    NoExactBefore(bits, count, q, page, best, bestLen);
    assert !Used(bits, Pages(bits) - 1);
  }

  /** The best-fit loop of zend_mm_alloc_pages on one chunk. */
  method Search(bits: seq<Word>, freeTail: nat, count: nat)
    returns (found: bool, page: nat, tail: nat)
    requires |bits| > 0 && Used(bits, 0) && count >= 1
    requires TailBound(bits, freeTail)
    ensures found ==> exists e: nat :: IsBest(bits, count, page, e)
    ensures !found ==> forall s: nat, e: nat :: !Fits(bits, count, s, e)
    ensures TailAfter(bits, count, freeTail, found, page, tail)
  {
    hide Bit, Nts, Ntz, ClearLow, FillLow, Used, Filled, Cleared, Scanned, IsBest, Fits, MaxFree, TailAfter, Boundary,
         AllUsed, AllFree, TailBound;
    tail := freeTail;
    var best: int := -1;
    var bestLen: nat := Pages(bits);
    var wi: nat := 0;
    var tmp := bits[0];
    ghost var q: nat := 0;
    ScanStart(bits, count);
    while true
      invariant wi < |bits| && WORD_BITS * wi <= q < WORD_BITS * wi + WORD_BITS
      invariant Filled(bits, wi, q, tmp) && Boundary(bits, q)
      invariant Scanned(bits, count, q, best, bestLen)
      invariant tail == freeTail
      decreases Pages(bits) - q
    {
      ghost var q0 := q;
      // skip allocated blocks
      while tmp == ONES
        invariant wi < |bits| && WORD_BITS * wi <= q < WORD_BITS * wi + WORD_BITS && q0 <= q
        invariant Filled(bits, wi, q, tmp) && Boundary(bits, q)
        invariant Scanned(bits, count, q, best, bestLen)
        decreases |bits| - wi
      {
        FullWord(bits, wi, q);
        SkipUsed(bits, count, q, WORD_BITS * wi + WORD_BITS, best, bestLen);
        wi := wi + 1;
        if wi == |bits| {
          ScanEnd(bits, count, freeTail, q, best, bestLen);
          if best > 0 {
            return true, best, tail;
          } else {
            return false, 0, tail;
          }
        }
        q := WORD_BITS * wi;
        tmp := bits[wi];
        LoadWord(bits, wi, q);
      }
      // find the first clear bit and skip free blocks
      FirstClear(bits, wi, q, tmp);
      page := WORD_BITS * wi + Nts(tmp);
      tmp := ClearLow(tmp);
      while tmp == 0
        invariant wi < |bits| && q <= page < WORD_BITS * wi + WORD_BITS
        invariant Cleared(bits, wi, page, tmp)
        invariant AllUsed(bits, q, page) && page < Pages(bits) && !Used(bits, page)
        invariant WORD_BITS * wi > page ==> AllFree(bits, page, WORD_BITS * wi)
        decreases |bits| - wi
      {
        EmptyWord(bits, wi, page);
        wi := wi + 1;
        var i := WORD_BITS * wi;
        if i >= freeTail || i == Pages(bits) {
          var len: nat := Pages(bits) - page;
          TrailingRun(bits, q, page, freeTail, i);
          TrailingChoice(bits, count, q, page, best, bestLen);
          TrailingTail(bits, count, freeTail, q, page, best, bestLen);
          if len >= count && len < bestLen {
            return true, page, page + count;
          } else if best > 0 {
            return true, best, page;
          } else {
            return false, 0, page;
          }
        }
        tmp := bits[wi];
        LoadWord(bits, wi, page);
      }
      // find the first set bit
      FirstSet(bits, wi, page, tmp);
      var e := WORD_BITS * wi + Ntz(tmp);
      var len: nat := e - page;
      RunFound(bits, q, page, e);
      if len == count {
        ExactIsBest(bits, count, q, page, e, best, bestLen);
        ExactTail(bits, count, freeTail, page, e);
        return true, page, tail;
      }
      ScanRun(bits, count, q, page, e, best, bestLen);
      if len >= count && len < bestLen {
        bestLen := len;
        best := page;
      }
      tmp := FillLow(tmp);
      q := e;
      UsedBoundary(bits, q);
    }
  }

}
