/** The table of thread resources: every lock, unlock and access to the table is a step of a state
    machine, so that the steps of several threads can follow each other in any order. */
module Tsrm {

  /** A slot of a thread's storage: null, or a resource; every allocated resource has its own number. */
  datatype Slot = Null | Res(id: nat)

  datatype Entry = Entry(thread: nat, storage: seq<Slot>)

  datatype ResType = ResType(hasDtor: bool, done: bool)

  /** `kinds` lists the ids of the resources allocated so far; `freed` and `destructed` record what has
      happened to them, and `nullCalls` the destructor calls without a resource. */
  datatype Table = Table(buckets: seq<seq<Entry>>, types: seq<ResType>, kinds: seq<nat>,
                         freed: multiset<nat>, destructed: multiset<nat>, nullCalls: nat)

  // ------------------------------------------------------------------- the invariant

  /** How often resource `k` is in a slot. */
  function InStorage(st: seq<Slot>, k: nat): nat {
    if st == [] then 0 else InStorage(st[..|st| - 1], k) + if st[|st| - 1] == Res(k) then 1 else 0
  }

  function InChain(ch: seq<Entry>, k: nat): nat {
    if ch == [] then 0 else InChain(ch[..|ch| - 1], k) + InStorage(ch[|ch| - 1].storage, k)
  }

  function InBuckets(bs: seq<seq<Entry>>, k: nat): nat {
    if bs == [] then 0 else InBuckets(bs[..|bs| - 1], k) + InChain(bs[|bs| - 1], k)
  }

  /** The storage has a slot for every id, null exactly when the id is done; a resource is in the slot
      of the id that it was allocated for. */
  predicate StorageOk(st: seq<Slot>, types: seq<ResType>, kinds: seq<nat>) {
    && |st| == |types|
    && forall j :: 0 <= j < |st| ==>
         (st[j] == Null <==> types[j].done) && (st[j].Res? ==> st[j].id < |kinds| && kinds[st[j].id] == j)
  }

  /** The entries of a bucket: each thread at most once, and only threads with that hash value. */
  predicate ChainOk(ch: seq<Entry>, bucket: nat, size: nat, types: seq<ResType>, kinds: seq<nat>)
    requires size > 0
  {
    && (forall i :: 0 <= i < |ch| ==> ch[i].thread % size == bucket && StorageOk(ch[i].storage, types, kinds))
    && (forall i, j :: 0 <= i < j < |ch| ==> ch[i].thread != ch[j].thread)
  }

  predicate ChainsOk(bs: seq<seq<Entry>>, size: nat, types: seq<ResType>, kinds: seq<nat>)
    requires size > 0
  {
    forall b :: 0 <= b < |bs| ==> ChainOk(bs[b], b, size, types, kinds)
  }

  predicate HasDtor(types: seq<ResType>, kinds: seq<nat>, k: nat) {
    k < |kinds| && kinds[k] < |types| && types[kinds[k]].hasDtor
  }

  /** Every resource that was allocated is in one slot or has been freed once; it has been destructed
      exactly as often as it has been freed if its id has a destructor, and never otherwise. */
  predicate Conserved(tb: Table, k: nat) {
    && InBuckets(tb.buckets, k) + tb.freed[k] == (if k < |tb.kinds| then 1 else 0)
    && tb.destructed[k] == if HasDtor(tb.types, tb.kinds, k) then tb.freed[k] else 0
  }

  ghost predicate TableOk(tb: Table) {
    && |tb.buckets| > 0
    && ChainsOk(tb.buckets, |tb.buckets|, tb.types, tb.kinds)
    && (forall k :: 0 <= k < |tb.kinds| ==> tb.kinds[k] < |tb.types|)
    && (forall k: nat :: Conserved(tb, k))
  }

  /** Each thread has at most one entry, in its own bucket. */
  lemma OneEntry(tb: Table, b: nat, i: nat, c: nat, j: nat)
    requires TableOk(tb) && b < |tb.buckets| && c < |tb.buckets| && i < |tb.buckets[b]| && j < |tb.buckets[c]|
    requires tb.buckets[b][i].thread == tb.buckets[c][j].thread
    ensures b == c && i == j
  {
    hide Conserved, StorageOk;
    assert ChainOk(tb.buckets[b], b, |tb.buckets|, tb.types, tb.kinds);
    assert ChainOk(tb.buckets[c], c, |tb.buckets|, tb.types, tb.kinds);
  }

  /** More resources elsewhere do not matter to a chain. */
  lemma ChainOkMore(ch: seq<Entry>, b: nat, size: nat, types: seq<ResType>, kinds: seq<nat>, kinds': seq<nat>)
    requires size > 0 && ChainOk(ch, b, size, types, kinds) && kinds <= kinds'
    ensures ChainOk(ch, b, size, types, kinds')
  {
  }

  // ------------------------------------------------------------------ ts_allocate_id

  /** The loop of ts_allocate_id over one chain: every storage gets a slot for the new id `j`. */
  function EnlargeChain(ch: seq<Entry>, kinds: seq<nat>, j: nat): (r: (seq<Entry>, seq<nat>))
    ensures |r.0| == |ch| && r.1 == kinds + seq(|ch|, _ => j)
    ensures forall i :: 0 <= i < |ch| ==> r.0[i] == Entry(ch[i].thread, ch[i].storage + [Res(|kinds| + i)])
  {
    if ch == [] then ([], kinds)
    else
      var (init, ks) := EnlargeChain(ch[..|ch| - 1], kinds, j);
      var last := ch[|ch| - 1];
      (init + [Entry(last.thread, last.storage + [Res(|ks|)])], ks + [j])
  }

  function EnlargeBuckets(bs: seq<seq<Entry>>, kinds: seq<nat>, j: nat): (r: (seq<seq<Entry>>, seq<nat>))
    ensures |r.0| == |bs| && kinds <= r.1 && forall k :: |kinds| <= k < |r.1| ==> r.1[k] == j
  {
    if bs == [] then ([], kinds)
    else
      var (init, ks) := EnlargeBuckets(bs[..|bs| - 1], kinds, j);
      var (last, ks') := EnlargeChain(bs[|bs| - 1], ks, j);
      (init + [last], ks')
  }

  function AllocateId(tb: Table, hasDtor: bool): Table {
    var (bs, ks) := EnlargeBuckets(tb.buckets, tb.kinds, |tb.types|);
    tb.(buckets := bs, types := tb.types + [ResType(hasDtor, false)], kinds := ks)
  }

  lemma InStorageSnoc(st: seq<Slot>, x: Slot, k: nat)
    ensures InStorage(st + [x], k) == InStorage(st, k) + if x == Res(k) then 1 else 0
  {
    assert (st + [x])[..|st|] == st;
  }

  lemma {:induction false} EnlargeChainCount(ch: seq<Entry>, kinds: seq<nat>, j: nat, k: nat)
    ensures var r := EnlargeChain(ch, kinds, j);
      InChain(r.0, k) == InChain(ch, k) + if |kinds| <= k < |r.1| then 1 else 0
  {
    if ch != [] {
      var init, last := ch[..|ch| - 1], ch[|ch| - 1];
      EnlargeChainCount(init, kinds, j, k);
      var (init', ks) := EnlargeChain(init, kinds, j);
      InStorageSnoc(last.storage, Res(|ks|), k);
      var ch' := EnlargeChain(ch, kinds, j).0;
      assert ch'[..|ch'| - 1] == init';
    }
  }

  lemma {:induction false} EnlargeBucketsCount(bs: seq<seq<Entry>>, kinds: seq<nat>, j: nat, k: nat)
    ensures var r := EnlargeBuckets(bs, kinds, j);
      InBuckets(r.0, k) == InBuckets(bs, k) + if |kinds| <= k < |r.1| then 1 else 0
  {
    hide InChain, EnlargeChain;
    if bs != [] {
      var init := bs[..|bs| - 1];
      EnlargeBucketsCount(init, kinds, j, k);
      var (init', ks) := EnlargeBuckets(init, kinds, j);
      EnlargeChainCount(bs[|bs| - 1], ks, j, k);
      var bs' := EnlargeBuckets(bs, kinds, j).0;
      assert bs'[..|bs'| - 1] == init';
    }
  }

  lemma {:induction false} EnlargeBucketsOk(bs: seq<seq<Entry>>, kinds: seq<nat>, size: nat, types: seq<ResType>, t: ResType)
    requires size > 0 && !t.done && ChainsOk(bs, size, types, kinds)
    ensures var r := EnlargeBuckets(bs, kinds, |types|); ChainsOk(r.0, size, types + [t], r.1)
  {
    hide ChainOk, EnlargeChain;
    if bs != [] {
      var init, last := bs[..|bs| - 1], |bs| - 1;
      EnlargeBucketsOk(init, kinds, size, types, t);
      var (init', ks) := EnlargeBuckets(init, kinds, |types|);
      var (ch, ks') := EnlargeChain(bs[last], ks, |types|);
      ChainOkMore(bs[last], last, size, types, kinds, ks);
      EnlargeChainOk(bs[last], ks, last, size, types, t);
      ChainsOkMore(init', size, types + [t], ks, ks');
    }
  }

  lemma ChainsOkMore(bs: seq<seq<Entry>>, size: nat, types: seq<ResType>, kinds: seq<nat>, kinds': seq<nat>)
    requires size > 0 && ChainsOk(bs, size, types, kinds) && kinds <= kinds'
    ensures ChainsOk(bs, size, types, kinds')
  {
    forall b | 0 <= b < |bs|
      ensures ChainOk(bs[b], b, size, types, kinds')
    {
      ChainOkMore(bs[b], b, size, types, kinds, kinds');
    }
  }

  lemma EnlargeChainOk(ch: seq<Entry>, kinds: seq<nat>, b: nat, size: nat, types: seq<ResType>, t: ResType)
    requires size > 0 && !t.done && ChainOk(ch, b, size, types, kinds)
    ensures var r := EnlargeChain(ch, kinds, |types|); ChainOk(r.0, b, size, types + [t], r.1)
  {
    hide EnlargeChain;
  }

  lemma AllocateIdOk(tb: Table, hasDtor: bool)
    requires TableOk(tb)
    ensures TableOk(AllocateId(tb, hasDtor)) && |AllocateId(tb, hasDtor).types| == |tb.types| + 1
    ensures |AllocateId(tb, hasDtor).buckets| == |tb.buckets|
  {
    hide InBuckets, EnlargeBuckets, ChainOk;
    EnlargeBucketsOk(tb.buckets, tb.kinds, |tb.buckets|, tb.types, ResType(hasDtor, false));
    forall k: nat
      ensures Conserved(AllocateId(tb, hasDtor), k)
    {
      EnlargeBucketsCount(tb.buckets, tb.kinds, |tb.types|, k);
      assert Conserved(tb, k);
    }
  }

  // ------------------------------------------------------- allocate_new_resource

  /** A new storage: null for the ids that are done, a new resource for the others. */
  function NewStorage(types: seq<ResType>, kinds: seq<nat>): (r: (seq<Slot>, seq<nat>))
    ensures StorageOk(r.0, types, r.1) && kinds <= r.1
    ensures forall k :: |kinds| <= k < |r.1| ==> r.1[k] < |types|
  {
    if types == [] then ([], kinds)
    else
      var (init, ks) := NewStorage(types[..|types| - 1], kinds);
      if types[|types| - 1].done then (init + [Null], ks) else (init + [Res(|ks|)], ks + [|types| - 1])
  }

  lemma {:induction false} NewStorageCount(types: seq<ResType>, kinds: seq<nat>, k: nat)
    ensures var r := NewStorage(types, kinds); InStorage(r.0, k) == if |kinds| <= k < |r.1| then 1 else 0
  {
    if types != [] {
      NewStorageCount(types[..|types| - 1], kinds, k);
      var (init, ks) := NewStorage(types[..|types| - 1], kinds);
      InStorageSnoc(init, Null, k);
      InStorageSnoc(init, Res(|ks|), k);
    }
  }

  /** THREAD_HASH_OF */
  function Hash(thread: nat, size: nat): nat
    requires size > 0
  {
    thread % size
  }

  function ChainOf(tb: Table, thread: nat): seq<Entry>
    requires |tb.buckets| > 0
  {
    tb.buckets[Hash(thread, |tb.buckets|)]
  }

  predicate Lists(ch: seq<Entry>, thread: nat) {
    exists i :: 0 <= i < |ch| && ch[i].thread == thread
  }

  predicate HasEntry(tb: Table, thread: nat)
    requires |tb.buckets| > 0
  {
    Lists(ChainOf(tb, thread), thread)
  }

  lemma ListsSnoc(ch: seq<Entry>, e: Entry, u: nat)
    ensures Lists(ch + [e], u) <==> Lists(ch, u) || e.thread == u
  {
    if i :| 0 <= i < |ch| && ch[i].thread == u {
      assert (ch + [e])[i].thread == u;
    }
    assert (ch + [e])[|ch|] == e;
  }

  /** allocate_new_resource with the address of a link: the head of the chain if `at` is 0, else the
      link of the entry before `at`. What hung there before is lost. */
  function LinkEntry(tb: Table, thread: nat, at: nat): Table
    requires |tb.buckets| > 0 && at <= |ChainOf(tb, thread)|
  {
    var (st, ks) := NewStorage(tb.types, tb.kinds);
    tb.(buckets := tb.buckets[Hash(thread, |tb.buckets|) := ChainOf(tb, thread)[..at] + [Entry(thread, st)]], kinds := ks)
  }

  /** Replacing one bucket. */
  lemma {:induction false} InBucketsUpdate(bs: seq<seq<Entry>>, b: nat, ch: seq<Entry>, k: nat)
    requires b < |bs|
    ensures InBuckets(bs[b := ch], k) == InBuckets(bs, k) - InChain(bs[b], k) + InChain(ch, k)
  {
    hide InChain;
    var init, last := bs[..|bs| - 1], bs[|bs| - 1];
    if b < |bs| - 1 {
      InBucketsUpdate(init, b, ch, k);
      assert bs[b := ch][..|bs| - 1] == init[b := ch];
    } else {
      assert bs[b := ch][..|bs| - 1] == init;
    }
  }

  /** A new entry behind the last one of the chain. */
  lemma LinkEntryOk(tb: Table, thread: nat)
    requires TableOk(tb) && !HasEntry(tb, thread)
    ensures var tb' := LinkEntry(tb, thread, |ChainOf(tb, thread)|);
      TableOk(tb') && |tb'.buckets| == |tb.buckets| && tb'.types == tb.types
      && forall u: nat :: HasEntry(tb, u) || u == thread ==> HasEntry(tb', u)
  {
    hide InBuckets, StorageOk, NewStorage;
    var b := Hash(thread, |tb.buckets|);
    var (st, ks) := NewStorage(tb.types, tb.kinds);
    var tb' := LinkEntry(tb, thread, |tb.buckets[b]|);
    var ch := tb.buckets[b] + [Entry(thread, st)];
    assert tb.buckets[b][..|tb.buckets[b]|] == tb.buckets[b];
    ChainsOkMore(tb.buckets, |tb.buckets|, tb.types, tb.kinds, ks);
    assert ChainOk(ch, b, |tb.buckets|, tb.types, ks);
    forall u: nat
      ensures HasEntry(tb, u) || u == thread ==> HasEntry(tb', u)
    {
      hide Lists;
      ListsSnoc(tb.buckets[b], Entry(thread, st), u);
      assert ChainOf(tb', u) == if Hash(u, |tb.buckets|) == b then ch else ChainOf(tb, u);
    }
    forall k: nat
      ensures Conserved(tb', k)
    {
      assert Conserved(tb, k);
      InBucketsUpdate(tb.buckets, b, ch, k);
      assert ch[..|ch| - 1] == tb.buckets[b];
      NewStorageCount(tb.types, tb.kinds, k);
    }
  }

  // ------------------------------------------------------------------- ts_free_thread

  /** The resources of a storage for which ts_free_thread calls a destructor. */
  function Destructed(st: seq<Slot>, types: seq<ResType>): (r: multiset<nat>)
    requires |st| <= |types|
  {
    if st == [] then multiset{}
    else
      var last := |st| - 1;
      Destructed(st[..last], types)
      + if types[last].hasDtor && st[last].Res? then multiset{st[last].id} else multiset{}
  }

  function Freed(st: seq<Slot>): multiset<nat> {
    if st == [] then multiset{}
    else Freed(st[..|st| - 1]) + if st[|st| - 1].Res? then multiset{st[|st| - 1].id} else multiset{}
  }

  /** Destructor calls on null slots. */
  function NullCalls(st: seq<Slot>, types: seq<ResType>): nat
    requires |st| <= |types|
  {
    if st == [] then 0
    else NullCalls(st[..|st| - 1], types) + if types[|st| - 1].hasDtor && st[|st| - 1] == Null then 1 else 0
  }

  lemma {:induction false} FreedCount(st: seq<Slot>, k: nat)
    ensures Freed(st)[k] == InStorage(st, k)
  {
    if st != [] {
      FreedCount(st[..|st| - 1], k);
    }
  }

  /** Resources are in the slots of their ids. */
  predicate Placed(st: seq<Slot>, kinds: seq<nat>) {
    forall j :: 0 <= j < |st| && st[j].Res? ==> st[j].id < |kinds| && kinds[st[j].id] == j
  }

  lemma {:induction false} DestructedCount(st: seq<Slot>, types: seq<ResType>, kinds: seq<nat>, k: nat)
    requires |st| <= |types| && Placed(st, kinds)
    ensures Destructed(st, types)[k] == if HasDtor(types, kinds, k) then InStorage(st, k) else 0
  {
    if st != [] {
      DestructedCount(st[..|st| - 1], types, kinds, k);
    }
  }

  /** Position of the thread in its chain, or the length of the chain. */
  function FindIn(ch: seq<Entry>, thread: nat): (i: nat)
    ensures i <= |ch| && (i < |ch| ==> ch[i].thread == thread) && forall j :: 0 <= j < i ==> ch[j].thread != thread
  {
    if ch == [] || ch[0].thread == thread then 0 else 1 + FindIn(ch[1..], thread)
  }

  /** No storage has more slots than there are ids. */
  predicate Fits(bs: seq<seq<Entry>>, n: nat) {
    forall b, i :: 0 <= b < |bs| && 0 <= i < |bs[b]| ==> |bs[b][i].storage| == n
  }

  lemma TableFits(tb: Table)
    requires TableOk(tb)
    ensures Fits(tb.buckets, |tb.types|)
  {
    hide Conserved;
    forall b, i | 0 <= b < |tb.buckets| && 0 <= i < |tb.buckets[b]|
      ensures |tb.buckets[b][i].storage| == |tb.types|
    {
      assert ChainOk(tb.buckets[b], b, |tb.buckets|, tb.types, tb.kinds);
    }
  }

  function FreeThread(tb: Table, thread: nat): Table
    requires |tb.buckets| > 0 && Fits(tb.buckets, |tb.types|)
  {
    var b := Hash(thread, |tb.buckets|);
    var ch := tb.buckets[b];
    var i := FindIn(ch, thread);
    if i == |ch| then tb
    else
      var st := ch[i].storage;
      tb.(buckets := tb.buckets[b := ch[..i] + ch[i + 1..]],
          freed := tb.freed + Freed(st),
          destructed := tb.destructed + Destructed(st, tb.types),
          nullCalls := tb.nullCalls + NullCalls(st, tb.types))
  }

  lemma {:induction false} InChainWithout(ch: seq<Entry>, i: nat, k: nat)
    requires i < |ch|
    ensures InChain(ch, k) == InChain(ch[..i] + ch[i + 1..], k) + InStorage(ch[i].storage, k)
  {
    hide InStorage;
    var init, last := ch[..|ch| - 1], ch[|ch| - 1];
    var rest := ch[..i] + ch[i + 1..];
    if i < |ch| - 1 {
      InChainWithout(init, i, k);
      assert rest[..|rest| - 1] == init[..i] + init[i + 1..];
    } else {
      assert rest == init;
    }
  }

  lemma FreeThreadOk(tb: Table, thread: nat)
    requires TableOk(tb)
    ensures Fits(tb.buckets, |tb.types|) && |FreeThread(tb, thread).buckets| == |tb.buckets|
    ensures TableOk(FreeThread(tb, thread)) && FreeThread(tb, thread).types == tb.types
  {
    hide InBuckets, FindIn, Freed, Destructed, NullCalls;
    TableFits(tb);
    var b := Hash(thread, |tb.buckets|);
    var ch := tb.buckets[b];
    assert ChainOk(ch, b, |tb.buckets|, tb.types, tb.kinds);
    var i := FindIn(ch, thread);
    var tb' := FreeThread(tb, thread);
    if i < |ch| {
      var rest := ch[..i] + ch[i + 1..];
      assert ChainOk(rest, b, |tb.buckets|, tb.types, tb.kinds);
      forall k: nat
        ensures Conserved(tb', k)
      {
        assert Conserved(tb, k);
        InBucketsUpdate(tb.buckets, b, rest, k);
        InChainWithout(ch, i, k);
        FreedCount(ch[i].storage, k);
        DestructedCount(ch[i].storage, tb.types, tb.kinds, k);
      }
    }
  }

  /** The entry of the thread is gone, and no other. */
  lemma FreeThreadEntries(tb: Table, thread: nat, u: nat)
    requires TableOk(tb)
    ensures Fits(tb.buckets, |tb.types|) && |FreeThread(tb, thread).buckets| == |tb.buckets|
    ensures HasEntry(FreeThread(tb, thread), u) <==> HasEntry(tb, u) && u != thread
  {
    hide Conserved, StorageOk, FindIn, Freed, Destructed, NullCalls;
    TableFits(tb);
    var ch := ChainOf(tb, thread);
    assert ChainOk(ch, Hash(thread, |tb.buckets|), |tb.buckets|, tb.types, tb.kinds);
    var i := FindIn(ch, thread);
    if i < |ch| {
      WithoutOne(ch, i, u);
      var tb' := FreeThread(tb, thread);
      assert ChainOf(tb', u) ==
        if Hash(u, |tb.buckets|) == Hash(thread, |tb.buckets|) then ch[..i] + ch[i + 1..] else ChainOf(tb, u);
    }
  }

  lemma WithoutOne(ch: seq<Entry>, i: nat, u: nat)
    requires i < |ch| && forall i, j :: 0 <= i < j < |ch| ==> ch[i].thread != ch[j].thread
    ensures Lists(ch[..i] + ch[i + 1..], u) <==> Lists(ch, u) && u != ch[i].thread
  {
    var rest := ch[..i] + ch[i + 1..];
    if j :| 0 <= j < |rest| && rest[j].thread == u {
      assert ch[if j < i then j else j + 1].thread == u;
    }
    if j :| 0 <= j < |ch| && ch[j].thread == u && u != ch[i].thread {
      assert rest[if j < i then j else j - 1].thread == u;
    }
  }

  lemma {:induction false} NullCallsOfStorage(st: seq<Slot>, types: seq<ResType>)
    requires |st| <= |types| && forall i :: 0 <= i < |st| ==> (st[i] == Null <==> types[i].done)
    ensures NullCalls(st, types) > 0 <==> exists i :: 0 <= i < |st| && types[i].done && types[i].hasDtor
  {
    if st != [] {
      NullCallsOfStorage(st[..|st| - 1], types);
    }
  }

  /** ts_free_thread calls a destructor without a resource exactly when the thread has an entry and an
      id that has a destructor is already done. */
  lemma NullCallsExactly(tb: Table, thread: nat)
    requires TableOk(tb)
    ensures Fits(tb.buckets, |tb.types|) && FreeThread(tb, thread).nullCalls >= tb.nullCalls
    ensures FreeThread(tb, thread).nullCalls > tb.nullCalls
      <==> HasEntry(tb, thread) && exists j :: 0 <= j < |tb.types| && tb.types[j].done && tb.types[j].hasDtor
  {
    hide Conserved, Freed, Destructed, NullCalls, FindIn;
    TableFits(tb);
    var ch := ChainOf(tb, thread);
    assert ChainOk(ch, Hash(thread, |tb.buckets|), |tb.buckets|, tb.types, tb.kinds);
    var i := FindIn(ch, thread);
    if i < |ch| {
      NullCallsOfStorage(ch[i].storage, tb.types);
    }
  }

  /** It happens, whatever the table: an id with a destructor is allocated, a thread asks for its
      resources, the id is freed, and the thread ends. */
  lemma NullCallHappens(tb: Table, thread: nat)
    requires TableOk(tb) && !HasEntry(tb, thread)
    ensures var j, tb1 := |tb.types|, AllocateId(tb, true);
      && TableOk(tb1) && j < |tb1.types|
      && var tb2 := LinkEntry(tb1, thread, |ChainOf(tb1, thread)|);
         && TableOk(tb2) && j < |tb2.types| && Fits(tb2.buckets, |tb2.types|)
         && var tb3 := FreeId(tb2, j);
            && TableOk(tb3) && Fits(tb3.buckets, |tb3.types|) && FreeThread(tb3, thread).nullCalls > tb3.nullCalls
  {
    hide Conserved, ChainsOk, HasEntry, FreeThread, Fits;
    var j, tb1 := |tb.types|, AllocateId(tb, true);
    AllocateIdOk(tb, true);
    EnlargeEntries(tb, true, thread);
    LinkEntryOk(tb1, thread);
    var tb2 := LinkEntry(tb1, thread, |ChainOf(tb1, thread)|);
    FreeIdOk(tb2, j);
    var tb3 := FreeId(tb2, j);
    NullCallsExactly(tb3, thread);
    assert tb3.types[j].done && tb3.types[j].hasDtor;
  }

  // --------------------------------------------------------- ts_free_worker_threads

  function Mine(ch: seq<Entry>, thread: nat): (r: seq<Entry>) {
    if ch == [] then []
    else Mine(ch[..|ch| - 1], thread) + if ch[|ch| - 1].thread == thread then [ch[|ch| - 1]] else []
  }

  function Others(ch: seq<Entry>, thread: nat): (r: seq<Entry>) {
    if ch == [] then []
    else Others(ch[..|ch| - 1], thread) + if ch[|ch| - 1].thread != thread then [ch[|ch| - 1]] else []
  }

  function ChainFreed(ch: seq<Entry>): multiset<nat> {
    if ch == [] then multiset{} else ChainFreed(ch[..|ch| - 1]) + Freed(ch[|ch| - 1].storage)
  }

  predicate ChainFits(ch: seq<Entry>, n: nat) {
    forall i :: 0 <= i < |ch| ==> |ch[i].storage| == n
  }

  function ChainDestructed(ch: seq<Entry>, types: seq<ResType>): multiset<nat>
    requires ChainFits(ch, |types|)
  {
    if ch == [] then multiset{} else ChainDestructed(ch[..|ch| - 1], types) + Destructed(ch[|ch| - 1].storage, types)
  }

  function ChainNullCalls(ch: seq<Entry>, types: seq<ResType>): nat
    requires ChainFits(ch, |types|)
  {
    if ch == [] then 0 else ChainNullCalls(ch[..|ch| - 1], types) + NullCalls(ch[|ch| - 1].storage, types)
  }

  lemma {:induction false} ChainFreedCount(ch: seq<Entry>, k: nat)
    ensures ChainFreed(ch)[k] == InChain(ch, k)
  {
    if ch != [] {
      ChainFreedCount(ch[..|ch| - 1], k);
      FreedCount(ch[|ch| - 1].storage, k);
    }
  }

  lemma {:induction false} ChainDestructedCount(ch: seq<Entry>, types: seq<ResType>, kinds: seq<nat>, k: nat)
    requires ChainFits(ch, |types|) && forall i :: 0 <= i < |ch| ==> Placed(ch[i].storage, kinds)
    ensures ChainDestructed(ch, types)[k] == if HasDtor(types, kinds, k) then InChain(ch, k) else 0
  {
    if ch != [] {
      ChainDestructedCount(ch[..|ch| - 1], types, kinds, k);
      DestructedCount(ch[|ch| - 1].storage, types, kinds, k);
    }
  }

  /** A chain falls into the entries of a thread and the others. */
  lemma {:induction false} MineAndOthers(ch: seq<Entry>, thread: nat)
    ensures forall e :: e in Mine(ch, thread) <==> e in ch && e.thread == thread
    ensures forall e :: e in Others(ch, thread) <==> e in ch && e.thread != thread
  {
    if ch != [] {
      MineAndOthers(ch[..|ch| - 1], thread);
      assert ch == ch[..|ch| - 1] + [ch[|ch| - 1]];
    }
  }

  lemma InChainSnoc(ch: seq<Entry>, e: Entry, k: nat)
    ensures InChain(ch + [e], k) == InChain(ch, k) + InStorage(e.storage, k)
  {
    assert (ch + [e])[..|ch|] == ch;
  }

  lemma {:induction false} MineCount(ch: seq<Entry>, thread: nat, k: nat)
    ensures InChain(ch, k) == InChain(Mine(ch, thread), k) + InChain(Others(ch, thread), k)
  {
    hide InStorage;
    if ch != [] {
      var init, last := ch[..|ch| - 1], ch[|ch| - 1];
      MineCount(init, thread, k);
      InChainSnoc(Mine(init, thread), last, k);
      InChainSnoc(Others(init, thread), last, k);
      assert Mine(init, thread) + [] == Mine(init, thread) && Others(init, thread) + [] == Others(init, thread);
    }
  }

  /** A thread has at most one entry in its chain. */
  lemma {:induction false} MineSingle(ch: seq<Entry>, thread: nat)
    requires forall i, j :: 0 <= i < j < |ch| ==> ch[i].thread != ch[j].thread
    ensures |Mine(ch, thread)| <= 1
  {
    if ch != [] {
      var init, last := ch[..|ch| - 1], ch[|ch| - 1];
      MineSingle(init, thread);
      if Mine(init, thread) != [] {
        MineAndOthers(init, thread);
        assert Mine(init, thread)[0] in init;
      }
    }
  }

  /** ts_free_worker_threads: only the chain of the current thread is walked. */
  function FreeWorkers(tb: Table, thread: nat): Table
    requires |tb.buckets| > 0 && ChainFits(Others(ChainOf(tb, thread), thread), |tb.types|)
  {
    var ch := ChainOf(tb, thread);
    var others := Others(ch, thread);
    tb.(buckets := tb.buckets[Hash(thread, |tb.buckets|) := Mine(ch, thread)],
        freed := tb.freed + ChainFreed(others),
        destructed := tb.destructed + ChainDestructed(others, tb.types),
        nullCalls := tb.nullCalls + ChainNullCalls(others, tb.types))
  }

  lemma OthersFit(tb: Table, thread: nat)
    requires TableOk(tb)
    ensures ChainFits(Others(ChainOf(tb, thread), thread), |tb.types|)
    ensures forall i :: 0 <= i < |Others(ChainOf(tb, thread), thread)| ==>
      Placed(Others(ChainOf(tb, thread), thread)[i].storage, tb.kinds)
  {
    hide Conserved, Others;
    var ch := ChainOf(tb, thread);
    assert ChainOk(ch, Hash(thread, |tb.buckets|), |tb.buckets|, tb.types, tb.kinds);
    MineAndOthers(ch, thread);
    forall e | e in Others(ch, thread)
      ensures |e.storage| == |tb.types| && Placed(e.storage, tb.kinds)
    {
      assert e in ch;
    }
  }

  lemma MineOk(ch: seq<Entry>, thread: nat, b: nat, size: nat, types: seq<ResType>, kinds: seq<nat>)
    requires size > 0 && ChainOk(ch, b, size, types, kinds)
    ensures ChainOk(Mine(ch, thread), b, size, types, kinds)
  {
    hide Mine, StorageOk;
    MineAndOthers(ch, thread);
    MineSingle(ch, thread);
    forall i | 0 <= i < |Mine(ch, thread)|
      ensures Mine(ch, thread)[i] in ch
    {
    }
  }

  lemma FreeWorkersOk(tb: Table, thread: nat)
    requires TableOk(tb)
    ensures ChainFits(Others(ChainOf(tb, thread), thread), |tb.types|)
    ensures TableOk(FreeWorkers(tb, thread)) && FreeWorkers(tb, thread).types == tb.types
    ensures |FreeWorkers(tb, thread).buckets| == |tb.buckets|
  {
    hide InBuckets, InChain, Mine, Others, ChainFreed, ChainDestructed, ChainNullCalls, ChainOk, ChainFits, Placed;
    OthersFit(tb, thread);
    var b, ch := Hash(thread, |tb.buckets|), ChainOf(tb, thread);
    var tb' := FreeWorkers(tb, thread);
    MineOk(ch, thread, b, |tb.buckets|, tb.types, tb.kinds);
    forall k: nat
      ensures Conserved(tb', k)
    {
      assert Conserved(tb, k);
      InBucketsUpdate(tb.buckets, b, Mine(ch, thread), k);
      MineCount(ch, thread, k);
      ChainFreedCount(Others(ch, thread), k);
      ChainDestructedCount(Others(ch, thread), tb.types, tb.kinds, k);
    }
  }

  /** The entries that stay are those of the current thread and of all threads with another hash
      value: not all worker threads are freed. */
  lemma FreeWorkersEntries(tb: Table, thread: nat, u: nat)
    requires TableOk(tb)
    ensures ChainFits(Others(ChainOf(tb, thread), thread), |tb.types|)
    ensures |FreeWorkers(tb, thread).buckets| == |tb.buckets|
    ensures HasEntry(FreeWorkers(tb, thread), u)
      <==> HasEntry(tb, u) && (u == thread || Hash(u, |tb.buckets|) != Hash(thread, |tb.buckets|))
  {
    hide Conserved, ChainOk, Mine, Others, ChainFreed, ChainDestructed, ChainNullCalls, ChainFits, Lists;
    OthersFit(tb, thread);
    var ch := ChainOf(tb, thread);
    MineLists(ch, thread, u);
    assert ChainOf(FreeWorkers(tb, thread), u) ==
      if Hash(u, |tb.buckets|) == Hash(thread, |tb.buckets|) then Mine(ch, thread) else ChainOf(tb, u);
  }

  lemma MineLists(ch: seq<Entry>, thread: nat, u: nat)
    ensures Lists(Mine(ch, thread), u) <==> Lists(ch, u) && u == thread
  {
    hide Mine;
    MineAndOthers(ch, thread);
    if i :| 0 <= i < |Mine(ch, thread)| && Mine(ch, thread)[i].thread == u {
      assert Mine(ch, thread)[i] in ch;
    }
    if i :| 0 <= i < |ch| && ch[i].thread == u && u == thread {
      assert ch[i] in Mine(ch, thread);
    }
  }

  // ----------------------------------------------------------------------- ts_free_id

  /** The resources with id `j` in a chain. */
  function IdsAt(ch: seq<Entry>, j: nat): multiset<nat>
    requires forall i :: 0 <= i < |ch| ==> j < |ch[i].storage|
  {
    if ch == [] then multiset{}
    else
      var st := ch[|ch| - 1].storage;
      IdsAt(ch[..|ch| - 1], j) + if st[j].Res? then multiset{st[j].id} else multiset{}
  }

  function DropChain(ch: seq<Entry>, j: nat): (r: seq<Entry>)
    requires forall i :: 0 <= i < |ch| ==> j < |ch[i].storage|
    ensures |r| == |ch| && forall i :: 0 <= i < |ch| ==> r[i] == Entry(ch[i].thread, ch[i].storage[j := Null])
  {
    if ch == [] then []
    else DropChain(ch[..|ch| - 1], j) + [Entry(ch[|ch| - 1].thread, ch[|ch| - 1].storage[j := Null])]
  }

  function IdsIn(bs: seq<seq<Entry>>, j: nat, n: nat): multiset<nat>
    requires Fits(bs, n) && j < n
  {
    if bs == [] then multiset{} else IdsIn(bs[..|bs| - 1], j, n) + IdsAt(bs[|bs| - 1], j)
  }

  function DropBuckets(bs: seq<seq<Entry>>, j: nat, n: nat): (r: seq<seq<Entry>>)
    requires Fits(bs, n) && j < n
    ensures |r| == |bs| && forall b :: 0 <= b < |bs| ==> r[b] == DropChain(bs[b], j)
  {
    if bs == [] then [] else DropBuckets(bs[..|bs| - 1], j, n) + [DropChain(bs[|bs| - 1], j)]
  }

  function FreeId(tb: Table, j: nat): Table
    requires j < |tb.types| && Fits(tb.buckets, |tb.types|)
  {
    var gone := IdsIn(tb.buckets, j, |tb.types|);
    tb.(buckets := DropBuckets(tb.buckets, j, |tb.types|),
        types := tb.types[j := tb.types[j].(done := true)],
        freed := tb.freed + gone,
        destructed := tb.destructed + if tb.types[j].hasDtor then gone else multiset{})
  }

  lemma {:induction false} DropSlot(st: seq<Slot>, j: nat, k: nat)
    requires j < |st|
    ensures InStorage(st, k) == InStorage(st[j := Null], k) + if st[j] == Res(k) then 1 else 0
  {
    var init := st[..|st| - 1];
    if j < |st| - 1 {
      DropSlot(init, j, k);
      assert st[j := Null][..|st| - 1] == init[j := Null];
    } else {
      assert st[j := Null][..|st| - 1] == init;
    }
  }

  lemma {:induction false} DropChainCount(ch: seq<Entry>, j: nat, k: nat)
    requires forall i :: 0 <= i < |ch| ==> j < |ch[i].storage|
    ensures InChain(ch, k) == InChain(DropChain(ch, j), k) + IdsAt(ch, j)[k]
  {
    hide InStorage;
    if ch != [] {
      DropChainCount(ch[..|ch| - 1], j, k);
      DropSlot(ch[|ch| - 1].storage, j, k);
      var r := DropChain(ch, j);
      assert r[..|r| - 1] == DropChain(ch[..|ch| - 1], j);
    }
  }

  lemma {:induction false} DropBucketsCount(bs: seq<seq<Entry>>, j: nat, n: nat, k: nat)
    requires Fits(bs, n) && j < n
    ensures InBuckets(bs, k) == InBuckets(DropBuckets(bs, j, n), k) + IdsIn(bs, j, n)[k]
  {
    hide InChain, DropChain, IdsAt;
    if bs != [] {
      DropBucketsCount(bs[..|bs| - 1], j, n, k);
      DropChainCount(bs[|bs| - 1], j, k);
      var r := DropBuckets(bs, j, n);
      assert r[..|r| - 1] == DropBuckets(bs[..|bs| - 1], j, n);
    }
  }

  lemma FreeIdOk(tb: Table, j: nat)
    requires TableOk(tb) && j < |tb.types|
    ensures Fits(tb.buckets, |tb.types|)
    ensures TableOk(FreeId(tb, j)) && FreeId(tb, j).types[j].done && |FreeId(tb, j).types| == |tb.types|
    ensures |FreeId(tb, j).buckets| == |tb.buckets| && forall u: nat :: HasEntry(tb, u) ==> HasEntry(FreeId(tb, j), u)
  {
    hide InBuckets, DropBuckets, IdsIn, DropChain;
    TableFits(tb);
    var tb' := FreeId(tb, j);
    forall b | 0 <= b < |tb.buckets|
      ensures ChainOk(tb'.buckets[b], b, |tb.buckets|, tb'.types, tb'.kinds)
    {
      assert ChainOk(tb.buckets[b], b, |tb.buckets|, tb.types, tb.kinds);
      assert tb'.buckets[b] == DropChain(tb.buckets[b], j);
    }
    forall u: nat | HasEntry(tb, u)
      ensures HasEntry(tb', u)
    {
      var i :| 0 <= i < |ChainOf(tb, u)| && ChainOf(tb, u)[i].thread == u;
      assert ChainOf(tb', u)[i].thread == u;
    }
    forall k: nat
      ensures Conserved(tb', k)
    {
      assert Conserved(tb, k);
      DropBucketsCount(tb.buckets, j, |tb.types|, k);
      IdsOfKind(tb.buckets, j, |tb.types|, tb.types, tb.kinds, k);
    }
  }

  lemma {:induction false} IdsAtKind(ch: seq<Entry>, j: nat, n: nat, kinds: seq<nat>, k: nat)
    requires ChainFits(ch, n) && j < n && forall i :: 0 <= i < |ch| ==> Placed(ch[i].storage, kinds)
    ensures IdsAt(ch, j)[k] > 0 ==> k < |kinds| && kinds[k] == j
  {
    if ch != [] {
      IdsAtKind(ch[..|ch| - 1], j, n, kinds, k);
    }
  }

  /** The resources freed with id `j` are those allocated for it. */
  lemma {:induction false} IdsOfKind(bs: seq<seq<Entry>>, j: nat, n: nat, types: seq<ResType>, kinds: seq<nat>, k: nat)
    requires Fits(bs, n) && j < n && n == |types|
    requires forall b, i :: 0 <= b < |bs| && 0 <= i < |bs[b]| ==> StorageOk(bs[b][i].storage, types, kinds)
    ensures IdsIn(bs, j, n)[k] > 0 ==> k < |kinds| && kinds[k] == j
  {
    hide IdsAt;
    if bs != [] {
      IdsOfKind(bs[..|bs| - 1], j, n, types, kinds, k);
      IdsAtKind(bs[|bs| - 1], j, n, kinds, k);
    }
  }


  // --------------------------------------------------------------------- tsrm_shutdown

  /** The resources of a storage that tsrm_shutdown destructs. */
  function Finalized(st: seq<Slot>, types: seq<ResType>): (r: multiset<nat>)
    requires |st| <= |types|
  {
    if st == [] then multiset{}
    else
      var last := |st| - 1;
      Finalized(st[..last], types)
      + if st[last].Res? && !types[last].done && types[last].hasDtor then multiset{st[last].id} else multiset{}
  }

  function ChainFinalized(ch: seq<Entry>, types: seq<ResType>): multiset<nat>
    requires ChainFits(ch, |types|)
  {
    if ch == [] then multiset{} else ChainFinalized(ch[..|ch| - 1], types) + Finalized(ch[|ch| - 1].storage, types)
  }

  function BucketsFreed(bs: seq<seq<Entry>>): multiset<nat> {
    if bs == [] then multiset{} else BucketsFreed(bs[..|bs| - 1]) + ChainFreed(bs[|bs| - 1])
  }

  function BucketsFinalized(bs: seq<seq<Entry>>, types: seq<ResType>): multiset<nat>
    requires Fits(bs, |types|)
  {
    if bs == [] then multiset{}
    else BucketsFinalized(bs[..|bs| - 1], types) + ChainFinalized(bs[|bs| - 1], types)
  }

  function Shutdown(tb: Table): Table
    requires Fits(tb.buckets, |tb.types|)
  {
    tb.(buckets := [], types := [],
        freed := tb.freed + BucketsFreed(tb.buckets),
        destructed := tb.destructed + BucketsFinalized(tb.buckets, tb.types))
  }

  lemma {:induction false} BucketsFreedCount(bs: seq<seq<Entry>>, k: nat)
    ensures BucketsFreed(bs)[k] == InBuckets(bs, k)
  {
    if bs != [] {
      BucketsFreedCount(bs[..|bs| - 1], k);
      ChainFreedCount(bs[|bs| - 1], k);
    }
  }

  lemma {:induction false} FinalizedCount(st: seq<Slot>, types: seq<ResType>, kinds: seq<nat>, k: nat)
    requires |st| <= |types| && Placed(st, kinds) && forall j :: 0 <= j < |st| ==> (st[j] == Null <==> types[j].done)
    ensures Finalized(st, types)[k] == if HasDtor(types, kinds, k) then InStorage(st, k) else 0
  {
    if st != [] {
      FinalizedCount(st[..|st| - 1], types, kinds, k);
    }
  }

  lemma {:induction false} ChainFinalizedCount(ch: seq<Entry>, types: seq<ResType>, kinds: seq<nat>, k: nat)
    requires ChainFits(ch, |types|) && forall i :: 0 <= i < |ch| ==> StorageOk(ch[i].storage, types, kinds)
    ensures ChainFinalized(ch, types)[k] == if HasDtor(types, kinds, k) then InChain(ch, k) else 0
  {
    if ch != [] {
      ChainFinalizedCount(ch[..|ch| - 1], types, kinds, k);
      FinalizedCount(ch[|ch| - 1].storage, types, kinds, k);
    }
  }

  lemma {:induction false} BucketsFinalizedCount(bs: seq<seq<Entry>>, types: seq<ResType>, kinds: seq<nat>, k: nat)
    requires Fits(bs, |types|)
    requires forall b, i :: 0 <= b < |bs| && 0 <= i < |bs[b]| ==> StorageOk(bs[b][i].storage, types, kinds)
    ensures BucketsFinalized(bs, types)[k] == if HasDtor(types, kinds, k) then InBuckets(bs, k) else 0
  {
    hide StorageOk, ChainFinalized;
    if bs != [] {
      BucketsFinalizedCount(bs[..|bs| - 1], types, kinds, k);
      ChainFinalizedCount(bs[|bs| - 1], types, kinds, k);
    }
  }

  /** After tsrm_shutdown every resource that was ever allocated has been freed exactly once, and
      destructed exactly once if its id has a destructor. */
  lemma ShutdownFreesAll(tb: Table, k: nat)
    requires TableOk(tb)
    ensures Fits(tb.buckets, |tb.types|)
    ensures Shutdown(tb).freed[k] == if k < |tb.kinds| then 1 else 0
    ensures Shutdown(tb).destructed[k] == if HasDtor(tb.types, tb.kinds, k) then 1 else 0
  {
    hide InBuckets, BucketsFreed, BucketsFinalized, StorageOk;
    TableFits(tb);
    assert Conserved(tb, k);
    BucketsFreedCount(tb.buckets, k);
    forall b, i | 0 <= b < |tb.buckets| && 0 <= i < |tb.buckets[b]|
      ensures StorageOk(tb.buckets[b][i].storage, tb.types, tb.kinds)
    {
      assert ChainOk(tb.buckets[b], b, |tb.buckets|, tb.types, tb.kinds);
    }
    BucketsFinalizedCount(tb.buckets, tb.types, tb.kinds, k);
  }

  // ------------------------------------------------------------------ the state machine

  datatype Op = AllocId(hasDtor: bool) | Resource(thread: nat) | FreeMine | FreeOthers | FreeTheId(j: nat)

  /** Where a thread is. `again` tells a call of ts_resource_ex that it makes itself. */
  datatype Pc =
    | Idle
    | Calling(op: Op, again: bool)                      // before the lock
    | Inside(op: Op)                                    // under the lock, with the work to do
    | LookUp(thread: nat, again: bool)                  // ts_resource_ex, before it reads the head of the chain
    | Walking(thread: nat, i: nat, again: bool)         // ts_resource_ex, at entry i of the chain
    | Creating(thread: nat, at: nat, again: bool)       // in allocate_new_resource, with the link to set
    | HelperUnlock(thread: nat)                         // at the unlock of allocate_new_resource
    | Unlocking                                         // at the unlock at the end of a function

  datatype Lock = Free | Held(thread: nat)

  /** `swept` tells whether ts_free_worker_threads has been at work. */
  datatype State = State(table: Table, lock: Lock, pcs: seq<Pc>, locks: seq<nat>, unlocks: seq<nat>, swept: bool)

  predicate Holding(pc: Pc) {
    !pc.Idle? && !pc.Calling?
  }

  /** What is known at a program point. */
  ghost predicate PcOk(tb: Table, pc: Pc, t: nat, swept: bool)
    requires |tb.buckets| > 0
  {
    match pc
    case Calling(op, again) =>
      && (op.FreeTheId? ==> op.j < |tb.types|)
      && (again && op == Resource(t) && !swept ==> HasEntry(tb, t))
    case Inside(op) => !op.Resource? && (op.FreeTheId? ==> op.j < |tb.types|)
    case LookUp(u, again) => again && u == t && !swept ==> HasEntry(tb, t)
    case Walking(u, i, again) =>
      && i < |ChainOf(tb, u)| && (forall j :: 0 <= j < i ==> ChainOf(tb, u)[j].thread != u)
      && (again && u == t && !swept ==> HasEntry(tb, t))
    case Creating(u, at, again) =>
      && at == |ChainOf(tb, u)| && !HasEntry(tb, u)
      && (again && u == t ==> swept)
    case HelperUnlock(u) => HasEntry(tb, u)
    case _ => true
  }

  ghost predicate Invariant(s: State) {
    && |s.table.buckets| > 0 && TableOk(s.table)
    && |s.locks| == |s.unlocks| == |s.pcs|
    && (forall t :: 0 <= t < |s.pcs| ==> (Holding(s.pcs[t]) <==> s.lock == Held(t)))
    && (forall t :: 0 <= t < |s.pcs| ==> s.locks[t] == s.unlocks[t] + if Holding(s.pcs[t]) then 1 else 0)
    && (forall t :: 0 <= t < |s.pcs| ==> PcOk(s.table, s.pcs[t], t, s.swept))
  }

  function Goto(s: State, t: nat, pc: Pc): State
    requires t < |s.pcs|
  {
    s.(pcs := s.pcs[t := pc])
  }

  /** A call of one of the functions, up to its lock; only ids that have been allocated are freed. */
  ghost predicate Start(s: State, s': State, t: nat, op: Op) {
    && t < |s.pcs| && s.pcs[t] == Idle && (op.FreeTheId? ==> op.j < |s.table.types|)
    && s' == Goto(s, t, Calling(op, false))
  }

  ghost predicate Acquire(s: State, s': State, t: nat) {
    && t < |s.pcs| && t < |s.locks| && s.pcs[t].Calling? && s.lock == Free
    && var op := s.pcs[t].op;
       s' == Goto(s, t, if op.Resource? then LookUp(op.thread, s.pcs[t].again) else Inside(op))
             .(lock := Held(t), locks := s.locks[t := s.locks[t] + 1])
  }

  /** ts_resource_ex reads the head of the chain; without one it calls allocate_new_resource. */
  ghost predicate ReadHead(s: State, s': State, t: nat) {
    && t < |s.pcs| && s.pcs[t].LookUp? && |s.table.buckets| > 0
    && var (u, again) := (s.pcs[t].thread, s.pcs[t].again);
       s' == Goto(s, t, if ChainOf(s.table, u) == [] then Creating(u, 0, again) else Walking(u, 0, again))
  }

  /** One turn of the loop of ts_resource_ex: the entry is found, there is a next one, or
      allocate_new_resource is called with the link of the last. */
  ghost predicate Walk(s: State, s': State, t: nat) {
    && t < |s.pcs| && s.pcs[t].Walking? && |s.table.buckets| > 0
    && var (u, i, again) := (s.pcs[t].thread, s.pcs[t].i, s.pcs[t].again);
       && i < |ChainOf(s.table, u)|
       && s' == Goto(s, t, if ChainOf(s.table, u)[i].thread == u then Unlocking
                           else if i + 1 < |ChainOf(s.table, u)| then Walking(u, i + 1, again)
                           else Creating(u, i + 1, again))
  }

  ghost predicate Create(s: State, s': State, t: nat) {
    && t < |s.pcs| && s.pcs[t].Creating? && |s.table.buckets| > 0
    && var (u, at) := (s.pcs[t].thread, s.pcs[t].at);
       && at <= |ChainOf(s.table, u)|
       && s' == Goto(s, t, HelperUnlock(u)).(table := LinkEntry(s.table, u, at))
  }

  /** allocate_new_resource unlocks, and ts_resource_ex calls itself. */
  ghost predicate ReleaseInHelper(s: State, s': State, t: nat) {
    && t < |s.pcs| && t < |s.unlocks| && s.pcs[t].HelperUnlock?
    && s' == Goto(s, t, Calling(Resource(s.pcs[t].thread), true))
             .(lock := Free, unlocks := s.unlocks[t := s.unlocks[t] + 1])
  }

  /** What the other functions do under the lock, as one step: nobody else can touch the table. */
  ghost predicate Work(s: State, s': State, t: nat) {
    && t < |s.pcs| && s.pcs[t].Inside? && |s.table.buckets| > 0 && Fits(s.table.buckets, |s.table.types|)
    && match s.pcs[t].op
       case AllocId(d) => s' == Goto(s, t, Unlocking).(table := AllocateId(s.table, d))
       case FreeMine => s' == Goto(s, t, Unlocking).(table := FreeThread(s.table, t))
       case FreeOthers =>
         && ChainFits(Others(ChainOf(s.table, t), t), |s.table.types|)
         && s' == Goto(s, t, Unlocking).(table := FreeWorkers(s.table, t), swept := true)
       case FreeTheId(j) =>
         && j < |s.table.types|
         && s' == Goto(s, t, Unlocking).(table := FreeId(s.table, j))
       case Resource(_) => false
  }

  ghost predicate Release(s: State, s': State, t: nat) {
    && t < |s.pcs| && t < |s.unlocks| && s.pcs[t].Unlocking?
    && s' == Goto(s, t, Idle).(lock := Free, unlocks := s.unlocks[t := s.unlocks[t] + 1])
  }

  /** A step under the lock that keeps it. */
  ghost predicate WithLock(s: State, s': State, t: nat) {
    ReadHead(s, s', t) || Walk(s, s', t) || Create(s, s', t) || Work(s, s', t)
  }

  /** A step of thread `t`. */
  ghost predicate StepOf(s: State, s': State, t: nat) {
    || (exists op :: Start(s, s', t, op)) || Acquire(s, s', t) || WithLock(s, s', t)
    || ReleaseInHelper(s, s', t) || Release(s, s', t)
  }

  ghost predicate Next(s: State, s': State) {
    exists t: nat :: StepOf(s, s', t)
  }

  /** The state that tsrm_startup leaves. */
  ghost predicate Initial(s: State) {
    && |s.table.buckets| > 0 && (forall b :: 0 <= b < |s.table.buckets| ==> s.table.buckets[b] == [])
    && s.table.types == [] && s.table.kinds == [] && s.table.freed == multiset{} && s.table.destructed == multiset{}
    && s.lock == Free && |s.locks| == |s.unlocks| == |s.pcs| && !s.swept
    && (forall t :: 0 <= t < |s.pcs| ==> s.pcs[t] == Idle && s.locks[t] == s.unlocks[t] == 0)
  }

  lemma {:induction false} NothingIn(bs: seq<seq<Entry>>, k: nat)
    requires forall b :: 0 <= b < |bs| ==> bs[b] == []
    ensures InBuckets(bs, k) == 0
  {
    if bs != [] {
      NothingIn(bs[..|bs| - 1], k);
    }
  }

  lemma InitialHolds(s: State)
    requires Initial(s)
    ensures Invariant(s)
  {
    hide InBuckets;
    forall k: nat
      ensures Conserved(s.table, k)
    {
      NothingIn(s.table.buckets, k);
    }
  }

  /** What an operation on the table may do to the entries while thread `t` holds the lock. */
  ghost predicate TableStep(tb: Table, tb': Table, t: nat, swept: bool) {
    && |tb.buckets| > 0 && |tb'.buckets| == |tb.buckets| && |tb'.types| >= |tb.types|
    && (!swept ==> forall u: nat :: u != t && HasEntry(tb, u) ==> HasEntry(tb', u))
  }

  /** Threads without the lock are not disturbed. */
  lemma OthersKept(tb: Table, tb': Table, t: nat, pc: Pc, u: nat, swept: bool, swept': bool)
    requires TableStep(tb, tb', t, swept') && u != t && !Holding(pc) && PcOk(tb, pc, u, swept)
    requires swept ==> swept'
    ensures PcOk(tb', pc, u, swept')
  {
    hide HasEntry;
  }

  lemma EnlargeEntries(tb: Table, d: bool, u: nat)
    requires |tb.buckets| > 0
    ensures |AllocateId(tb, d).buckets| == |tb.buckets| && (HasEntry(AllocateId(tb, d), u) <==> HasEntry(tb, u))
  {
    hide EnlargeBuckets, Lists;
    var b := Hash(u, |tb.buckets|);
    EnlargedChain(tb.buckets, tb.kinds, |tb.types|, b);
    SameThreads(tb.buckets[b], ChainOf(AllocateId(tb, d), u), u);
  }

  lemma SameThreads(ch: seq<Entry>, ch': seq<Entry>, u: nat)
    requires |ch| == |ch'| && forall i :: 0 <= i < |ch| ==> ch[i].thread == ch'[i].thread
    ensures Lists(ch, u) <==> Lists(ch', u)
  {
  }

  /** The new slot does not change whose entries there are. */
  lemma {:induction false} EnlargedChain(bs: seq<seq<Entry>>, kinds: seq<nat>, j: nat, b: nat)
    requires b < |bs|
    ensures var ch := EnlargeBuckets(bs, kinds, j).0[b];
      |ch| == |bs[b]| && forall i :: 0 <= i < |ch| ==> ch[i].thread == bs[b][i].thread
  {
    if b < |bs| - 1 {
      EnlargedChain(bs[..|bs| - 1], kinds, j, b);
    }
  }

  lemma WorkStep(s: State, s': State, t: nat)
    requires Invariant(s) && Work(s, s', t)
    ensures TableOk(s'.table) && TableStep(s.table, s'.table, t, s'.swept)
  {
    hide TableOk, AllocateId, FreeThread, FreeWorkers, FreeId, HasEntry, Fits, ChainFits, Others, PcOk;
    match s.pcs[t].op {
      case AllocId(d) =>
        AllocateIdOk(s.table, d);
        forall u: nat {
          EnlargeEntries(s.table, d, u);
        }
      case FreeMine =>
        FreeThreadOk(s.table, t);
        forall u: nat {
          FreeThreadEntries(s.table, t, u);
        }
      case FreeOthers => FreeWorkersOk(s.table, t);
      case FreeTheId(j) => FreeIdOk(s.table, j);
    }
  }

  lemma WorkKeeps(s: State, s': State, t: nat)
    requires Invariant(s) && Work(s, s', t)
    ensures Invariant(s')
  {
    hide TableOk, TableStep, AllocateId, FreeThread, FreeWorkers, FreeId, HasEntry, Fits, ChainFits, Others, PcOk;
    WorkStep(s, s', t);
    PcsKept(s, s', t);
    assert PcOk(s'.table, s'.pcs[t], t, s'.swept) by {
      assert s'.pcs[t] == Unlocking;
      IdleOk(s'.table, Unlocking, t, s'.swept);
    }
  }

  lemma IdleOk(tb: Table, pc: Pc, t: nat, swept: bool)
    requires |tb.buckets| > 0 && (pc.Unlocking? || pc.Idle?)
    ensures PcOk(tb, pc, t, swept)
  {
  }

  /** While `t` works under the lock, all others stand where they stood. */
  lemma PcsKept(s: State, s': State, t: nat)
    requires Invariant(s) && t < |s.pcs| && Holding(s.pcs[t]) && TableStep(s.table, s'.table, t, s'.swept)
    requires |s'.pcs| == |s.pcs| && (forall u :: 0 <= u < |s.pcs| && u != t ==> s'.pcs[u] == s.pcs[u])
    requires s.swept ==> s'.swept
    ensures |s'.table.buckets| > 0 && forall u :: 0 <= u < |s.pcs| && u != t ==> PcOk(s'.table, s'.pcs[u], u, s'.swept)
  {
    hide TableOk, PcOk;
    assert s.lock == Held(t);
    forall u | 0 <= u < |s.pcs| && u != t
      ensures PcOk(s'.table, s'.pcs[u], u, s'.swept)
    {
      hide TableStep;
      OthersKept(s.table, s'.table, t, s.pcs[u], u, s.swept, s'.swept);
    }
  }

  lemma CreateKeeps(s: State, s': State, t: nat)
    requires Invariant(s) && Create(s, s', t)
    ensures Invariant(s')
  {
    hide TableOk, LinkEntry, HasEntry;
    LinkEntryOk(s.table, s.pcs[t].thread);
    PcsKept(s, s', t);
  }

  /** The search: at the end of the chain there is no entry for the thread. */
  lemma SearchKeeps(s: State, s': State, t: nat)
    requires Invariant(s) && (ReadHead(s, s', t) || Walk(s, s', t))
    ensures Invariant(s')
  {
    hide TableOk;
    assert forall u :: 0 <= u < |s.pcs| && u != t ==> s'.pcs[u] == s.pcs[u];
    assert PcOk(s.table, s.pcs[t], t, s.swept);
  }

  lemma StepKeeps(s: State, s': State)
    requires Invariant(s) && Next(s, s')
    ensures Invariant(s')
  {
    hide TableOk, Work, Create, ReadHead, Walk, HasEntry, Acquire, ReleaseInHelper, Release;
    var t: nat :| StepOf(s, s', t);
    if op :| Start(s, s', t, op) {
    } else if Work(s, s', t) {
      WorkKeeps(s, s', t);
    } else if Create(s, s', t) {
      CreateKeeps(s, s', t);
    } else if ReadHead(s, s', t) || Walk(s, s', t) {
      SearchKeeps(s, s', t);
    } else {
      MutexKeeps(s, s', t);
    }
  }

  lemma MutexKeeps(s: State, s': State, t: nat)
    requires Invariant(s) && (Acquire(s, s', t) || ReleaseInHelper(s, s', t) || Release(s, s', t))
    ensures Invariant(s')
  {
    hide TableOk, HasEntry;
    assert PcOk(s.table, s.pcs[t], t, s.swept);
  }

  ghost predicate Run(run: seq<State>) {
    && |run| > 0 && Initial(run[0])
    && forall i :: 0 <= i < |run| - 1 ==> Next(run[i], run[i + 1])
  }

  /** In every state that any interleaving of any number of threads reaches, the table is in order, no
      resource is freed or destructed twice, and locks and unlocks match. */
  lemma {:induction false} RunsKeep(run: seq<State>, n: nat)
    requires Run(run) && n < |run|
    ensures Invariant(run[n])
  {
    if n == 0 {
      InitialHolds(run[0]);
    } else {
      RunsKeep(run, n - 1);
      StepKeeps(run[n - 1], run[n]);
    }
  }

  /** A call for the thread's own resources restarts at most once: when it has called itself it does
      not get to allocate_new_resource again, unless ts_free_worker_threads has removed entries. */
  lemma RestartOnce(run: seq<State>, n: nat, t: nat)
    requires Run(run) && n < |run| && t < |run[n].pcs|
    requires run[n].pcs[t].Creating? && run[n].pcs[t].thread == t && run[n].pcs[t].again
    ensures run[n].swept
  {
    hide Run;
    RunsKeep(run, n);
    assert PcOk(run[n].table, run[n].pcs[t], t, run[n].swept);
  }

  // ------------------------------------------------------------ the mutex is given back

  /** A bound on the steps until the mutex is given back. */
  ghost function Left(s: State): nat
    requires |s.table.buckets| > 0
  {
    if s.lock.Held? && s.lock.thread < |s.pcs| then
      match s.pcs[s.lock.thread]
      case LookUp(u, _) => |ChainOf(s.table, u)| + 4
      case Walking(u, i, _) => if i < |ChainOf(s.table, u)| then |ChainOf(s.table, u)| - i + 3 else 3
      case Creating(_, _, _) => 2
      case Inside(_) => 2
      case _ => 1
    else 0
  }

  /** Whatever the threads do, the holder gets nearer to the unlock with each of its steps, and the
      steps of the others do not matter. */
  lemma HolderAdvances(s: State, s': State, t: nat, u: nat)
    requires Invariant(s) && s.lock == Held(t) && t < |s.pcs| && StepOf(s, s', u)
    ensures |s'.table.buckets| > 0
    ensures u == t ==> Left(s') < Left(s)
    ensures u != t ==> s'.lock == s.lock && s'.table == s.table && Left(s') == Left(s)
  {
    hide TableOk, HasEntry, Start, Acquire, WithLock, Release, ReleaseInHelper, PcOk, Left;
    StepKeeps(s, s');
    if op :| Start(s, s', u, op) {
      StartSame(s, s', u, op);
    } else if WithLock(s, s', u) {
      LockSteps(s, s', u);
    } else {
      Unlocks(s, s', u);
    }
  }

  lemma StartSame(s: State, s': State, t: nat, op: Op)
    requires Invariant(s) && Start(s, s', t, op) && s.lock.Held?
    ensures s.lock != Held(t) && s'.lock == s.lock && s'.table == s.table && Left(s') == Left(s)
  {
    hide TableOk, HasEntry, PcOk;
  }

  lemma LockSteps(s: State, s': State, t: nat)
    requires Invariant(s) && WithLock(s, s', t) && |s'.table.buckets| > 0
    ensures s.lock == Held(t) && Left(s') < Left(s)
  {
    hide TableOk, HasEntry, AllocateId, FreeThread, FreeId, FreeWorkers, LinkEntry, Fits, ChainFits, Others;
    assert PcOk(s.table, s.pcs[t], t, s.swept);
  }

  lemma Unlocks(s: State, s': State, t: nat)
    requires Invariant(s) && (Acquire(s, s', t) || ReleaseInHelper(s, s', t) || Release(s, s', t)) && s.lock.Held?
    ensures s.lock == Held(t) && Left(s') < Left(s)
  {
    hide TableOk, HasEntry, PcOk;
  }

  /** The holder is never stuck. */
  lemma HolderProceeds(s: State, t: nat) returns (s': State)
    requires Invariant(s) && s.lock == Held(t) && t < |s.pcs|
    ensures StepOf(s, s', t)
  {
    hide TableOk, HasEntry, AllocateId, FreeThread, FreeId, FreeWorkers, LinkEntry, ChainFits, Others, Fits;
    assert PcOk(s.table, s.pcs[t], t, s.swept);
    TableFits(s.table);
    match s.pcs[t] {
      case Inside(op) =>
        match op {
          case AllocId(d) => s' := Goto(s, t, Unlocking).(table := AllocateId(s.table, d));
          case FreeMine => s' := Goto(s, t, Unlocking).(table := FreeThread(s.table, t));
          case FreeOthers =>
            FreeWorkersOk(s.table, t);
            s' := Goto(s, t, Unlocking).(table := FreeWorkers(s.table, t), swept := true);
          case FreeTheId(j) => s' := Goto(s, t, Unlocking).(table := FreeId(s.table, j));
        }
        assert Work(s, s', t);
      case LookUp(u, again) =>
        s' := Goto(s, t, if ChainOf(s.table, u) == [] then Creating(u, 0, again) else Walking(u, 0, again));
        assert ReadHead(s, s', t);
      case Walking(u, i, again) =>
        s' := Goto(s, t, if ChainOf(s.table, u)[i].thread == u then Unlocking
                         else if i + 1 < |ChainOf(s.table, u)| then Walking(u, i + 1, again)
                         else Creating(u, i + 1, again));
        assert Walk(s, s', t);
      case Creating(u, at, _) =>
        s' := Goto(s, t, HelperUnlock(u)).(table := LinkEntry(s.table, u, at));
        assert Create(s, s', t);
      case HelperUnlock(u) =>
        s' := Goto(s, t, Calling(Resource(u), true)).(lock := Free, unlocks := s.unlocks[t := s.unlocks[t] + 1]);
        assert ReleaseInHelper(s, s', t);
      case Unlocking =>
        s' := Goto(s, t, Idle).(lock := Free, unlocks := s.unlocks[t := s.unlocks[t] + 1]);
        assert Release(s, s', t);
    }
  }
}
