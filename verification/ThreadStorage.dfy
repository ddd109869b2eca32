/** Whose storage is whose in the table of thread resources: what a step does to the storage of every
    thread, and that a thread keeps its own resources. */
module ThreadStorage {
  import opened Tsrm

  /** The entry of thread `u` holds the storage `st`. */
  ghost predicate Owns(tb: Table, u: nat, st: seq<Slot>)
    requires |tb.buckets| > 0
  {
    Entry(u, st) in ChainOf(tb, u)
  }

  lemma OwnsEntry(tb: Table, u: nat, st: seq<Slot>)
    requires |tb.buckets| > 0 && Owns(tb, u, st)
    ensures HasEntry(tb, u)
  {
    var i :| 0 <= i < |ChainOf(tb, u)| && ChainOf(tb, u)[i] == Entry(u, st);
  }

  lemma EntryOwns(tb: Table, u: nat) returns (st: seq<Slot>)
    requires |tb.buckets| > 0 && HasEntry(tb, u)
    ensures Owns(tb, u, st)
  {
    var i :| 0 <= i < |ChainOf(tb, u)| && ChainOf(tb, u)[i].thread == u;
    st := ChainOf(tb, u)[i].storage;
  }

  /** A thread has one storage, with a slot for every id. */
  lemma OneStorage(tb: Table, u: nat, st: seq<Slot>, st': seq<Slot>)
    requires TableOk(tb) && Owns(tb, u, st) && Owns(tb, u, st')
    ensures st == st' && StorageOk(st, tb.types, tb.kinds)
  {
    hide Conserved, StorageOk;
    var ch := ChainOf(tb, u);
    assert ChainOk(ch, Hash(u, |tb.buckets|), |tb.buckets|, tb.types, tb.kinds);
    var i :| 0 <= i < |ch| && ch[i] == Entry(u, st);
    var j :| 0 <= j < |ch| && ch[j] == Entry(u, st');
  }

  // ------------------------------------------------------------ what each operation keeps

  /** The resources of the storage have numbers from `from` on and below `to`. */
  predicate Between(st: seq<Slot>, from: nat, to: nat) {
    forall j :: 0 <= j < |st| && st[j].Res? ==> from <= st[j].id < to
  }

  /** A new entry disturbs no other thread, and all its resources are new. */
  lemma LinkEntryKeeps(tb: Table, thread: nat, u: nat, st: seq<Slot>)
    requires TableOk(tb) && !HasEntry(tb, thread)
    ensures var tb' := LinkEntry(tb, thread, |ChainOf(tb, thread)|);
      && |tb'.buckets| == |tb.buckets|
      && (u != thread ==> (Owns(tb', u, st) <==> Owns(tb, u, st)))
      && (Owns(tb', thread, st) ==> Between(st, |tb.kinds|, |tb'.kinds|))
  {
    hide Conserved, ChainsOk, NewStorage;
    var ch := ChainOf(tb, thread);
    var (new', ks) := NewStorage(tb.types, tb.kinds);
    var tb' := LinkEntry(tb, thread, |ch|);
    assert ch[..|ch|] == ch;
    assert ChainOf(tb', thread) == ch + [Entry(thread, new')];
    assert Hash(u, |tb.buckets|) != Hash(thread, |tb.buckets|) ==> ChainOf(tb', u) == ChainOf(tb, u);
    if Owns(tb', thread, st) {
      assert st == new' by {
        if Entry(thread, st) in ch {
          OwnsEntry(tb, thread, st);
        }
      }
      NewResources(tb.types, tb.kinds);
    }
  }

  lemma {:induction false} NewResources(types: seq<ResType>, kinds: seq<nat>)
    ensures Between(NewStorage(types, kinds).0, |kinds|, |NewStorage(types, kinds).1|)
  {
    if types != [] {
      NewResources(types[..|types| - 1], kinds);
      var (init, ks) := NewStorage(types[..|types| - 1], kinds);
      assert Between(init, |kinds|, |ks|) && |kinds| <= |ks|;
    }
  }

  lemma FreeThreadKeeps(tb: Table, thread: nat, u: nat, st: seq<Slot>)
    requires TableOk(tb)
    ensures Fits(tb.buckets, |tb.types|) && |FreeThread(tb, thread).buckets| == |tb.buckets|
    ensures Owns(FreeThread(tb, thread), u, st) <==> Owns(tb, u, st) && u != thread
  {
    hide Conserved, StorageOk, FindIn, Freed, Destructed, NullCalls;
    TableFits(tb);
    var ch := ChainOf(tb, thread);
    assert ChainOk(ch, Hash(thread, |tb.buckets|), |tb.buckets|, tb.types, tb.kinds);
    var i := FindIn(ch, thread);
    if i < |ch| {
      WithoutEntry(ch, i, Entry(u, st));
      assert ChainOf(FreeThread(tb, thread), u) ==
        if Hash(u, |tb.buckets|) == Hash(thread, |tb.buckets|) then ch[..i] + ch[i + 1..] else ChainOf(tb, u);
    } else {
      assert forall e :: e in ch ==> e.thread != thread;
    }
  }

  lemma WithoutEntry(ch: seq<Entry>, i: nat, e: Entry)
    requires i < |ch| && forall i, j :: 0 <= i < j < |ch| ==> ch[i].thread != ch[j].thread
    ensures e in ch[..i] + ch[i + 1..] <==> e in ch && e.thread != ch[i].thread
  {
    assert ch == ch[..i] + [ch[i]] + ch[i + 1..];
    if e in ch {
      var k :| 0 <= k < |ch| && ch[k] == e;
      if k < i {
        assert ch[..i][k] == e;
      } else if k > i {
        assert ch[i + 1..][k - i - 1] == e;
      }
    }
  }

  lemma FreeWorkersKeeps(tb: Table, thread: nat, u: nat, st: seq<Slot>)
    requires TableOk(tb)
    ensures ChainFits(Others(ChainOf(tb, thread), thread), |tb.types|)
    ensures |FreeWorkers(tb, thread).buckets| == |tb.buckets|
    ensures Owns(FreeWorkers(tb, thread), u, st)
      <==> Owns(tb, u, st) && (u == thread || Hash(u, |tb.buckets|) != Hash(thread, |tb.buckets|))
  {
    hide Conserved, ChainOk, Mine, Others, ChainFreed, ChainDestructed, ChainNullCalls, ChainFits;
    OthersFit(tb, thread);
    var ch := ChainOf(tb, thread);
    MineAndOthers(ch, thread);
    assert ChainOf(FreeWorkers(tb, thread), u) ==
      if Hash(u, |tb.buckets|) == Hash(thread, |tb.buckets|) then Mine(ch, thread) else ChainOf(tb, u);
  }

  /** A new id appends one new resource to every storage. */
  lemma AllocateIdKeeps(tb: Table, d: bool, u: nat, st: seq<Slot>) returns (k: nat)
    requires TableOk(tb) && Owns(tb, u, st)
    ensures |AllocateId(tb, d).buckets| == |tb.buckets|
    ensures k >= |tb.kinds| && Owns(AllocateId(tb, d), u, st + [Res(k)])
  {
    hide EnlargeBuckets, EnlargeChain, Conserved, ChainsOk;
    AllocateIdOk(tb, d);
    var b := Hash(u, |tb.buckets|);
    var i :| 0 <= i < |ChainOf(tb, u)| && ChainOf(tb, u)[i] == Entry(u, st);
    k := EnlargedAt(tb.buckets, tb.kinds, |tb.types|, b, i);
    assert ChainOf(AllocateId(tb, d), u)[i] == Entry(u, st + [Res(k)]);
  }

  lemma {:induction false} EnlargedAt(bs: seq<seq<Entry>>, kinds: seq<nat>, j: nat, b: nat, i: nat) returns (k: nat)
    requires b < |bs| && i < |bs[b]|
    ensures k >= |kinds| && |EnlargeBuckets(bs, kinds, j).0| == |bs| && i < |EnlargeBuckets(bs, kinds, j).0[b]|
    ensures EnlargeBuckets(bs, kinds, j).0[b][i] == Entry(bs[b][i].thread, bs[b][i].storage + [Res(k)])
  {
    hide EnlargeChain;
    var (init, ks) := EnlargeBuckets(bs[..|bs| - 1], kinds, j);
    if b < |bs| - 1 {
      k := EnlargedAt(bs[..|bs| - 1], kinds, j, b, i);
    } else {
      k := |ks| + i;
    }
  }

  /** ts_free_id takes the resource of that id from every storage. */
  lemma FreeIdKeeps(tb: Table, j: nat, u: nat, st: seq<Slot>)
    requires TableOk(tb) && j < |tb.types| && Owns(tb, u, st)
    ensures Fits(tb.buckets, |tb.types|) && |FreeId(tb, j).buckets| == |tb.buckets| && j < |st|
    ensures Owns(FreeId(tb, j), u, st[j := Null])
  {
    hide DropBuckets, IdsIn, DropChain, Conserved, ChainsOk, Fits;
    FreeIdOk(tb, j);
    OneStorage(tb, u, st, st);
    var i :| 0 <= i < |ChainOf(tb, u)| && ChainOf(tb, u)[i] == Entry(u, st);
    assert ChainOf(FreeId(tb, j), u)[i] == Entry(u, st[j := Null]);
  }

  // ----------------------------------------------------------------- what a step does

  ghost predicate Gains(tb: Table, tb': Table, u: nat, st: seq<Slot>)
    requires |tb'.buckets| > 0
  {
    exists k: nat :: k >= |tb.kinds| && Owns(tb', u, st + [Res(k)])
  }

  /** What a step of thread `t` does to the storage `st` of thread `u`. */
  ghost predicate StorageStep(s: State, s': State, t: nat, u: nat, st: seq<Slot>)
    requires t < |s.pcs| && |s.table.buckets| > 0 && |s'.table.buckets| > 0
  {
    match s.pcs[t]
    case Inside(AllocId(_)) => Gains(s.table, s'.table, u, st)
    case Inside(FreeTheId(j)) => j < |st| && Owns(s'.table, u, st[j := Null])
    case Inside(FreeMine) => if u == t then !HasEntry(s'.table, u) else Owns(s'.table, u, st)
    case Inside(FreeOthers) =>
      if u != t && Hash(u, |s.table.buckets|) == Hash(t, |s.table.buckets|) then !HasEntry(s'.table, u)
      else Owns(s'.table, u, st)
    case _ => Owns(s'.table, u, st)
  }

  lemma WorkStorage(s: State, s': State, t: nat, u: nat, st: seq<Slot>)
    requires Invariant(s) && Work(s, s', t) && Owns(s.table, u, st) && |s'.table.buckets| > 0
    ensures StorageStep(s, s', t, u, st)
  {
    hide TableOk, PcOk, AllocateId, FreeThread, FreeWorkers, FreeId, HasEntry, Owns, Fits, ChainFits, Others;
    match s.pcs[t].op {
      case AllocId(d) => var k := AllocateIdKeeps(s.table, d, u, st);
      case FreeMine =>
        FreeThreadKeeps(s.table, t, u, st);
        FreeThreadEntries(s.table, t, u);
      case FreeOthers =>
        FreeWorkersKeeps(s.table, t, u, st);
        FreeWorkersEntries(s.table, t, u);
      case FreeTheId(j) => FreeIdKeeps(s.table, j, u, st);
    }
  }

  lemma CreateStorage(s: State, s': State, t: nat, u: nat, st: seq<Slot>)
    requires Invariant(s) && Create(s, s', t) && Owns(s.table, u, st) && |s'.table.buckets| > 0
    ensures StorageStep(s, s', t, u, st)
  {
    hide TableOk, LinkEntry, HasEntry, Owns;
    assert PcOk(s.table, s.pcs[t], t, s.swept);
    OwnsEntry(s.table, u, st);
    LinkEntryKeeps(s.table, s.pcs[t].thread, u, st);
  }

  /** A step changes the storage of any thread only by a slot for a new id, by the resource that
      ts_free_id takes, or by freeing the whole entry. */
  lemma StepStorage(s: State, s': State, t: nat, u: nat, st: seq<Slot>)
    requires Invariant(s) && StepOf(s, s', t) && Owns(s.table, u, st)
    ensures t < |s.pcs| && |s'.table.buckets| > 0 && StorageStep(s, s', t, u, st)
  {
    hide TableOk, PcOk, Owns, HasEntry, Work, Create, StorageStep;
    StepKeeps(s, s');
    if Work(s, s', t) {
      WorkActs(s, s', t);
      WorkStorage(s, s', t, u, st);
    } else if Create(s, s', t) {
      CreateActs(s, s', t);
      CreateStorage(s, s', t, u, st);
    } else {
      SameStorage(s, s', t, u, st);
    }
  }

  lemma WorkActs(s: State, s': State, t: nat)
    requires Work(s, s', t)
    ensures t < |s.pcs|
  {
  }

  lemma CreateActs(s: State, s': State, t: nat)
    requires Create(s, s', t)
    ensures t < |s.pcs|
  {
  }

  lemma SameStorage(s: State, s': State, t: nat, u: nat, st: seq<Slot>)
    requires Invariant(s) && StepOf(s, s', t) && !Work(s, s', t) && !Create(s, s', t) && Owns(s.table, u, st)
    ensures t < |s.pcs| && |s'.table.buckets| > 0 && StorageStep(s, s', t, u, st)
  {
    hide TableOk, PcOk, Owns, HasEntry, Work, Create;
  }

  // ------------------------------------------------------------------------ over runs

  /** The slots of `st` are those of `st'`, apart from resources whose id has been freed. */
  predicate SlotsKept(st: seq<Slot>, st': seq<Slot>) {
    |st| <= |st'| && forall j :: 0 <= j < |st| ==> st'[j] == st[j] || st'[j] == Null
  }

  lemma StepSlots(s: State, s': State, u: nat, st: seq<Slot>, st': seq<Slot>)
    requires Invariant(s) && Next(s, s') && Owns(s.table, u, st)
    requires |s'.table.buckets| > 0 && TableOk(s'.table) && Owns(s'.table, u, st')
    ensures SlotsKept(st, st')
  {
    hide TableOk, Owns, HasEntry, StepOf, Gains;
    var t: nat :| StepOf(s, s', t);
    StepStorage(s, s', t, u, st);
    OwnsEntry(s'.table, u, st');
    match s.pcs[t] {
      case Inside(AllocId(_)) =>
        var k := Gained(s.table, s'.table, u, st);
        OneStorage(s'.table, u, st + [Res(k)], st');
      case Inside(FreeTheId(j)) => OneStorage(s'.table, u, st[j := Null], st');
      case _ => OneStorage(s'.table, u, st, st');
    }
  }

  lemma Gained(tb: Table, tb': Table, u: nat, st: seq<Slot>) returns (k: nat)
    requires |tb'.buckets| > 0 && Gains(tb, tb', u, st)
    ensures Owns(tb', u, st + [Res(k)])
  {
    hide Owns;
    k :| k >= |tb.kinds| && Owns(tb', u, st + [Res(k)]);
  }

  /** As long as a thread has its entry it keeps its resources, whatever all threads do: in every run a
      slot still holds the same resource later, or its id has been freed and the slot is null. */
  lemma {:induction false} ResourcesStay(run: seq<State>, m: nat, n: nat, u: nat, st: seq<Slot>, st': seq<Slot>)
    requires Run(run) && m <= n < |run|
    requires forall k :: m <= k <= n ==> |run[k].table.buckets| > 0 && HasEntry(run[k].table, u)
    requires Owns(run[m].table, u, st) && Owns(run[n].table, u, st')
    ensures SlotsKept(st, st') && |st| <= |st'| == |run[n].table.types|
    ensures forall j :: 0 <= j < |st| && st'[j] != st[j] ==> run[n].table.types[j].done
    decreases n
  {
    hide Run, TableOk, Owns, HasEntry, PcOk, StorageOk, SlotsKept;
    RunsKeep(run, n);
    OneStorage(run[n].table, u, st', st');
    if m == n {
      OneStorage(run[n].table, u, st, st');
    } else {
      RunsKeep(run, n - 1);
      var st1 := EntryOwns(run[n - 1].table, u);
      ResourcesStay(run, m, n - 1, u, st, st1);
      RunStep(run, n);
      StepSlots(run[n - 1], run[n], u, st1, st');
      KeptTwice(st, st1, st');
    }
    NullDone(run[n].table, st, st');
  }

  lemma RunStep(run: seq<State>, n: nat)
    requires Run(run) && 0 < n < |run|
    ensures Next(run[n - 1], run[n])
  {
    hide Next;
    assert Next(run[n - 1], run[n - 1 + 1]);
  }

  lemma KeptTwice(st: seq<Slot>, st1: seq<Slot>, st2: seq<Slot>)
    requires SlotsKept(st, st1) && SlotsKept(st1, st2)
    ensures SlotsKept(st, st2)
  {
  }

  lemma NullDone(tb: Table, st: seq<Slot>, st': seq<Slot>)
    requires StorageOk(st', tb.types, tb.kinds)
    ensures SlotsKept(st, st) && |st'| == |tb.types|
    ensures SlotsKept(st, st') ==> forall j :: 0 <= j < |st| && st'[j] != st[j] ==> tb.types[j].done
  {
  }

  // ------------------------------------------------------------------------- exclusive

  /** No resource is in the storage of two threads. */
  lemma ExclusiveResources(tb: Table, u: nat, st: seq<Slot>, u': nat, st': seq<Slot>, j: nat, j': nat)
    requires TableOk(tb) && Owns(tb, u, st) && Owns(tb, u', st') && u != u'
    requires j < |st| && j' < |st'| && st[j].Res?
    ensures st[j] != st'[j']
  {
    hide InBuckets, InChain, InStorage, ChainOk;
    var k := st[j].id;
    assert Conserved(tb, k);
    if st[j] == st'[j'] {
      DropSlot(st, j, k);
      DropSlot(st', j', k);
      var b, b' := Hash(u, |tb.buckets|), Hash(u', |tb.buckets|);
      var i :| 0 <= i < |tb.buckets[b]| && tb.buckets[b][i] == Entry(u, st);
      var i' :| 0 <= i' < |tb.buckets[b']| && tb.buckets[b'][i'] == Entry(u', st');
      InBucketsUpdate(tb.buckets, b, [], k);
      NothingInChain(k);
      InChainWithout(tb.buckets[b], i, k);
      if b == b' {
        var rest := tb.buckets[b][..i] + tb.buckets[b][i + 1..];
        var l := if i' < i then i' else i' - 1;
        assert rest[l] == Entry(u', st');
        InChainWithout(rest, l, k);
      } else {
        var bs := tb.buckets[b := []];
        InBucketsUpdate(bs, b', [], k);
        InChainWithout(bs[b'], i', k);
      }
    }
  }

  lemma NothingInChain(k: nat)
    ensures InChain([], k) == 0
  {
  }
}
