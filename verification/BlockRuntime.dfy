/**
 The block runtime: residency table, DRAM cache, HBM cache and the stream between them, driven
 by the lookup loop.
 */
module BlockRuntime {
  import opened Recency
  import opened SlotCache
  import opened Storage
  import opened BlockFile
  import opened BlockCaches
  import opened CopyCoherence
  import opened ResidencyTable
  import opened FifoRounds
  import TraceSimulation

  datatype BlockPath = HbmHit | DramHit | PosixRead

  datatype Metrics = Metrics(hbmHits: nat, dramHits: nat, dramMisses: nat, posixReads: nat, evictions: nat,
                             bytesRead: nat, bytesCopied: nat)

  /** The lookups that miss HBM, over all lookups so far. */
  function Missing(hbmCap: nat, trace: seq<Block>): seq<Block> {
    Admitted(hbmCap, [], trace)
  }

  /** Which tier serves a block after a history of lookups, by two simulations that know nothing
      of slots, tables or copies. */
  function TierOf(hbmCap: nat, dramCap: nat, trace: seq<Block>, b: Block): BlockPath {
    if b in FifoRun(hbmCap, [], trace) then HbmHit
    else if b in LruRun(dramCap, [], Missing(hbmCap, trace)) then DramHit
    else PosixRead
  }

  /** In words: HBM serves the blocks it admitted last, whatever hits came since; otherwise DRAM
      serves a block iff fewer than dramCap distinct others missed HBM since it last did. */
  lemma {:induction false} TierMeaning(hbmCap: nat, dramCap: nat, trace: seq<Block>, b: Block)
    requires dramCap >= 1
    ensures var missing := Missing(hbmCap, trace);
            TierOf(hbmCap, dramCap, trace, b) ==
              if b in Take(Reversed(missing), hbmCap) then HbmHit
              else if b in missing && |SinceLastUse(missing, b)| < dramCap then DramHit
              else PosixRead
  {
    FifoIsLastAdmitted(hbmCap, [], trace);
    assert Take<Block>([], hbmCap) == [];
    assert Reversed(Missing(hbmCap, trace)) + [] == Reversed(Missing(hbmCap, trace));
    HitIffReuseDistance(dramCap, Missing(hbmCap, trace), b);
  }

  /** HBM is not an LRU buffer: with two slots, after looking up 0, 1, 0 and 2, it no longer holds 0,
      which LRU would. */
  lemma {:induction false} HbmIsNotLru()
    ensures var trace: seq<Block> := [0, 1, 0, 2];
            LruRun(2, [], trace) == [2, 0] && FifoRun(2, [], trace) == [2, 1] && TierOf(2, 2, trace, 0) != HbmHit
  {
    hide LruStep, FifoStep, Admitted;
    var a: seq<Block> := [];
    assert FifoRun(2, [], a) == [] && LruRun(2, [], a) == [];
    RunsNext(2, [], a, 0);
    TwoSlots([], 0);
    var b := a + [0];
    assert FifoRun(2, [], b) == [0] && LruRun(2, [], b) == [0];
    RunsNext(2, [], b, 1);
    TwoSlots([0], 1);
    var c := b + [1];
    assert FifoRun(2, [], c) == [1, 0] && LruRun(2, [], c) == [1, 0];
    RunsNext(2, [], c, 0);
    TwoSlots([1, 0], 0);
    var d := c + [0];
    assert FifoRun(2, [], d) == [1, 0] && LruRun(2, [], d) == [0, 1];
    RunsNext(2, [], d, 2);
    TwoSlots([1, 0], 2);
    TwoSlots([0, 1], 2);
    assert d + [2] == [0, 1, 0, 2];
  }

  lemma {:induction false} TwoSlots(s: seq<Block>, k: Block)
    requires s == [] || (|s| == 1 && s[0] != k) || (|s| == 2 && s[0] != s[1] && s[0] != k)
    ensures FifoStep(2, s, k) == (if k in s then s else if s == [] then [k] else [k, s[0]])
    ensures LruStep(2, s, k) == (if s == [] then [k] else [k, s[0]])
  {
    if |s| == 2 && s[1] == k {
      assert s == [s[0]] + [k] + [];
      WithoutSplit([s[0]], k, []);
    } else {
      WithoutAbsent(s, k);
    }
  }

  /** What the counters say about a history of lookups. */
  ghost predicate Counted(m: Metrics, blockBytes: nat, hbmCap: nat, dramCap: nat, trace: seq<Block>) {
    var missing := Missing(hbmCap, trace);
    && m.hbmHits + |missing| == |trace|
    && m.dramHits + m.posixReads == |missing|
    && m.dramMisses == m.posixReads == |Missed(dramCap, [], missing)|
    && m.bytesRead == Times(m.posixReads, blockBytes)
    && m.bytesCopied == Times(m.dramHits + m.posixReads, blockBytes)
  }

  function CountPath(m: Metrics, p: BlockPath, blockBytes: nat): Metrics {
    match p
    case HbmHit => m.(hbmHits := m.hbmHits + 1)
    case DramHit => m.(dramHits := m.dramHits + 1, bytesCopied := m.bytesCopied + blockBytes)
    case PosixRead => m.(dramMisses := m.dramMisses + 1, posixReads := m.posixReads + 1,
                         bytesRead := m.bytesRead + blockBytes, bytesCopied := m.bytesCopied + blockBytes)
  }

  lemma {:induction false} CountedNext(m: Metrics, blockBytes: nat, hbmCap: nat, dramCap: nat, trace: seq<Block>,
      b: Block)
    requires Counted(m, blockBytes, hbmCap, dramCap, trace)
    ensures Counted(CountPath(m, TierOf(hbmCap, dramCap, trace, b), blockBytes), blockBytes, hbmCap, dramCap, trace + [b])
  {
    hide FifoRun, LruRun, Missing, Missed, Times;
    MissingNext(hbmCap, trace, b);
    MissedNext(dramCap, Missing(hbmCap, trace), b);
    TimesNext(m.posixReads, blockBytes);
    TimesNext(m.dramHits + m.posixReads, blockBytes);
  }

  lemma {:induction false} TimesNext(n: nat, c: nat)
    ensures Times(n + 1, c) == Times(n, c) + c
  {
  }

  lemma {:induction false} MissingNext(hbmCap: nat, trace: seq<Block>, b: Block)
    ensures Missing(hbmCap, trace + [b]) ==
            Missing(hbmCap, trace) + if b in FifoRun(hbmCap, [], trace) then [] else [b]
  {
    assert (trace + [b])[..|trace|] == trace;
  }

  lemma {:induction false} MissedNext(dramCap: nat, missing: seq<Block>, b: Block)
    ensures Missed(dramCap, [], missing + [b]) ==
            Missed(dramCap, [], missing) + if b in LruRun(dramCap, [], missing) then [] else [b]
    ensures missing + [] == missing
  {
    assert (missing + [b])[..|missing|] == missing;
  }

  /** Evictions are what is left of the loads when every slot is full. */
  ghost predicate EvictionsCounted(dram: Slots, evictions: nat, posixReads: nat) {
    && evictions + |dram.lru| == posixReads
    && (evictions > 0 ==> |dram.lru| == dram.cap)
  }

  /** The residency table knows exactly the blocks in HBM, each as in HBM and at its slot. */
  ghost predicate Mirrors(entries: map<Block, Entry>, hbm: map<Block, nat>) {
    entries.Keys == hbm.Keys && forall b :: b in hbm ==> Reflects(entries[b], b, hbm[b])
  }

  predicate Reflects(e: Entry, b: Block, slot: nat) {
    e.blockId == b && e.state.InHbm? && e.devicePtr == At(slot)
  }

  /** The same but for a block on its way into HBM. */
  ghost predicate MirrorsBut(entries: map<Block, Entry>, hbm: map<Block, nat>, b: Block) {
    entries.Keys == hbm.Keys + {b} && forall x :: x in hbm && x != b ==> Reflects(entries[x], x, hbm[x])
  }

  lemma {:induction false} MirrorsReleased(entries: map<Block, Entry>, after: map<Block, Entry>, hbm: map<Block, nat>)
    requires Mirrors(entries, hbm) && after.Keys == entries.Keys
    requires forall x :: x in entries ==>
               after[x] == entries[x].(refCount := after[x].refCount, lastAccess := after[x].lastAccess)
    ensures Mirrors(after, hbm)
  {
  }

  lemma {:induction false} MirrorsButSame(entries: map<Block, Entry>, after: map<Block, Entry>, hbm: map<Block, nat>,
      b: Block)
    requires MirrorsBut(entries, hbm, b) && after.Keys == entries.Keys + {b}
    requires forall x :: x in entries && x != b ==> after[x] == entries[x]
    ensures MirrorsBut(after, hbm, b)
  {
  }

  /** A block moves into HBM: its entry is new, the victim's is erased. */
  lemma {:induction false} MirrorsMiss(entries: map<Block, Entry>, hbm: Slots, b: Block, mid: map<Block, Entry>, e: Entry)
    requires hbm.Valid() && MirrorsBut(entries, hbm.slot, b) && b !in hbm.slot
    requires mid.Keys == entries.Keys - hbm.Victim(b)
    requires forall x :: x in mid ==> mid[x] == entries[x]
    requires b in hbm.Allocate(b).slot && Reflects(e, b, hbm.Allocate(b).slot[b])
    ensures Mirrors(mid[b := e], hbm.Allocate(b).slot)
  {
    hide Slots.Valid, Slots.Allocate;
    AllocateValid(hbm, b);
  }

  lemma {:induction false} EvictionsNext(dram: Slots, b: Block, evictions: nat, posixReads: nat)
    requires dram.Valid() && EvictionsCounted(dram, evictions, posixReads)
    ensures EvictionsCounted(dram.Allocate(b), evictions + |dram.Victim(b)|, posixReads + if b in dram.slot then 0 else 1)
  {
    hide Slots.Allocate, Slots.Victim, Slots.Injective, Slots.Occupied;
    AllocateCases(dram, b);
    WithoutNoDup(dram.lru, b);
  }

  /** Both lists are what the history of lookups makes them, and the counters what it counts. */
  ghost predicate Explained(hbm: Slots, dram: Slots, trace: seq<Block>, blockBytes: nat, m: Metrics,
                            hits: nat, misses: nat, evictions: nat) {
    && hbm.lru == FifoRun(hbm.cap, [], trace)
    && dram.lru == LruRun(dram.cap, [], Missing(hbm.cap, trace))
    && Counted(m, blockBytes, hbm.cap, dram.cap, trace)
    && hits == m.dramHits && misses == m.dramMisses
    && EvictionsCounted(dram, evictions, m.posixReads)
    && Cyclic(hbm, |Missing(hbm.cap, trace)|)
  }

  lemma {:induction false} ExplainedNext(disk: Disk, s: Tiers, trace: seq<Block>, m: Metrics, hits: nat, misses: nat,
                      evictions: nat, b: Block, t: Timing)
    requires Shaped(s) && Explained(s.hbm, s.dram, trace, disk.blockBytes, m, hits, misses, evictions)
    ensures var r, path := Access(disk, s, b, t), TierOf(s.hbm.cap, s.dram.cap, trace, b);
            var n := CountPath(m, path, disk.blockBytes);
            && path == (if b in s.hbm.slot then HbmHit else if b in s.dram.slot then DramHit else PosixRead)
            && Explained(r.hbm, r.dram, trace + [b], disk.blockBytes, n,
                         hits + (if path.DramHit? then 1 else 0), misses + (if path.PosixRead? then 1 else 0),
                         evictions + if path.HbmHit? then 0 else |s.dram.Victim(b)|)
  {
    hide Slots.Valid, Slots.Allocate, Slots.Victim, Access, Counted, EvictionsCounted, TierOf, FifoRun, LruRun,
        Missing, Cyclic;
    ListsNext(disk, s, trace, b, t);
    CountedNext(m, disk.blockBytes, s.hbm.cap, s.dram.cap, trace, b);
    if b !in s.hbm.slot {
      EvictionsNext(s.dram, b, evictions, m.posixReads);
      AllocateCyclic(s.hbm, |Missing(s.hbm.cap, trace)|, b);
    }
  }

  /** The lists after one more lookup. */
  lemma {:induction false} ListsNext(disk: Disk, s: Tiers, trace: seq<Block>, b: Block, t: Timing)
    requires Shaped(s) && s.hbm.lru == FifoRun(s.hbm.cap, [], trace)
    requires s.dram.lru == LruRun(s.dram.cap, [], Missing(s.hbm.cap, trace))
    ensures var r := Access(disk, s, b, t);
            && r.hbm.cap == s.hbm.cap && r.dram.cap == s.dram.cap
            && r.hbm.lru == FifoRun(s.hbm.cap, [], trace + [b])
            && r.dram.lru == LruRun(s.dram.cap, [], Missing(s.hbm.cap, trace + [b]))
            && |Missing(s.hbm.cap, trace + [b])| == |Missing(s.hbm.cap, trace)| + (if b in s.hbm.slot then 0 else 1)
    ensures TierOf(s.hbm.cap, s.dram.cap, trace, b) ==
            if b in s.hbm.slot then HbmHit else if b in s.dram.slot then DramHit else PosixRead
  {
    hide Slots.Injective, Slots.Occupied, Access, FifoStep, LruStep, FifoRun, LruRun, Missing;
    AccessLists(disk, s, b, t);
    var missing := Missing(s.hbm.cap, trace);
    RunsNext(s.hbm.cap, [], trace, b);
    RunsNext(s.dram.cap, [], missing, b);
    MissingNext(s.hbm.cap, trace, b);
    assert missing + [] == missing;
  }

  /** A block still known, or newly known, has the references it had. */
  ghost predicate SameRefs(before: map<Block, Entry>, after: map<Block, Entry>) {
    forall x :: x in after ==> after[x].refCount == Refs(before, x)
  }

  /** A lookup takes one reference, and gives up those of a block it throws out. */
  ghost predicate OneMoreRef(before: map<Block, Entry>, after: map<Block, Entry>, b: Block) {
    forall x :: x in after ==> after[x].refCount == Refs(before, x) + if x == b then 1 else 0
  }

  /** References to a block after some lookups: one per mention since it last came into HBM. */
  function RefsAfter(hbmCap: nat, hbm: seq<Block>, refs: map<Block, Entry>, ids: seq<Block>, x: Block): nat
    decreases |ids|
  {
    if ids == [] then Refs(refs, x)
    else
      var init, b := ids[..|ids| - 1], ids[|ids| - 1];
      (if x in FifoRun(hbmCap, hbm, init) then RefsAfter(hbmCap, hbm, refs, init, x) else 0) + (if x == b then 1 else 0)
  }

  ghost predicate CountedRefs(entries: map<Block, Entry>, hbmCap: nat, hbm: seq<Block>, refs: map<Block, Entry>,
                              ids: seq<Block>) {
    forall x :: x in entries ==> entries[x].refCount == RefsAfter(hbmCap, hbm, refs, ids, x)
  }

  lemma {:induction false} NoRefsYet(refs: map<Block, Entry>, hbmCap: nat, hbm: seq<Block>)
    ensures CountedRefs(refs, hbmCap, hbm, refs, [])
  {
  }

  lemma {:induction false} CountedRefsNext(before: map<Block, Entry>, after: map<Block, Entry>, hbmCap: nat,
                                           hbm: seq<Block>, refs: map<Block, Entry>, ids: seq<Block>, i: nat)
    requires i < |ids| && CountedRefs(before, hbmCap, hbm, refs, ids[..i]) && OneMoreRef(before, after, ids[i])
    requires forall x :: x in before <==> x in FifoRun(hbmCap, hbm, ids[..i])
    ensures CountedRefs(after, hbmCap, hbm, refs, ids[..i + 1])
  {
    hide FifoRun;
    assert ids[..i + 1][..i] == ids[..i];
  }

  /** Lookups that all hit HBM take one reference per mention, which releasing the same blocks gives
      back. */
  lemma {:induction false} RefsOfHits(hbmCap: nat, hbm: seq<Block>, refs: map<Block, Entry>, ids: seq<Block>, x: Block)
    requires Admitted(hbmCap, hbm, ids) == [] && x in hbm
    ensures RefsAfter(hbmCap, hbm, refs, ids, x) == Refs(refs, x) + multiset(ids)[x]
    ensures FifoRun(hbmCap, hbm, ids) == hbm
    decreases |ids|
  {
    if ids != [] {
      var init := ids[..|ids| - 1];
      assert ids == init + [ids[|ids| - 1]];
      RefsOfHits(hbmCap, hbm, refs, init, x);
    }
  }

  ghost predicate OnDisk(disk: Disk, s: Slots) {
    forall b :: b in s.slot ==> disk.Has(b)
  }

  lemma {:induction false} OnDiskHas(disk: Disk, s: Slots, b: Block)
    requires OnDisk(disk, s) && b in s.slot
    ensures disk.Has(b)
  {
  }

  lemma {:induction false} OnDiskNext(disk: Disk, s: Slots, b: Block)
    requires s.Valid() && OnDisk(disk, s) && disk.Has(b)
    ensures OnDisk(disk, s.Allocate(b))
  {
    hide Slots.Valid, Slots.Allocate;
    AllocateValid(s, b);
  }

  class Handle {
    const disk: Disk
    const dram: DramCache
    const hbm: HbmCache
    const residency: Table
    var metrics: Metrics
    var pending: seq<Copy>
    ghost var trace: seq<Block>

    ghost function State(): Tiers
      reads this, dram, dram.memory, hbm, hbm.memory
    {
      Tiers(dram.View(), hbm.View(), dram.memory[..], hbm.memory[..], pending)
    }

    /** The memories and the stream fit the caches. */
    ghost predicate Sound()
      reads this, dram, dram.memory, hbm, hbm.memory
    {
      disk.blockBytes > 0 && dram.memory != hbm.memory && Shaped(State())
    }

    ghost predicate Recorded()
      reads this, dram, hbm
    {
      Explained(hbm.View(), dram.View(), trace, disk.blockBytes, metrics, dram.hits, dram.misses, dram.evictions)
    }

    ghost predicate Valid()
      reads this, dram, dram.memory, hbm, hbm.memory, residency
    {
      && Sound() && Recorded()
      && Mirrors(residency.entries, hbm.entries)
      && OnDisk(disk, dram.View()) && OnDisk(disk, hbm.View())
      && NoBlock !in hbm.entries
    }

    constructor (disk: Disk, dramBytes: nat, hbmBytes: nat)
      requires disk.blockBytes > 0
      ensures Valid() && this.disk == disk && trace == [] && pending == [] && Coherent(disk, State())
      ensures fresh(dram) && fresh(dram.memory) && fresh(hbm) && fresh(hbm.memory) && fresh(residency)
      ensures dram.memory.Length == CapacityBlocks(dramBytes, disk.blockBytes)
      ensures hbm.memory.Length == CapacityBlocks(hbmBytes, disk.blockBytes)
    {
      hide Slots.Valid;
      this.disk := disk;
      dram := new DramCache(dramBytes, disk.blockBytes);
      hbm := new HbmCache(hbmBytes, disk.blockBytes);
      residency := new Table();
      metrics := Metrics(0, 0, 0, 0, 0, 0, 0);
      pending := [];
      trace := [];
      EmptyCyclic(CapacityBlocks(hbmBytes, disk.blockBytes));
    }

    /** The next k copies of the stream land. */
    method LandCopies(k: nat)
      requires Sound()
      modifies this`pending, hbm.memory
      ensures Sound() && State() == Land(old(State()), k)
    {
      hide Shaped, LandOne;
      var left: nat := k;
      while left > 0 && pending != []
        invariant Sound() && left <= k && Shaped(old(State()))
        invariant Land(State(), left) == Land(old(State()), k)
        decreases left
      {
        LandNext();
        left := left - 1;
      }
    }

    method LandNext()
      requires Sound() && pending != []
      modifies this`pending, hbm.memory
      ensures Sound() && State() == LandOne(old(State()))
    {
      hide Slots.Valid;
      var c := pending[0];
      hbm.memory[c.dst] := dram.memory[c.src];
      pending := pending[1..];
    }

    /** Takes a DRAM slot for a load. */
    method BeginLoad(b: Block) returns (slot: nat)
      requires Sound()
      modifies dram
      ensures Sound() && State() == StartLoad(old(State()), b)
      ensures b in dram.entries && slot == dram.entries[b]
      ensures dram.hits == old(dram.hits) && dram.misses == old(dram.misses)
      ensures dram.evictions == old(dram.evictions) + |old(dram.View()).Victim(b)|
    {
      hide Slots.Valid, Slots.Allocate, Slots.Victim;
      slot := dram.AllocateSlotForLoad(b);
    }

    /** What a load under way does to its slot, and the copies that land meanwhile. */
    method LandMeanwhile(b: Block, slot: nat, during: seq<Data>)
      requires Sound() && b in dram.entries && slot == dram.entries[b]
      modifies this`pending, dram.memory, hbm.memory
      ensures Sound() && State() == LandDuring(old(State()), b, during)
    {
      hide Slots.Valid, Land;
      var i: nat := 0;
      while i < |during|
        invariant i <= |during| && Sound()
        invariant b in dram.entries && slot == dram.entries[b]
        invariant LandDuring(State(), b, during[i..]) == LandDuring(old(State()), b, during)
      {
        WriteOne(b, slot, during[i]);
        LandCopies(1);
        assert during[i..][1..] == during[i + 1..];
        i := i + 1;
      }
    }

    method WriteOne(b: Block, slot: nat, data: Data)
      requires Sound() && b in dram.entries && slot == dram.entries[b]
      modifies dram.memory
      ensures Sound() && State() == WriteSlot(old(State()), b, data)
    {
      hide Slots.Valid;
      SlotInRange(dram.View(), b);
      dram.memory[slot] := data;
    }

    method CompleteLoad(b: Block, slot: nat) returns (ok: bool)
      requires Sound() && b in dram.entries && slot == dram.entries[b]
      modifies dram.memory
      ensures Sound()
      ensures ok ==> disk.Has(b) && State() == WriteSlot(old(State()), b, disk.Block(b))
      ensures !ok ==> State() == old(State()) && (disk.Has(b) ==> !disk.reliable)
    {
      hide Shaped;
      var buf := new byte[disk.blockBytes];
      ok := LoadBlock(disk, b, buf);
      if ok {
        WriteOne(b, slot, buf[..]);
      }
    }

    /** Loads a block into a fresh DRAM slot while copies may land. A load that fails leaves the
        slot to the block all the same. */
    method LoadMissing(b: Block, t: Timing) returns (ok: bool, slot: nat)
      requires Sound() && b !in dram.entries
      modifies this`pending, dram, dram.memory, hbm.memory
      ensures Sound() && b in dram.entries && slot == dram.entries[b]
      ensures ok ==> disk.Has(b) && State() == Fetch(disk, old(State()), b, t)
      ensures !ok ==> State() == LandDuring(StartLoad(old(State()), b), b, t.during) && (disk.Has(b) ==> !disk.reliable)
      ensures dram.hits == old(dram.hits) && dram.misses == old(dram.misses)
      ensures dram.evictions == old(dram.evictions) + |old(dram.View()).Victim(b)|
    {
      hide Shaped, Slots.Allocate, Slots.Victim, Land, StartLoad, WriteSlot, LandDuring;
      slot := BeginLoad(b);
      LandMeanwhile(b, slot, t.during);
      ok := CompleteLoad(b, slot);
    }

    /** Where the block's bytes are in DRAM, loading them if they are not there. */
    method FetchBlock(b: Block, t: Timing) returns (ok: bool, slot: nat, path: BlockPath)
      requires Sound()
      modifies this`metrics, this`pending, dram, dram.memory, hbm.memory, residency
      ensures ok ==> Sound() && State() == Fetch(disk, old(State()), b, t)
      ensures ok ==> b in dram.entries && slot == dram.entries[b]
      ensures path == if b in old(dram.entries) then DramHit else PosixRead
      ensures ok ==> metrics.(bytesCopied := 0) == CountPath(old(metrics), path, disk.blockBytes).(bytesCopied := 0)
      ensures metrics.bytesCopied == old(metrics.bytesCopied)
      ensures ok && path.PosixRead? ==> disk.Has(b)
      ensures !ok ==> path.PosixRead? && (disk.Has(b) ==> !disk.reliable)
      ensures !ok ==> Sound() && b in dram.entries && hbm.View() == old(hbm.View())
      ensures ok ==> dram.hits == old(dram.hits) + (if path.DramHit? then 1 else 0)
      ensures ok ==> dram.misses == old(dram.misses) + (if path.PosixRead? then 1 else 0)
      ensures ok ==> dram.evictions == old(dram.evictions) + |old(dram.View()).Victim(b)|
      ensures ok ==> residency.entries.Keys == old(residency.entries.Keys) + {b}
      ensures ok ==> Refs(residency.entries, b) == Refs(old(residency.entries), b)
      ensures ok ==> forall x :: x in old(residency.entries) && x != b ==> residency.entries[x] == old(residency.entries)[x]
    {
      hide Slots.Valid, Slots.Allocate, Land;
      ghost var s := State();
      var dramPtr := dram.Get(b);
      if dramPtr.At? {
        path, slot, ok := DramHit, dramPtr.slot, true;
        metrics := metrics.(dramHits := metrics.dramHits + 1);
        assert State() == s.(dram := s.dram.Allocate(b));
      } else {
        assert State() == s;
        path, metrics := PosixRead, metrics.(dramMisses := metrics.dramMisses + 1);
        residency.MarkLoading(b);
        ok, slot := LoadMissing(b, t);
        if !ok {
          return;
        }
        metrics := metrics.(posixReads := metrics.posixReads + 1, bytesRead := metrics.bytesRead + disk.blockBytes);
      }
      residency.MarkDram(b, At(slot));
    }

    /** Brings a block that is in DRAM into HBM: a slot, a copy on the stream, and the table. */
    method PlaceBlock(b: Block, dramSlot: nat) returns (slot: nat)
      requires Sound() && b in dram.entries && dramSlot == dram.entries[b] && b !in hbm.entries
      requires MirrorsBut(residency.entries, hbm.entries, b)
      requires NoBlock !in hbm.entries && b != NoBlock
      modifies this`metrics, this`pending, hbm, residency
      ensures Sound() && State() == Issue(old(State()), b)
      ensures b in hbm.entries && slot == hbm.entries[b]
      ensures Mirrors(residency.entries, hbm.entries) && NoBlock !in hbm.entries
      ensures SameRefs(old(residency.entries), residency.entries)
      ensures metrics == old(metrics).(bytesCopied := old(metrics.bytesCopied) + disk.blockBytes)
    {
      hide Slots.Valid, Slots.Allocate, Mirrors, MirrorsBut;
      ghost var s, h, entries := State(), hbm.View(), residency.entries;
      AllocateValid(h, b);
      var evicted;
      slot, evicted := hbm.Allocate(b);
      if evicted != NoBlock {
        residency.Erase(evicted);
      }
      pending := pending + [Copy(dramSlot, slot)];
      metrics := metrics.(bytesCopied := metrics.bytesCopied + disk.blockBytes);
      ghost var mid := residency.entries;
      residency.MarkHbm(b, At(slot));
      MirrorsMiss(entries, h, b, mid, residency.entries[b]);
      assert State() == Issue(s, b);
    }

    /** A lookup that misses HBM: through DRAM, loading if need be, into HBM. */
    method ServeMiss(b: Block, t: Timing) returns (ok: bool, ptr: Ptr, path: BlockPath)
      requires Sound() && b !in hbm.entries && NoBlock !in hbm.entries && b != NoBlock
      requires MirrorsBut(residency.entries, hbm.entries, b)
      modifies this`metrics, this`pending, dram, dram.memory, hbm, hbm.memory, residency
      ensures path == if b in old(dram.entries) then DramHit else PosixRead
      ensures !ok ==> path.PosixRead? && (disk.Has(b) ==> !disk.reliable)
      ensures !ok ==> Sound() && b in dram.entries && hbm.View() == old(hbm.View())
      ensures ok ==> Sound() && State() == Access(disk, old(State()), b, t)
      ensures ok ==> Mirrors(residency.entries, hbm.entries) && NoBlock !in hbm.entries
      ensures ok ==> SameRefs(old(residency.entries), residency.entries)
      ensures ok ==> b in hbm.entries && ptr == At(hbm.entries[b]) && (path.PosixRead? ==> disk.Has(b))
      ensures ok ==> metrics == CountPath(old(metrics), path, disk.blockBytes)
      ensures ok ==> dram.hits == old(dram.hits) + (if path.DramHit? then 1 else 0)
      ensures ok ==> dram.misses == old(dram.misses) + (if path.PosixRead? then 1 else 0)
      ensures ok ==> dram.evictions == old(dram.evictions) + |old(dram.View()).Victim(b)|
    {
      hide Slots.Valid, Slots.Allocate, Slots.Victim, Land, Fetch, Issue, Access, Mirrors, MirrorsBut;
      ghost var entries, s := residency.entries, State();
      AccessMiss(disk, s, b, t);
      ptr := Null;
      LandCopies(t.before);
      var slot;
      ok, slot, path := FetchBlock(b, t);
      if ok {
        MirrorsButSame(entries, residency.entries, hbm.entries, b);
        slot := PlaceBlock(b, slot);
        ptr := At(slot);
      }
    }

    /** A block whose load failed holds a DRAM slot that was never filled. */
    ghost predicate LeftBehind(b: Block)
      reads this, dram, hbm
    {
      (disk.Has(b) ==> !disk.reliable) && b in dram.entries && b !in hbm.entries
    }

    /** One turn of the lookup loop. */
    method LookupBlock(b: Block, t: Timing) returns (ok: bool, ptr: Ptr, path: BlockPath)
      requires Valid() && b != NoBlock
      modifies this, dram, dram.memory, hbm, hbm.memory, residency
      ensures ok ==> Valid() && trace == old(trace) + [b] && State() == Access(disk, old(State()), b, t)
      ensures ok ==> path == TierOf(hbm.memory.Length, dram.memory.Length, old(trace), b)
      ensures ok ==> b in hbm.entries && ptr == At(hbm.entries[b]) && disk.Has(b)
      ensures ok ==> OneMoreRef(old(residency.entries), residency.entries, b)
      ensures !ok ==> Sound() && LeftBehind(b)
    {
      hide Slots.Valid, Slots.Allocate, Slots.Victim, Explained, TierOf, OnDisk;
      ghost var s := State();
      ExplainedNext(disk, s, trace, metrics, dram.hits, dram.misses, dram.evictions, b, t);
      var entry := residency.Lookup(b);
      if entry.state.InHbm? && entry.devicePtr.At? {
        metrics := metrics.(hbmHits := metrics.hbmHits + 1);
        ok, ptr, path := true, entry.devicePtr, HbmHit;
        OnDiskHas(disk, s.hbm, b);
      } else {
        if entry.state.InDram? && entry.dramPtr.At? {
          assert false;
        }
        ok, ptr, path := ServeMiss(b, t);
        if !ok {
          return;
        }
        if path.DramHit? {
          OnDiskHas(disk, s.dram, b);
        }
        OnDiskNext(disk, s.dram, b);
        OnDiskNext(disk, s.hbm, b);
      }
      Remember(b);
    }

    /** The lookup enters the history. */
    ghost method Remember(b: Block)
      requires Sound() && Mirrors(residency.entries, hbm.entries) && NoBlock !in hbm.entries
      requires OnDisk(disk, dram.View()) && OnDisk(disk, hbm.View())
      requires Explained(hbm.View(), dram.View(), trace + [b], disk.blockBytes,
                         metrics, dram.hits, dram.misses, dram.evictions)
      modifies this`trace
      ensures Valid() && trace == old(trace) + [b]
    {
      trace := trace + [b];
    }

    lemma {:induction false} ValidShaped()
      requires Valid()
      ensures Sound() && Shaped(State())
    {
    }

    lemma {:induction false} ResidentIff()
      requires Valid()
      ensures forall x :: x in residency.entries <==> x in hbm.lru
    {
      hide Slots.Injective, Slots.Occupied, Recorded, OnDisk;
    }

    /** The turn for position i of a batch that began in state s. */
    method LookupAt(ids: seq<Block>, ts: seq<Timing>, i: nat, ghost s: Tiers, ghost before: seq<Block>,
                    ghost refs: map<Block, Entry>)
      returns (ok: bool, ptr: Ptr, path: BlockPath)
      requires Valid() && Shaped(s) && |ts| == |ids| && i < |ids| && ids[i] != NoBlock
      requires trace == before + ids[..i] && State() == Batch(disk, s, ids[..i], ts[..i])
      requires s.hbm.cap == hbm.memory.Length && CountedRefs(residency.entries, s.hbm.cap, s.hbm.lru, refs, ids[..i])
      modifies this, dram, dram.memory, hbm, hbm.memory, residency
      ensures ok ==> Valid() && trace == before + ids[..i + 1] && disk.Has(ids[i])
      ensures ok ==> State() == Batch(disk, s, ids[..i + 1], ts[..i + 1])
      ensures ok ==> CountedRefs(residency.entries, s.hbm.cap, s.hbm.lru, refs, ids[..i + 1])
      ensures ok ==> ptr == PtrAt(disk, s, ids, ts, i)
      ensures ok ==> path == PathAt(hbm.memory.Length, dram.memory.Length, before, ids, i)
      ensures !ok ==> Sound() && LeftBehind(ids[i])
    {
      hide CountedRefs, OneMoreRef, FifoRun, Handle.Valid, Shaped, Recorded, Mirrors, OnDisk, Batch, Access, PtrAt, PathAt;
      NextInBatch(disk, s, ids, ts, i);
      NextInTrace(ids, before, hbm.memory.Length, dram.memory.Length, i);
      ResidentIff();
      BatchLists(disk, s, ids[..i], ts[..i]);
      ghost var entries := residency.entries;
      ok, ptr, path := LookupBlock(ids[i], ts[i]);
      if ok {
        CountedRefsNext(entries, residency.entries, s.hbm.cap, s.hbm.lru, refs, ids, i);
      }
    }

    /** memtier_lookup_blocks: the loop, then the stream is waited for. */
    method LookupBlocks(ids: seq<Block>, ptrs: array<Ptr>, paths: array<BlockPath>, ts: seq<Timing>) returns (rc: int)
      requires Valid() && pending == [] && NoBlock !in ids && |ts| == |ids|
      requires ptrs.Length >= |ids| && paths.Length >= |ids|
      modifies this, dram, dram.memory, hbm, hbm.memory, residency, ptrs, paths
      ensures rc == 0 || rc == -1
      ensures rc == 0 ==> forall b :: b in ids ==> disk.Has(b)
      ensures rc != 0 ==> Sound() && exists b :: b in ids && LeftBehind(b)
      ensures rc == 0 ==> Valid() && pending == [] && trace == old(trace) + ids
      ensures rc == 0 ==> State() == Sync(Batch(disk, old(State()), ids, ts))
      ensures rc == 0 ==> forall i :: 0 <= i < |ids| ==> ptrs[i] == PtrAt(disk, old(State()), ids, ts, i)
      ensures rc == 0 ==> forall i :: 0 <= i < |ids| ==>
                paths[i] == PathAt(hbm.memory.Length, dram.memory.Length, old(trace), ids, i)
      ensures rc == 0 && old(Coherent(disk, State())) && Needed(old(State()), ids) <= dram.memory.Length ==>
                Coherent(disk, State())
      ensures rc == 0 ==> CountedRefs(residency.entries, hbm.memory.Length, old(hbm.lru), old(residency.entries), ids)
      ensures rc == 0 ==> metrics.evictions == Beyond(metrics.posixReads, dram.memory.Length)
    {
      hide CountedRefs, OneMoreRef, FifoRun, Handle.Valid, Shaped, Recorded, Mirrors, OnDisk, Batch, Access,
        PtrAt, PathAt, Coherent, Needed, Sync;
      ValidShaped();
      ghost var s, hbmCap, dramCap, refs := State(), hbm.memory.Length, dram.memory.Length, residency.entries;
      var i: nat := 0;
      StartBatch(disk, s, ids, ts);
      NoRefsYet(refs, hbmCap, s.hbm.lru);
      while i < |ids|
        invariant i <= |ids| && Valid() && trace == old(trace) + ids[..i]
        invariant State() == Batch(disk, s, ids[..i], ts[..i])
        invariant forall k :: 0 <= k < i ==> disk.Has(ids[k])
        invariant forall k :: 0 <= k < i ==> ptrs[k] == PtrAt(disk, s, ids, ts, k)
        invariant forall k :: 0 <= k < i ==> paths[k] == PathAt(hbmCap, dramCap, old(trace), ids, k)
        invariant CountedRefs(residency.entries, hbmCap, s.hbm.lru, refs, ids[..i])
      {
        var ok, ptr, path := LookupAt(ids, ts, i, s, old(trace), refs);
        if !ok {
          assert ids[i] in ids;
          return -1;
        }
        ptrs[i], paths[i] := ptr, path;
        i := i + 1;
      }
      EndBatch(ids, ts);
      FinishBatch();
      if Coherent(disk, s) && Needed(s, ids) <= dramCap {
        CopiesSafe(disk, s, ids, ts);
      }
      rc := 0;
    }

    /** memtier_prefetch_blocks: a lookup whose pointers and paths nobody wants. */
    method PrefetchBlocks(ids: seq<Block>, ts: seq<Timing>) returns (rc: int)
      requires Valid() && pending == [] && NoBlock !in ids && |ts| == |ids|
      modifies this, dram, dram.memory, hbm, hbm.memory, residency
      ensures rc == 0 || rc == -1
      ensures rc == 0 ==> forall b :: b in ids ==> disk.Has(b)
      ensures rc != 0 ==> Sound() && exists b :: b in ids && LeftBehind(b)
      ensures rc == 0 ==> Valid() && pending == [] && trace == old(trace) + ids
      ensures rc == 0 ==> State() == Sync(Batch(disk, old(State()), ids, ts))
      ensures rc == 0 ==> CountedRefs(residency.entries, hbm.memory.Length, old(hbm.lru), old(residency.entries), ids)
    {
      hide CountedRefs, Shaped, Recorded, Mirrors, OnDisk, Batch, Coherent, Needed, Sync;
      var ptrs := new Ptr[|ids|](_ => Null);
      var paths := new BlockPath[|ids|](_ => PosixRead);
      rc := LookupBlocks(ids, ptrs, paths, ts);
    }

    /** memtier_release_blocks: each mention of a known block gives one reference back, as long as
        it has any; nothing moves. */
    method ReleaseBlocks(ids: seq<Block>)
      requires Valid()
      modifies residency
      ensures Valid() && residency.entries.Keys == old(residency.entries.Keys)
      ensures forall b :: b in residency.entries ==>
                residency.entries[b].refCount == Beyond(old(residency.entries)[b].refCount, multiset(ids)[b])
    {
      hide Handle.Valid;
      for i := 0 to |ids|
        invariant Valid() && residency.entries.Keys == old(residency.entries.Keys)
        invariant forall b :: b in residency.entries ==>
                    residency.entries[b].refCount == Beyond(old(residency.entries)[b].refCount, multiset(ids[..i])[b])
      {
        assert ids[..i + 1] == ids[..i] + [ids[i]];
        ReleaseBlock(ids[i]);
      }
      assert ids[..|ids|] == ids;
    }

    method ReleaseBlock(b: Block)
      requires Valid()
      modifies residency
      ensures Valid() && residency.entries.Keys == old(residency.entries.Keys)
      ensures forall x :: x in residency.entries ==>
                residency.entries[x].refCount == Beyond(old(residency.entries)[x].refCount, if x == b then 1 else 0)
    {
      hide Sound, Recorded, OnDisk, Slots.Valid, Mirrors;
      ghost var entries := residency.entries;
      residency.Release(b);
      MirrorsReleased(entries, residency.entries, hbm.entries);
    }

    /** Waits for the stream and copies the eviction count to the metrics. */
    method FinishBatch()
      requires Valid()
      modifies this`metrics, this`pending, hbm.memory
      ensures Valid() && State() == Sync(old(State())) && pending == []
      ensures metrics == old(metrics).(evictions := Beyond(metrics.posixReads, dram.memory.Length))
    {
      hide Slots.Valid, FifoRun, LruRun, Mirrors, OnDisk, Land;
      LandCopies(|pending|);
      metrics := metrics.(evictions := dram.evictions);
      LruFits(dram.View(), Missing(hbm.memory.Length, trace));
    }
  }

  lemma {:induction false} LruFits(s: Slots, missing: seq<Block>)
    requires s.lru == LruRun(s.cap, [], missing)
    ensures |s.lru| <= s.cap
  {
    LruRunNoDup(s.cap, [], missing);
  }

  function Beyond(a: nat, b: nat): nat {
    if a > b then a - b else 0
  }

  /** The pointer a batch hands out at position i: the block's slot at that moment. */
  function PtrAt(disk: Disk, s: Tiers, ids: seq<Block>, ts: seq<Timing>, i: nat): Ptr
    requires Shaped(s) && |ts| == |ids| && i < |ids|
  {
    var r := Batch(disk, s, ids[..i + 1], ts[..i + 1]);
    if ids[i] in r.hbm.slot then At(r.hbm.slot[ids[i]]) else Null
  }

  /** The tier that serves position i of a batch. */
  function PathAt(hbmCap: nat, dramCap: nat, trace: seq<Block>, ids: seq<Block>, i: nat): BlockPath
    requires i < |ids|
  {
    TierOf(hbmCap, dramCap, trace + ids[..i], ids[i])
  }

  lemma {:induction false} StartBatch(disk: Disk, s: Tiers, ids: seq<Block>, ts: seq<Timing>)
    requires Shaped(s) && |ts| == |ids|
    ensures ids[..0] == [] && ts[..0] == [] && Batch(disk, s, [], []) == s
  {
  }

  lemma {:induction false} EndBatch(ids: seq<Block>, ts: seq<Timing>)
    ensures ids[..|ids|] == ids && ts[..|ts|] == ts
  {
  }

  lemma {:induction false} NextInBatch(disk: Disk, s: Tiers, ids: seq<Block>, ts: seq<Timing>, i: nat)
    requires Shaped(s) && |ts| == |ids| && i < |ids|
    ensures var r := Batch(disk, s, ids[..i + 1], ts[..i + 1]);
            && r == Access(disk, Batch(disk, s, ids[..i], ts[..i]), ids[i], ts[i])
            && (ids[i] in r.hbm.slot ==> PtrAt(disk, s, ids, ts, i) == At(r.hbm.slot[ids[i]]))
  {
    hide Shaped, Access;
    assert ids[..i + 1][..i] == ids[..i] && ts[..i + 1][..i] == ts[..i];
  }

  lemma {:induction false} NextInTrace(ids: seq<Block>, trace: seq<Block>, hbmCap: nat, dramCap: nat, i: nat)
    requires i < |ids|
    ensures trace + ids[..i + 1] == trace + ids[..i] + [ids[i]]
    ensures PathAt(hbmCap, dramCap, trace, ids, i) == TierOf(hbmCap, dramCap, trace + ids[..i], ids[i])
  {
  }

  /** The settings of an embedding file that matter here. */
  datatype Config = Config(rowsPerBlock: nat, embeddingDim: nat, dtypeSize: nat, dramBytes: nat, hbmBytes: nat) {
    function BlockBytes(): nat {
      rowsPerBlock * embeddingDim * dtypeSize
    }

    predicate Empty() {
      rowsPerBlock == 0 || embeddingDim == 0 || dtypeSize == 0
    }
  }

  /** As many blocks as fit a budget, and at least one. */
  predicate MostBlocks(n: nat, bytes: nat, blockBytes: nat) {
    n >= 1 && (n > 1 ==> n * blockBytes <= bytes) && bytes < (n + 1) * blockBytes
  }

  lemma {:induction false} CapacityIsMost(bytes: nat, blockBytes: nat)
    requires blockBytes > 0
    ensures MostBlocks(CapacityBlocks(bytes, blockBytes), bytes, blockBytes)
  {
    var n := CapacityBlocks(bytes, blockBytes);
    TimesIsProduct(n, blockBytes);
    TimesIsProduct(n + 1, blockBytes);
  }

  /** memtier_init_embedding: no handle for an empty block shape or a file that does not open;
      otherwise each cache has the blocks of its own budget. */
  method InitEmbedding(env: Env, path: Path, config: Config) returns (h: Handle?)
    ensures h == null <==>
              config.rowsPerBlock == 0 || config.embeddingDim == 0 || config.dtypeSize == 0 || path !in env.files
    ensures h != null ==> fresh(h) && fresh(h.dram) && fresh(h.dram.memory) && fresh(h.hbm) && fresh(h.hbm.memory)
    ensures h != null ==> fresh(h.residency) && h.Valid() && Coherent(h.disk, h.State()) && h.pending == [] && h.trace == []
    ensures h != null ==> h.disk.file == env.files[path] && h.disk.reliable == env.reliable
    ensures h != null ==> h.disk.blockBytes == config.rowsPerBlock * config.embeddingDim * config.dtypeSize
    ensures h != null ==> MostBlocks(h.dram.memory.Length, config.dramBytes, h.disk.blockBytes)
    ensures h != null ==> MostBlocks(h.hbm.memory.Length, config.hbmBytes, h.disk.blockBytes)
  {
    if config.Empty() || path !in env.files {
      return null;
    }
    hide Handle.Valid, Coherent, MostBlocks;
    PositiveProduct(config.rowsPerBlock, config.embeddingDim);
    PositiveProduct(config.rowsPerBlock * config.embeddingDim, config.dtypeSize);
    CapacityIsMost(config.dramBytes, config.BlockBytes());
    CapacityIsMost(config.hbmBytes, config.BlockBytes());
    h := new Handle(Disk(env.files[path], config.BlockBytes(), env.reliable), config.dramBytes, config.hbmBytes);
  }

  lemma {:induction false} MostIsAtMost(m: nat, n: nat, bytes: nat, blockBytes: nat)
    requires blockBytes > 0 && MostBlocks(m, bytes, blockBytes) && MostBlocks(n, bytes, blockBytes)
    ensures m <= n
  {
    TimesIsProduct(m, blockBytes);
    TimesIsProduct(n + 1, blockBytes);
    TimesFit(m, blockBytes, bytes);
    TimesFit(n + 1, blockBytes, bytes);
  }

  lemma {:induction false} MostIsUnique(m: nat, n: nat, bytes: nat, blockBytes: nat)
    requires blockBytes > 0 && MostBlocks(m, bytes, blockBytes) && MostBlocks(n, bytes, blockBytes)
    ensures m == n
  {
    hide MostBlocks;
    MostIsAtMost(m, n, bytes, blockBytes);
    MostIsAtMost(n, m, bytes, blockBytes);
  }

  /** Opening a file and looking up blocks: the tier of each, from the two byte budgets. */
  method OpenAndLookup(env: Env, path: Path, config: Config, ids: seq<Block>, paths: array<BlockPath>, ts: seq<Timing>,
                       ghost hbmBlocks: nat, ghost dramBlocks: nat)
    returns (rc: int)
    requires !config.Empty() && path in env.files && NoBlock !in ids && |ts| == |ids| && paths.Length == |ids|
    requires MostBlocks(hbmBlocks, config.hbmBytes, config.BlockBytes())
    requires MostBlocks(dramBlocks, config.dramBytes, config.BlockBytes())
    modifies paths
    ensures rc == 0 ==> forall i :: 0 <= i < |ids| ==> paths[i] == TierOf(hbmBlocks, dramBlocks, ids[..i], ids[i])
  {
    hide Handle.Valid, Coherent, MostBlocks, TierOf, Shaped, Batch;
    PositiveProduct(config.rowsPerBlock, config.embeddingDim);
    PositiveProduct(config.rowsPerBlock * config.embeddingDim, config.dtypeSize);
    var h := InitEmbedding(env, path, config);
    MostIsUnique(hbmBlocks, h.hbm.memory.Length, config.hbmBytes, config.BlockBytes());
    MostIsUnique(dramBlocks, h.dram.memory.Length, config.dramBytes, config.BlockBytes());
    var ptrs := new Ptr[|ids|](_ => Null);
    rc := h.LookupBlocks(ids, ptrs, paths, ts);
    assert forall i :: 0 <= i < |ids| ==> [] + ids[..i] == ids[..i];
  }

  lemma {:induction false} PositiveProduct(a: nat, b: nat)
    requires a > 0 && b > 0
    ensures a * b > 0
  {
  }

  // ---------------------------------------------------------------- what callers get

  lemma {:induction false} BatchCyclic(disk: Disk, s: Tiers, ids: seq<Block>, ts: seq<Timing>, n: nat)
    requires Shaped(s) && |ts| == |ids| && Cyclic(s.hbm, n)
    ensures Cyclic(Batch(disk, s, ids, ts).hbm, n + |Admitted(s.hbm.cap, s.hbm.lru, ids)|)
    decreases |ids|
  {
    hide Slots.Valid, Slots.Allocate, Cyclic, Access, FifoRun, LruRun, LruStep, FifoStep;
    if ids != [] {
      var k := |ids| - 1;
      var r := Batch(disk, s, ids[..k], ts[..k]);
      BatchCyclic(disk, s, ids[..k], ts[..k], n);
      BatchLists(disk, s, ids[..k], ts[..k]);
      AccessLists(disk, r, ids[k], ts[k]);
      if ids[k] !in r.hbm.slot {
        AllocateCyclic(r.hbm, n + |Admitted(s.hbm.cap, s.hbm.lru, ids[..k])|, ids[k]);
      }
    }
  }

  /** The pointer at position i still names its block's slot when the batch returns. */
  ghost predicate PointerGood(disk: Disk, s: Tiers, ids: seq<Block>, ts: seq<Timing>, i: nat)
    requires Shaped(s) && |ts| == |ids| && i < |ids|
  {
    var r := Batch(disk, s, ids, ts);
    ids[i] in r.hbm.slot && PtrAt(disk, s, ids, ts, i) == At(r.hbm.slot[ids[i]])
  }

  /** A cached block's slot tells its place in the list, up to whole rounds. */
  lemma {:induction false} SlotOfPlace(h: Slots, n: nat, b: Block)
    requires h.Valid() && Cyclic(h, n)
    ensures b in h.slot <==> b in h.lru
    ensures b in h.lru ==> b in h.slot && IndexOf(h.lru, b) < n && h.slot[b] == (n - 1 - IndexOf(h.lru, b)) % h.cap
  {
    hide Slots.Injective, Slots.Occupied, IndexOf;
    if b in h.lru {
      assert InRound(h, n, IndexOf(h.lru, b));
    }
  }

  lemma {:induction false} SameRemainder(a: nat, b: nat, c: nat)
    requires c >= 1
    ensures a % c == b % c <==> (a - b) % c == 0
  {
    Euclid(a, c);
    Euclid(b, c);
    Euclid(a - b, c);
    if a % c == b % c {
      MultipleOf(a - b, c, a / c - b / c);
    }
    if (a - b) % c == 0 {
      Congruent(a, b, c, (a - b) / c);
    }
  }

  lemma {:induction false} Euclid(a: int, c: nat)
    requires c >= 1
    ensures a == c * (a / c) + a % c && 0 <= a % c < c
  {
  }

  lemma {:induction false} MultipleOf(d: int, c: nat, q: int)
    requires c >= 1 && d == c * q
    ensures d % c == 0
  {
    Euclid(d, c);
    assert c * (q - d / c) == d % c;
    Small(c, q - d / c);
  }

  lemma {:induction false} Congruent(a: int, b: int, c: nat, q: int)
    requires c >= 1 && a - b == c * q
    ensures a % c == b % c
  {
    Euclid(a, c);
    Euclid(b, c);
    assert c * (a / c - b / c - q) == b % c - a % c;
    Small(c, a / c - b / c - q);
  }

  /** Whether the pointer at position i is good when the batch returns, for any batch: its block is in
      HBM, a whole number of rounds of insertions later than it was at its turn. n counts the blocks
      brought into HBM before the batch. */
  lemma {:induction false} PointerGoodIff(disk: Disk, s: Tiers, ids: seq<Block>, ts: seq<Timing>, n: nat, i: nat)
    requires Shaped(s) && |ts| == |ids| && Cyclic(s.hbm, n) && i < |ids|
    ensures s.hbm.cap >= 1 && (PointerGood(disk, s, ids, ts, i) <==> RoundsLater(s.hbm.cap, s.hbm.lru, ids, i))
  {
    hide Batch, Cyclic, Slots.Valid, FifoRun, Admitted, IndexOf;
    var c, h, x := s.hbm.cap, s.hbm.lru, ids[i];
    PositiveCap(s.hbm);
    var now, end := Batch(disk, s, ids[..i + 1], ts[..i + 1]), Batch(disk, s, ids, ts);
    var n1, n2 := n + |Admitted(c, h, ids[..i + 1])|, n + |Admitted(c, h, ids)|;
    BatchLists(disk, s, ids[..i + 1], ts[..i + 1]);
    BatchLists(disk, s, ids, ts);
    BatchCyclic(disk, s, ids[..i + 1], ts[..i + 1], n);
    BatchCyclic(disk, s, ids, ts, n);
    JustSeen(c, h, ids, i);
    SlotOfPlace(now.hbm, n1, x);
    SlotOfPlace(end.hbm, n2, x);
    if x in end.hbm.lru {
      SameRemainder(n2 - 1 - IndexOf(end.hbm.lru, x), n1 - 1 - IndexOf(now.hbm.lru, x), c);
    }
  }

  lemma {:induction false} PositiveCap(s: Slots)
    requires s.Valid()
    ensures s.cap >= 1 && |s.lru| <= s.cap && NoDup(s.lru)
  {
  }

  /** Exactly when every pointer of a batch is good on return, for any batch: after no position does
      the batch bring in enough other blocks to push that position's block out. */
  lemma {:induction false} AllPointersGoodIff(disk: Disk, s: Tiers, ids: seq<Block>, ts: seq<Timing>, n: nat)
    requires Shaped(s) && |ts| == |ids| && Cyclic(s.hbm, n)
    ensures s.hbm.cap >= 1
    ensures (forall i :: 0 <= i < |ids| ==> PointerGood(disk, s, ids, ts, i)) <==>
            (forall i :: 0 <= i < |ids| ==> StaysFrom(s.hbm.cap, s.hbm.lru, ids, i))
  {
    hide PointerGood, RoundsLater, StaysFrom, Cyclic, Slots.Valid;
    PositiveCap(s.hbm);
    forall i | 0 <= i < |ids| ensures PointerGood(disk, s, ids, ts, i) <==> RoundsLater(s.hbm.cap, s.hbm.lru, ids, i) {
      PointerGoodIff(disk, s, ids, ts, n, i);
    }
    AllRoundsIffAllStay(s.hbm.cap, s.hbm.lru, ids);
  }

  /** For instance: with one slot in HBM, looking up 0 and 1 leaves the pointer to 0 naming the slot
      of 1. */
  lemma {:induction false} BadPointer(disk: Disk)
    ensures var s, ids: seq<Block> := EmptyTiers(1, 1), [0, 1];
            Shaped(s) && !PointerGood(disk, s, ids, Late(2), 0)
  {
    hide Shaped, PointerGood, Late, FifoRun, Cyclic;
    var s, ids: seq<Block> := EmptyTiers(1, 1), [0, 1];
    EmptyTiersShaped(disk, 1, 1);
    EmptyCyclic(1);
    BothMiss(ids);
    PointerGoodIff(disk, s, ids, Late(2), 0, 0);
  }

  /** For a batch of distinct blocks that can be told from HBM's list before it: the blocks fit in
      HBM, and none that was cached at its turn is pushed out by the insertions after it. */
  lemma {:induction false} DistinctPointersGoodIff(disk: Disk, s: Tiers, ids: seq<Block>, ts: seq<Timing>, n: nat)
    requires Shaped(s) && |ts| == |ids| && Cyclic(s.hbm, n) && NoDup(ids)
    ensures (forall i :: 0 <= i < |ids| ==> PointerGood(disk, s, ids, ts, i)) <==>
            |ids| <= s.hbm.cap && forall i :: 0 <= i < |ids| ==> !PushedOut(s.hbm.cap, s.hbm.lru, ids, i)
  {
    hide PointerGood, PushedOut, StaysFrom, Cyclic, Slots.Valid;
    var c, h := s.hbm.cap, s.hbm.lru;
    PositiveCap(s.hbm);
    AllPointersGoodIff(disk, s, ids, ts, n);
    AllStayIffAllCached(c, h, ids);
    if |ids| <= c {
      FifoKeepsAllIff(c, h, ids);
    }
    if forall x :: x in ids ==> x in FifoRun(c, h, ids) {
      FifoRunNoDup(c, h, ids);
      CardNoDup(ids);
      CardNoDup(FifoRun(c, h, ids));
      SubsetSize(Elements(ids), Elements(FifoRun(c, h, ids)));
    }
  }

  /** DRAM hits are those of the trace analyser's simulation at DRAM's capacity, on the lookups
      that miss HBM. */
  lemma {:induction false} DramHitsAreSimulated(m: Metrics, blockBytes: nat, hbmCap: nat, dramCap: nat, trace: seq<Block>)
    requires Counted(m, blockBytes, hbmCap, dramCap, trace)
    ensures var sim := TraceSimulation.SimRun(dramCap, TraceSimulation.Sim([], 0), Missing(hbmCap, trace));
            m.dramHits == sim.count && m.dramHits + m.dramMisses == |Missing(hbmCap, trace)|
  {
    TraceSimulation.SimRunIsLru(dramCap, TraceSimulation.Sim([], 0), Missing(hbmCap, trace));
  }

  /** Requests, copies and loads balance. */
  lemma {:induction false} CountersConserved(m: Metrics, blockBytes: nat, hbmCap: nat, dramCap: nat, trace: seq<Block>)
    requires Counted(m, blockBytes, hbmCap, dramCap, trace)
    ensures m.hbmHits + m.dramHits + m.posixReads == |trace|
    ensures m.bytesCopied == (m.dramHits + m.posixReads) * blockBytes
    ensures m.bytesRead == m.posixReads * blockBytes
  {
    TimesIsProduct(m.dramHits + m.posixReads, blockBytes);
    TimesIsProduct(m.posixReads, blockBytes);
  }

  /** The table never knows more blocks than HBM has slots. */
  lemma {:induction false} ResidencyBounded(entries: map<Block, Entry>, hbm: Slots)
    requires hbm.Valid() && Mirrors(entries, hbm.slot)
    ensures |entries| <= hbm.cap
  {
    hide Slots.Injective, Slots.Occupied;
    CardNoDup(hbm.lru);
    assert entries.Keys == Elements(hbm.lru);
    assert |entries| == |entries.Keys|;
  }
}
