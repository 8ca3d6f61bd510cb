/**
 The two slot caches, their memories, and the copies on the stream between them. A copy is
 issued during a batch and lands at some later moment, in issue order; the end of the batch
 waits for all of them.
 */
module CopyCoherence {
  import opened Recency
  import opened SlotCache
  import opened Storage
  import opened BlockFile

  datatype Copy = Copy(src: nat, dst: nat)

  datatype Tiers = Tiers(dram: Slots, hbm: Slots, dmem: seq<Data>, hmem: seq<Data>, pending: seq<Copy>)

  /** When copies land around one access: how many before it, and one for each item of during while
      a load is writing its slot, the item being what the half-written slot holds by then. */
  datatype Timing = Timing(before: nat, during: seq<Data>)

  ghost predicate Shaped(s: Tiers) {
    && s.dram.Valid() && s.hbm.Valid()
    && |s.dmem| == s.dram.cap && |s.hmem| == s.hbm.cap
    && forall i :: 0 <= i < |s.pending| ==> s.pending[i].src < |s.dmem| && s.pending[i].dst < |s.hmem|
  }

  /** The oldest copy on the stream lands. */
  function LandOne(s: Tiers): (t: Tiers)
    requires Shaped(s) && s.pending != []
    ensures Shaped(t) && t.dram == s.dram && t.hbm == s.hbm && t.dmem == s.dmem
    ensures t.pending == s.pending[1..]
  {
    var c := s.pending[0];
    s.(hmem := s.hmem[c.dst := s.dmem[c.src]], pending := s.pending[1..])
  }

  /** The oldest k copies on the stream land. */
  function Land(s: Tiers, k: nat): (t: Tiers)
    requires Shaped(s)
    ensures Shaped(t) && t.dram == s.dram && t.hbm == s.hbm && t.dmem == s.dmem
    ensures t.pending == s.pending[Min(k, |s.pending|)..] && (k == 0 ==> t == s)
    decreases k
  {
    if k == 0 || s.pending == [] then s else Land(LandOne(s), k - 1)
  }

  function Sync(s: Tiers): (t: Tiers)
    requires Shaped(s)
    ensures Shaped(t) && t.pending == []
  {
    Land(s, |s.pending|)
  }

  /** A DRAM slot for a block about to be loaded. */
  function StartLoad(s: Tiers, b: Block): (r: Tiers)
    requires Shaped(s)
    ensures Shaped(r) && r.dram == s.dram.Allocate(b) && b in r.dram.slot
    ensures r.hbm == s.hbm && r.dmem == s.dmem && r.hmem == s.hmem && r.pending == s.pending
  {
    AllocateValid(s.dram, b);
    s.(dram := s.dram.Allocate(b))
  }

  /** The slot of a block is written. */
  function WriteSlot(s: Tiers, b: Block, data: Data): (r: Tiers)
    requires Shaped(s) && b in s.dram.slot
    ensures Shaped(r) && r.dram == s.dram && r.hbm == s.hbm && r.hmem == s.hmem && r.pending == s.pending
  {
    s.(dmem := s.dmem[s.dram.slot[b] := data])
  }

  /** Copies that land while a load is under way, the slot changing before each. */
  function LandDuring(s: Tiers, b: Block, during: seq<Data>): (r: Tiers)
    requires Shaped(s) && b in s.dram.slot
    ensures Shaped(r) && r.dram == s.dram && r.hbm == s.hbm && (during == [] ==> r == s)
    ensures forall p :: 0 <= p < |s.dmem| && p != s.dram.slot[b] ==> r.dmem[p] == s.dmem[p]
    decreases |during|
  {
    if during == [] then s else LandDuring(Land(WriteSlot(s, b, during[0]), 1), b, during[1..])
  }

  /** The block's bytes in a DRAM slot: a hit, or a load that writes the slot as copies land. */
  function Fetch(disk: Disk, s: Tiers, b: Block, t: Timing): (r: Tiers)
    requires Shaped(s)
    ensures Shaped(r) && r.dram == s.dram.Allocate(b) && r.hbm == s.hbm
    ensures b in r.dram.slot && (t.during == [] ==> r.pending == s.pending)
  {
    AllocateValid(s.dram, b);
    if b in s.dram.slot then s.(dram := s.dram.Allocate(b))
    else WriteSlot(LandDuring(StartLoad(s, b), b, t.during), b, disk.Block(b))
  }

  /** A place in HBM, and the copy to it on the stream. */
  function Issue(s: Tiers, b: Block): (r: Tiers)
    requires Shaped(s) && b in s.dram.slot
    ensures Shaped(r) && r.dram == s.dram && r.dmem == s.dmem && r.hbm == s.hbm.Allocate(b)
    ensures b in r.hbm.slot && r.pending == s.pending + [Copy(s.dram.slot[b], r.hbm.slot[b])]
  {
    AllocateValid(s.hbm, b);
    var h := s.hbm.Allocate(b);
    s.(hbm := h, pending := s.pending + [Copy(s.dram.slot[b], h.slot[b])])
  }

  /** One turn of the lookup loop. */
  function Access(disk: Disk, s: Tiers, b: Block, t: Timing): (r: Tiers)
    requires Shaped(s)
    ensures Shaped(r)
    ensures r.hbm == if b in s.hbm.slot then s.hbm else s.hbm.Allocate(b)
    ensures r.dram == if b in s.hbm.slot then s.dram else s.dram.Allocate(b)
  {
    if b in s.hbm.slot then s else Issue(Fetch(disk, Land(s, t.before), b, t), b)
  }

  function Batch(disk: Disk, s: Tiers, ids: seq<Block>, ts: seq<Timing>): (r: Tiers)
    requires Shaped(s) && |ts| == |ids|
    ensures Shaped(r)
    decreases |ids|
  {
    if ids == [] then s
    else
      var n := |ids| - 1;
      Access(disk, Batch(disk, s, ids[..n], ts[..n]), ids[n], ts[n])
  }

  ghost predicate DramCoherent(disk: Disk, s: Tiers)
    requires Shaped(s)
  {
    forall b :: b in s.dram.slot ==> s.dmem[s.dram.slot[b]] == disk.Block(b)
  }

  /** Every cached block's slot holds the block's bytes in the file. */
  ghost predicate Coherent(disk: Disk, s: Tiers)
    requires Shaped(s)
  {
    DramCoherent(disk, s) &&
    forall b :: b in s.hbm.slot ==> s.hmem[s.hbm.slot[b]] == disk.Block(b)
  }

  // ---------------------------------------------------------------- one copy at a time

  /** The source of the last pending copy to a slot; -1 if there is none. */
  function LastSource(pending: seq<Copy>, dst: nat): (src: int)
    ensures src == -1 <==> forall i :: 0 <= i < |pending| ==> pending[i].dst != dst
    ensures src != -1 ==> exists i :: 0 <= i < |pending| && pending[i].dst == dst && pending[i].src == src
    decreases |pending|
  {
    if pending == [] then -1
    else
      var c := pending[|pending| - 1];
      if c.dst == dst then c.src else LastSource(pending[..|pending| - 1], dst)
  }

  lemma {:induction false} LastSourceTail(pending: seq<Copy>, dst: nat)
    requires pending != []
    ensures LastSource(pending, dst) ==
            if LastSource(pending[1..], dst) == -1 && pending[0].dst == dst then pending[0].src
            else LastSource(pending[1..], dst)
  {
    if |pending| > 1 {
      assert pending[1..][..|pending| - 2] == pending[..|pending| - 1][1..];
      LastSourceTail(pending[..|pending| - 1], dst);
    }
  }

  lemma {:induction false} LastSourceAppend(pending: seq<Copy>, c: Copy, dst: nat)
    ensures LastSource(pending + [c], dst) == if c.dst == dst then c.src else LastSource(pending, dst)
  {
    assert (pending + [c])[..|pending|] == pending;
  }

  /** Landing writes a slot from the source of the last copy to it that landed. */
  lemma {:induction false} LandAll(s: Tiers, dst: nat)
    requires Shaped(s) && dst < |s.hmem|
    ensures Sync(s).hmem[dst] ==
            if LastSource(s.pending, dst) == -1 then s.hmem[dst] else s.dmem[LastSource(s.pending, dst)]
    decreases |s.pending|
  {
    hide Shaped, LandOne, LastSource;
    if s.pending != [] {
      LastSourceTail(s.pending, dst);
      LandOneAt(s, dst);
      LandAll(LandOne(s), dst);
    } else {
      assert LastSource(s.pending, dst) == -1;
    }
  }

  lemma {:induction false} LandOneAt(s: Tiers, dst: nat)
    requires Shaped(s) && s.pending != [] && dst < |s.hmem|
    ensures var c := s.pending[0];
            && |LandOne(s).hmem| == |s.hmem| && c.src < |s.dmem|
            && LandOne(s).hmem[dst] == if c.dst == dst then s.dmem[c.src] else s.hmem[dst]
  {
  }

  /** The HBM slot of b holds its bytes, or will when the pending copies have landed. */
  ghost predicate Tracks(disk: Disk, s: Tiers, b: Block)
    requires Shaped(s) && b in s.hbm.slot
  {
    var dst := s.hbm.slot[b];
    var src := LastSource(s.pending, dst);
    if src == -1 then s.hmem[dst] == disk.Block(b)
    else b in s.dram.slot && src == s.dram.slot[b] && s.dmem[src] == disk.Block(b)
  }

  lemma {:induction false} LandTracks(disk: Disk, s: Tiers, k: nat, b: Block)
    requires Shaped(s) && b in s.hbm.slot && Tracks(disk, s, b)
    ensures Tracks(disk, Land(s, k), b)
    decreases k
  {
    hide Shaped, Tracks, LandOne;
    if k > 0 && s.pending != [] {
      LandOneTracks(disk, s, b);
      LandTracks(disk, LandOne(s), k - 1, b);
    }
  }

  lemma {:induction false} LandOneTracks(disk: Disk, s: Tiers, b: Block)
    requires Shaped(s) && s.pending != [] && b in s.hbm.slot && Tracks(disk, s, b)
    ensures Tracks(disk, LandOne(s), b)
  {
    hide Slots.Injective, Slots.Occupied;
    LastSourceTail(s.pending, s.hbm.slot[b]);
  }

  lemma {:induction false} DuringTracks(disk: Disk, s: Tiers, b: Block, during: seq<Data>, x: Block)
    requires Shaped(s) && b in s.dram.slot && x in s.hbm.slot && x != b && Tracks(disk, s, x)
    ensures Tracks(disk, LandDuring(s, b, during), x)
    decreases |during|
  {
    hide Land;
    if during != [] {
      WriteTracks(disk, s, b, during[0], x);
      LandTracks(disk, WriteSlot(s, b, during[0]), 1, x);
      DuringTracks(disk, Land(WriteSlot(s, b, during[0]), 1), b, during[1..], x);
    }
  }

  lemma {:induction false} WriteTracks(disk: Disk, s: Tiers, b: Block, data: Data, x: Block)
    requires Shaped(s) && b in s.dram.slot && x in s.hbm.slot && x != b && Tracks(disk, s, x)
    ensures Tracks(disk, WriteSlot(s, b, data), x)
  {
    hide Slots.Occupied;
  }

  /** A load disturbs no block that stays, as long as the slot it writes is not its source. */
  lemma {:induction false} FetchTracks(disk: Disk, s: Tiers, b: Block, t: Timing, x: Block)
    requires Shaped(s) && x in s.hbm.slot && x != b && Tracks(disk, s, x)
    requires LastSource(s.pending, s.hbm.slot[x]) == -1 || x !in s.dram.Victim(b)
    ensures Tracks(disk, Fetch(disk, s, b, t), x)
  {
    hide Shaped, Tracks, Slots.Allocate, Slots.Victim, StartLoad, WriteSlot, LandDuring;
    StartTracks(disk, s, b, x);
    if b in s.dram.slot {
      StartOfHit(s, b);
    } else {
      var start := StartLoad(s, b);
      DuringTracks(disk, start, b, t.during, x);
      WriteTracks(disk, LandDuring(start, b, t.during), b, disk.Block(b), x);
    }
  }

  lemma {:induction false} StartOfHit(s: Tiers, b: Block)
    requires Shaped(s)
    ensures StartLoad(s, b) == s.(dram := s.dram.Allocate(b))
  {
    hide Shaped, Slots.Allocate;
  }

  lemma {:induction false} StartTracks(disk: Disk, s: Tiers, b: Block, x: Block)
    requires Shaped(s) && x in s.hbm.slot && x != b && Tracks(disk, s, x)
    requires LastSource(s.pending, s.hbm.slot[x]) == -1 || x !in s.dram.Victim(b)
    ensures Tracks(disk, StartLoad(s, b), x)
  {
    hide Slots.Valid, Slots.Allocate, Slots.Victim;
    if x in s.dram.slot && x !in s.dram.Victim(b) {
      SlotIsFresh(s.dram, b, x);
    }
  }

  /** What holds between accesses of a batch that started coherent and has issued copies for its
      last m admissions: those m lead both lists, and only their copies can be pending. */
  ghost predicate Steady(disk: Disk, s: Tiers, m: nat)
    requires Shaped(s)
  {
    && Led(s, m) && DramCoherent(disk, s)
    && forall b :: b in s.hbm.slot ==> Tracks(disk, s, b) && Leads(s, m, b)
  }

  ghost predicate Led(s: Tiers, m: nat) {
    m <= |s.hbm.lru| && m <= |s.dram.lru| && s.hbm.lru[..m] == s.dram.lru[..m]
  }

  ghost predicate Leads(s: Tiers, m: nat, b: Block)
    requires b in s.hbm.slot && m <= |s.hbm.lru|
  {
    LastSource(s.pending, s.hbm.slot[b]) == -1 || b in s.hbm.lru[..m]
  }

  /** With both lists led by the same m blocks, a DRAM victim that still has a copy in flight is
      the block HBM throws out too. */
  lemma {:induction false} VictimsAgree(s: Tiers, m: nat, b: Block, x: Block)
    requires Shaped(s) && Led(s, m) && b !in s.hbm.slot
    requires x in s.dram.Victim(b) && x in s.hbm.lru[..m]
    requires m == s.dram.cap ==> m == s.hbm.cap
    ensures x in s.hbm.Victim(b)
  {
    hide Slots.Injective, Slots.Occupied;
    var h, d := s.hbm.lru, s.dram.lru;
    var i :| 0 <= i < m && h[..m][i] == x;
    assert d[..m][i] == x;
    assert i == |d| - 1;
    FullHasVictim(s.dram);
    assert h[m - 1] == x;
  }

  lemma {:induction false} TakePrefix<T(!new)>(s: seq<T>, c: nat, k: nat)
    requires k <= c && k <= |s|
    ensures |Take(s, c)| >= k && Take(s, c)[..k] == s[..k]
  {
  }

  lemma {:induction false} LeadNext(h: seq<Block>, d: seq<Block>, m: nat, b: Block, k: nat)
    requires m <= |h| && m <= |d| && h[..m] == d[..m] && b !in h && k <= m + 1
    ensures |Without(d, b)| >= m && ([b] + h)[..k] == ([b] + Without(d, b))[..k]
  {
    assert d == d[..m] + d[m..];
    WithoutConcat(d[..m], d[m..], b);
    assert b !in h[..m];
    WithoutAbsent(d[..m], b);
    assert Without(d, b)[..m] == h[..m];
    forall i | 0 <= i < k ensures ([b] + h)[i] == ([b] + Without(d, b))[i] {
      if i > 0 {
        assert h[..m][i - 1] == Without(d, b)[..m][i - 1];
      }
    }
  }

  lemma {:induction false} LedNext(s: Tiers, m: nat, b: Block)
    requires s.dram.Valid() && s.hbm.Valid() && Led(s, m) && b !in s.hbm.slot
    requires Min(m + 1, s.hbm.cap) <= s.dram.cap
    ensures Led(s.(dram := s.dram.Allocate(b), hbm := s.hbm.Allocate(b)), Min(m + 1, s.hbm.cap))
  {
    hide Without, Slots.Occupied, Slots.Injective, Slots.Allocate, Take;
    var h, d, k := s.hbm.lru, s.dram.lru, Min(m + 1, s.hbm.cap);
    AllocateIsFifo(s.hbm, b);
    AllocateIsLru(s.dram, b);
    LeadNext(h, d, m, b, k);
    TakePrefix([b] + h, s.hbm.cap, k);
    TakePrefix([b] + Without(d, b), s.dram.cap, k);
  }

  lemma {:induction false} LandLeads(s: Tiers, k: nat, m: nat, b: Block)
    requires Shaped(s) && b in s.hbm.slot && m <= |s.hbm.lru| && Leads(s, m, b)
    ensures Leads(Land(s, k), m, b)
  {
  }

  lemma {:induction false} DuringLeads(s: Tiers, b: Block, during: seq<Data>, m: nat, x: Block)
    requires Shaped(s) && b in s.dram.slot && x in s.hbm.slot && m <= |s.hbm.lru| && Leads(s, m, x)
    ensures Leads(LandDuring(s, b, during), m, x)
    decreases |during|
  {
    hide Land;
    if during != [] {
      LandLeads(WriteSlot(s, b, during[0]), 1, m, x);
      DuringLeads(Land(WriteSlot(s, b, during[0]), 1), b, during[1..], m, x);
    }
  }

  /** A block that stays in HBM and leads keeps its lead. */
  lemma {:induction false} StaysLeading(h: Slots, m: nat, b: Block, x: Block)
    requires h.Valid() && m <= |h.lru| && b !in h.slot && x in h.lru[..m] && x !in h.Victim(b)
    ensures Min(m + 1, h.cap) <= |h.Allocate(b).lru| && x in h.Allocate(b).lru[..Min(m + 1, h.cap)]
  {
    hide Slots.Occupied, Slots.Injective, Slots.Allocate;
    AllocateIsFifo(h, b);
    var i :| 0 <= i < m && h.lru[..m][i] == x;
    assert |h.lru| == h.cap ==> h.free == [];
    assert i < h.cap - 1;
    assert ([b] + h.lru)[i + 1] == x;
    var k := Min(m + 1, h.cap);
    assert h.Allocate(b).lru[..k][i + 1] == x;
  }

  lemma {:induction false} FetchDramCoherent(disk: Disk, s: Tiers, b: Block, t: Timing)
    requires Shaped(s) && DramCoherent(disk, s)
    ensures DramCoherent(disk, Fetch(disk, s, b, t))
  {
    hide Slots.Allocate, Slots.Injective, Slots.Occupied;
    AllocateValid(s.dram, b);
    var r := Fetch(disk, s, b, t);
    forall x | x in r.dram.slot ensures r.dmem[r.dram.slot[x]] == disk.Block(x) {
      if x != b {
        SlotIsFresh(s.dram, b, x);
      }
    }
  }

  lemma {:induction false} FetchLeads(disk: Disk, s: Tiers, m: nat, b: Block, t: Timing, x: Block)
    requires Shaped(s) && x in s.hbm.slot && m <= |s.hbm.lru| && Leads(s, m, x)
    ensures Leads(Fetch(disk, s, b, t), m, x)
  {
    hide Slots.Allocate, Slots.Valid;
    if b !in s.dram.slot {
      DuringLeads(StartLoad(s, b), b, t.during, m, x);
    }
  }

  lemma {:induction false} SlotInRange(s: Slots, b: Block)
    requires s.Valid() && b in s.slot
    ensures s.slot[b] < s.cap
  {
  }

  /** After its copy is issued, b itself tracks and leads; so does every other block that did. */
  lemma {:induction false} IssueTracks(disk: Disk, s: Tiers, m: nat, b: Block, x: Block)
    requires Shaped(s) && b in s.dram.slot && b !in s.hbm.slot && m <= |s.hbm.lru|
    requires s.dmem[s.dram.slot[b]] == disk.Block(b)
    requires x in Issue(s, b).hbm.slot
    requires x != b ==> x in s.hbm.slot && Tracks(disk, s, x) && Leads(s, m, x)
    ensures Tracks(disk, Issue(s, b), x)
    ensures Min(m + 1, s.hbm.cap) <= |Issue(s, b).hbm.lru| && Leads(Issue(s, b), Min(m + 1, s.hbm.cap), x)
  {
    hide Slots.Allocate, Slots.Injective, Slots.Occupied;
    AllocateValid(s.hbm, b);
    var h := s.hbm.Allocate(b);
    LastSourceAppend(s.pending, Copy(s.dram.slot[b], h.slot[b]), h.slot[x]);
    AllocateIsFifo(s.hbm, b);
    if x != b {
      SlotIsFresh(s.hbm, b, x);
      if x in s.hbm.lru[..m] {
        StaysLeading(s.hbm, m, b, x);
      }
    } else {
      assert h.lru[0] == b;
    }
  }

  lemma {:induction false} AccessSteady(disk: Disk, s: Tiers, m: nat, b: Block, t: Timing)
    requires Shaped(s) && Steady(disk, s, m) && b !in s.hbm.slot && Min(m + 1, s.hbm.cap) <= s.dram.cap
    ensures Steady(disk, Access(disk, s, b, t), Min(m + 1, s.hbm.cap))
  {
    hide Slots.Allocate, Slots.Injective, Slots.Occupied, Fetch, Issue, Tracks, Leads, Land, Access;
    var fetched := Fetch(disk, Land(s, t.before), b, t);
    var r := Issue(fetched, b);
    AccessMiss(disk, s, b, t);
    FetchDramCoherent(disk, Land(s, t.before), b, t);
    IssueDramCoherent(disk, fetched, b);
    LedNext(s, m, b);
    AllocateValid(s.hbm, b);
    forall x | x in r.hbm.slot ensures Tracks(disk, r, x) && Leads(r, Min(m + 1, s.hbm.cap), x) {
      if x != b {
        FetchedSteady(disk, s, m, b, t, x);
      }
      IssueTracks(disk, fetched, m, b, x);
    }
  }

  /** A block that stays in HBM is tracked and leads after copies have landed and a block was fetched. */
  lemma {:induction false} FetchedSteady(disk: Disk, s: Tiers, m: nat, b: Block, t: Timing, x: Block)
    requires Shaped(s) && Led(s, m) && Min(m + 1, s.hbm.cap) <= s.dram.cap
    requires b !in s.hbm.slot && x in s.hbm.slot && x != b && x !in s.hbm.Victim(b)
    requires Tracks(disk, s, x) && Leads(s, m, x)
    ensures var fetched := Fetch(disk, Land(s, t.before), b, t);
            Tracks(disk, fetched, x) && Leads(fetched, m, x)
  {
    hide Shaped, Slots.Allocate, Slots.Victim, Fetch, Tracks, Leads, Land;
    LandTracks(disk, s, t.before, x);
    LandLeads(s, t.before, m, x);
    StaysTracked(disk, Land(s, t.before), m, b, t, x);
    FetchLeads(disk, Land(s, t.before), m, b, t, x);
  }

  /** A block that HBM keeps is not disturbed by a load. */
  lemma {:induction false} StaysTracked(disk: Disk, s: Tiers, m: nat, b: Block, t: Timing, x: Block)
    requires Shaped(s) && Led(s, m) && Min(m + 1, s.hbm.cap) <= s.dram.cap
    requires b !in s.hbm.slot && x in s.hbm.slot && x != b && x !in s.hbm.Victim(b)
    requires Tracks(disk, s, x) && Leads(s, m, x)
    ensures Tracks(disk, Fetch(disk, s, b, t), x)
  {
    hide Slots.Allocate, Slots.Injective, Slots.Occupied, Fetch, Tracks;
    if x in s.dram.Victim(b) && x in s.hbm.lru[..m] {
      VictimsAgree(s, m, b, x);
    }
    FetchTracks(disk, s, b, t, x);
  }

  /** The lists after a batch do not depend on when copies land. */
  lemma {:induction false} BatchLists(disk: Disk, s: Tiers, ids: seq<Block>, ts: seq<Timing>)
    requires Shaped(s) && |ts| == |ids|
    ensures var r := Batch(disk, s, ids, ts);
            var missing := Admitted(s.hbm.cap, s.hbm.lru, ids);
            && r.hbm.cap == s.hbm.cap && r.dram.cap == s.dram.cap
            && r.hbm.lru == FifoRun(s.hbm.cap, s.hbm.lru, ids)
            && r.dram.lru == LruRun(s.dram.cap, s.dram.lru, missing)
    decreases |ids|
  {
    hide Shaped, Access, FifoStep, LruStep;
    if ids != [] {
      var n := |ids| - 1;
      BatchLists(disk, s, ids[..n], ts[..n]);
      AccessLists(disk, Batch(disk, s, ids[..n], ts[..n]), ids[n], ts[n]);
      var missing := Admitted(s.hbm.cap, s.hbm.lru, ids[..n]);
      assert (missing + [ids[n]])[..|missing|] == missing;
      assert missing + [] == missing;
    }
  }

  lemma {:induction false} AccessLists(disk: Disk, s: Tiers, b: Block, t: Timing)
    requires Shaped(s)
    ensures var r := Access(disk, s, b, t);
            && r.hbm.cap == s.hbm.cap && r.dram.cap == s.dram.cap
            && (b in s.hbm.slot <==> b in s.hbm.lru)
            && r.hbm.lru == FifoStep(s.hbm.cap, s.hbm.lru, b)
            && r.dram.lru == if b in s.hbm.lru then s.dram.lru else LruStep(s.dram.cap, s.dram.lru, b)
  {
    hide Slots.Allocate, Slots.Injective, Slots.Occupied, Access, LruStep;
    if b !in s.hbm.slot {
      AllocateValid(s.hbm, b);
      AllocateValid(s.dram, b);
      AllocateIsFifo(s.hbm, b);
      AllocateIsLru(s.dram, b);
    }
  }

  /** Copies issued in a batch that are still needed at its end: one for each block it brought
      into HBM, as far as HBM holds them. */
  function Needed(s: Tiers, ids: seq<Block>): nat {
    Min(|Admitted(s.hbm.cap, s.hbm.lru, ids)|, s.hbm.cap)
  }

  lemma {:induction false} NeededInit(s: Tiers, ids: seq<Block>)
    requires ids != []
    ensures Needed(s, ids[..|ids| - 1]) <= Needed(s, ids)
    ensures Needed(s, ids) == if ids[|ids| - 1] in FifoRun(s.hbm.cap, s.hbm.lru, ids[..|ids| - 1])
                              then Needed(s, ids[..|ids| - 1]) else Min(Needed(s, ids[..|ids| - 1]) + 1, s.hbm.cap)
  {
  }

  lemma {:induction false} StartSteady(disk: Disk, s: Tiers)
    requires Shaped(s) && Coherent(disk, s) && s.pending == []
    ensures Steady(disk, s, 0)
  {
  }

  lemma {:induction false} BatchSteady(disk: Disk, s: Tiers, ids: seq<Block>, ts: seq<Timing>)
    requires Shaped(s) && Coherent(disk, s) && s.pending == [] && |ts| == |ids|
    requires Needed(s, ids) <= s.dram.cap
    ensures Steady(disk, Batch(disk, s, ids, ts), Needed(s, ids))
    decreases |ids|
  {
    hide Slots.Allocate, Slots.Injective, Slots.Occupied, Steady, Coherent, Fetch, Issue;
    if ids == [] {
      StartSteady(disk, s);
    } else {
      var n := |ids| - 1;
      NeededInit(s, ids);
      BatchSteady(disk, s, ids[..n], ts[..n]);
      BatchLists(disk, s, ids[..n], ts[..n]);
      var r := Batch(disk, s, ids[..n], ts[..n]);
      if ids[n] !in r.hbm.slot {
        AccessSteady(disk, r, Needed(s, ids[..n]), ids[n], ts[n]);
      }
    }
  }

  lemma {:induction false} SteadySyncs(disk: Disk, s: Tiers, m: nat)
    requires Shaped(s) && Steady(disk, s, m)
    ensures Coherent(disk, Sync(s))
  {
    forall b | b in s.hbm.slot ensures Sync(s).hmem[s.hbm.slot[b]] == disk.Block(b) {
      assert Tracks(disk, s, b);
      LandTracks(disk, s, |s.pending|, b);
    }
  }

  /** If the blocks brought into HBM still leave a DRAM slot for each copy that is needed, every
      landing schedule ends with all contents right. */
  lemma {:induction false} CopiesSafe(disk: Disk, s: Tiers, ids: seq<Block>, ts: seq<Timing>)
    requires Shaped(s) && Coherent(disk, s) && s.pending == [] && |ts| == |ids|
    requires Needed(s, ids) <= s.dram.cap
    ensures Coherent(disk, Sync(Batch(disk, s, ids, ts)))
  {
    hide Coherent, Steady, Shaped;
    BatchSteady(disk, s, ids, ts);
    SteadySyncs(disk, Batch(disk, s, ids, ts), Needed(s, ids));
  }

  // ---------------------------------------------------------------- the condition is exact

  /** The schedule in which no copy lands before the end of the batch. */
  function Late(n: nat): (ts: seq<Timing>)
    ensures |ts| == n
  {
    if n == 0 then [] else Late(n - 1) + [Timing(0, [])]
  }

  /** Copies are pending to all of the m leading blocks, from slots that stay occupied. */
  ghost predicate Overdue(disk: Disk, s: Tiers, m: nat)
    requires Shaped(s)
  {
    && DramCoherent(disk, s) && m <= |s.hbm.lru|
    && (forall i :: 0 <= i < |s.pending| ==> s.pending[i].src !in s.dram.free)
    && forall b :: b in s.hbm.lru[..m] ==> b in s.hbm.slot && LastSource(s.pending, s.hbm.slot[b]) != -1
  }

  lemma {:induction false} AllocateShrinksFree(s: Slots, b: Block)
    requires s.Valid()
    ensures forall p :: p in s.Allocate(b).free ==> p in s.free
  {
    hide Slots.Occupied, Slots.Injective;
    AllocateValid(s, b);
    var t := s.Allocate(b);
    if b !in s.slot && s.free == [] {
      FullHasVictim(s);
      assert t.free == [];
    }
  }

  lemma {:induction false} AccessMiss(disk: Disk, s: Tiers, b: Block, t: Timing)
    requires Shaped(s) && b !in s.hbm.slot
    ensures Access(disk, s, b, t) == Issue(Fetch(disk, Land(s, t.before), b, t), b)
  {
    hide Shaped, Fetch, Issue, Land, Slots.Allocate;
  }

  lemma {:induction false} AccessNow(disk: Disk, s: Tiers, b: Block, t: Timing)
    requires Shaped(s) && b !in s.hbm.slot && t.before == 0
    ensures Access(disk, s, b, t) == Issue(Fetch(disk, s, b, t), b)
  {
    hide Shaped, Access, Fetch, Issue, Land;
    AccessMiss(disk, s, b, t);
  }

  lemma {:induction false} LateCopies(disk: Disk, s: Tiers, b: Block)
    requires Shaped(s) && b !in s.hbm.slot
    ensures var r := Access(disk, s, b, Timing(0, []));
            && b in r.dram.slot && b in r.hbm.slot
            && r.pending == s.pending + [Copy(r.dram.slot[b], r.hbm.slot[b])]
  {
    hide Slots.Allocate, Slots.Valid, Fetch, Issue, Land, Shaped, Access;
    AccessNow(disk, s, b, Timing(0, []));
  }

  lemma {:induction false} LateCoherent(disk: Disk, s: Tiers, b: Block)
    requires Shaped(s) && b !in s.hbm.slot && DramCoherent(disk, s)
    ensures DramCoherent(disk, Access(disk, s, b, Timing(0, [])))
  {
    hide Slots.Allocate, Slots.Injective, Slots.Occupied, Fetch, DramCoherent;
    FetchDramCoherent(disk, s, b, Timing(0, []));
    IssueDramCoherent(disk, Fetch(disk, s, b, Timing(0, [])), b);
  }

  lemma {:induction false} IssueDramCoherent(disk: Disk, s: Tiers, b: Block)
    requires Shaped(s) && b in s.dram.slot && DramCoherent(disk, s)
    ensures DramCoherent(disk, Issue(s, b))
  {
  }

  lemma {:induction false} LatePending(disk: Disk, s: Tiers, m: nat, b: Block, x: Block)
    requires Shaped(s) && Overdue(disk, s, m) && b !in s.hbm.slot
    requires x == b || (x in s.hbm.lru[..m] && x !in s.hbm.Victim(b))
    ensures var r := Access(disk, s, b, Timing(0, []));
            x in r.hbm.slot && LastSource(r.pending, r.hbm.slot[x]) != -1
  {
    hide Slots.Allocate, Slots.Injective, Slots.Occupied, Access, DramCoherent;
    var r := Access(disk, s, b, Timing(0, []));
    LateCopies(disk, s, b);
    AllocateValid(s.hbm, b);
    LastSourceAppend(s.pending, Copy(r.dram.slot[b], r.hbm.slot[b]), r.hbm.slot[x]);
  }

  lemma {:induction false} LateSources(disk: Disk, s: Tiers, m: nat, b: Block)
    requires Shaped(s) && Overdue(disk, s, m) && b !in s.hbm.slot
    ensures var r := Access(disk, s, b, Timing(0, []));
            forall i :: 0 <= i < |r.pending| ==> r.pending[i].src !in r.dram.free
  {
    hide Slots.Allocate, Slots.Injective, Slots.Occupied, Access, DramCoherent;
    LateCopies(disk, s, b);
    AllocateValid(s.dram, b);
    AllocateShrinksFree(s.dram, b);
  }

  lemma {:induction false} LateAccess(disk: Disk, s: Tiers, m: nat, b: Block)
    requires Shaped(s) && Overdue(disk, s, m) && b !in s.hbm.slot
    ensures Overdue(disk, Access(disk, s, b, Timing(0, [])), Min(m + 1, s.hbm.cap))
  {
    hide Slots.Allocate, Slots.Injective, Slots.Occupied, Access, DramCoherent, LastSource;
    var r := Access(disk, s, b, Timing(0, []));
    LateCoherent(disk, s, b);
    LateSources(disk, s, m, b);
    NewLead(s.hbm, m, b);
    forall x | x in r.hbm.lru[..Min(m + 1, s.hbm.cap)]
      ensures x in r.hbm.slot && LastSource(r.pending, r.hbm.slot[x]) != -1
    {
      LatePending(disk, s, m, b, x);
    }
  }

  /** The leading blocks after an insertion: the new one and those that led and stay. */
  lemma {:induction false} NewLead(h: Slots, m: nat, b: Block)
    requires h.Valid() && b !in h.slot && m <= |h.lru|
    ensures var k := Min(m + 1, h.cap);
            k <= |h.Allocate(b).lru| &&
            forall x :: x in h.Allocate(b).lru[..k] ==> x == b || (x in h.lru[..m] && x !in h.Victim(b))
  {
    hide Slots.Allocate, Slots.Injective, Slots.Occupied;
    AllocateIsFifo(h, b);
    var k, l := Min(m + 1, h.cap), h.Allocate(b).lru;
    forall x | x in l[..k] ensures x == b || (x in h.lru[..m] && x !in h.Victim(b)) {
      var i :| 0 <= i < k && l[..k][i] == x;
      if i > 0 {
        assert h.lru[..m][i - 1] == x;
      }
    }
  }

  lemma {:induction false} LateBatch(disk: Disk, s: Tiers, ids: seq<Block>)
    requires Shaped(s) && Coherent(disk, s) && s.pending == []
    ensures Overdue(disk, Batch(disk, s, ids, Late(|ids|)), Needed(s, ids))
    decreases |ids|
  {
    hide Slots.Allocate, Slots.Injective, Slots.Occupied, Overdue, Fetch, Issue;
    if ids == [] {
      StartOverdue(disk, s);
    } else {
      var n := |ids| - 1;
      assert Late(n + 1)[..n] == Late(n);
      NeededInit(s, ids);
      LateBatch(disk, s, ids[..n]);
      BatchLists(disk, s, ids[..n], Late(n));
      var r := Batch(disk, s, ids[..n], Late(n));
      if ids[n] !in r.hbm.slot {
        LateAccess(disk, r, Needed(s, ids[..n]), ids[n]);
      }
    }
  }

  lemma {:induction false} StartOverdue(disk: Disk, s: Tiers)
    requires Shaped(s) && Coherent(disk, s) && s.pending == []
    ensures Overdue(disk, s, 0)
  {
  }

  /** The blocks a batch can have in a cache. */
  ghost predicate Concerned(s: Tiers, ids: seq<Block>, b: Block) {
    b in s.dram.slot || b in s.hbm.slot || b in ids
  }

  ghost predicate DistinctBlocks(disk: Disk, s: Tiers, ids: seq<Block>) {
    forall a, b :: Concerned(s, ids, a) && Concerned(s, ids, b) && a != b ==> disk.Block(a) != disk.Block(b)
  }

  lemma {:induction false} BatchConcerned(disk: Disk, s: Tiers, ids: seq<Block>, ts: seq<Timing>)
    requires Shaped(s) && |ts| == |ids|
    ensures var r := Batch(disk, s, ids, ts);
            forall b :: b in r.dram.slot || b in r.hbm.slot ==> Concerned(s, ids, b)
    decreases |ids|
  {
    hide Shaped, Access, Concerned;
    if ids != [] {
      var n := |ids| - 1;
      BatchConcerned(disk, s, ids[..n], ts[..n]);
      AccessKeys(disk, Batch(disk, s, ids[..n], ts[..n]), ids[n], ts[n]);
      ConcernedMore(s, ids);
    } else {
      ConcernedNow(s, ids);
    }
  }

  lemma {:induction false} ConcernedNow(s: Tiers, ids: seq<Block>)
    ensures forall b :: b in s.dram.slot || b in s.hbm.slot ==> Concerned(s, ids, b)
  {
  }

  lemma {:induction false} ConcernedMore(s: Tiers, ids: seq<Block>)
    requires ids != []
    ensures Concerned(s, ids, ids[|ids| - 1])
    ensures forall b :: Concerned(s, ids[..|ids| - 1], b) ==> Concerned(s, ids, b)
  {
  }

  /** An access brings in no block but its own. */
  lemma {:induction false} AccessKeys(disk: Disk, s: Tiers, b: Block, t: Timing)
    requires Shaped(s)
    ensures var r := Access(disk, s, b, t);
            forall x :: x in r.dram.slot || x in r.hbm.slot ==> x in s.dram.slot || x in s.hbm.slot || x == b
  {
    hide Slots.Allocate, Slots.Valid, Access;
    AllocateValid(s.dram, b);
    AllocateValid(s.hbm, b);
  }

  /** More leading blocks than DRAM slots: one of them is no longer in DRAM. */
  lemma {:induction false} OneIsGone(s: Tiers, m: nat) returns (b: Block)
    requires Shaped(s) && s.dram.cap < m <= |s.hbm.lru|
    ensures b in s.hbm.lru[..m] && b in s.hbm.slot && b !in s.dram.slot
  {
    hide Slots.Injective, Slots.Occupied;
    var lead := s.hbm.lru[..m];
    CardNoDup(lead);
    CardNoDup(s.dram.lru);
    if forall x :: x in lead ==> x in s.dram.lru {
      SubsetSize(Elements(lead), Elements(s.dram.lru));
    }
    b :| b in lead && b !in s.dram.lru;
    assert b in s.hbm.lru;
  }

  lemma {:induction false} LateIsWrong(disk: Disk, s: Tiers, ids: seq<Block>)
    requires Shaped(s) && Coherent(disk, s) && s.pending == []
    requires DistinctBlocks(disk, s, ids) && Needed(s, ids) > s.dram.cap
    ensures !Coherent(disk, Sync(Batch(disk, s, ids, Late(|ids|))))
  {
    hide Slots.Injective, Slots.Allocate, Needed, Batch;
    var r := Batch(disk, s, ids, Late(|ids|));
    LateBatch(disk, s, ids);
    BatchLists(disk, s, ids, Late(|ids|));
    BatchConcerned(disk, s, ids, Late(|ids|));
    var b := OneIsGone(r, Needed(s, ids));
    var src := LastSource(r.pending, r.hbm.slot[b]);
    LandAll(r, r.hbm.slot[b]);
    assert r.dram.Occupied(src);
    var other :| other in r.dram.slot && r.dram.slot[other] == src;
    assert Concerned(s, ids, other) && Concerned(s, ids, b);
  }

  /** Exactly when a batch is safe under every landing schedule: HBM holds, of the blocks the
      batch brings in, no more than DRAM has slots. */
  lemma {:induction false} CopiesSafeIff(disk: Disk, s: Tiers, ids: seq<Block>)
    requires Shaped(s) && Coherent(disk, s) && s.pending == []
    requires DistinctBlocks(disk, s, ids)
    ensures (forall ts: seq<Timing> :: |ts| == |ids| ==> Coherent(disk, Sync(Batch(disk, s, ids, ts)))) <==>
            Needed(s, ids) <= s.dram.cap
  {
    hide Coherent, Shaped, Sync, Batch, Needed, DistinctBlocks;
    if Needed(s, ids) <= s.dram.cap {
      forall ts: seq<Timing> | |ts| == |ids| ensures Coherent(disk, Sync(Batch(disk, s, ids, ts))) {
        CopiesSafe(disk, s, ids, ts);
      }
    } else {
      LateIsWrong(disk, s, ids);
    }
  }

  /** Two caches with nothing in them. */
  function EmptyTiers(dramCap: nat, hbmCap: nat): Tiers {
    Tiers(EmptySlots(dramCap), EmptySlots(hbmCap), Blank(dramCap), Blank(hbmCap), [])
  }

  function Blank(n: nat): (r: seq<Data>)
    ensures |r| == n
  {
    if n == 0 then [] else Blank(n - 1) + [[]]
  }

  lemma {:induction false} EmptyTiersShaped(disk: Disk, dramCap: nat, hbmCap: nat)
    requires dramCap >= 1 && hbmCap >= 1
    ensures Shaped(EmptyTiers(dramCap, hbmCap)) && Coherent(disk, EmptyTiers(dramCap, hbmCap))
  {
    EmptySlotsValid(dramCap);
    EmptySlotsValid(hbmCap);
  }

  lemma {:induction false} TwoBytes(disk: Disk)
    requires disk == Disk([0, 1], 1, true)
    ensures disk.Has(0) && disk.Has(1) && disk.Block(0) == [0] && disk.Block(1) == [1]
  {
    assert Times(0, 1) == 0 && Times(1, 1) == 1;
    assert disk.Block(0)[0] == 0 && disk.Block(1)[0] == 1;
  }

  /** For instance: blocks 0 and 1 of a two-byte file, one slot in DRAM and two in HBM. */
  lemma {:induction false} UnsafeBatch()
    ensures var disk, s, ids: seq<Block> := Disk([0, 1], 1, true), EmptyTiers(1, 2), [0, 1];
            Shaped(s) && Coherent(disk, s) && !Coherent(disk, Sync(Batch(disk, s, ids, Late(2))))
  {
    hide Shaped, Coherent, Batch, Sync, Late, FifoStep;
    var disk, s, ids: seq<Block> := Disk([0, 1], 1, true), EmptyTiers(1, 2), [0, 1];
    EmptyTiersShaped(disk, 1, 2);
    TwoBytes(disk);
    BothMiss(ids);
    LateIsWrong(disk, s, ids);
  }

  lemma {:induction false} BothMiss(ids: seq<Block>)
    requires ids == [0, 1]
    ensures Admitted(2, [], ids) == ids && FifoRun(1, [], ids) == [1]
  {
    assert ids[..1] == [0] && ids[..1][..0] == [];
    assert FifoRun(2, [], ids[..1]) == [0] && FifoRun(1, [], ids[..1]) == [0];
    assert Admitted(2, [], ids[..1]) == [0];
  }

  // ---------------------------------------------------------------- few distinct blocks

  /** In particular a batch is safe when the distinct blocks that miss HBM fit in DRAM. */
  lemma {:induction false} FewMissesSafe(disk: Disk, s: Tiers, ids: seq<Block>, ts: seq<Timing>)
    requires Shaped(s) && Coherent(disk, s) && s.pending == [] && |ts| == |ids|
    requires |Elements(Admitted(s.hbm.cap, s.hbm.lru, ids))| <= s.dram.cap
    ensures Coherent(disk, Sync(Batch(disk, s, ids, ts)))
  {
    hide Coherent, Sync, Batch, Slots.Injective, Slots.Occupied;
    var c, missing := s.hbm.cap, Admitted(s.hbm.cap, s.hbm.lru, ids);
    FifoIsLastAdmitted(c, s.hbm.lru, ids);
    FifoRunNoDup(c, s.hbm.lru, ids);
    ReversedElements(missing);
    var lead := FifoRun(c, s.hbm.lru, ids)[..Needed(s, ids)];
    CardNoDup(lead);
    assert forall i :: 0 <= i < |lead| ==> lead[i] == Reversed(missing)[i];
    SubsetSize(Elements(lead), Elements(missing));
    CopiesSafe(disk, s, ids, ts);
  }

  lemma {:induction false} AccessKeepsSlot(disk: Disk, s: Tiers, b: Block, t: Timing, x: Block)
    requires Shaped(s) && x in s.dram.slot && x in Access(disk, s, b, t).dram.slot
    ensures Access(disk, s, b, t).dram.slot[x] == s.dram.slot[x]
  {
    hide Slots.Allocate, Slots.Valid, Access;
    AllocateValid(s.dram, b);
  }

  lemma {:induction false} FewMissesStay(disk: Disk, s: Tiers, ids: seq<Block>, ts: seq<Timing>, x: Block)
    requires Shaped(s) && |ts| == |ids| && x in Admitted(s.hbm.cap, s.hbm.lru, ids)
    requires |Elements(Admitted(s.hbm.cap, s.hbm.lru, ids))| <= s.dram.cap
    ensures x in Batch(disk, s, ids, ts).dram.slot
  {
    hide Slots.Injective, Slots.Occupied, Batch;
    BatchLists(disk, s, ids, ts);
    FewKeysStay(s.dram.cap, s.dram.lru, Admitted(s.hbm.cap, s.hbm.lru, ids));
  }

  lemma {:induction false} AdmittedInit(c: nat, h: seq<Block>, ids: seq<Block>)
    requires ids != []
    ensures var n := |ids| - 1;
            && (forall x :: x in Admitted(c, h, ids[..n]) ==> x in Admitted(c, h, ids))
            && |Elements(Admitted(c, h, ids[..n]))| <= |Elements(Admitted(c, h, ids))|
            && (ids[n] !in FifoRun(c, h, ids[..n]) ==> ids[n] in Admitted(c, h, ids))
  {
    SubsetSize(Elements(Admitted(c, h, ids[..|ids| - 1])), Elements(Admitted(c, h, ids)));
  }

  lemma {:induction false} BatchLast(disk: Disk, s: Tiers, ids: seq<Block>, ts: seq<Timing>)
    requires Shaped(s) && |ts| == |ids| && ids != []
    ensures var n := |ids| - 1;
            Batch(disk, s, ids, ts) == Access(disk, Batch(disk, s, ids[..n], ts[..n]), ids[n], ts[n])
  {
  }

  lemma {:induction false} PrefixOfPrefix<T>(s: seq<T>, n: nat, i: nat)
    requires i <= n <= |s|
    ensures s[..n][..i] == s[..i]
  {
  }

  lemma {:induction false} LastIsAdmitted(disk: Disk, s: Tiers, ids: seq<Block>, ts: seq<Timing>)
    requires Shaped(s) && |ts| == |ids| && ids != []
    requires var n := |ids| - 1; ids[n] !in Batch(disk, s, ids[..n], ts[..n]).hbm.slot
    ensures ids[|ids| - 1] in Admitted(s.hbm.cap, s.hbm.lru, ids)
  {
    hide Shaped, Access, FifoRun;
    var n := |ids| - 1;
    BatchLists(disk, s, ids[..n], ts[..n]);
    AccessLists(disk, Batch(disk, s, ids[..n], ts[..n]), ids[n], ts[n]);
  }

  /** Then no slot is reused while a copy from it may be in flight: from the access that issued
      the copy, at position i, to the end of the batch, the slot belongs to the same block. */
  lemma {:induction false} SourceStays(disk: Disk, s: Tiers, ids: seq<Block>, ts: seq<Timing>, i: nat)
    requires Shaped(s) && |ts| == |ids| && i < |ids|
    requires |Elements(Admitted(s.hbm.cap, s.hbm.lru, ids))| <= s.dram.cap
    requires ids[i] !in Batch(disk, s, ids[..i], ts[..i]).hbm.slot
    ensures var issued, end := Batch(disk, s, ids[..i + 1], ts[..i + 1]).dram, Batch(disk, s, ids, ts).dram;
            ids[i] in issued.slot && ids[i] in end.slot && end.slot[ids[i]] == issued.slot[ids[i]]
    ensures ids[i] in Admitted(s.hbm.cap, s.hbm.lru, ids)
    decreases |ids|
  {
    hide Shaped, Access, Admitted, FifoRun, Slots.Valid, Elements, Batch;
    var n := |ids| - 1;
    BatchLast(disk, s, ids, ts);
    var mid := Batch(disk, s, ids[..n], ts[..n]);
    AdmittedInit(s.hbm.cap, s.hbm.lru, ids);
    if i < n {
      PrefixOfPrefix(ids, n, i);
      PrefixOfPrefix(ids, n, i + 1);
      PrefixOfPrefix(ts, n, i);
      PrefixOfPrefix(ts, n, i + 1);
      SourceStays(disk, s, ids[..n], ts[..n], i);
      FewMissesStay(disk, s, ids, ts, ids[i]);
      AccessKeepsSlot(disk, mid, ids[n], ts[n], ids[i]);
    } else {
      assert ids[..n + 1] == ids && ts[..n + 1] == ts;
      LastIsAdmitted(disk, s, ids, ts);
      FewMissesStay(disk, s, ids, ts, ids[n]);
    }
  }
}
