/**
 The trace analyser's cache simulation: LRU at several capacities in one pass over a trace.
 An ordered dictionary is the sequence of its keys, oldest first.
 */
module TraceSimulation {
  import opened Recency

  type Block = nat

  lemma {:induction false} WithoutReversed(s: seq<Block>, k: Block)
    ensures Reversed(Without(s, k)) == Without(Reversed(s), k)
  {
    if s != [] {
      var head, rest := s[0], s[1..];
      assert s == [head] + rest;
      assert Reversed(s) == Reversed(rest) + [head];
      WithoutReversed(rest, k);
      WithoutConcat(Reversed(rest), [head], k);
      WithoutConcat([head], rest, k);
      if head != k {
        assert Without(s, k) == [head] + Without(rest, k);
        assert Reversed(Without(s, k)) == Reversed(Without(rest, k)) + [head];
      }
    }
  }

  lemma {:induction false} AppendReversed(s: seq<Block>, k: Block)
    ensures Reversed(s + [k]) == [k] + Reversed(s)
  {
    assert (s + [k])[..|s|] == s;
  }

  lemma {:induction false} HitStep(cap: nat, dict: seq<Block>, block: Block)
    requires NoDup(dict) && |dict| <= cap && block in dict
    ensures NoDup(Without(dict, block) + [block]) && |Without(dict, block) + [block]| <= cap
    ensures Reversed(Without(dict, block) + [block]) == LruStep(cap, Reversed(dict), block)
  {
    WithoutNoDup(dict, block);
    WithoutReversed(dict, block);
    AppendReversed(Without(dict, block), block);
  }

  lemma {:induction false} MissStep(cap: nat, dict: seq<Block>, block: Block)
    requires NoDup(dict) && |dict| <= cap && block !in dict
    ensures var grown := dict + [block];
            var dict' := if |grown| > cap then grown[1..] else grown;
            NoDup(dict') && |dict'| <= cap && Reversed(dict') == LruStep(cap, Reversed(dict), block)
  {
    var grown := dict + [block];
    ReversedElements(dict);
    WithoutAbsent(Reversed(dict), block);
    AppendReversed(dict, block);
    if |grown| > cap {
      assert Reversed(grown)[..cap] == Reversed(grown[1..]);
    }
  }

  /** A hit moves the key last; a miss appends it and pops the oldest if over capacity. */
  function DictAccess(cap: nat, dict: seq<Block>, block: Block): seq<Block> {
    if block in dict then Without(dict, block) + [block]
    else if |dict| + 1 > cap then (dict + [block])[1..]
    else dict + [block]
  }

  /** One capacity's dictionary and hit counter. */
  datatype Sim = Sim(dict: seq<Block>, count: nat)

  function SimStep(cap: nat, s: Sim, block: Block): Sim {
    Sim(DictAccess(cap, s.dict, block), s.count + if block in s.dict then 1 else 0)
  }

  function SimRun(cap: nat, s: Sim, trace: seq<Block>): Sim
    decreases |trace|
  {
    if trace == [] then s else SimStep(cap, SimRun(cap, s, trace[..|trace| - 1]), trace[|trace| - 1])
  }

  /** The dictionary pass is the LRU run, and what it does not count as hits are the misses. */
  lemma {:induction false} SimRunIsLru(cap: nat, s: Sim, trace: seq<Block>)
    requires NoDup(s.dict) && |s.dict| <= cap
    ensures var e := SimRun(cap, s, trace);
            && NoDup(e.dict) && |e.dict| <= cap
            && Reversed(e.dict) == LruRun(cap, Reversed(s.dict), trace)
            && e.count + |Missed(cap, Reversed(s.dict), trace)| == s.count + |trace|
  {
    if trace != [] {
      var init, block := trace[..|trace| - 1], trace[|trace| - 1];
      SimRunIsLru(cap, s, init);
      var e := SimRun(cap, s, init);
      ReversedElements(e.dict);
      if block in e.dict {
        HitStep(cap, e.dict, block);
      } else {
        MissStep(cap, e.dict, block);
      }
    }
  }

  /** Stack inclusion for the simulator: the smaller dictionary is the newest part of the larger
      one, and the larger capacity counts at least as many hits. */
  lemma {:induction false} LargerHitsMore(c1: nat, c2: nat, trace: seq<Block>)
    requires c1 <= c2
    ensures var small, large := SimRun(c1, Sim([], 0), trace), SimRun(c2, Sim([], 0), trace);
            && Reversed(small.dict) == Take(Reversed(large.dict), c1)
            && small.count <= large.count
  {
    SimRunIsLru(c1, Sim([], 0), trace);
    SimRunIsLru(c2, Sim([], 0), trace);
    StackInclusion<Block>(c1, c2, [], trace);
    MissesAntitone<Block>(c1, c2, [], trace);
    assert Take<Block>([], c1) == [] && Take<Block>([], c2) == [];
  }

  /** The next access counts a hit iff fewer than cap distinct others came since its last use. */
  lemma {:induction false} HitIffNear(cap: nat, trace: seq<Block>, block: Block)
    requires cap >= 1
    ensures SimRun(cap, Sim([], 0), trace + [block]).count ==
            SimRun(cap, Sim([], 0), trace).count +
            if block in trace && |SinceLastUse(trace, block)| < cap then 1 else 0
  {
    var e := SimRun(cap, Sim([], 0), trace);
    assert (trace + [block])[..|trace|] == trace;
    SimRunIsLru(cap, Sim([], 0), trace);
    ReversedElements(e.dict);
    HitIffReuseDistance(cap, trace, block);
  }

  class LruSims {
    var sims: map<nat, seq<Block>>
    var hits: map<nat, nat>

    ghost predicate Valid()
      reads this
    {
      sims.Keys == hits.Keys &&
      forall cap :: cap in sims ==> NoDup(sims[cap]) && |sims[cap]| <= cap
    }

    function Now(cap: nat): Sim
      requires cap in sims && cap in hits
      reads this
    {
      Sim(sims[cap], hits[cap])
    }

    /** One pass over the trace: every capacity ends as its own LRU run, with its own hit count. */
    method Update(blocks: seq<Block>) returns (total: nat)
      requires Valid()
      modifies this
      ensures Valid() && sims.Keys == old(sims.Keys)
      ensures total == |blocks|
      ensures forall cap :: cap in sims ==>
                Reversed(sims[cap]) == LruRun(cap, Reversed(old(sims)[cap]), blocks)
      ensures forall cap :: cap in sims ==>
                hits[cap] + |Missed(cap, Reversed(old(sims)[cap]), blocks)| == old(hits)[cap] + |blocks|
    {
      ghost var start := map cap | cap in sims :: Now(cap);
      total := 0;
      for i := 0 to |blocks|
        invariant sims.Keys == hits.Keys == start.Keys && total == i
        invariant forall cap :: cap in start ==> Now(cap) == SimRun(cap, start[cap], blocks[..i])
      {
        total := total + 1;
        AccessAll(blocks[i]);
        assert blocks[..i + 1][..i] == blocks[..i];
      }
      assert blocks[..|blocks|] == blocks;
      forall cap | cap in start
        ensures NoDup(sims[cap]) && |sims[cap]| <= cap
        ensures Reversed(sims[cap]) == LruRun(cap, Reversed(start[cap].dict), blocks)
        ensures hits[cap] + |Missed(cap, Reversed(start[cap].dict), blocks)| == start[cap].count + |blocks|
      {
        SimRunIsLru(cap, start[cap], blocks);
      }
    }

    method AccessAll(block: Block)
      requires sims.Keys == hits.Keys
      modifies this
      ensures sims.Keys == hits.Keys == old(sims.Keys)
      ensures forall cap :: cap in sims ==> Now(cap) == SimStep(cap, old(Sim(sims[cap], hits[cap])), block)
    {
      ghost var before := map cap | cap in sims :: Now(cap);
      var todo := sims.Keys;
      while todo != {}
        invariant todo <= sims.Keys && sims.Keys == hits.Keys == before.Keys
        invariant forall cap :: cap in todo ==> Now(cap) == before[cap]
        invariant forall cap :: cap in sims && cap !in todo ==> Now(cap) == SimStep(cap, before[cap], block)
        decreases todo
      {
        var cap :| cap in todo;
        todo := todo - {cap};
        Access(cap, block);
      }
    }

    /** The body for one capacity. */
    method Access(cap: nat, block: Block)
      requires sims.Keys == hits.Keys && cap in sims
      modifies this
      ensures sims.Keys == hits.Keys == old(sims.Keys)
      ensures Now(cap) == SimStep(cap, old(Now(cap)), block)
      ensures forall c :: c in sims && c != cap ==> Now(c) == old(Sim(sims[c], hits[c]))
    {
      var cache := sims[cap];
      if block in cache {
        hits := hits[cap := hits[cap] + 1];
        cache := Without(cache, block) + [block];
      } else {
        cache := cache + [block];
        if |cache| > cap {
          cache := cache[1..];
        }
      }
      sims := sims[cap := cache];
    }
  }
}
