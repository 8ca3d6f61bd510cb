/** The two slot caches of the block runtime: blocks in pinned host memory and in device memory. */
module BlockCaches {
  import opened Recency
  import opened SlotCache
  import opened Storage
  import opened BlockFile

  /** A pointer into a cache's memory is the slot it points to. */
  datatype Ptr = Null | At(slot: nat)

  /** The all-ones id that stands for no block. */
  const NoBlock: Block := 0xFFFF_FFFF_FFFF_FFFF

  function CapacityBlocks(cacheBytes: nat, blockBytes: nat): (c: nat)
    requires blockBytes > 0
    ensures c >= 1 && (c > 1 ==> Times(c, blockBytes) <= cacheBytes)
    ensures Times(c + 1, blockBytes) > cacheBytes
  {
    FitIsQuotient(cacheBytes, blockBytes);
    TimesFit(cacheBytes / blockBytes, blockBytes, cacheBytes);
    TimesFit(cacheBytes / blockBytes + 1, blockBytes, cacheBytes);
    TimesFit(2, blockBytes, cacheBytes);
    if cacheBytes / blockBytes > 1 then cacheBytes / blockBytes else 1
  }

  /** Slots are pushed highest first. */
  method StackSlots(capacity: nat) returns (freeSlots: seq<nat>)
    ensures freeSlots == FreeStack(capacity, capacity)
  {
    freeSlots := [];
    for i := 0 to capacity
      invariant freeSlots == FreeStack(capacity, i)
    {
      freeSlots := freeSlots + [capacity - 1 - i];
    }
  }

  class DramCache {
    const blockBytes: nat
    const memory: array<Data>
    var freeSlots: seq<nat>
    var lru: seq<Block>
    var entries: map<Block, nat>
    var hits: nat
    var misses: nat
    var evictions: nat

    function View(): Slots
      reads this
    {
      Slots(memory.Length, freeSlots, lru, entries)
    }

    ghost predicate Valid()
      reads this
    {
      View().Valid()
    }

    constructor (cacheBytes: nat, blockBytes: nat)
      requires blockBytes > 0
      ensures Valid() && View() == EmptySlots(CapacityBlocks(cacheBytes, blockBytes))
      ensures hits == misses == evictions == 0 && fresh(memory) && this.blockBytes == blockBytes
    {
      var capacity := CapacityBlocks(cacheBytes, blockBytes);
      this.blockBytes := blockBytes;
      memory := new Data[capacity](_ => []);
      var slots := StackSlots(capacity);
      freeSlots, lru, entries := slots, [], map[];
      hits, misses, evictions := 0, 0, 0;
      EmptySlotsValid(capacity);
    }

    method Get(b: Block) returns (p: Ptr)
      requires Valid()
      modifies this
      ensures Valid() && evictions == old(evictions)
      ensures b in old(entries) ==>
                p == At(old(entries)[b]) && entries == old(entries) && View() == old(View()).Allocate(b) &&
                hits == old(hits) + 1 && misses == old(misses)
      ensures b !in old(entries) ==>
                p == Null && View() == old(View()) && hits == old(hits) && misses == old(misses) + 1
    {
      if b !in entries {
        misses := misses + 1;
        return Null;
      }
      TouchValid(View(), b);
      hits := hits + 1;
      lru := [b] + Without(lru, b);
      return At(entries[b]);
    }

    /** Throws out the oldest block if no slot is free. */
    method EvictIfNeeded()
      requires Valid()
      modifies this
      ensures Valid() && freeSlots != []
      ensures View() == if old(freeSlots) == [] then old(View()).Evict() else old(View())
      ensures evictions == old(evictions) + if old(freeSlots) == [] then 1 else 0
      ensures hits == old(hits) && misses == old(misses)
    {
      hide Slots.Valid;
      if freeSlots == [] {
        FullHasVictim(View());
        EvictValid(View());
      }
      if freeSlots != [] || |entries| == 0 {
        return;
      }
      var victim := lru[|lru| - 1];
      if victim in entries {
        freeSlots := freeSlots + [entries[victim]];
        entries := entries - {victim};
      }
      lru := lru[..|lru| - 1];
      evictions := evictions + 1;
    }

    method AllocateSlotForLoad(b: Block) returns (slot: nat)
      requires Valid()
      modifies this
      ensures Valid() && View() == old(View()).Allocate(b)
      ensures b in entries && slot == entries[b]
      ensures evictions == old(evictions) + |old(View()).Victim(b)|
      ensures hits == old(hits) && misses == old(misses)
    {
      hide Slots.Valid, Slots.Allocate, Slots.Victim;
      AllocateValid(View(), b);
      AllocateCases(View(), b);
      if b in entries {
        lru := [b] + Without(lru, b);
        return entries[b];
      }
      if freeSlots == [] {
        var victim := lru[|lru| - 1];
        if victim in entries {
          freeSlots := freeSlots + [entries[victim]];
          entries := entries - {victim};
        }
        lru := lru[..|lru| - 1];
        evictions := evictions + 1;
      }
      slot := freeSlots[|freeSlots| - 1];
      freeSlots := freeSlots[..|freeSlots| - 1];
      lru := [b] + lru;
      entries := entries[b := slot];
    }

    /** Copies data to the start of the block's slot; data longer than a block is refused. */
    method Put(b: Block, data: Data) returns (p: Ptr)
      requires Valid() && forall i :: 0 <= i < memory.Length ==> |memory[i]| == blockBytes
      modifies this, memory
      ensures |data| > blockBytes ==> p == Null && View() == old(View()) && memory[..] == old(memory[..])
      ensures |data| <= blockBytes ==>
                Valid() && View() == old(View()).Allocate(b) && b in entries && p == At(entries[b]) &&
                entries[b] < memory.Length && |memory[entries[b]]| == blockBytes &&
                memory[entries[b]][..|data|] == data &&
                forall x :: x in entries && x != b ==> memory[entries[x]] == old(memory[..])[entries[x]]
    {
      if |data| > blockBytes {
        return Null;
      }
      var slot := AllocateSlotForLoad(b);
      memory[slot] := data + memory[slot][|data|..];
      return At(slot);
    }
  }

  class HbmCache {
    const memory: array<Data>
    var freeSlots: seq<nat>
    var lru: seq<Block>
    var entries: map<Block, nat>

    function View(): Slots
      reads this
    {
      Slots(memory.Length, freeSlots, lru, entries)
    }

    ghost predicate Valid()
      reads this
    {
      View().Valid()
    }

    constructor (cacheBytes: nat, blockBytes: nat)
      requires blockBytes > 0
      ensures Valid() && View() == EmptySlots(CapacityBlocks(cacheBytes, blockBytes)) && fresh(memory)
    {
      var capacity := CapacityBlocks(cacheBytes, blockBytes);
      memory := new Data[capacity](_ => []);
      var slots := StackSlots(capacity);
      freeSlots, lru, entries := slots, [], map[];
      EmptySlotsValid(capacity);
    }

    method Get(b: Block) returns (p: Ptr)
      requires Valid()
      modifies this
      ensures Valid()
      ensures b in old(entries) ==> p == At(old(entries)[b]) && View() == old(View()).Allocate(b)
      ensures b !in old(entries) ==> p == Null && View() == old(View())
    {
      if b !in entries {
        return Null;
      }
      TouchValid(View(), b);
      lru := [b] + Without(lru, b);
      return At(entries[b]);
    }

    /** The block's slot, and the block thrown out for it. */
    method Allocate(b: Block) returns (slot: nat, evicted: Block)
      requires Valid()
      modifies this
      ensures Valid() && View() == old(View()).Allocate(b)
      ensures b in entries && slot == entries[b]
      ensures evicted == if old(View()).Victim(b) == {} then NoBlock else old(lru)[|old(lru)| - 1]
    {
      hide Slots.Valid, Slots.Allocate, Slots.Victim;
      AllocateValid(View(), b);
      AllocateCases(View(), b);
      if b in entries {
        lru := [b] + Without(lru, b);
        return entries[b], NoBlock;
      }
      evicted := NoBlock;
      if freeSlots == [] {
        evicted := lru[|lru| - 1];
        if evicted in entries {
          freeSlots := freeSlots + [entries[evicted]];
          entries := entries - {evicted};
        }
        lru := lru[..|lru| - 1];
      }
      slot := freeSlots[|freeSlots| - 1];
      freeSlots := freeSlots[..|freeSlots| - 1];
      lru := [b] + lru;
      entries := entries[b := slot];
    }
  }
}
