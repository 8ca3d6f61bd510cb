/** Where each block is, block by block. */
module ResidencyTable {
  import opened SlotCache
  import opened BlockCaches

  datatype State = NotResident | InDram | InHbm | Loading

  datatype Entry = Entry(blockId: Block, state: State, dramPtr: Ptr, devicePtr: Ptr,
                         lastAccess: nat, accessCount: nat, refCount: nat)

  /** The entry a lookup creates for a block it does not know. */
  function Unknown(): Entry {
    Entry(0, NotResident, Null, Null, 0, 0, 0)
  }

  /** References held to a block; none to one the table does not know. */
  function Refs(entries: map<Block, Entry>, b: Block): nat {
    if b in entries then entries[b].refCount else 0
  }

  class Table {
    var entries: map<Block, Entry>
    var step: nat

    constructor ()
      ensures entries.Keys == {} && step == 0
    {
      entries, step := map[], 0;
    }

    function At(b: Block): Entry
      reads this
    {
      if b in entries then entries[b] else Unknown()
    }

    method Set(b: Block, e: Entry)
      modifies this
      ensures entries == old(entries)[b := e.(lastAccess := step)] && step == old(step) + 1
    {
      step := step + 1;
      entries := entries[b := e.(lastAccess := step)];
    }

    /** Looking up an unknown block leaves an entry for it behind. */
    method Lookup(b: Block) returns (e: Entry)
      modifies this
      ensures entries == old(entries)[b := e] && step == old(step) + 1
      ensures e == old(At(b)).(blockId := if old(At(b)).state.NotResident? then b else old(At(b)).blockId,
                               lastAccess := step, accessCount := old(At(b)).accessCount + 1,
                               refCount := old(At(b)).refCount + 1)
      ensures b !in old(entries) ==>
                e.blockId == b && e.state.NotResident? && e.dramPtr.Null? && e.devicePtr.Null? &&
                e.accessCount == 1 && e.refCount == 1
    {
      e := At(b);
      if e.state.NotResident? {
        e := e.(blockId := b);
      }
      Set(b, e.(accessCount := e.accessCount + 1, refCount := e.refCount + 1));
      e := entries[b];
    }

    method MarkLoading(b: Block)
      modifies this
      ensures entries == old(entries)[b := old(At(b)).(blockId := b, state := Loading, lastAccess := step)]
      ensures step == old(step) + 1
    {
      Set(b, At(b).(blockId := b, state := Loading));
    }

    method MarkDram(b: Block, ptr: Ptr)
      modifies this
      ensures entries == old(entries)[b := old(At(b)).(blockId := b, state := InDram, dramPtr := ptr, lastAccess := step)]
      ensures step == old(step) + 1
    {
      Set(b, At(b).(blockId := b, state := InDram, dramPtr := ptr));
    }

    method MarkHbm(b: Block, ptr: Ptr)
      modifies this
      ensures entries == old(entries)[b := old(At(b)).(blockId := b, state := InHbm, devicePtr := ptr, lastAccess := step)]
      ensures step == old(step) + 1
    {
      Set(b, At(b).(blockId := b, state := InHbm, devicePtr := ptr));
    }

    /** Gives one reference back, if the block is known and has any. */
    method Release(b: Block)
      modifies this
      ensures b !in old(entries) ==> entries == old(entries) && step == old(step)
      ensures b in old(entries) ==>
                var e := old(entries)[b];
                && entries == old(entries)[b := e.(refCount := if e.refCount > 0 then e.refCount - 1 else 0,
                                                   lastAccess := step)]
                && step == old(step) + 1
    {
      if b in entries {
        var e := entries[b];
        Set(b, if e.refCount > 0 then e.(refCount := e.refCount - 1) else e);
      }
    }

    method Erase(b: Block)
      modifies this
      ensures entries == old(entries) - {b} && step == old(step)
    {
      entries := entries - {b};
    }

    method Clear()
      modifies this
      ensures entries.Keys == {} && step == old(step)
    {
      entries := map[];
    }
  }
}
