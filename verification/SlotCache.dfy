/**
 What the DRAM and HBM block caches share: a fixed set of slots, a free stack, a list of blocks
 newest first, and the slot of each cached block. A list iterator kept in an entry is the
 position of the block's only list node, so it is not part of the value.
 */
module SlotCache {
  import opened Recency

  type Block = nat

  datatype Slots = Slots(cap: nat, free: seq<nat>, lru: seq<Block>, slot: map<Block, nat>) {

    /** Free and occupied slots partition the slots, no two blocks share one, and the list is a
        permutation of the cached blocks. */
    ghost predicate Valid() {
      && cap >= 1 && |free| + |lru| == cap
      && NoDup(lru) && (forall b :: b in lru <==> b in slot)
      && NoDup(free) && (forall i :: 0 <= i < |free| ==> free[i] < cap)
      && (forall b :: b in slot ==> slot[b] < cap && slot[b] !in free)
      && (forall p :: 0 <= p < cap ==> p in free || Occupied(p))
      && Injective()
    }

    ghost predicate Occupied(p: nat) {
      exists b :: b in slot && slot[b] == p
    }

    ghost predicate Injective() {
      forall a, b :: a in slot && b in slot && slot[a] == slot[b] ==> a == b
    }

    /** A hit moves the block to the front. */
    function Touch(b: Block): Slots {
      this.(lru := [b] + Without(lru, b))
    }

    /** The last block of the list gives its slot back. */
    function Evict(): Slots
      requires lru != []
    {
      var victim := lru[|lru| - 1];
      var s := this.(lru := lru[..|lru| - 1]);
      if victim in slot then s.(free := free + [slot[victim]], slot := slot - {victim}) else s
    }

    /** The top of the free stack goes to the block. */
    function Place(b: Block): Slots
      requires free != []
    {
      Slots(cap, free[..|free| - 1], [b] + lru, slot[b := free[|free| - 1]])
    }

    /** Brings a block in, or moves it to the front when it is there. */
    function Allocate(b: Block): Slots
      requires Valid()
    {
      if b in slot then Touch(b)
      else if free == [] then
        EvictValid(this);
        Evict().Place(b)
      else Place(b)
    }

    /** The block an allocation throws out, if any. */
    function Victim(b: Block): (v: set<Block>)
      requires Valid()
      ensures forall x :: x in v ==> x in slot && x != b && lru != [] && x == lru[|lru| - 1]
    {
      if b !in slot && free == [] then {lru[|lru| - 1]} else {}
    }
  }

  /** Slots are pushed highest first, so they are handed out from 0 up. */
  function FreeStack(cap: nat, n: nat): (r: seq<nat>)
    requires n <= cap
    ensures |r| == n && forall i :: 0 <= i < n ==> r[i] == cap - 1 - i
  {
    if n == 0 then [] else FreeStack(cap, n - 1) + [cap - n]
  }

  function EmptySlots(cap: nat): Slots {
    Slots(cap, FreeStack(cap, cap), [], map[])
  }

  lemma {:induction false} EmptySlotsValid(cap: nat)
    requires cap >= 1
    ensures EmptySlots(cap).Valid()
  {
    var s := EmptySlots(cap);
    forall p | 0 <= p < cap ensures p in s.free {
      assert s.free[cap - 1 - p] == p;
    }
  }

  lemma {:induction false} TouchValid(s: Slots, b: Block)
    requires s.Valid() && b in s.slot
    ensures s.Touch(b).Valid()
  {
    FrontNoDup(s.lru, b);
    WithoutNoDup(s.lru, b);
    var t := s.Touch(b);
    forall p | 0 <= p < s.cap ensures p in t.free || t.Occupied(p) {
      assert p in s.free || s.Occupied(p);
    }
  }

  lemma {:induction false} EvictValid(s: Slots)
    requires s.Valid() && s.lru != []
    ensures s.Evict().Valid() && s.Evict().free != []
    ensures s.Evict().slot == s.slot - {s.lru[|s.lru| - 1]}
  {
    hide Slots.Occupied, NoDup;
    var t := s.Evict();
    EvictLists(s);
    EvictFree(s);
    forall p | 0 <= p < s.cap ensures p in t.free || t.Occupied(p) {
      EvictOccupied(s, p);
    }
  }

  lemma {:induction false} EvictLists(s: Slots)
    requires s.Valid() && s.lru != []
    ensures var t := s.Evict();
            && t.cap == s.cap && |t.free| + |t.lru| == t.cap && NoDup(t.lru)
            && forall b :: b in t.lru <==> b in t.slot
  {
    hide Slots.Occupied, Slots.Injective;
    var n := |s.lru| - 1;
    var t := s.Evict();
    assert s.lru == t.lru + [s.lru[n]];
    assert forall i :: 0 <= i < n ==> t.lru[i] == s.lru[i] != s.lru[n];
  }

  lemma {:induction false} EvictFree(s: Slots)
    requires s.Valid() && s.lru != []
    ensures var t := s.Evict();
            && NoDup(t.free) && (forall i :: 0 <= i < |t.free| ==> t.free[i] < t.cap)
            && forall b :: b in t.slot ==> t.slot[b] < t.cap && t.slot[b] !in t.free
  {
    hide Slots.Occupied;
  }

  lemma {:induction false} EvictOccupied(s: Slots, p: nat)
    requires s.Valid() && s.lru != [] && p < s.cap
    ensures p in s.Evict().free || s.Evict().Occupied(p)
  {
    hide Slots.Injective;
    var victim, t := s.lru[|s.lru| - 1], s.Evict();
    if p == s.slot[victim] {
      assert t.free[|s.free|] == p;
    } else if p in s.free {
      assert p in t.free;
    } else {
      var b :| b in s.slot && s.slot[b] == p;
      assert b in t.slot && t.slot[b] == p;
    }
  }

  lemma {:induction false} PlaceValid(s: Slots, b: Block)
    requires s.Valid() && s.free != [] && b !in s.slot
    ensures s.Place(b).Valid()
  {
    var n := |s.free| - 1;
    var top, t := s.free[n], s.Place(b);
    assert s.free == t.free + [top];
    assert forall i :: 0 <= i < n ==> t.free[i] == s.free[i] != top;
    forall p | 0 <= p < s.cap ensures p in t.free || t.Occupied(p) {
      if p == top {
        assert t.slot[b] == p;
      } else if p !in s.free {
        var x :| x in s.slot && s.slot[x] == p;
        assert t.slot[x] == p;
      }
    }
  }

  /** Allocation keeps every slot accounted for and moves no block but the victim. */
  lemma {:induction false} AllocateValid(s: Slots, b: Block)
    requires s.Valid()
    ensures var t := s.Allocate(b);
            && t.Valid() && t.cap == s.cap && b in t.slot
            && t.slot.Keys == s.slot.Keys - s.Victim(b) + {b}
            && forall x :: x in s.slot && x !in s.Victim(b) ==> t.slot[x] == s.slot[x]
  {
    hide Slots.Valid;
    AllocateKeepsValid(s, b);
  }

  lemma {:induction false} FullHasVictim(s: Slots)
    requires s.Valid() && s.free == []
    ensures s.lru != [] && |s.lru| == s.cap && s.lru[|s.lru| - 1] in s.slot && |s.slot| > 0
  {
    assert s.slot.Keys != {} by {
      assert s.lru[|s.lru| - 1] in s.slot.Keys;
    }
  }

  lemma {:induction false} AllocateKeepsValid(s: Slots, b: Block)
    requires s.Valid()
    ensures s.Allocate(b).Valid()
  {
    hide Slots.Valid;
    if b in s.slot {
      TouchValid(s, b);
    } else if s.free == [] {
      FullHasVictim(s);
      EvictValid(s);
      PlaceValid(s.Evict(), b);
    } else {
      PlaceValid(s, b);
    }
  }

  /** The list after an access is the LRU step, at the cache's own capacity. */
  lemma {:induction false} AllocateIsLru(s: Slots, b: Block)
    requires s.Valid()
    ensures s.Allocate(b).lru == LruStep(s.cap, s.lru, b)
  {
    hide Slots.Allocate, Slots.Victim, Slots.Occupied, Slots.Injective, Without;
    AllocateCases(s, b);
    if b in s.slot {
      WithoutNoDup(s.lru, b);
    } else {
      WithoutAbsent(s.lru, b);
      if s.free == [] {
        assert [b] + s.lru[..|s.lru| - 1] == ([b] + s.lru)[..s.cap];
      }
    }
  }

  /** Inserting an absent block is the FIFO step. */
  lemma {:induction false} AllocateIsFifo(s: Slots, b: Block)
    requires s.Valid() && b !in s.slot
    ensures s.Allocate(b).lru == FifoStep(s.cap, s.lru, b)
  {
    AllocateIsLru(s, b);
    WithoutAbsent(s.lru, b);
  }

  /** The slot an allocation uses was free, or was the victim's. */
  lemma {:induction false} SlotIsFresh(s: Slots, b: Block, x: Block)
    requires s.Valid() && x in s.slot && x != b && x !in s.Victim(b)
    ensures x in s.Allocate(b).slot && s.Allocate(b).slot[x] == s.slot[x]
    ensures b in s.Allocate(b).slot && s.Allocate(b).slot[b] != s.slot[x]
  {
    AllocateValid(s, b);
    assert s.Allocate(b).Injective();
  }

  /** An allocation field by field. */
  lemma {:induction false} AllocateCases(s: Slots, b: Block)
    requires s.Valid()
    ensures var t := s.Allocate(b);
            if b in s.slot then t == s.Touch(b) && s.Victim(b) == {}
            else if s.free != [] then t == s.Place(b) && s.Victim(b) == {}
            else
              var n := |s.lru| - 1;
              && n >= 0 && s.lru[n] in s.slot && s.Victim(b) == {s.lru[n]}
              && t == Slots(s.cap, [], [b] + s.lru[..n], (s.slot - {s.lru[n]})[b := s.slot[s.lru[n]]])
  {
    hide Slots.Injective, Slots.Occupied;
    if b !in s.slot && s.free == [] {
      FullHasVictim(s);
      assert s.Evict().free == [s.slot[s.lru[|s.lru| - 1]]];
    }
  }

  // ---------------------------------------------------------------- slots in rounds

  /** n blocks have been brought in since the cache was empty, and each got the next slot in turn. */
  ghost predicate Cyclic(s: Slots, n: nat) {
    && s.cap >= 1 && |s.lru| == (if n < s.cap then n else s.cap)
    && s.free == FreeStack(s.cap, s.cap - |s.lru|)
    && forall j :: 0 <= j < |s.lru| ==> InRound(s, n, j)
  }

  ghost predicate InRound(s: Slots, n: nat, j: nat)
    requires s.cap >= 1 && j < |s.lru| <= n
  {
    s.lru[j] in s.slot && s.slot[s.lru[j]] == (n - 1 - j) % s.cap
  }

  lemma {:induction false} EmptyCyclic(cap: nat)
    requires cap >= 1
    ensures Cyclic(EmptySlots(cap), 0)
  {
  }

  lemma {:induction false} NextRound(n: nat, c: nat)
    requires c >= 1 && n >= c
    ensures (n - c) % c == n % c
  {
    assert n == (n - c) + 1 * c;
    AddMultiple(n - c, c);
  }

  lemma {:induction false} AddMultiple(a: nat, c: nat)
    requires c >= 1
    ensures (a + c) % c == a % c
  {
    assert a + c == c * (a / c + 1) + a % c;
    Unique(a + c, c, a / c + 1, a % c);
  }

  lemma {:induction false} Unique(m: nat, c: nat, q: nat, r: nat)
    requires c >= 1 && r < c && m == c * q + r
    ensures m % c == r
  {
    var d := q - m / c;
    assert c * d == m % c - r by {
      assert m == c * (m / c) + m % c;
      assert c * d == c * q - c * (m / c);
    }
    Small(c, d);
  }

  lemma {:induction false} Small(c: nat, d: int)
    requires c >= 1 && -(c as int) < c * d < c
    ensures d == 0 && c * d == 0
  {
  }

  /** Each block brought in takes the next slot, round after round. */
  lemma {:induction false} AllocateCyclic(s: Slots, n: nat, b: Block)
    requires s.Valid() && Cyclic(s, n) && b !in s.slot
    ensures Cyclic(s.Allocate(b), n + 1)
    ensures b in s.Allocate(b).slot && s.Allocate(b).slot[b] == n % s.cap
  {
    hide Slots.Allocate, Slots.Occupied, Slots.Valid, Slots.Victim, InRound;
    var t, m := s.Allocate(b), n + 1;
    NewSlot(s, n, b);
    NewShape(s, n, b);
    forall j | 0 <= j < |t.lru| ensures InRound(t, m, j) {
      RoundKept(s, n, b, j);
    }
  }

  lemma {:induction false} NewShape(s: Slots, n: nat, b: Block)
    requires s.Valid() && Cyclic(s, n) && b !in s.slot
    ensures var t := s.Allocate(b);
            && t.cap == s.cap && |t.lru| == (if n + 1 < s.cap then n + 1 else s.cap)
            && t.lru[0] == b && (forall j :: 0 < j < |t.lru| ==> t.lru[j] == s.lru[j - 1])
            && t.free == FreeStack(t.cap, t.cap - |t.lru|)
  {
    hide Slots.Allocate, Slots.Occupied, Slots.Injective, InRound;
    AllocateCases(s, b);
    if n < s.cap {
      assert FreeStack(s.cap, s.cap - n)[..s.cap - n - 1] == FreeStack(s.cap, s.cap - n - 1);
    }
  }

  lemma {:induction false} NewSlot(s: Slots, n: nat, b: Block)
    requires s.Valid() && Cyclic(s, n) && b !in s.slot
    ensures b in s.Allocate(b).slot && s.Allocate(b).slot[b] == n % s.cap
  {
    hide Slots.Allocate, Slots.Occupied, Slots.Injective;
    AllocateCases(s, b);
    if n >= s.cap {
      assert InRound(s, n, |s.lru| - 1);
      NextRound(n, s.cap);
    } else {
      Unique(n, s.cap, 0, n);
    }
  }

  lemma {:induction false} RoundKept(s: Slots, n: nat, b: Block, j: nat)
    requires s.Valid() && Cyclic(s, n) && b !in s.slot && j < |s.Allocate(b).lru| <= n + 1
    ensures s.Allocate(b).cap >= 1 && InRound(s.Allocate(b), n + 1, j)
  {
    hide Slots.Allocate, Slots.Occupied, Slots.Injective, Slots.Victim;
    NewSlot(s, n, b);
    NewShape(s, n, b);
    AllocateValid(s, b);
    if j > 0 {
      assert InRound(s, n, j - 1);
      StaysInList(s, b, j);
    }
  }

  lemma {:induction false} StaysInList(s: Slots, b: Block, j: nat)
    requires s.Valid() && b !in s.slot && 0 < j < |s.Allocate(b).lru|
    requires j - 1 < |s.lru| && s.Allocate(b).lru[j] == s.lru[j - 1]
    ensures s.lru[j - 1] !in s.Victim(b) && s.lru[j - 1] in s.slot
  {
    hide Slots.Allocate, Slots.Occupied, Slots.Injective;
    AllocateCases(s, b);
  }
}
