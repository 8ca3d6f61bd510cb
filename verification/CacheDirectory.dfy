/** The chunk cache as the program holds it, and its order when no key is inserted twice. */
module CacheDirectory {
  import opened Recency
  import opened Storage
  import opened ChunkCache

  class CacheDirectory {
    const chunkSize: nat
    const cacheSizeBytes: nat
    var usedBytes: int
    var ticks: nat
    var evictions: nat
    var lru: seq<ListNode>
    var table: map<Key, TableNode>

    /** Insertions so far that overwrote a present key. */
    ghost var leaked: nat
    /** Keys in the order they were touched or offered, over the whole life of the cache. */
    ghost var uses: seq<Key>

    constructor (chunkSize: nat, cacheSizeBytes: nat)
      requires chunkSize > 0
      ensures Valid() && View() == EmptyCache(chunkSize, cacheSizeBytes)
      ensures leaked == 0 && uses == []
    {
      this.chunkSize := chunkSize;
      this.cacheSizeBytes := cacheSizeBytes;
      usedBytes, ticks, evictions := 0, 0, 0;
      lru, table := [], map[];
      leaked, uses := 0, [];
    }

    function View(): Cache
      reads this
    {
      Cache(chunkSize, cacheSizeBytes, usedBytes, ticks, evictions, lru, table)
    }

    function Keys(): seq<Key>
      reads this
    {
      KeysOf(lru)
    }

    function Capacity(): nat {
      Fit(cacheSizeBytes, chunkSize)
    }

    /** The books balance; and until a key is overwritten, the cache is exactly the most recently
        used keys. */
    ghost predicate Valid()
      reads this
    {
      Sound(View(), leaked, uses)
    }

    method Touch(key: Key)
      requires key in table
      modifies this
      ensures View() == old(View()).Touch(key)
      ensures leaked == old(leaked) && uses == old(uses)
    {
      var node := table[key];
      lru := Erase(lru, node.lruIt);
      ticks := ticks + 1;
      lru := [ListNode(key, ticks)] + lru;
      var entry := node.entry.(lastAccess := ticks, accessCount := node.entry.accessCount + 1);
      table := table[key := TableNode(entry, ticks)];
    }

    /** A hit refreshes the key and copies its entry out. */
    method Lookup(key: Key) returns (found: bool, entry: Entry)
      requires Valid()
      modifies this
      ensures Valid() && View() == old(View()).Lookup(key)
      ensures found <==> key in old(table)
      ensures found ==> key in table && entry == table[key].entry
      ensures leaked == old(leaked) && uses == if found then old(uses) + [key] else old(uses)
      ensures leaked == 0 && found ==> Keys() == LruStep(Capacity(), old(Keys()), key)
    {
      if key !in table {
        return false, Entry([], 0, 0, 0, false);
      }
      TouchSound(View(), leaked, uses, key);
      Touch(key);
      uses := uses + [key];
      return true, table[key].entry;
    }

    /** Evicts from the cold end until the chunk fits, then admits it at the hot end. */
    method Insert(key: Key, data: array<byte>, validSize: nat) returns (admitted: bool)
      requires Valid() && data.Length == chunkSize
      modifies this
      ensures Valid() && View() == old(View()).Insert(key, data[..], validSize)
      ensures admitted == old(View()).Accepts(validSize)
      ensures leaked == old(leaked) + Overwrites(old(View()), key, validSize)
      ensures uses == if 0 < validSize <= chunkSize then old(uses) + [key] else old(uses)
      ensures leaked == 0 && 0 < validSize <= chunkSize ==> Keys() == LruStep(Capacity(), old(Keys()), key)
    {
      hide Sound, Cache.MakeRoom, Cache.Admit, LruStep;
      ghost var c := View();
      InsertSound(c, leaked, uses, key, data[..], validSize);
      if validSize == 0 || validSize > chunkSize {
        return false;
      }
      uses := uses + [key];
      if chunkSize > cacheSizeBytes || cacheSizeBytes == 0 {
        return false;
      }
      leaked := leaked + Overwrites(c, key, validSize);
      MakeRoom();
      Admit(key, data, validSize);
      assert View() == c.Insert(key, data[..], validSize);
      return true;
    }

    method Admit(key: Key, data: array<byte>, validSize: nat)
      modifies this
      ensures View() == old(View()).Admit(key, data[..], validSize)
      ensures leaked == old(leaked) && uses == old(uses)
    {
      ticks := ticks + 1;
      lru := [ListNode(key, ticks)] + lru;
      usedBytes := usedBytes + data.Length;
      table := table[key := TableNode(Entry(data[..], validSize, ticks, 1, false), ticks)];
    }

    /** The eviction loop of an insertion. */
    method MakeRoom()
      modifies this
      ensures View() == old(View()).MakeRoom()
      ensures leaked == old(leaked) && uses == old(uses)
    {
      while usedBytes + chunkSize > cacheSizeBytes && lru != []
        invariant View().MakeRoom() == old(View()).MakeRoom()
        invariant leaked == old(leaked) && uses == old(uses)
        decreases |lru|
      {
        var victim := lru[|lru| - 1].key;
        lru := lru[..|lru| - 1];
        if victim in table {
          usedBytes := usedBytes - |table[victim].entry.data|;
          table := table - {victim};
          evictions := evictions + 1;
        }
      }
    }

    method Contains(key: Key) returns (present: bool)
      ensures present <==> key in table
    {
      return key in table;
    }
  }

  // ---------------------------------------------------------------- sequential order

  lemma {:induction false} TightKeys(c: Cache)
    requires c.Linked() && c.Tight()
    ensures NoDup(c.Keys()) && |c.lru| == |c.table|
    ensures forall k :: k in c.Keys() <==> k in c.table
  {
    forall i, j | 0 <= i < j < |c.lru| ensures c.Keys()[i] != c.Keys()[j] {
      assert c.Owned(c.lru[i]) && c.Owned(c.lru[j]);
      DescendingPair(c.lru, c.ticks, i, j);
    }
    forall k | k in c.Keys() ensures k in c.table {
      var i :| 0 <= i < |c.lru| && c.Keys()[i] == k;
      assert c.Owned(c.lru[i]);
    }
    forall k | k in c.table ensures k in c.Keys() {
      assert c.ValidNode(k, c.table[k]);
      var i :| 0 <= i < |c.lru| && c.lru[i] == ListNode(k, c.table[k].lruIt);
      assert c.Keys()[i] == k;
    }
    CardNoDup(c.Keys());
    assert Elements(c.Keys()) == c.table.Keys;
  }

  /** In the sequential order the list runs strictly from the latest access to the earliest. */
  lemma {:induction false} TightByLastAccess(c: Cache, i: nat, j: nat)
    requires c.Linked() && c.Tight() && i < j < |c.lru|
    ensures c.lru[i].key in c.table && c.lru[j].key in c.table
    ensures c.table[c.lru[i].key].entry.lastAccess > c.table[c.lru[j].key].entry.lastAccess
  {
    DescendingPair(c.lru, c.ticks, i, j);
    assert c.Owned(c.lru[i]) && c.ValidNode(c.lru[i].key, c.table[c.lru[i].key]);
    assert c.Owned(c.lru[j]) && c.ValidNode(c.lru[j].key, c.table[c.lru[j].key]);
  }

  lemma {:induction false} EraseKeys(lru: seq<ListNode>, id: nat, k: Key)
    requires forall n :: n in lru ==> (n.id == id <==> n.key == k)
    ensures KeysOf(Erase(lru, id)) == Without(KeysOf(lru), k)
  {
    if lru != [] {
      EraseKeys(lru[1..], id, k);
      assert KeysOf(lru)[1..] == KeysOf(lru[1..]);
      assert KeysOf([lru[0]] + Erase(lru[1..], id)) == [lru[0].key] + KeysOf(Erase(lru[1..], id));
    }
  }

  lemma {:induction false} OwnNode(c: Cache, k: Key, n: ListNode)
    requires c.Linked() && c.Tight() && k in c.table && n in c.lru
    ensures n.id == c.table[k].lruIt <==> n.key == k
  {
    assert c.Owned(n) && c.ValidNode(k, c.table[k]) && c.ValidNode(n.key, c.table[n.key]);
    if n.key != k {
      DifferentNodes(c, n.key, k);
    }
  }

  lemma {:induction false} TouchList(c: Cache, k: Key)
    requires k in c.table
    ensures c.Touch(k).Keys() == [k] + KeysOf(Erase(c.lru, c.table[k].lruIt))
  {
    var e := Erase(c.lru, c.table[k].lruIt);
    assert KeysOf([ListNode(k, c.ticks + 1)] + e) == [k] + KeysOf(e);
  }

  lemma {:induction false} TouchKeys(c: Cache, k: Key)
    requires c.Linked() && c.Tight() && k in c.table
    ensures c.Touch(k).Keys() == [k] + Without(c.Keys(), k)
  {
    var id := c.table[k].lruIt;
    forall n | n in c.lru ensures n.id == id <==> n.key == k {
      OwnNode(c, k, n);
    }
    EraseKeys(c.lru, id, k);
    TouchList(c, k);
  }

  lemma {:induction false} TouchTight(c: Cache, k: Key)
    requires c.Linked() && c.Tight() && k in c.table
    ensures c.Touch(k).Tight()
  {
    var d := c.Touch(k);
    forall n | n in d.lru ensures d.Owned(n) {
      if n != d.lru[0] {
        assert n in Erase(c.lru, c.table[k].lruIt);
        assert n in c.lru && c.Owned(n);
      }
    }
  }

  lemma {:induction false} PopTight(c: Cache)
    requires c.Linked() && c.Tight() && c.lru != []
    ensures c.PopVictim().Tight() && c.PopVictim().used == c.used - c.chunkSize
  {
    var d := c.PopVictim();
    var last := c.lru[|c.lru| - 1];
    assert c.Owned(last) && c.ValidNode(last.key, c.table[last.key]);
    forall n | n in d.lru ensures d.Owned(n) {
      var i :| 0 <= i < |d.lru| && d.lru[i] == n;
      assert c.lru[i] == n && c.Owned(n);
      DescendingPair(c.lru, c.ticks, i, |c.lru| - 1);
    }
  }

  /** Without leaks, making room for one chunk drops the coldest key of a full cache, no more. */
  lemma {:induction false} MakeRoomTight(c: Cache)
    requires c.Valid(0) && c.Tight() && c.chunkSize <= c.limit
    ensures c.Capacity() >= 1
    ensures var d := c.MakeRoom(); d.Tight() && d.lru == Take(c.lru, c.Capacity() - 1)
  {
    hide Cache.Linked, Cache.Tight, Descending, Books;
    FullWhen(c);
    if |c.table| == c.Capacity() {
      PopTight(c);
      assert c.PopVictim().MakeRoom() == c.PopVictim();
    } else {
      assert c.MakeRoom() == c;
    }
  }

  /** Without leaks the byte counter says whether the cache is full. */
  lemma {:induction false} FullWhen(c: Cache)
    requires c.Valid(0) && c.Tight() && c.chunkSize <= c.limit
    ensures c.Capacity() >= 1 && |c.lru| == |c.table| <= c.Capacity() && c.chunkSize > 0
    ensures c.used <= c.limit && (c.used + c.chunkSize > c.limit <==> |c.table| == c.Capacity())
  {
    hide Cache.Tight, Descending;
    var n := |c.table|;
    TightKeys(c);
    TimesFit(1, c.chunkSize, c.limit);
    TimesFit(n, c.chunkSize, c.limit);
    TimesFit(n + 1, c.chunkSize, c.limit);
    assert c.used + c.chunkSize == Times(n + 1, c.chunkSize);
  }

  lemma {:induction false} AdmitTight(m: Cache, k: Key, data: seq<byte>, validSize: nat)
    requires m.Linked() && m.Tight() && k !in m.table
    ensures m.Admit(k, data, validSize).Tight()
    ensures m.Admit(k, data, validSize).Keys() == [k] + m.Keys()
  {
    var d := m.Admit(k, data, validSize);
    forall n | n in d.lru ensures d.Owned(n) {
      if n != d.lru[0] {
        assert n in d.lru[1..] && m.Owned(n);
      }
    }
  }

  lemma {:induction false} NoCapacity(c: Cache)
    requires c.Valid(0) && c.Tight() && c.chunkSize > c.limit
    ensures c.Capacity() == 0 && c.Keys() == []
  {
    TightKeys(c);
    TimesFit(1, c.chunkSize, c.limit);
    TimesFit(|c.table|, c.chunkSize, c.limit);
  }

  lemma {:induction false} RoomThenFront(cap: nat, keys: seq<Key>, k: Key)
    requires cap >= 1 && NoDup(keys) && |keys| <= cap && k !in Take(keys, cap - 1)
    ensures [k] + Take(keys, cap - 1) == LruStep(cap, keys, k)
  {
    if k in keys {
      var p := keys[..cap - 1];
      assert keys == p + [k] + [];
      WithoutSplit(p, k, []);
      assert Without(keys, k) == p;
    } else {
      WithoutAbsent(keys, k);
    }
  }

  lemma {:induction false} TakeKeys(lru: seq<ListNode>, n: nat)
    ensures KeysOf(Take(lru, n)) == Take(KeysOf(lru), n)
  {
  }

  /** Inserting a key that making room leaves absent is one LRU step, with no leak. */
  lemma {:induction false} InsertTight(c: Cache, k: Key, data: seq<byte>, validSize: nat)
    requires c.Valid(0) && c.Tight() && k !in c.MakeRoom().table
    requires |data| == c.chunkSize && 0 < validSize <= c.chunkSize <= c.limit
    ensures c.Insert(k, data, validSize).Tight()
    ensures c.Insert(k, data, validSize).Keys() == LruStep(c.Capacity(), c.Keys(), k)
  {
    hide Cache.MakeRoom, Cache.Admit, Cache.Linked, Cache.Tight, Books, LruStep, NoDup, Take, KeysOf;
    var m := c.MakeRoom();
    MakeRoomTight(c);
    MakeRoomValid(c, 0);
    TakeKeys(c.lru, c.Capacity() - 1);
    TightFits(c);
    TightKeys(m);
    RoomThenFront(c.Capacity(), c.Keys(), k);
    AdmitTight(m, k, data, validSize);
  }

  lemma {:induction false} TightFits(c: Cache)
    requires c.Valid(0) && c.Tight()
    ensures NoDup(c.Keys()) && |c.Keys()| <= c.Capacity()
  {
    TightKeys(c);
    TimesFit(|c.table|, c.chunkSize, c.limit);
  }

  /** The books balance; and if no key was ever overwritten, every list node is live and the keys
      are the most recent uses. */
  ghost predicate Sound(c: Cache, leaked: nat, uses: seq<Key>) {
    c.Valid(leaked) && (leaked == 0 ==> c.Tight() && c.Keys() == LruRun(c.Capacity(), [], uses))
  }

  lemma {:induction false} UsesStep(cap: nat, uses: seq<Key>, k: Key)
    ensures LruRun(cap, [], uses + [k]) == LruStep(cap, LruRun(cap, [], uses), k)
  {
    assert (uses + [k])[..|uses|] == uses;
  }

  lemma {:induction false} TouchSound(c: Cache, leaked: nat, uses: seq<Key>, k: Key)
    requires Sound(c, leaked, uses) && k in c.table
    ensures Sound(c.Touch(k), leaked, uses + [k])
    ensures leaked == 0 ==> c.Touch(k).Keys() == LruStep(c.Capacity(), c.Keys(), k)
  {
    TouchLinked(c, k);
    if leaked == 0 {
      TouchTight(c, k);
      TouchKeys(c, k);
      TightFits(c);
      WithoutNoDup(c.Keys(), k);
      TightKeys(c);
      UsesStep(c.Capacity(), uses, k);
    }
  }

  /** Refreshing a cached key is an LRU access. */
  lemma {:induction false} TouchIsLru(c: Cache, k: Key)
    requires c.Valid(0) && c.Tight() && k in c.table
    ensures c.Touch(k).Keys() == LruStep(c.Capacity(), c.Keys(), k)
  {
    TouchKeys(c, k);
    TightFits(c);
    TightKeys(c);
    WithoutNoDup(c.Keys(), k);
  }

  lemma {:induction false} InsertOrdered(c: Cache, k: Key, data: seq<byte>, validSize: nat)
    requires c.Valid(0) && c.Tight() && |data| == c.chunkSize && 0 < validSize <= c.chunkSize
    requires Overwrites(c, k, validSize) == 0
    ensures var d := c.Insert(k, data, validSize);
            d.Tight() && d.Capacity() == c.Capacity() && d.Keys() == LruStep(c.Capacity(), c.Keys(), k)
  {
    MakeRoomKeepsSizes(c);
    if c.chunkSize > c.limit {
      NoCapacity(c);
    } else {
      InsertTight(c, k, data, validSize);
    }
  }

  lemma {:induction false} InsertSound(c: Cache, leaked: nat, uses: seq<Key>, k: Key, data: seq<byte>, validSize: nat)
    requires Sound(c, leaked, uses) && |data| == c.chunkSize
    ensures var d := c.Insert(k, data, validSize);
            Sound(d, leaked + Overwrites(c, k, validSize), if 0 < validSize <= c.chunkSize then uses + [k] else uses)
    ensures leaked + Overwrites(c, k, validSize) == 0 && 0 < validSize <= c.chunkSize ==>
              c.Insert(k, data, validSize).Keys() == LruStep(c.Capacity(), c.Keys(), k)
  {
    InsertValid(c, k, data, validSize, leaked);
    if leaked + Overwrites(c, k, validSize) == 0 && 0 < validSize <= c.chunkSize {
      UsesStep(c.Capacity(), uses, k);
      InsertOrdered(c, k, data, validSize);
    }
  }
}
