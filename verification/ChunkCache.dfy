/**
 The DRAM chunk cache: a hash table over an LRU list, with byte accounting.
 A list node is a key with an identity; the table keeps the identity of its node (the list
 iterator), so a key that is inserted twice owns two list nodes, as in the program.
 */
module ChunkCache {
  import opened Recency
  import opened Storage

  datatype Key = Key(file: Path, chunk: nat)
  datatype Entry = Entry(data: seq<byte>, validSize: nat, lastAccess: nat, accessCount: nat, pinned: bool)
  datatype TableNode = TableNode(entry: Entry, lruIt: nat)
  datatype ListNode = ListNode(key: Key, id: nat)

  function Erase(lru: seq<ListNode>, id: nat): (r: seq<ListNode>)
    ensures |r| <= |lru|
    ensures forall n :: n in r <==> n in lru && n.id != id
  {
    if lru == [] then []
    else if lru[0].id == id then Erase(lru[1..], id)
    else [lru[0]] + Erase(lru[1..], id)
  }

  function KeysOf(lru: seq<ListNode>): (r: seq<Key>)
    ensures |r| == |lru|
    ensures forall i :: 0 <= i < |lru| ==> r[i] == lru[i].key
  {
    if lru == [] then [] else [lru[0].key] + KeysOf(lru[1..])
  }

  /** Node identities fall strictly along the list, from at most ticks. */
  ghost predicate Descending(lru: seq<ListNode>, ticks: nat) {
    lru == [] || (1 <= lru[0].id <= ticks && Descending(lru[1..], lru[0].id - 1))
  }

  datatype Cache = Cache(chunkSize: nat, limit: nat, used: int, ticks: nat, evictions: nat,
                         lru: seq<ListNode>, table: map<Key, TableNode>) {

    /** Holds after every sequence of operations; leaked counts the insertions that overwrote a
        present key, whose bytes the accounting never gets back. */
    ghost predicate Valid(leaked: nat) {
      Linked() && Books(chunkSize, limit, used, |table|, leaked)
    }

    /** Every table entry is well formed and owns a live list node. */
    ghost predicate Linked() {
      chunkSize > 0 && Descending(lru, ticks) && forall k :: k in table ==> ValidNode(k, table[k])
    }

    ghost predicate ValidNode(k: Key, n: TableNode) {
      && |n.entry.data| == chunkSize
      && 0 < n.entry.validSize <= chunkSize
      && n.entry.lastAccess == n.lruIt
      && ListNode(k, n.lruIt) in lru
    }

    /** Every list node is the live node of its key: no insertion overwrote a present key. */
    ghost predicate Tight() {
      forall n :: n in lru ==> Owned(n)
    }

    /** A list node is the one its key's table entry points to. */
    ghost predicate Owned(n: ListNode) {
      n.key in table && table[n.key].lruIt == n.id
    }

    function Keys(): seq<Key> {
      KeysOf(lru)
    }

    function Capacity(): nat {
      Fit(limit, chunkSize)
    }

    function Touch(k: Key): Cache
      requires k in table
    {
      var t := ticks + 1;
      var e := table[k].entry;
      this.(ticks := t,
            lru := [ListNode(k, t)] + Erase(lru, table[k].lruIt),
            table := table[k := TableNode(e.(lastAccess := t, accessCount := e.accessCount + 1), t)])
    }

    /** The state after a lookup. */
    function Lookup(k: Key): Cache {
      if k in table then Touch(k) else this
    }

    function PopVictim(): Cache
      requires lru != []
    {
      var victim := lru[|lru| - 1].key;
      var c := this.(lru := lru[..|lru| - 1]);
      if victim in table then
        c.(used := used - |table[victim].entry.data|, table := table - {victim}, evictions := evictions + 1)
      else c
    }

    function MakeRoom(): Cache
      decreases |lru|
    {
      if used + chunkSize > limit && lru != [] then PopVictim().MakeRoom() else this
    }

    predicate Accepts(validSize: nat) {
      0 < validSize <= chunkSize && chunkSize <= limit && limit != 0
    }

    function Admit(k: Key, data: seq<byte>, validSize: nat): Cache {
      var t := ticks + 1;
      this.(ticks := t, used := used + |data|, lru := [ListNode(k, t)] + lru,
            table := table[k := TableNode(Entry(data, validSize, t, 1, false), t)])
    }

    /** The state after an insertion. */
    function Insert(k: Key, data: seq<byte>, validSize: nat): Cache {
      if Accepts(validSize) then MakeRoom().Admit(k, data, validSize) else this
    }
  }

  function EmptyCache(chunkSize: nat, limit: nat): Cache {
    Cache(chunkSize, limit, 0, 0, 0, [], map[])
  }

  // ---------------------------------------------------------------- any sequence of operations

  lemma {:induction false} DescendingWeaken(lru: seq<ListNode>, t: nat, u: nat)
    requires Descending(lru, t) && t <= u
    ensures Descending(lru, u)
  {
  }

  lemma {:induction false} DescendingPair(lru: seq<ListNode>, ticks: nat, i: nat, j: nat)
    requires Descending(lru, ticks) && i < j < |lru|
    ensures lru[i].id > lru[j].id
  {
    if i > 0 {
      DescendingPair(lru[1..], lru[0].id - 1, i - 1, j - 1);
    } else {
      DescendingBelow(lru[1..], lru[0].id - 1, j - 1);
    }
  }

  lemma {:induction false} DescendingBelow(lru: seq<ListNode>, ticks: nat, j: nat)
    requires Descending(lru, ticks) && j < |lru|
    ensures lru[j].id <= ticks
  {
    if j > 0 {
      DescendingBelow(lru[1..], lru[0].id - 1, j - 1);
    }
  }

  lemma {:induction false} EraseDescending(lru: seq<ListNode>, id: nat, ticks: nat)
    requires Descending(lru, ticks)
    ensures Descending(Erase(lru, id), ticks)
  {
    if lru != [] {
      EraseDescending(lru[1..], id, lru[0].id - 1);
      if lru[0].id == id {
        DescendingWeaken(Erase(lru[1..], id), lru[0].id - 1, ticks);
      } else {
        assert ([lru[0]] + Erase(lru[1..], id))[1..] == Erase(lru[1..], id);
      }
    }
  }

  lemma {:induction false} PrefixDescending(lru: seq<ListNode>, ticks: nat, n: nat)
    requires Descending(lru, ticks) && n <= |lru|
    ensures Descending(lru[..n], ticks)
  {
    if n > 0 {
      PrefixDescending(lru[1..], lru[0].id - 1, n - 1);
      assert lru[..n][1..] == lru[1..][..n - 1];
    }
  }

  lemma {:induction false} FrontDescending(lru: seq<ListNode>, ticks: nat, k: Key)
    requires Descending(lru, ticks)
    ensures Descending([ListNode(k, ticks + 1)] + lru, ticks + 1)
  {
    assert ([ListNode(k, ticks + 1)] + lru)[1..] == lru;
  }

  /** What the byte counter means when n chunks are held. */
  ghost predicate Books(chunk: nat, limit: nat, used: int, n: nat, leaked: nat) {
    && used == Times(n + leaked, chunk)
    && (used <= limit || n <= 1)
    && Times(n, chunk) <= limit
  }

  lemma {:induction false} BooksAdd(chunk: nat, limit: nat, used: int, n: nat, leaked: nat, present: bool)
    requires Books(chunk, limit, used, n, leaked) && chunk <= limit
    requires used + chunk <= limit || n == 0
    requires present ==> n > 0
    ensures Books(chunk, limit, used + chunk, if present then n else n + 1, if present then leaked + 1 else leaked)
  {
    TimesMono(n, n + leaked, chunk);
  }

  lemma {:induction false} TouchLinked(c: Cache, k: Key)
    requires c.Linked() && k in c.table
    ensures c.Touch(k).Linked() && |c.Touch(k).table| == |c.table|
  {
    var d := c.Touch(k);
    EraseDescending(c.lru, c.table[k].lruIt, c.ticks);
    FrontDescending(Erase(c.lru, c.table[k].lruIt), c.ticks, k);
    assert d.table.Keys == c.table.Keys;
    assert |d.table| == |d.table.Keys| == |c.table.Keys| == |c.table|;
    assert d.lru[0] == ListNode(k, d.ticks);
    forall x | x in d.table ensures d.ValidNode(x, d.table[x]) {
      assert c.ValidNode(x, c.table[x]) && c.ValidNode(k, c.table[k]);
      if x != k {
        DifferentNodes(c, x, k);
        assert ListNode(x, c.table[x].lruIt) in d.lru[1..];
      }
    }
  }

  lemma {:induction false} DifferentNodes(c: Cache, x: Key, y: Key)
    requires Descending(c.lru, c.ticks) && x != y && x in c.table && y in c.table
    requires c.ValidNode(x, c.table[x]) && c.ValidNode(y, c.table[y])
    ensures c.table[x].lruIt != c.table[y].lruIt
  {
    var i :| 0 <= i < |c.lru| && c.lru[i] == ListNode(x, c.table[x].lruIt);
    var j :| 0 <= j < |c.lru| && c.lru[j] == ListNode(y, c.table[y].lruIt);
    if i < j {
      DescendingPair(c.lru, c.ticks, i, j);
    } else {
      DescendingPair(c.lru, c.ticks, j, i);
    }
  }

  lemma {:induction false} PopVictimLinked(c: Cache)
    requires c.Linked() && c.lru != []
    ensures c.PopVictim().Linked()
  {
    PrefixDescending(c.lru, c.ticks, |c.lru| - 1);
    var d := c.PopVictim();
    forall x | x in d.table ensures d.ValidNode(x, d.table[x]) {
      assert c.ValidNode(x, c.table[x]);
      var i :| 0 <= i < |c.lru| && c.lru[i] == ListNode(x, c.table[x].lruIt);
      assert i < |d.lru| && d.lru[i] == c.lru[i];
    }
  }

  lemma {:induction false} PopVictimBooks(c: Cache, leaked: nat)
    requires c.Valid(leaked) && c.lru != []
    ensures var d := c.PopVictim(); Books(d.chunkSize, d.limit, d.used, |d.table|, leaked)
  {
    hide Descending, Fit;
    var d := c.PopVictim();
    var victim := c.lru[|c.lru| - 1].key;
    if victim in c.table {
      assert c.ValidNode(victim, c.table[victim]);
      assert d.table.Keys == c.table.Keys - {victim};
      assert |d.table| == |d.table.Keys| == |c.table.Keys| - 1 == |c.table| - 1;
    }
  }

  lemma {:induction false} NoListNoTable(c: Cache)
    requires c.Linked() && c.lru == []
    ensures |c.table| == 0
  {
    forall k | k in c.table ensures false {
    }
  }

  lemma {:induction false} MakeRoomValid(c: Cache, leaked: nat)
    requires c.Valid(leaked)
    ensures var d := c.MakeRoom();
            && d.Valid(leaked) && d.ticks == c.ticks && d.chunkSize == c.chunkSize && d.limit == c.limit
            && (d.used + d.chunkSize <= d.limit || |d.table| == 0)
    decreases |c.lru|
  {
    if c.used + c.chunkSize > c.limit {
      if c.lru != [] {
        var d := c.PopVictim();
        PopVictimLinked(c);
        PopVictimBooks(c, leaked);
        MakeRoomValid(d, leaked);
      } else {
        NoListNoTable(c);
      }
    }
  }

  lemma {:induction false} MakeRoomSubset(cache: Cache)
    ensures forall k :: k in cache.MakeRoom().table ==>
              k in cache.table && cache.MakeRoom().table[k] == cache.table[k]
    decreases |cache.lru|
  {
    if cache.used + cache.chunkSize > cache.limit && cache.lru != [] {
      MakeRoomSubset(cache.PopVictim());
    }
  }

  lemma {:induction false} AdmitLinked(m: Cache, k: Key, data: seq<byte>, validSize: nat)
    requires m.Linked() && |data| == m.chunkSize && 0 < validSize <= m.chunkSize
    ensures var d := m.Admit(k, data, validSize);
            d.Linked() && |d.table| == if k in m.table then |m.table| else |m.table| + 1
  {
    var d := m.Admit(k, data, validSize);
    FrontDescending(m.lru, m.ticks, k);
    assert d.table.Keys == m.table.Keys + {k};
    assert |d.table| == |d.table.Keys| && |m.table| == |m.table.Keys|;
    assert d.lru[0] == ListNode(k, d.ticks);
    forall x | x in d.table ensures d.ValidNode(x, d.table[x]) {
      if x != k {
        assert m.ValidNode(x, m.table[x]);
        assert ListNode(x, m.table[x].lruIt) in d.lru[1..];
      }
    }
  }

  lemma {:induction false} AdmitBooks(m: Cache, k: Key, data: seq<byte>, validSize: nat, leaked: nat)
    requires m.Valid(leaked) && |data| == m.chunkSize && 0 < validSize <= m.chunkSize <= m.limit
    requires m.used + m.chunkSize <= m.limit || |m.table| == 0
    ensures var d := m.Admit(k, data, validSize);
            Books(d.chunkSize, d.limit, d.used, |d.table|, if k in m.table then leaked + 1 else leaked)
  {
    AdmitLinked(m, k, data, validSize);
    var n := |m.table|;
    if k in m.table {
      assert n == |m.table.Keys| && m.table.Keys != {};
    }
    BooksAdd(m.chunkSize, m.limit, m.used, n, leaked, k in m.table);
  }

  lemma {:induction false} AdmitValid(m: Cache, k: Key, data: seq<byte>, validSize: nat, leaked: nat)
    requires m.Valid(leaked) && |data| == m.chunkSize && 0 < validSize <= m.chunkSize <= m.limit
    requires m.used + m.chunkSize <= m.limit || |m.table| == 0
    ensures m.Admit(k, data, validSize).Valid(if k in m.table then leaked + 1 else leaked)
  {
    AdmitLinked(m, k, data, validSize);
    AdmitBooks(m, k, data, validSize, leaked);
  }

  /** Insertion keeps the accounting, and leaks one chunk exactly when the key survived the
      evictions that made room. */
  lemma {:induction false} InsertValid(c: Cache, k: Key, data: seq<byte>, validSize: nat, leaked: nat)
    requires c.Valid(leaked) && |data| == c.chunkSize
    ensures c.Insert(k, data, validSize).Valid(leaked + Overwrites(c, k, validSize))
  {
    hide Cache.Linked, Books, Cache.MakeRoom, Cache.Admit;
    if c.Accepts(validSize) {
      MakeRoomValid(c, leaked);
      AdmitValid(c.MakeRoom(), k, data, validSize, leaked);
    }
  }

  /** 1 when an insertion lands on a key that is still present once room is made. */
  function Overwrites(c: Cache, k: Key, validSize: nat): nat {
    if c.Accepts(validSize) && k in c.MakeRoom().table then 1 else 0
  }

  /** With room for one chunk only, the old copy is always evicted before the new one comes in. */
  lemma {:induction false} SmallNeverOverwrites(c: Cache, leaked: nat, k: Key, validSize: nat)
    requires c.Valid(leaked)
    ensures c.limit < c.chunkSize + c.chunkSize ==> Overwrites(c, k, validSize) == 0
  {
    MakeRoomValid(c, leaked);
    var d := c.MakeRoom();
    if d.used + d.chunkSize <= d.limit < d.chunkSize + d.chunkSize {
      NothingHeld(d.chunkSize, d.limit, d.used, |d.table|, leaked);
    }
    assert c.limit < c.chunkSize + c.chunkSize ==> |d.table| == 0;
  }

  lemma {:induction false} NothingHeld(chunk: nat, limit: nat, used: int, n: nat, leaked: nat)
    requires Books(chunk, limit, used, n, leaked) && used < chunk
    ensures n == 0
  {
    TimesMono(Min(1, n + leaked), n + leaked, chunk);
  }

  datatype Op = OpLookup(k: Key) | OpContains(k: Key) | OpInsert(k: Key, data: seq<byte>, validSize: nat)

  ghost predicate WellSized(chunkSize: nat, ops: seq<Op>) {
    forall i :: 0 <= i < |ops| && ops[i].OpInsert? ==> |ops[i].data| == chunkSize
  }

  function Apply(c: Cache, op: Op): Cache {
    match op
    case OpLookup(k) => c.Lookup(k)
    case OpContains(_) => c
    case OpInsert(k, data, validSize) => c.Insert(k, data, validSize)
  }

  function Leaks(c: Cache, op: Op): nat {
    if op.OpInsert? then Overwrites(c, op.k, op.validSize) else 0
  }

  /** A cache and the number of insertions so far that overwrote a present key. */
  datatype Ledger = Ledger(cache: Cache, leaked: nat) {
    ghost predicate Sound(chunkSize: nat, limit: nat) {
      cache.chunkSize == chunkSize && cache.limit == limit && cache.Valid(leaked)
    }

    function Then(op: Op): Ledger {
      Ledger(Apply(cache, op), leaked + Leaks(cache, op))
    }
  }

  function RunOps(start: Ledger, ops: seq<Op>): Ledger
    decreases |ops|
  {
    if ops == [] then start else RunOps(start, ops[..|ops| - 1]).Then(ops[|ops| - 1])
  }

  lemma {:induction false} ApplyKeepsSizes(c: Cache, op: Op)
    ensures Apply(c, op).chunkSize == c.chunkSize && Apply(c, op).limit == c.limit
  {
    MakeRoomKeepsSizes(c);
  }

  lemma {:induction false} MakeRoomKeepsSizes(c: Cache)
    ensures c.MakeRoom().chunkSize == c.chunkSize && c.MakeRoom().limit == c.limit
    decreases |c.lru|
  {
    if c.used + c.chunkSize > c.limit && c.lru != [] {
      MakeRoomKeepsSizes(c.PopVictim());
    }
  }

  lemma {:induction false} ApplyValid(c: Cache, op: Op, leaked: nat)
    requires c.Valid(leaked) && (op.OpInsert? ==> |op.data| == c.chunkSize)
    ensures Apply(c, op).Valid(leaked + Leaks(c, op))
  {
    hide Cache.Linked, Cache.MakeRoom, Cache.Admit, Descending, Overwrites;
    match op
    case OpLookup(k) => if k in c.table { TouchLinked(c, k); }
    case OpContains(_) =>
    case OpInsert(k, data, validSize) => InsertValid(c, k, data, validSize, leaked);
  }

  /** After any operations at all, the bytes really held stay within the limit, and the
      accounting equals them plus one chunk per overwriting insertion. */
  lemma {:induction false} BytesBounded(chunkSize: nat, limit: nat, ops: seq<Op>)
    requires chunkSize > 0 && WellSized(chunkSize, ops)
    ensures var end := RunOps(Ledger(EmptyCache(chunkSize, limit), 0), ops);
            && |end.cache.table| * chunkSize <= limit
            && end.cache.used == (|end.cache.table| + end.leaked) * chunkSize
  {
    RunSound(chunkSize, limit, ops);
    var end := RunOps(Ledger(EmptyCache(chunkSize, limit), 0), ops);
    TimesIsProduct(|end.cache.table|, chunkSize);
    TimesIsProduct(|end.cache.table| + end.leaked, chunkSize);
  }

  lemma {:induction false} ThenSound(l: Ledger, op: Op, chunkSize: nat, limit: nat)
    requires l.Sound(chunkSize, limit) && (op.OpInsert? ==> |op.data| == chunkSize)
    ensures l.Then(op).Sound(chunkSize, limit)
  {
    ApplyKeepsSizes(l.cache, op);
    ApplyValid(l.cache, op, l.leaked);
  }

  lemma {:induction false} RunSound(chunkSize: nat, limit: nat, ops: seq<Op>)
    requires chunkSize > 0 && WellSized(chunkSize, ops)
    ensures RunOps(Ledger(EmptyCache(chunkSize, limit), 0), ops).Sound(chunkSize, limit)
  {
    if ops != [] {
      var init := ops[..|ops| - 1];
      RunSound(chunkSize, limit, init);
      ThenSound(RunOps(Ledger(EmptyCache(chunkSize, limit), 0), init), ops[|ops| - 1], chunkSize, limit);
    }
  }

  /** Each overwriting insertion costs one chunk of capacity for good, down to a single chunk. */
  lemma {:induction false} LeakShrinksCapacity(c: Cache, leaked: nat)
    requires c.Valid(leaked)
    ensures |c.table| + leaked <= c.limit / c.chunkSize || |c.table| <= 1
  {
    if c.used <= c.limit {
      TimesFit(|c.table| + leaked, c.chunkSize, c.limit);
      FitIsQuotient(c.limit, c.chunkSize);
    }
  }
}
