/** What the cache is worth: re-reading, and prefetching before reading. */
module Locality {
  import opened Recency
  import opened Storage
  import opened ChunkCache
  import opened CacheDirectory
  import opened ChunkMath
  import opened Coherence
  import PathSelector
  import opened ReadRuntime

  lemma {:induction false} KeyRangeNoDup(file: Path, first: nat, count: nat)
    ensures NoDup(KeyRange(file, first, count))
  {
  }

  /** A cache whose keys were never overwritten holds exactly the most recently used chunks, as
      many as the limit has room for, and its byte counter is exact. */
  lemma {:induction false} TableIsMostRecent(c: Cache, uses: seq<Key>)
    requires Sound(c, 0, uses)
    ensures forall k :: k in c.table <==> k in Take(Recent([], uses), c.limit / c.chunkSize)
    ensures c.used == |c.table| * c.chunkSize
  {
    TightKeys(c);
    FitIsQuotient(c.limit, c.chunkSize);
    LruIsRecentPrefix(c.Capacity(), [], uses);
    TimesIsProduct(|c.table|, c.chunkSize);
  }

  // ---------------------------------------------------------------- re-reading

  lemma {:induction false} SinceLastUseIs(pre: seq<Key>, k: Key, post: seq<Key>)
    requires k !in post
    ensures SinceLastUse(pre + [k] + post, k) == Elements(post)
  {
    var t := pre + [k] + post;
    assert t[|pre|] == k;
    if post == [] {
      assert t[|t| - 1] == k;
    } else {
      var x := post[|post| - 1];
      assert t[..|t| - 1] == pre + [k] + post[..|post| - 1];
      assert post == post[..|post| - 1] + [x];
      SinceLastUseIs(pre, k, post[..|post| - 1]);
    }
  }

  /** Cycling through more keys than fit, the next key is never cached. */
  lemma {:induction false} CycleMisses(cap: nat, uses: seq<Key>, ks: seq<Key>, i: nat)
    requires NoDup(ks) && |ks| > cap && i < |ks|
    ensures ks[i] !in LruRun(cap, [], uses + ks + ks[..i])
  {
    var trace, k := uses + ks + ks[..i], ks[i];
    if cap == 0 {
      EmptyCapacity(trace);
    } else {
      var pre, post := uses + ks[..i], ks[i + 1..] + ks[..i];
      assert trace == pre + [k] + post by {
        assert ks == ks[..i] + [k] + ks[i + 1..];
      }
      forall j | 0 <= j < |post| ensures post[j] != k {
      }
      SinceLastUseIs(pre, k, post);
      RotationNoDup(ks, i);
      CardNoDup(post);
      HitIffReuseDistance(cap, trace, k);
    }
  }

  lemma {:induction false} EmptyCapacity(trace: seq<Key>)
    ensures LruRun(0, [], trace) == []
  {
  }

  lemma {:induction false} RotationNoDup(ks: seq<Key>, i: nat)
    requires NoDup(ks) && i < |ks|
    ensures NoDup(ks[i + 1..] + ks[..i])
  {
    var p := ks[i + 1..] + ks[..i];
    var at := seq(|p|, j requires 0 <= j < |p| => if j < |ks| - i - 1 then i + 1 + j else j - (|ks| - i - 1));
    forall a, b | 0 <= a < b < |p| ensures p[a] != p[b] {
      assert p[a] == ks[at[a]] && p[b] == ks[at[b]] && at[a] != at[b];
    }
  }

  lemma {:induction false} CycleMissesAll(cap: nat, uses: seq<Key>, ks: seq<Key>, i: nat)
    requires NoDup(ks) && |ks| > cap && i <= |ks|
    ensures Missed(cap, LruRun(cap, [], uses + ks), ks[..i]) == ks[..i]
  {
    hide LruRun, NoDup;
    if i > 0 {
      CycleMissesAll(cap, uses, ks, i - 1);
      LruRunConcat(cap, [], uses + ks, ks[..i - 1]);
      CycleMisses(cap, uses, ks, i - 1);
      PrefixStep(ks, i);
    }
  }

  lemma {:induction false} PrefixStep(ks: seq<Key>, i: nat)
    requires 0 < i <= |ks|
    ensures ks[..i][..i - 1] == ks[..i - 1] && ks[..i] == ks[..i - 1] + [ks[i - 1]]
  {
  }

  /** Reading a range twice in a row: if its chunks fit the cache, the second read costs no file
      read and hits once per chunk; if they do not, the second read fetches every chunk again. */
  lemma {:induction false} Reread(cap: nat, uses: seq<Key>, file: Path, offset: nat, size: nat, c: nat, len: nat,
      t: Tally)
    requires c > 0 && size > 0
    ensures var ks := ChunkKeys(file, offset, size, c);
            var again := AfterRead(t, cap, uses + ks, ks, len, c);
            if |ks| <= cap then again == t.(dramHits := t.dramHits + |ks|)
            else again.dramHits == t.dramHits && again.posixReads == t.posixReads + |ks|
  {
    hide AfterRead, LruRun, NoDup, KeyRange, Fit;
    var ks := ChunkKeys(file, offset, size, c);
    KeyRangeNoDup(file, Fit(offset, c), |ks|);
    ReadCostsItsMisses(t, cap, uses + ks, ks, len, c);
    if |ks| <= cap {
      LruRunConcat(cap, [], uses, ks);
      LruRunNoDup(cap, [], uses);
      RepeatHits(cap, LruRun(cap, [], uses), ks);
    } else {
      CycleMissesAll(cap, uses, ks, |ks|);
      assert ks[..|ks|] == ks;
    }
  }

  lemma {:induction false} TableIsRun(c: Cache, uses: seq<Key>)
    requires Sound(c, 0, uses)
    ensures c.Keys() == LruRun(c.Capacity(), [], uses)
    ensures forall k :: k in c.table <==> k in LruRun(c.Capacity(), [], uses)
  {
    TightKeys(c);
  }

  lemma {:induction false} ReadLeavesAllCached(c: Cache, uses: seq<Key>, ks: seq<Key>)
    requires Sound(c, 0, uses + ks) && NoDup(ks) && |ks| <= c.Capacity()
    ensures AllIn(ks, c.table.Keys)
  {
    TableIsRun(c, uses + ks);
    LruRunConcat(c.Capacity(), [], uses, ks);
    LruRunNoDup(c.Capacity(), [], uses);
    DistinctFit(c.Capacity(), LruRun(c.Capacity(), [], uses), ks);
  }

  /** Reading a range twice through the cache: when its chunks fit, the repeat succeeds without the
      device and costs one hit per chunk and no file read; when they do not, a repeat that succeeds
      has fetched every chunk again. */
  method ReadTwice(ctx: Context, path: Path, offset: nat, size: nat, dst: array<byte>, again: array<byte>, target: Target)
    returns (rc: Status, rc2: Status)
    requires ctx.Valid() && 0 < size <= dst.Length && size <= again.Length && dst != again
    modifies ctx`stats, ctx`unserved, ctx.cache, dst, again
    ensures ctx.Valid()
    ensures rc == Ok && PathSelector.CachedOnly(ctx.opt) ==>
              && path in ctx.env.files
              && var ks := ChunkKeys(path, offset, size, ctx.opt.chunkSize);
                 var once := AfterRead(old(ctx.stats).Counters(), ctx.cache.Capacity(), old(ctx.cache.uses), ks,
                                       |ctx.env.files[path]|, ctx.opt.chunkSize);
                 if |ks| <= ctx.cache.Capacity() then
                   rc2 == Ok && again[..size] == dst[..size] &&
                   ctx.stats.Counters() == once.(dramHits := once.dramHits + |ks|)
                 else
                   rc2 == Ok ==> ctx.stats.dramHits == once.dramHits && ctx.stats.posixReads == once.posixReads + |ks|
  {
    hide Sound, Coherent, AllIn, Served, PathSelector.NeverOverwrites, PathSelector.CachedOnly, Filled;
    ghost var uses := ctx.cache.uses;
    ghost var c := ctx.opt.chunkSize;
    ghost var ks := ChunkKeys(path, offset, size, c);
    ghost var served, before, before2 := 0, dst[..], again[..];
    rc, served := ctx.DoRead(path, offset, size, dst, target);
    ghost var once := ctx.stats.Counters();
    ghost var cached := rc == Ok && PathSelector.CachedOnly(ctx.opt);
    if cached {
      KeyRangeNoDup(path, Fit(offset, c), |ks|);
      CachedOnlyIsOrderly(ctx.opt);
      if |ks| <= ctx.cache.Capacity() {
        ReadLeavesAllCached(ctx.cache.View(), uses, ks);
      }
      FilledInFile(ctx.env.files[path], offset, size, before, dst[..], 0);
    }
    rc2, served := ctx.DoRead(path, offset, size, again, target);
    if cached {
      Reread(ctx.cache.Capacity(), uses, path, offset, size, c, |ctx.env.files[path]|, once);
      if rc2 == Ok {
        SameSlice(ctx.env.files[path], offset, size, before, dst[..], before2, again[..]);
      }
    }
  }

  lemma {:induction false} CachedOnlyIsOrderly(opt: PathSelector.Options)
    requires PathSelector.CachedOnly(opt)
    ensures !opt.bypassCache && PathSelector.NeverOverwrites(opt)
  {
  }

  lemma {:induction false} SameSlice(file: File, offset: nat, n: nat, b1: seq<byte>, a1: seq<byte>, b2: seq<byte>,
      a2: seq<byte>)
    requires Filled(file, offset, n, b1, a1, 0) && Filled(file, offset, n, b2, a2, 0)
    ensures a1[..n] == a2[..n]
  {
  }

  /** A range touches last chunk - first chunk + 1 chunks. */
  lemma {:induction false} ChunkKeysCount(file: Path, offset: nat, size: nat, c: nat)
    requires c > 0 && size > 0
    ensures |ChunkKeys(file, offset, size, c)| == (offset + size - 1) / c - offset / c + 1
  {
    FitIsQuotient(offset, c);
    FitIsQuotient(offset + size - 1, c);
  }

  // ---------------------------------------------------------------- prefetching

  /** The file has some of the chunk. */
  predicate Exists(k: Key, len: nat, c: nat) {
    Avail(len, Times(k.chunk, c), c) > 0
  }

  function Existing(ks: seq<Key>, len: nat, c: nat): (r: seq<Key>)
    ensures forall k :: k in r <==> k in ks && Exists(k, len, c)
    ensures |r| <= |ks|
    decreases |ks|
  {
    if ks == [] then []
    else
      var init, k := ks[..|ks| - 1], ks[|ks| - 1];
      assert ks == init + [k];
      Existing(init, len, c) + if Exists(k, len, c) then [k] else []
  }

  /** Prefetching inserts the absent chunks that exist, in order, and refreshes none. A chunk past
      the end of the file costs a read call that brings nothing, and changes nothing else. */
  lemma {:induction false} PrefetchIsFifo(cap: nat, uses: seq<Key>, ks: seq<Key>, len: nat, c: nat)
    requires forall k :: k in ks && !Exists(k, len, c) ==> k !in LruRun(cap, [], uses)
    ensures var run := PrefetchRun(cap, uses, ks, len, c);
            var there := Existing(ks, len, c);
            var admitted := Admitted(cap, LruRun(cap, [], uses), there);
            && LruRun(cap, [], run.uses) == FifoRun(cap, LruRun(cap, [], uses), there)
            && run.fetches == |admitted| + |ks| - |there|
            && run.bytes == FetchBytes(len, c, admitted)
    decreases |ks|
  {
    if ks != [] {
      PrefetchIsFifo(cap, uses, ks[..|ks| - 1], len, c);
      PrefetchOneMore(cap, uses, ks, len, c);
    }
  }

  lemma {:induction false} PrefetchOneMore(cap: nat, uses: seq<Key>, ks: seq<Key>, len: nat, c: nat)
    requires ks != [] && forall k :: k in ks && !Exists(k, len, c) ==> k !in LruRun(cap, [], uses)
    requires var run := PrefetchRun(cap, uses, ks[..|ks| - 1], len, c);
             var there := Existing(ks[..|ks| - 1], len, c);
             var admitted := Admitted(cap, LruRun(cap, [], uses), there);
             && LruRun(cap, [], run.uses) == FifoRun(cap, LruRun(cap, [], uses), there)
             && run.fetches == |admitted| + |ks| - 1 - |there|
             && run.bytes == FetchBytes(len, c, admitted)
    ensures var run := PrefetchRun(cap, uses, ks, len, c);
            var there := Existing(ks, len, c);
            var admitted := Admitted(cap, LruRun(cap, [], uses), there);
            && LruRun(cap, [], run.uses) == FifoRun(cap, LruRun(cap, [], uses), there)
            && run.fetches == |admitted| + |ks| - |there|
            && run.bytes == FetchBytes(len, c, admitted)
  {
    hide LruRun, LruStep, FifoStep;
    var init, k := ks[..|ks| - 1], ks[|ks| - 1];
    var run := PrefetchRun(cap, uses, init, len, c);
    var there := Existing(init, len, c);
    var a := Admitted(cap, LruRun(cap, [], uses), there);
    FifoRunFrom(cap, LruRun(cap, [], uses), there);
    if Exists(k, len, c) {
      assert (there + [k])[..|there|] == there;
      assert (a + [k])[..|a|] == a && a + [] == a;
      UsesStep(cap, run.uses, k);
      if Cached(cap, run.uses, k) {
        PresentStep(cap, LruRun(cap, [], run.uses), k);
      } else {
        AbsentStep(cap, LruRun(cap, [], run.uses), k);
      }
    } else {
      assert there + [] == there;
    }
  }

  lemma {:induction false} FifoRunFrom(cap: nat, keys: seq<Key>, ks: seq<Key>)
    ensures forall k :: k in FifoRun(cap, keys, ks) ==> k in keys || k in ks
  {
    if ks != [] {
      FifoRunFrom(cap, keys, ks[..|ks| - 1]);
    }
  }

  lemma {:induction false} PresentStep(cap: nat, keys: seq<Key>, k: Key)
    requires k in keys
    ensures FifoStep(cap, keys, k) == keys
  {
  }

  lemma {:induction false} AbsentStep(cap: nat, keys: seq<Key>, k: Key)
    requires k !in keys
    ensures LruStep(cap, keys, k) == FifoStep(cap, keys, k)
  {
    WithoutAbsent(keys, k);
  }

  lemma {:induction false} AllExist(ks: seq<Key>, len: nat, c: nat)
    requires forall k :: k in ks ==> Exists(k, len, c)
    ensures Existing(ks, len, c) == ks
  {
    hide Exists;
    if ks != [] {
      var init := ks[..|ks| - 1];
      assert ks == init + [ks[|ks| - 1]];
      AllExist(init, len, c);
    }
  }

  /** Reading distinct chunks is free exactly when all of them are cached. */
  lemma {:induction false} FreeIffAllCached(cap: nat, uses: seq<Key>, ks: seq<Key>, len: nat, c: nat, t: Tally)
    requires NoDup(ks)
    ensures AfterRead(t, cap, uses, ks, len, c).posixReads == t.posixReads <==>
            (forall k :: k in ks ==> k in LruRun(cap, [], uses))
    ensures (forall k :: k in ks ==> k in LruRun(cap, [], uses)) ==>
            AfterRead(t, cap, uses, ks, len, c) == t.(dramHits := t.dramHits + |ks|)
  {
    var s := LruRun(cap, [], uses);
    LruRunNoDup(cap, [], uses);
    ReadCostsItsMisses(t, cap, uses, ks, len, c);
    DistinctMisses(cap, s, ks);
    if forall k :: k in ks ==> k in s {
      AllCachedAllHit(cap, s, ks);
    }
  }

  lemma {:induction false} InFileChunks(file: Path, offset: nat, size: nat, c: nat, len: nat)
    requires c > 0 && size > 0 && offset + size <= len
    ensures Existing(ChunkKeys(file, offset, size, c), len, c) == ChunkKeys(file, offset, size, c)
  {
    forall k | k in ChunkKeys(file, offset, size, c) ensures Exists(k, len, c) {
      FitBounds(offset + size - 1, c);
      TimesMono(k.chunk, Fit(offset + size - 1, c), c);
    }
    AllExist(ChunkKeys(file, offset, size, c), len, c);
  }

  /** After prefetching a range all its chunks are cached exactly when they fit the cache and the
      prefetch pushed out none of them that was already cached when its turn came. */
  lemma {:induction false} PrefetchKeepsRangeIff(cap: nat, uses: seq<Key>, file: Path, offset: nat, size: nat,
      c: nat, len: nat)
    requires c > 0 && size > 0 && offset + size <= len
    ensures var ks := ChunkKeys(file, offset, size, c);
            var keys := LruRun(cap, [], uses);
            var fetched := PrefetchRun(cap, uses, ks, len, c);
            (forall k :: k in ks ==> k in LruRun(cap, [], fetched.uses)) <==>
            |ks| <= cap && (forall i :: 0 <= i < |ks| ==> !PushedOut(cap, keys, ks, i))
  {
    hide PushedOut;
    var ks := ChunkKeys(file, offset, size, c);
    var keys := LruRun(cap, [], uses);
    var end := FifoRun(cap, keys, ks);
    KeyRangeNoDup(file, Fit(offset, c), |ks|);
    InFileChunks(file, offset, size, c, len);
    PrefetchIsFifo(cap, uses, ks, len, c);
    LruRunNoDup(cap, [], uses);
    FifoRunNoDup(cap, keys, ks);
    if |ks| <= cap {
      FifoKeepsAllIff(cap, keys, ks);
    } else if forall k :: k in ks ==> k in end {
      CardNoDup(ks);
      CardNoDup(end);
      SubsetSize(Elements(ks), Elements(end));
    }
  }

  /** In particular when no chunk of the range was cached; the prefetch then reads each chunk once. */
  lemma {:induction false} PrefetchColdRange(cap: nat, uses: seq<Key>, file: Path, offset: nat, size: nat, c: nat,
      len: nat)
    requires c > 0 && size > 0 && offset + size <= len
    requires ChunkCount(offset, size, c) <= cap
    requires forall k :: k in ChunkKeys(file, offset, size, c) ==> !Cached(cap, uses, k)
    ensures var ks := ChunkKeys(file, offset, size, c);
            var fetched := PrefetchRun(cap, uses, ks, len, c);
            fetched.fetches == |ks| && forall k :: k in ks ==> k in LruRun(cap, [], fetched.uses)
  {
    var ks := ChunkKeys(file, offset, size, c);
    KeyRangeNoDup(file, Fit(offset, c), |ks|);
    InFileChunks(file, offset, size, c, len);
    PrefetchIsFifo(cap, uses, ks, len, c);
    LruRunNoDup(cap, [], uses);
    FreshKeysFit(cap, LruRun(cap, [], uses), ks);
  }

  /** The chunks of a range that a prefetch of it leaves cached, told from the cache before it. */
  ghost predicate Kept(cap: nat, keys: seq<Key>, ks: seq<Key>) {
    |ks| <= cap && forall i :: 0 <= i < |ks| ==> !PushedOut(cap, keys, ks, i)
  }

  /** Prefetching a range and reading it, under any options that do not bypass the cache: the read
      is served wholly from DRAM, and then needs no device, exactly when the range fits and the
      prefetch pushed out none of it; in particular when none of it was cached before. */
  method PrefetchThenRead(ctx: Context, path: Path, offset: nat, size: nat, dst: array<byte>, target: Target)
    returns (rc: Status, rc2: Status)
    requires ctx.Valid() && 0 < size <= dst.Length
    requires ctx.InReach(path, offset + size) && (target.Gpu? ==> ctx.cudaAvailable)
    modifies ctx`stats, ctx`unserved, ctx.cache, dst
    ensures ctx.Valid()
    ensures rc == Ok ==>
              var ks := ChunkKeys(path, offset, size, ctx.opt.chunkSize);
              var run := PrefetchRun(ctx.cache.Capacity(), old(ctx.cache.uses), ks, |ctx.env.files[path]|, ctx.opt.chunkSize);
              var fetched := Tally(old(ctx.stats.dramHits), old(ctx.stats.posixReads) + run.fetches,
                                   old(ctx.stats.ssdBytesRead) + run.bytes);
              var kept := Kept(ctx.cache.Capacity(), old(ctx.cache.Keys()), ks);
              && (kept ==> rc2 == Ok && ctx.stats.Counters() == fetched.(dramHits := fetched.dramHits + |ks|))
              && (rc2 == Ok ==> (ctx.stats.dramHits == fetched.dramHits + |ks| <==> kept))
              && (|ks| <= ctx.cache.Capacity() && (forall k :: k in ks ==> k !in old(ctx.cache.table)) ==>
                   kept && run.fetches == |ks|)
  {
    hide Sound, Coherent, AllIn, Served, PathSelector.NeverOverwrites, PathSelector.CachedOnly, Kept, PrefetchRun,
        AfterRead, Filled, KeyRange, LruRun, Fit;
    ghost var uses, c, len := ctx.cache.uses, ctx.opt.chunkSize, |ctx.env.files[path]|;
    ghost var ks, cap, keys := ChunkKeys(path, offset, size, c), ctx.cache.Capacity(), ctx.cache.Keys();
    ghost var table := ctx.cache.table.Keys;
    NotBypassedIsOrderly(ctx.opt);
    TableIsRun(ctx.cache.View(), uses);
    rc := ctx.Prefetch(path, offset, size, Auto, false);
    if rc == Ok {
      TableIsRun(ctx.cache.View(), ctx.cache.uses);
      KeptIsCached(cap, uses, path, offset, size, c, len, ctx.cache.table.Keys, table);
    }
    ghost var served;
    rc2, served := ctx.DoRead(path, offset, size, dst, target);
  }

  lemma {:induction false} NotBypassedIsOrderly(opt: PathSelector.Options)
    requires !opt.bypassCache
    ensures PathSelector.NeverOverwrites(opt)
  {
  }

  lemma {:induction false} KeptIsCached(cap: nat, uses: seq<Key>, file: Path, offset: nat, size: nat, c: nat, len: nat,
                     after: set<Key>, before: set<Key>)
    requires c > 0 && size > 0 && offset + size <= len
    requires var ks := ChunkKeys(file, offset, size, c);
             forall k :: k in after <==> k in LruRun(cap, [], PrefetchRun(cap, uses, ks, len, c).uses)
    requires forall k :: k in before <==> k in LruRun(cap, [], uses)
    ensures var ks := ChunkKeys(file, offset, size, c);
            && (AllIn(ks, after) <==> Kept(cap, LruRun(cap, [], uses), ks))
            && (|ks| <= cap && (forall k :: k in ks ==> k !in before) ==>
                 Kept(cap, LruRun(cap, [], uses), ks) && PrefetchRun(cap, uses, ks, len, c).fetches == |ks|)
  {
    hide PushedOut, PrefetchRun, LruRun;
    var ks := ChunkKeys(file, offset, size, c);
    PrefetchKeepsRangeIff(cap, uses, file, offset, size, c, len);
    if |ks| <= cap && forall k :: k in ks ==> k !in before {
      PrefetchColdRange(cap, uses, file, offset, size, c, len);
    }
  }

  /** Not so when part of the range is cached: with room for two chunks, chunk 0 the colder of the
      two cached, prefetching chunks 0 and 1 skips chunk 0 and then evicts it. */
  lemma {:induction false} PrefetchCanEvictItsOwnRange()
    ensures var uses := [Key(0, 0), Key(0, 9)];
            var ks := KeyRange(0, 0, 2);
            Key(0, 0) !in LruRun(2, [], PrefetchRun(2, uses, ks, 10, 1).uses)
  {
    hide LruRun, FifoRun, PrefetchRun, Existing, Admitted, FetchBytes;
    var a, x, b := Key(0, 0), Key(0, 9), Key(0, 1);
    TwoKeys();
    assert Exists(a, 10, 1) && Exists(b, 10, 1);
    AllExist([a, b], 10, 1);
    PrefetchIsFifo(2, [a, x], [a, b], 10, 1);
    TwoUses(a, x);
    SkipThenEvict(x, a, b);
  }

  lemma {:induction false} TwoKeys()
    ensures KeyRange(0, 0, 2) == [Key(0, 0), Key(0, 1)] && Times(0, 1) == 0 && Times(1, 1) == 1
  {
    KeyRangeNext(0, 0, 0);
    KeyRangeNext(0, 0, 1);
  }

  lemma {:induction false} TwoUses(a: Key, x: Key)
    requires a != x
    ensures LruRun(2, [], [a, x]) == [x, a]
  {
    assert [a, x][..1] == [a] && [a][..0] == [];
    assert LruRun(2, [], [a]) == [a];
    assert Without([a], x) == [a];
  }

  lemma {:induction false} SkipThenEvict(x: Key, a: Key, b: Key)
    requires a != x && b != x && a != b
    ensures FifoRun(2, [x, a], [a, b]) == [b, x]
  {
    assert [a, b][..1] == [a] && [a][..0] == [];
    assert FifoRun(2, [x, a], [a]) == [x, a];
    assert ([b] + [x, a])[..2] == [b, x];
  }
}
