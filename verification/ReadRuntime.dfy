/** The read runtime: do_read_impl and memtier_prefetch over the chunk cache. */
module ReadRuntime {
  import opened Recency
  import opened Storage
  import PathSelector
  import opened ChunkCache
  import opened CacheDirectory
  import opened ChunkMath
  import opened Coherence

  datatype Target = Cpu | Gpu

  /** The bytes the listed chunks of a file contribute when each is fetched once. */
  function FetchBytes(len: nat, c: nat, keys: seq<Key>): nat {
    if keys == [] then 0
    else FetchBytes(len, c, keys[..|keys| - 1]) + Avail(len, Times(keys[|keys| - 1].chunk, c), c)
  }

  datatype PrefetchTarget = Auto | ToDram | ToHbm

  /** The history and the read counters of a prefetch under way. */
  datatype Prefetching = Prefetching(uses: seq<Key>, fetches: nat, bytes: nat)

  /** An absent chunk is read; it is admitted if the file has any of it. */
  function AfterFetch(cap: nat, p: Prefetching, k: Key, len: nat, c: nat): Prefetching {
    if Cached(cap, p.uses, k) then p
    else
      var n := Avail(len, Times(k.chunk, c), c);
      Prefetching(if n > 0 then p.uses + [k] else p.uses, p.fetches + 1, p.bytes + n)
  }

  function PrefetchRun(cap: nat, uses: seq<Key>, ks: seq<Key>, len: nat, c: nat): Prefetching
    decreases |ks|
  {
    if ks == [] then Prefetching(uses, 0, 0)
    else AfterFetch(cap, PrefetchRun(cap, uses, ks[..|ks| - 1], len, c), ks[|ks| - 1], len, c)
  }

  datatype Stats = Stats(
    totalRequests: nat, dramHits: nat, dramMisses: nat, posixReads: nat, gdsReads: nat, gdsFallbacks: nat,
    ssdBytesRead: nat, dramBytesServed: nat, selectedGds: nat, selectedPosix: nat, selectedCache: nat,
    lastSelectedPath: PathSelector.Path, prefetchRequests: nat, prefetchBytes: nat,
    readvRequests: nat, originalRanges: nat, coalescedRanges: nat, coalescedBytes: nat) {

    function Selections(): nat {
      selectedGds + selectedPosix + selectedCache
    }

    function Outcomes(): nat {
      dramHits + dramMisses + gdsReads + gdsFallbacks
    }

    /** Everything but the counters a single read moves. */
    predicate SameElsewhere(s: Stats) {
      && totalRequests == s.totalRequests
      && prefetchRequests == s.prefetchRequests && prefetchBytes == s.prefetchBytes
      && readvRequests == s.readvRequests && originalRanges == s.originalRanges
      && coalescedRanges == s.coalescedRanges && coalescedBytes == s.coalescedBytes
    }

    function Counters(): Tally {
      Tally(dramHits, posixReads, ssdBytesRead)
    }
  }

  /** The paths that ask GDS first. */
  predicate AsksGds(p: PathSelector.Path) {
    p == PathSelector.GdsRead || p == PathSelector.GdsStubFallback
  }

  /** Exactly one selection is counted: GDS paths apart, plain POSIX apart, cache paths apart. */
  ghost predicate SelectedAs(before: Stats, after: Stats, p: PathSelector.Path) {
    && after.selectedGds == before.selectedGds + (if AsksGds(p) then 1 else 0)
    && after.selectedPosix == before.selectedPosix + (if p == PathSelector.PosixRead then 1 else 0)
    && after.Selections() == before.Selections() + 1
    && after == before.(lastSelectedPath := p, selectedGds := after.selectedGds, selectedPosix := after.selectedPosix,
                        selectedCache := after.selectedCache)
  }

  /** The outcome of a delivered piece of need bytes: a hit is served, a miss is one file read of
      fetched bytes, and GDS either reads the piece or falls back to one file read of it. */
  ghost predicate OutcomeOf(before: Stats, after: Stats, p: PathSelector.Path, viaGds: bool, need: nat, fetched: nat) {
    if p == PathSelector.DramHit then
      after == before.(dramHits := before.dramHits + 1, dramBytesServed := before.dramBytesServed + need)
    else if AsksGds(p) && viaGds then
      after == before.(gdsReads := before.gdsReads + 1)
    else if AsksGds(p) then
      after == before.(gdsFallbacks := before.gdsFallbacks + 1, posixReads := before.posixReads + 1,
                       ssdBytesRead := before.ssdBytesRead + need)
    else
      after == before.(dramMisses := before.dramMisses + 1, posixReads := before.posixReads + 1,
                       ssdBytesRead := before.ssdBytesRead + fetched)
  }

  /** A delivered piece: one selection, then one outcome. */
  ghost predicate PieceStats(before: Stats, after: Stats, p: PathSelector.Path, viaGds: bool, need: nat, fetched: nat) {
    var mid := before.(lastSelectedPath := after.lastSelectedPath, selectedGds := after.selectedGds,
                       selectedPosix := after.selectedPosix, selectedCache := after.selectedCache);
    SelectedAs(before, mid, p) && OutcomeOf(mid, after, p, viaGds, need, fetched)
  }

  /** What delivered pieces of a read do to the counters, told from the options: GDS selections are
      GDS reads and fallbacks, the others hits and misses; every miss and fallback is one file read. */
  ghost predicate FlowOk(opt: PathSelector.Options, gdsSound: bool, before: Stats, after: Stats, pieces: nat, bytes: nat) {
    && after.SameElsewhere(before)
    && before.dramHits <= after.dramHits && before.dramMisses <= after.dramMisses
    && before.gdsReads <= after.gdsReads && before.gdsFallbacks <= after.gdsFallbacks
    && before.selectedPosix <= after.selectedPosix && before.selectedCache <= after.selectedCache
    && after.Selections() == before.Selections() + pieces
    && after.selectedGds - before.selectedGds ==
       after.gdsReads - before.gdsReads + after.gdsFallbacks - before.gdsFallbacks
    && after.Outcomes() == before.Outcomes() + pieces
    && after.posixReads - before.posixReads ==
       after.dramMisses - before.dramMisses + after.gdsFallbacks - before.gdsFallbacks
    && (!opt.enableGds ==> after.gdsReads == before.gdsReads)
    && ((!opt.enableGds && !opt.forceGds) || opt.forcePosix || PathSelector.CachedOnly(opt) ==>
          after.selectedGds == before.selectedGds)
    && (opt.forcePosix || PathSelector.CachedOnly(opt) ==> after.selectedPosix == before.selectedPosix)
    && (opt.bypassCache ==> after.dramHits == before.dramHits)
    && (gdsSound && !opt.forceGds &&
        opt.hints * {PathSelector.Streaming, PathSelector.Checkpoint, PathSelector.Sequential} == {} ==>
          after.gdsFallbacks == before.gdsFallbacks)
    && (after.dramHits == before.dramHits + pieces ==> after.dramBytesServed == before.dramBytesServed + bytes)
  }

  /** A read that failed: its delivered pieces, and one more path selected. */
  ghost predicate FailedFlow(opt: PathSelector.Options, gdsSound: bool, before: Stats, after: Stats, bytes: nat) {
    exists mid: Stats, pieces: nat ::
      FlowOk(opt, gdsSound, before, mid, pieces, bytes) && SelectedAs(mid, after, after.lastSelectedPath)
  }

  lemma {:induction false} NoFlow(opt: PathSelector.Options, gdsSound: bool, t: Stats)
    ensures FlowOk(opt, gdsSound, t, t, 0, 0)
  {
  }

  /** Through the cache every piece is a hit or a miss, and a file read is a miss. */
  lemma {:induction false} CachedFlow(opt: PathSelector.Options, gdsSound: bool, a: Stats, b: Stats, n: nat, x: nat)
    requires FlowOk(opt, gdsSound, a, b, n, x) && PathSelector.CachedOnly(opt)
    ensures b.dramHits - a.dramHits + b.dramMisses - a.dramMisses == n == b.selectedCache - a.selectedCache
    ensures b.gdsReads == a.gdsReads && b.gdsFallbacks == a.gdsFallbacks
    ensures b.selectedGds == a.selectedGds && b.selectedPosix == a.selectedPosix
    ensures b.posixReads - a.posixReads == b.dramMisses - a.dramMisses
  {
    hide PathSelector.CachedOnly;
  }

  /** With GDS off nothing is read through it, and unless it is forced nothing is sent to it. */
  lemma {:induction false} NoGdsFlow(opt: PathSelector.Options, gdsSound: bool, a: Stats, b: Stats, n: nat, x: nat)
    requires FlowOk(opt, gdsSound, a, b, n, x) && !opt.enableGds
    ensures b.gdsReads == a.gdsReads
    ensures !opt.forceGds ==> b.gdsFallbacks == a.gdsFallbacks && b.selectedGds == a.selectedGds
    ensures !opt.forceGds ==> b.dramHits - a.dramHits + b.dramMisses - a.dramMisses == n
  {
    hide PathSelector.CachedOnly;
  }

  lemma {:induction false} FlowElsewhere(opt: PathSelector.Options, gdsSound: bool, a: Stats, b: Stats, n: nat, x: nat)
    requires FlowOk(opt, gdsSound, a, b, n, x)
    ensures b.SameElsewhere(a)
    ensures b.Selections() - a.Selections() == b.Outcomes() - a.Outcomes() == n
  {
  }

  lemma {:induction false} FlowThen(opt: PathSelector.Options, gdsSound: bool, a: Stats, b: Stats, c: Stats,
                                    m: nat, n: nat, x: nat, y: nat)
    requires FlowOk(opt, gdsSound, a, b, m, x) && FlowOk(opt, gdsSound, b, c, n, y)
    ensures FlowOk(opt, gdsSound, a, c, m + n, x + y)
  {
  }

  function NoStats(): Stats {
    Stats(0, 0, 0, 0, 0, 0, 0, 0, 0, 0, 0, PathSelector.DramHit, 0, 0, 0, 0, 0, 0)
  }

  /** The counters a read moves. */
  datatype Tally = Tally(dramHits: nat, posixReads: nat, ssdBytesRead: nat)

  /** With the cache always in play, a hit costs no read and a miss reads its chunk once. */
  function AfterPiece(t: Tally, present: bool, len: nat, c: nat, cid: nat): Tally {
    if present then t.(dramHits := t.dramHits + 1)
    else t.(posixReads := t.posixReads + 1, ssdBytesRead := t.ssdBytesRead + Avail(len, Times(cid, c), c))
  }

  /** The counters after reading these keys through a cache of this capacity that has seen these
      uses, one LRU access per key. */
  function AfterRead(t: Tally, cap: nat, uses: seq<Key>, ks: seq<Key>, len: nat, c: nat): Tally
    decreases |ks|
  {
    if ks == [] then t
    else
      var init, k := ks[..|ks| - 1], ks[|ks| - 1];
      AfterPiece(AfterRead(t, cap, uses, init, len, c), Cached(cap, uses + init, k), len, c, k.chunk)
  }

  /** What the caller's buffer, the counters and the cache history were when a read began. */
  datatype Start = Start(buffer: seq<byte>, tally: Tally, uses: seq<Key>, present: set<Key>)

  /** All the chunks are among the cached ones. */
  ghost predicate AllIn(ks: seq<Key>, present: set<Key>) {
    forall k :: k in ks ==> k in present
  }

  predicate Cached(cap: nat, uses: seq<Key>, k: Key) {
    k in LruRun(cap, [], uses)
  }

  /** In closed form: one chunk read per LRU miss, one hit per other access. */
  lemma {:induction false} ReadCostsItsMisses(t: Tally, cap: nat, uses: seq<Key>, ks: seq<Key>, len: nat, c: nat)
    ensures var missed := Missed(cap, LruRun(cap, [], uses), ks);
            var r := AfterRead(t, cap, uses, ks, len, c);
            && r.dramHits + |missed| == t.dramHits + |ks|
            && r.posixReads == t.posixReads + |missed|
            && r.ssdBytesRead == t.ssdBytesRead + FetchBytes(len, c, missed)
  {
    if ks != [] {
      var init, k := ks[..|ks| - 1], ks[|ks| - 1];
      ReadCostsItsMisses(t, cap, uses, init, len, c);
      LruRunConcat(cap, [], uses, init);
      var m := Missed(cap, LruRun(cap, [], uses), init);
      assert (m + [k])[..|m|] == m;
      assert m + [] == m;
    }
  }

  class Context {
    const opt: PathSelector.Options
    const env: Env
    const cudaAvailable: bool
    /** Whether the GDS driver never fails a read it accepts. */
    const gdsSound: bool
    const cache: CacheDirectory

    var stats: Stats

    /** Pieces for which a path was selected but no bytes were delivered. */
    ghost var unserved: nat

    constructor (options: PathSelector.Options, env: Env, cudaAvailable: bool, gdsSound: bool)
      requires options.chunkSize > 0 && options.gdsAlignment > 0
      ensures Valid() && opt == options && this.env == env
      ensures this.cudaAvailable == cudaAvailable && this.gdsSound == gdsSound
      ensures fresh(cache) && |cache.uses| == 0 && cache.leaked == 0
      ensures stats == NoStats() && unserved == 0
    {
      opt, this.env, this.cudaAvailable, this.gdsSound := options, env, cudaAvailable, gdsSound;
      cache := new CacheDirectory(options.chunkSize, options.dramCacheSize);
      stats := NoStats();
      unserved := 0;
      new;
    }

    /** Under these options no insertion of a run of calls ever overwrites a present key. */
    predicate Orderly() {
      PathSelector.NeverOverwrites(opt)
    }

    ghost predicate Valid()
      reads this, cache
    {
      CacheOk() && Balanced()
    }

    lemma {:induction false} PositiveSizes()
      requires Valid()
      ensures opt.chunkSize > 0 && opt.gdsAlignment > 0
    {
    }

    /** The cache keeps its books, agrees with the files, and under orderly options is exactly
        the most recently used chunks. */
    ghost predicate CacheOk()
      reads cache
    {
      && opt.gdsAlignment > 0
      && opt.chunkSize == cache.chunkSize && opt.dramCacheSize == cache.cacheSizeBytes
      && opt.chunkSize > 0
      && cache.Valid()
      && Coherent(env, cache.View())
      && (Orderly() ==> cache.leaked == 0)
    }

    /** Every selected path is accounted for by an outcome or by a failed read. */
    ghost predicate Balanced()
      reads this
    {
      stats.selectedGds + stats.selectedPosix + stats.selectedCache ==
      stats.dramHits + stats.dramMisses + stats.gdsReads + stats.gdsFallbacks + unserved
    }

    /** A lookup: a present key moves to the front and counts as used. */
    method Refresh(key: Key) returns (found: bool, entry: Entry)
      requires CacheOk()
      modifies cache
      ensures CacheOk()
      ensures found <==> key in old(cache.table)
      ensures cache.table.Keys == old(cache.table.Keys)
      ensures found ==> entry.validSize == old(cache.table)[key].entry.validSize
      ensures found ==> entry == cache.table[key].entry && Backed(env, opt.chunkSize, key, entry)
      ensures cache.uses == if found then old(cache.uses) + [key] else old(cache.uses)
    {
      LookupCoherent(env, cache.View(), key);
      ghost var c := cache.View();
      found, entry := cache.Lookup(key);
      assert cache.table.Keys == c.Lookup(key).table.Keys == c.table.Keys;
    }

    /** Admission of a chunk just read from its file; n bytes of it are valid. */
    method AdmitChunk(path: Path, cid: nat, buf: array<byte>, n: nat)
      requires CacheOk() && path in env.files && buf.Length == opt.chunkSize && n <= opt.chunkSize
      requires n > 0 ==> Agrees(buf[..], n, env.files[path], opt.chunkSize, cid)
      requires !opt.bypassCache || !opt.forcePosix || !opt.cacheAdmit ==> Key(path, cid) !in cache.table
      modifies cache
      ensures CacheOk()
      ensures n == 0 ==> cache.View() == old(cache.View())
      ensures cache.uses == if n > 0 then old(cache.uses) + [Key(path, cid)] else old(cache.uses)
    {
      InsertCoherent(env, cache.View(), path, cid, buf[..], n);
      MakeRoomSubset(cache.View());
      SmallNeverOverwrites(cache.View(), cache.leaked, Key(path, cid), n);
      var _ := cache.Insert(Key(path, cid), buf, n);
    }

    method OnSelected(p: PathSelector.Path)
      modifies this`stats
      ensures SelectedAs(old(stats), stats, p)
    {
      stats := stats.(lastSelectedPath := p);
      if p.GdsRead? || p.GdsStubFallback? {
        stats := stats.(selectedGds := stats.selectedGds + 1);
      } else if p.DramHit? || p.PosixReadThenCache? {
        stats := stats.(selectedCache := stats.selectedCache + 1);
      } else {
        stats := stats.(selectedPosix := stats.selectedPosix + 1);
      }
    }

    /** GDS is on, the request meets its alignment, and the file has the bytes. */
    predicate GdsCan(path: Path, offset: nat, size: nat)
      requires opt.gdsAlignment > 0
    {
      && opt.enableGds && offset % opt.gdsAlignment == 0 && size % opt.gdsAlignment == 0
      && path in env.files && offset + size <= |env.files[path]|
    }

    /** The GDS backend: refuses when disabled or misaligned, may fail, and succeeds only on a
        full read. */
    method GdsRead(path: Path, offset: nat, size: nat, dst: array<byte>) returns (rc: Status)
      requires dst.Length == size && opt.gdsAlignment > 0
      modifies dst
      ensures rc == Ok || rc == Unsupported || rc == GdsError
      ensures rc == Unsupported <==> !opt.enableGds
      ensures rc == Ok ==> GdsCan(path, offset, size)
      ensures GdsCan(path, offset, size) && gdsSound ==> rc == Ok
      ensures rc == Ok ==> forall i :: 0 <= i < size ==> dst[i] == env.files[path][offset + i]
    {
      if !opt.enableGds {
        return Unsupported;
      }
      if offset % opt.gdsAlignment != 0 || size % opt.gdsAlignment != 0 {
        return GdsError;
      }
      var works: bool := *;
      if (!works && !gdsSound) || path !in env.files || offset + size > |env.files[path]| {
        return GdsError;
      }
      forall i | 0 <= i < size {
        dst[i] := env.files[path][offset + i];
      }
      return Ok;
    }
  
    /** What one piece does to the caller's buffer: on success exactly its bytes of the file
        arrive, and on a sound device it succeeds exactly when the file has them. */
    ghost predicate Delivered(path: Path, cur: nat, need: nat, rc: Status, before: seq<byte>, after: seq<byte>, at: nat) {
      && (rc == Ok || rc == Io)
      && (rc != Ok ==> after == before)
      && (rc == Ok ==> path in env.files && Filled(env.files[path], cur, need, before, after, at))
      && (env.reliable && path in env.files && cur + need <= |env.files[path]| ==> rc == Ok)
    }

    /** Copies need bytes of a buffer to the caller. */
    method CopyOut(out: array<byte>, at: nat, src: array<byte>, from: nat, need: nat)
      requires at + need <= out.Length && from + need <= src.Length && src != out
      modifies out
      ensures forall i :: 0 <= i < out.Length ==>
                out[i] == if at <= i < at + need then src[from + i - at] else old(out[i])
    {
      forall i | 0 <= i < need {
        out[at + i] := src[from + i];
      }
    }

    /** Reads rsz bytes at roff, refuses unless they cover the piece, and copies the piece out. */
    method FetchPiece(path: Path, roff: nat, rsz: nat, srcOff: nat, need: nat, out: array<byte>, at: nat)
      returns (rc: Status, buf: array<byte>, n: nat)
      requires need > 0 && srcOff + need <= rsz && at + need <= out.Length
      modifies out
      ensures Delivered(path, roff + srcOff, need, rc, old(out[..]), out[..], at)
      ensures fresh(buf) && buf.Length == rsz
      ensures rc == Ok ==> n == Avail(|env.files[path]|, roff, rsz) && n >= srcOff + need
      ensures rc == Ok ==> n > 0 && roff + n <= |env.files[path]|
      ensures rc == Ok ==> forall i :: 0 <= i < n ==> buf[i] == env.files[path][roff + i]
    {
      buf := new byte[rsz];
      rc, n := PreadFull(env, path, roff, rsz, buf);
      if rc != Ok {
        return;
      }
      if n < srcOff + need {
        rc := Io;
        return;
      }
      CopyOut(out, at, buf, srcOff, need);
    }

    /** The GDS path, falling back to a buffered read when GDS refuses. */
    method ServeGds(path: Path, cur: nat, need: nat, out: array<byte>, at: nat) returns (rc: Status, ghost viaGds: bool)
      requires opt.gdsAlignment > 0 && at + need <= out.Length && need > 0
      modifies this`stats, out
      ensures Delivered(path, cur, need, rc, old(out[..]), out[..], at)
      ensures rc == Ok ==> OutcomeOf(old(stats), stats, PathSelector.GdsRead, viaGds, need, 0)
      ensures rc != Ok ==> stats == old(stats)
      ensures viaGds ==> rc == Ok && GdsCan(path, cur, need)
      ensures gdsSound && GdsCan(path, cur, need) ==> viaGds
    {
      var buf := new byte[need];
      viaGds := false;
      rc := GdsRead(path, cur, need, buf);
      if rc == Ok {
        viaGds := true;
        CopyOut(out, at, buf, 0, need);
        stats := stats.(gdsReads := stats.gdsReads + 1);
      } else {
        var n: nat;
        rc, buf, n := FetchPiece(path, cur, need, 0, need, out, at);
        if rc != Ok {
          return;
        }
        stats := stats.(gdsFallbacks := stats.gdsFallbacks + 1, posixReads := stats.posixReads + 1,
                        ssdBytesRead := stats.ssdBytesRead + n);
      }
    }

    /** The buffered path: one piece, or its whole chunk when the chunk is to be cached. */
    method ServePosix(path: Path, cid: nat, inChunk: nat, need: nat, p: PathSelector.Path, out: array<byte>, at: nat)
      returns (rc: Status)
      requires CacheOk() && need > 0 && inChunk + need <= opt.chunkSize && at + need <= out.Length
      requires p.PosixRead? || p.PosixReadThenCache?
      requires p.PosixReadThenCache? ==> Reinserts() || WouldMiss(Key(path, cid), inChunk + need)
      modifies this`stats, cache, out
      ensures CacheOk()
      ensures Delivered(path, Times(cid, opt.chunkSize) + inChunk, need, rc, old(out[..]), out[..], at)
      ensures rc == Ok ==> OutcomeOf(old(stats), stats, p, false, need, Fetched(path, cid, p, need))
      ensures p.PosixRead? ==> cache.View() == old(cache.View())
      ensures rc != Ok ==> stats == old(stats)
      ensures rc == Ok && p.PosixReadThenCache? && opt.cacheAdmit && !Reinserts() ==>
                Key(path, cid) !in old(cache.table) && cache.uses == old(cache.uses) + [Key(path, cid)]
    {
      var roff, rsz, srcOff := Times(cid, opt.chunkSize) + inChunk, need, 0;
      if p.PosixReadThenCache? {
        roff, rsz, srcOff := Times(cid, opt.chunkSize), opt.chunkSize, inChunk;
      }
      var buf: array<byte>, n: nat;
      rc, buf, n := FetchPiece(path, roff, rsz, srcOff, need, out, at);
      if rc != Ok {
        return rc;
      }
      if p.PosixReadThenCache? && opt.cacheAdmit {
        Admissible(path, cid, buf[..], n, inChunk + need);
        AdmitChunk(path, cid, buf, n);
      }
      stats := stats.(dramMisses := stats.dramMisses + 1, posixReads := stats.posixReads + 1,
                      ssdBytesRead := stats.ssdBytesRead + n);
    }

    /** Bytes a piece's buffered read brings: its whole chunk's when it is to be cached. */
    function Fetched(path: Path, cid: nat, p: PathSelector.Path, need: nat): nat {
      if p.PosixReadThenCache? && path in env.files then
        Avail(|env.files[path]|, Times(cid, opt.chunkSize), opt.chunkSize)
      else need
    }

    /** Every read goes to the device and back into the cache, even of a cached chunk. */
    predicate Reinserts() {
      opt.bypassCache && opt.forcePosix
    }

    ghost predicate WouldMiss(key: Key, upTo: nat)
      reads cache
    {
      key in cache.table ==> cache.table[key].entry.validSize < upTo
    }

    lemma {:induction false} Admissible(path: Path, cid: nat, data: seq<byte>, n: nat, upTo: nat)
      requires CacheOk() && path in env.files && 0 < upTo <= n
      requires n == Avail(|env.files[path]|, Times(cid, opt.chunkSize), opt.chunkSize)
      requires n <= |data| && forall i :: 0 <= i < n ==> data[i] == env.files[path][Times(cid, opt.chunkSize) + i]
      ensures Agrees(data, n, env.files[path], opt.chunkSize, cid)
      ensures WouldMiss(Key(path, cid), upTo) ==> Key(path, cid) !in cache.table
    {
      PresentIsWhole(env, cache.View(), path, cid);
    }

    method OnHit(ce: Entry, path: Path, cid: nat, inChunk: nat, need: nat, out: array<byte>, at: nat)
      requires path in env.files && Agrees(ce.data, ce.validSize, env.files[path], opt.chunkSize, cid)
      requires need > 0 && inChunk + need <= ce.validSize && at + need <= out.Length
      modifies this`stats, out
      ensures Delivered(path, Times(cid, opt.chunkSize) + inChunk, need, Ok, old(out[..]), out[..], at)
      ensures OutcomeOf(old(stats), stats, PathSelector.DramHit, false, need, 0)
    {
      forall i | 0 <= i < need {
        out[at + i] := ce.data[inChunk + i];
      }
      stats := stats.(dramHits := stats.dramHits + 1, dramBytesServed := stats.dramBytesServed + need);
    }

    /** Serves a piece along the selected path. */
    method ServeAlong(p: PathSelector.Path, ce: Entry, path: Path, cid: nat, inChunk: nat, need: nat,
        out: array<byte>, at: nat)
      returns (rc: Status, ghost viaGds: bool)
      requires CacheOk() && need > 0 && inChunk + need <= opt.chunkSize && at + need <= out.Length
      requires p.DramHit? ==> path in env.files && inChunk + need <= ce.validSize &&
                              Agrees(ce.data, ce.validSize, env.files[path], opt.chunkSize, cid)
      requires p.PosixReadThenCache? ==> Reinserts() || WouldMiss(Key(path, cid), inChunk + need)
      modifies this`stats, cache, out
      ensures CacheOk()
      ensures Delivered(path, Times(cid, opt.chunkSize) + inChunk, need, rc, old(out[..]), out[..], at)
      ensures rc == Ok ==> OutcomeOf(old(stats), stats, p, viaGds, need, Fetched(path, cid, p, need))
      ensures rc != Ok ==> stats == old(stats)
      ensures viaGds ==> AsksGds(p) && rc == Ok && GdsCan(path, Times(cid, opt.chunkSize) + inChunk, need)
      ensures gdsSound && AsksGds(p) && GdsCan(path, Times(cid, opt.chunkSize) + inChunk, need) ==> viaGds
      ensures p.DramHit? ==> rc == Ok && cache.View() == old(cache.View()) && cache.uses == old(cache.uses)
      ensures AsksGds(p) || p.PosixRead? ==> cache.View() == old(cache.View())
      ensures rc == Ok && p.PosixReadThenCache? && opt.cacheAdmit && !Reinserts() ==>
                Key(path, cid) !in old(cache.table) && cache.uses == old(cache.uses) + [Key(path, cid)]
    {
      viaGds := false;
      if p.DramHit? {
        rc := Ok;
        OnHit(ce, path, cid, inChunk, need, out, at);
      } else if p.GdsRead? || p.GdsStubFallback? {
        rc, viaGds := ServeGds(path, Times(cid, opt.chunkSize) + inChunk, need, out, at);
      } else {
        rc := ServePosix(path, cid, inChunk, need, p, out, at);
      }
    }

    /** The cache may serve this file up to this offset. */
    predicate InReach(path: Path, end: nat) {
      !opt.bypassCache && path in env.files && end <= |env.files[path]|
    }

    lemma {:induction false} PresentCovers(path: Path, cid: nat, upTo: nat)
      requires CacheOk() && upTo <= opt.chunkSize
      ensures InReach(path, Times(cid, opt.chunkSize) + upTo) && Key(path, cid) in cache.table ==>
                upTo <= cache.table[Key(path, cid)].entry.validSize
    {
      if path in env.files {
        PresentIsWhole(env, cache.View(), path, cid);
      }
    }

    /** The cache holds the chunk, up to the given byte of it. */
    predicate Covered(key: Key, upTo: nat, cache: Cache) {
      key in cache.table && upTo <= cache.table[key].entry.validSize
    }

    /** Looks the chunk up and selects a path for the piece. */
    method Choose(path: Path, cid: nat, inChunk: nat, need: nat) returns (p: PathSelector.Path, ce: Entry)
      requires CacheOk() && need > 0 && inChunk + need <= opt.chunkSize
      modifies this`stats, cache
      ensures CacheOk()
      ensures SelectedAs(old(stats), stats, p)
      ensures p == PathSelector.SelectPath(Covered(Key(path, cid), inChunk + need, old(cache.View())),
                                           Times(cid, opt.chunkSize) + inChunk, need, opt)
      ensures p.DramHit? ==> path in env.files && inChunk + need <= ce.validSize &&
                             Agrees(ce.data, ce.validSize, env.files[path], opt.chunkSize, cid)
      ensures p.PosixReadThenCache? ==> Reinserts() || WouldMiss(Key(path, cid), inChunk + need)
      ensures p.DramHit? ==> Key(path, cid) in old(cache.table)
      ensures Key(path, cid) in old(cache.table) && InReach(path, Times(cid, opt.chunkSize) + inChunk + need) ==> p.DramHit?
      ensures cache.uses == if Key(path, cid) in cache.table then old(cache.uses) + [Key(path, cid)] else old(cache.uses)
      ensures PathSelector.CachedOnly(opt) ==> p.DramHit? || p.PosixReadThenCache?
      ensures cache.table.Keys == old(cache.table.Keys)
    {
      hide PathSelector.SelectPath, PathSelector.CachedOnly, Agrees, Coherent, Sound, PathSelector.NeverOverwrites;
      var key := Key(path, cid);
      var found;
      found, ce := Refresh(key);
      PresentCovers(path, cid, inChunk + need);
      var hit := found && inChunk + need <= ce.validSize;
      PathSelector.PathTellsHit(opt, hit, Times(cid, opt.chunkSize) + inChunk, need);
      if PathSelector.CachedOnly(opt) {
        PathSelector.PieceThroughCache(opt, hit, Times(cid, opt.chunkSize) + inChunk, need);
      }
      p := PathSelector.SelectPath(hit, Times(cid, opt.chunkSize) + inChunk, need, opt);
      OnSelected(p);
    }

    /** The path the loop takes for a piece, from the cache it finds. */
    function PathFor(path: Path, cid: nat, inChunk: nat, need: nat, cache: Cache): PathSelector.Path {
      PathSelector.SelectPath(Covered(Key(path, cid), inChunk + need, cache), Times(cid, opt.chunkSize) + inChunk, need, opt)
    }

    /** One turn of the read loop: look up, choose a path, deliver, admit, account. */
    method ServePiece(path: Path, cid: nat, inChunk: nat, need: nat, out: array<byte>, at: nat)
      returns (rc: Status, ghost viaGds: bool)
      requires CacheOk() && need > 0 && inChunk + need <= opt.chunkSize && at + need <= out.Length
      modifies this`stats, cache, out
      ensures CacheOk()
      ensures Delivered(path, Times(cid, opt.chunkSize) + inChunk, need, rc, old(out[..]), out[..], at)
      ensures var p := PathFor(path, cid, inChunk, need, old(cache.View()));
              && (rc == Ok ==> PieceStats(old(stats), stats, p, viaGds, need, Fetched(path, cid, p, need)))
              && (rc != Ok ==> SelectedAs(old(stats), stats, p))
              && (viaGds ==> AsksGds(p) && rc == Ok && GdsCan(path, Times(cid, opt.chunkSize) + inChunk, need))
              && (gdsSound && AsksGds(p) && GdsCan(path, Times(cid, opt.chunkSize) + inChunk, need) ==> viaGds)
      ensures rc == Ok && PathSelector.CachedOnly(opt) ==>
                cache.uses == old(cache.uses) + [Key(path, cid)]
      ensures rc == Ok && PathSelector.CachedOnly(opt) ==>
                stats.Counters() == AfterPiece(old(stats).Counters(), Key(path, cid) in old(cache.table),
                                         |env.files[path]|, opt.chunkSize, cid)
      ensures Key(path, cid) in old(cache.table) && InReach(path, Times(cid, opt.chunkSize) + inChunk + need) ==>
                rc == Ok && cache.table.Keys == old(cache.table.Keys) && cache.uses == old(cache.uses) + [Key(path, cid)] &&
                stats.Counters() == AfterPiece(old(stats).Counters(), true, |env.files[path]|, opt.chunkSize, cid)
      ensures stats.dramHits <= old(stats.dramHits) + if Key(path, cid) in old(cache.table) then 1 else 0
    {
      hide PathSelector.SelectPath, PathSelector.CachedOnly, PathSelector.NeverOverwrites, Agrees, Sound, Coherent, Filled;
      CachedOnlyAdmits();
      var p, ce := Choose(path, cid, inChunk, need);
      rc, viaGds := ServeAlong(p, ce, path, cid, inChunk, need, out, at);
    }

    lemma {:induction false} CachedOnlyAdmits()
      ensures PathSelector.CachedOnly(opt) ==> opt.cacheAdmit && !Reinserts() && Orderly()
    {
    }

    lemma {:induction false} PieceFlow(before: Stats, after: Stats, hit: bool, path: Path, cur: nat, need: nat,
                                       viaGds: bool, fetched: nat)
      requires opt.gdsAlignment > 0 && 0 < need <= opt.chunkSize
      requires var p := PathSelector.SelectPath(hit, cur, need, opt);
               && PieceStats(before, after, p, viaGds, need, fetched)
               && (viaGds ==> AsksGds(p) && GdsCan(path, cur, need))
               && (gdsSound && AsksGds(p) && GdsCan(path, cur, need) ==> viaGds)
      requires path in env.files && cur + need <= |env.files[path]|
      ensures FlowOk(opt, gdsSound, before, after, 1, need)
    {
      hide PathSelector.CachedOnly, PathSelector.SelectPath;
      PathSelector.PathIff(opt, hit, cur, need);
      if PathSelector.CachedOnly(opt) {
        PathSelector.PieceThroughCache(opt, hit, cur, need);
      }
      if PathSelector.SelectPath(hit, cur, need, opt) == PathSelector.GdsRead &&
         opt.hints * {PathSelector.Streaming, PathSelector.Checkpoint, PathSelector.Sequential} == {} {
        PathSelector.NoneOf(opt.hints, PathSelector.Streaming, PathSelector.Checkpoint, PathSelector.Sequential);
        PathSelector.GdsReadIsAligned(opt, hit, cur, need);
      }
    }

    /** The piece and what it does to the counters of the read. */
    method CountPiece(path: Path, cid: nat, inChunk: nat, need: nat, out: array<byte>, at: nat) returns (rc: Status)
      requires CacheOk() && need > 0 && inChunk + need <= opt.chunkSize && at + need <= out.Length
      modifies this`stats, cache, out
      ensures CacheOk()
      ensures Delivered(path, Times(cid, opt.chunkSize) + inChunk, need, rc, old(out[..]), out[..], at)
      ensures rc == Ok ==> FlowOk(opt, gdsSound, old(stats), stats, 1, need)
      ensures rc != Ok ==> SelectedAs(old(stats), stats, stats.lastSelectedPath)
      ensures rc == Ok && PathSelector.CachedOnly(opt) ==>
                cache.uses == old(cache.uses) + [Key(path, cid)] &&
                stats.Counters() == AfterPiece(old(stats).Counters(), Key(path, cid) in old(cache.table),
                                         |env.files[path]|, opt.chunkSize, cid)
      ensures Key(path, cid) in old(cache.table) && InReach(path, Times(cid, opt.chunkSize) + inChunk + need) ==>
                rc == Ok && cache.table.Keys == old(cache.table.Keys) && cache.uses == old(cache.uses) + [Key(path, cid)] &&
                stats.Counters() == AfterPiece(old(stats).Counters(), true, |env.files[path]|, opt.chunkSize, cid)
      ensures stats.dramHits <= old(stats.dramHits) + if Key(path, cid) in old(cache.table) then 1 else 0
    {
      hide Sound, Coherent, FlowOk, PieceStats, PathSelector.SelectPath, PathSelector.CachedOnly, AfterPiece;
      ghost var viaGds;
      ghost var view, before, buffer := cache.View(), stats, out[..];
      rc, viaGds := ServePiece(path, cid, inChunk, need, out, at);
      if rc == Ok {
        FilledInFile(env.files[path], Times(cid, opt.chunkSize) + inChunk, need, buffer, out[..], at);
        PieceFlow(before, stats, Covered(Key(path, cid), inChunk + need, view), path,
                  Times(cid, opt.chunkSize) + inChunk, need, viaGds,
                  Fetched(path, cid, PathFor(path, cid, inChunk, need, view), need));
      }
    }

    /** do_read_impl: a plain read of the file, whatever the cache holds and the options say.
        It succeeds exactly when the range lies in the file (on a sound device), delivers exactly
        the file's bytes, and on an IO error has delivered a correct prefix up to the last chunk
        boundary the file reaches. */
    method DoRead(path: Path, offset: nat, size: nat, dst: array<byte>, target: Target)
      returns (rc: Status, ghost served: nat)
      requires Valid() && size <= dst.Length
      modifies this`unserved, this`stats, cache, dst
      ensures Valid()
      ensures rc == Invalid <==> size == 0
      ensures rc == Unsupported <==> size > 0 && target.Gpu? && !cudaAvailable
      ensures rc == Ok <==> served == size > 0
      ensures rc == Ok || rc == Io || (served == 0 && (rc == Invalid || rc == Unsupported))
      ensures path !in env.files ==> rc != Ok && dst[..] == old(dst[..]) && served == 0
      ensures path in env.files ==> Filled(env.files[path], offset, served, old(dst[..]), dst[..], 0)
      ensures rc == Io && path in env.files && env.reliable ==>
                offset + size > |env.files[path]| &&
                served == Served(offset, size, opt.chunkSize, |env.files[path]|)
      ensures rc == Ok && PathSelector.CachedOnly(opt) ==>
                cache.uses == old(cache.uses) + ChunkKeys(path, offset, size, opt.chunkSize)
      ensures rc == Ok && PathSelector.CachedOnly(opt) ==>
                stats.Counters() == AfterRead(old(stats).Counters(), cache.Capacity(), old(cache.uses),
                                        ChunkKeys(path, offset, size, opt.chunkSize),
                                        |env.files[path]|, opt.chunkSize)
      ensures size > 0 && (target.Gpu? ==> cudaAvailable) && InReach(path, offset + size) &&
              AllIn(ChunkKeys(path, offset, size, opt.chunkSize), old(cache.table.Keys)) ==>
                var ks := ChunkKeys(path, offset, size, opt.chunkSize);
                && rc == Ok && cache.table.Keys == old(cache.table.Keys) && cache.uses == old(cache.uses) + ks
                && stats.Counters() == old(stats).Counters().(dramHits := old(stats.dramHits) + |ks|)
      ensures rc == Ok && !opt.bypassCache ==>
                var ks := ChunkKeys(path, offset, size, opt.chunkSize);
                stats.dramHits == old(stats.dramHits) + |ks| <==> AllIn(ks, old(cache.table.Keys))
      ensures unserved == old(unserved) + if rc == Io then 1 else 0
      ensures stats.totalRequests == old(stats).totalRequests + if rc == Ok then 1 else 0
      ensures rc == Ok ==>
                FlowOk(opt, gdsSound, old(stats), stats.(totalRequests := old(stats).totalRequests),
                       ChunkCount(offset, size, opt.chunkSize), size)
      ensures rc == Io ==> FailedFlow(opt, gdsSound, old(stats), stats, served)
      ensures rc != Ok && rc != Io ==> stats == old(stats)
    {
      hide Sound, Coherent, Filled, Served, Cut, AfterRead, FlowOk, AllIn, Progress, AtCut, FromDram,
        PathSelector.CachedOnly, PathSelector.NeverOverwrites;
      served := 0;
      if path in env.files {
        FilledNone(env.files[path], offset, dst[..]);
      }
      if size == 0 {
        return Invalid, 0;
      }
      if target.Gpu? && !cudaAvailable {
        return Unsupported, 0;
      }
      var copied := 0;
      ghost var i := 0;
      ghost var start := Start(dst[..], stats.Counters(), cache.uses, cache.table.Keys);
      StartProgress(path, offset, size, start);
      NoFlow(opt, gdsSound, stats);
      while copied < size
        invariant Valid() && FlowOk(opt, gdsSound, old(stats), stats, i, copied) && unserved == old(unserved)
        invariant copied <= size && AtCut(offset, size, opt.chunkSize, copied, i)
        invariant Progress(path, offset, start, copied, Fit(offset, opt.chunkSize), i,
                           Start(dst[..], stats.Counters(), cache.uses, cache.table.Keys))
        decreases size - copied
      {
        var turn;
        ghost var mid, before := Start(dst[..], stats.Counters(), cache.uses, cache.table.Keys), stats;
        rc, turn := ReadTurn(path, offset, size, dst, copied, i, start);
        if rc != Ok {
          served := copied;
          FlowElsewhere(opt, gdsSound, old(stats), before, i, copied);
          ProgressBuffer(path, offset, size, start, copied, i, mid);
          if InReach(path, offset + size) {
            SomeAbsent(path, offset, size, start, copied, i, mid);
          }
          return;
        }
        FlowThen(opt, gdsSound, old(stats), before, stats, i, 1, copied, turn);
        copied := copied + turn;
        i := i + 1;
      }
      served := copied;
      FlowElsewhere(opt, gdsSound, old(stats), stats, i, copied);
      EndProgress(path, offset, size, start, i, Start(dst[..], stats.Counters(), cache.uses, cache.table.Keys));
      stats := stats.(totalRequests := stats.totalRequests + 1);
      rc := Ok;
    }

    /** Where a read stands after i pieces: the prefix is in place and accounted for. */
    ghost predicate Progress(path: Path, offset: nat, start: Start, copied: nat, first: nat, i: nat, now: Start) {
      && (i == 0 ==> now.buffer == start.buffer)
      && (i > 0 ==> path in env.files)
      && (path in env.files ==> Filled(env.files[path], offset, copied, start.buffer, now.buffer, 0))
      && (PathSelector.CachedOnly(opt) ==> Accounted(path, start, KeyRange(path, first, i), now))
      && FromDram(start, KeyRange(path, first, i), now)
    }

    /** As long as every piece's chunk was there, all were hits and the table's keys stay; once one
        was not, there are fewer hits than pieces. */
    ghost predicate FromDram(start: Start, ks: seq<Key>, now: Start) {
      !opt.bypassCache ==>
        if AllIn(ks, start.present) then HitAll(start, ks, now)
        else now.tally.dramHits < start.tally.dramHits + |ks|
    }

    ghost predicate HitAll(start: Start, ks: seq<Key>, now: Start) {
      now.present == start.present && now.uses == start.uses + ks &&
      now.tally == start.tally.(dramHits := start.tally.dramHits + |ks|)
    }

    ghost predicate Accounted(path: Path, start: Start, ks: seq<Key>, now: Start) {
      && now.uses == start.uses + ks
      && (path in env.files ==>
           now.tally == AfterRead(start.tally, cache.Capacity(), start.uses, ks, |env.files[path]|, opt.chunkSize))
    }

    lemma {:induction false} StartProgress(path: Path, offset: nat, size: nat, start: Start)
      requires size > 0 && opt.chunkSize > 0
      ensures AtCut(offset, size, opt.chunkSize, 0, 0)
      ensures Progress(path, offset, start, 0, Fit(offset, opt.chunkSize), 0, start)
    {
      assert start.uses + [] == start.uses;
    }

    lemma {:induction false} ProgressInFile(path: Path, offset: nat, start: Start, copied: nat, first: nat, i: nat,
        now: Start)
      requires Progress(path, offset, start, copied, first, i, now) && path in env.files
      ensures copied > 0 ==> offset + copied <= |env.files[path]|
    {
    }

    lemma {:induction false} ProgressBuffer(path: Path, offset: nat, size: nat, start: Start, copied: nat, i: nat,
                                            now: Start)
      requires opt.chunkSize > 0 && size > 0 && AtCut(offset, size, opt.chunkSize, copied, i)
      requires Progress(path, offset, start, copied, Fit(offset, opt.chunkSize), i, now)
      ensures path in env.files ==> Filled(env.files[path], offset, copied, start.buffer, now.buffer, 0)
      ensures path !in env.files ==> copied == 0 && now.buffer == start.buffer
    {
      hide Filled;
    }

    lemma {:induction false} EndProgress(path: Path, offset: nat, size: nat, start: Start, i: nat, now: Start)
      requires opt.chunkSize > 0 && size > 0 && AtCut(offset, size, opt.chunkSize, size, i)
      requires Progress(path, offset, start, size, Fit(offset, opt.chunkSize), i, now)
      ensures i == ChunkCount(offset, size, opt.chunkSize) && path in env.files
      ensures Filled(env.files[path], offset, size, start.buffer, now.buffer, 0)
      ensures var ks := ChunkKeys(path, offset, size, opt.chunkSize);
              && (PathSelector.CachedOnly(opt) ==> Accounted(path, start, ks, now))
              && (!opt.bypassCache ==>
                   (if AllIn(ks, start.present) then HitAll(start, ks, now)
                    else now.tally.dramHits < start.tally.dramHits + |ks|))
    {
      hide Filled, AfterRead, PathSelector.CachedOnly;
    }

    /** What one delivered piece does to hits, keys and history. */
    ghost predicate TurnOf(k: Key, mid: Start, now: Start) {
      && now.tally.dramHits <= mid.tally.dramHits + (if k in mid.present then 1 else 0)
      && (!opt.bypassCache && k in mid.present ==>
           now.present == mid.present && now.uses == mid.uses + [k] &&
           now.tally == mid.tally.(dramHits := mid.tally.dramHits + 1))
    }

    lemma {:induction false} FromDramNext(start: Start, ks: seq<Key>, k: Key, mid: Start, now: Start)
      requires FromDram(start, ks, mid) && TurnOf(k, mid, now)
      ensures FromDram(start, ks + [k], now)
    {
      assert AllIn(ks + [k], start.present) <==> AllIn(ks, start.present) && k in start.present;
    }

    lemma {:induction false} ProgressNext(path: Path, offset: nat, start: Start, copied: nat, first: nat, i: nat,
        mid: Start, now: Start,
                       need: nat)
      requires Progress(path, offset, start, copied, first, i, mid)
      requires path in env.files && Filled(env.files[path], offset + copied, need, mid.buffer, now.buffer, copied)
      requires var k := Key(path, first + i);
               PathSelector.CachedOnly(opt) ==>
                 now.uses == mid.uses + [k] &&
                 now.tally == AfterPiece(mid.tally, Cached(cache.Capacity(), mid.uses, k),
                                         |env.files[path]|, opt.chunkSize, k.chunk)
      requires TurnOf(Key(path, first + i), mid, now)
      ensures Progress(path, offset, start, copied + need, first, i + 1, now)
    {
      hide FromDram, TurnOf, PathSelector.CachedOnly;
      FilledNext(env.files[path], offset, copied, need, start.buffer, mid.buffer, now.buffer);
      KeyRangeNext(path, first, i);
      FromDramNext(start, KeyRange(path, first, i), Key(path, first + i), mid, now);
    }

    /** A chunk of the range that is absent at its turn was absent to begin with. */
    lemma {:induction false} SomeAbsent(path: Path, offset: nat, size: nat, start: Start, copied: nat, i: nat, mid: Start)
      requires opt.chunkSize > 0 && copied < size && AtCut(offset, size, opt.chunkSize, copied, i) && !opt.bypassCache
      requires Progress(path, offset, start, copied, Fit(offset, opt.chunkSize), i, mid)
      requires Key(path, Fit(offset, opt.chunkSize) + i) !in mid.present
      ensures !AllIn(ChunkKeys(path, offset, size, opt.chunkSize), start.present)
    {
      hide Filled, AtCut, Cut, PathSelector.CachedOnly;
      var c := opt.chunkSize;
      var first, ks := Fit(offset, c), ChunkKeys(path, offset, size, c);
      CutNext(offset, size, c, i, copied);
      FitMono(offset + copied, offset + size - 1, c);
      assert ks[i] == Key(path, first + i);
      forall k | k in KeyRange(path, first, i) ensures k in ks {
        assert ks[k.chunk - first] == k;
      }
    }

    /** The body of the read loop. */
    method ReadTurn(path: Path, offset: nat, size: nat, dst: array<byte>, copied: nat, ghost i: nat, ghost start: Start)
      returns (rc: Status, need: nat)
      requires Valid() && copied < size <= dst.Length && AtCut(offset, size, opt.chunkSize, copied, i)
      requires Progress(path, offset, start, copied, Fit(offset, opt.chunkSize), i,
                        Start(dst[..], stats.Counters(), cache.uses, cache.table.Keys))
      modifies this`unserved, this`stats, cache, dst
      ensures Valid()
      ensures unserved == old(unserved) + if rc == Ok then 0 else 1
      ensures rc == Ok || rc == Io
      ensures rc == Ok ==> FlowOk(opt, gdsSound, old(stats), stats, 1, need)
      ensures rc != Ok ==> SelectedAs(old(stats), stats, stats.lastSelectedPath)
      ensures rc != Ok && InReach(path, offset + size) ==>
                Key(path, Fit(offset, opt.chunkSize) + i) !in old(cache.table)
      ensures rc == Ok ==> need > 0 && copied + need <= size && AtCut(offset, size, opt.chunkSize, copied + need, i + 1)
      ensures rc == Ok ==> Progress(path, offset, start, copied + need, Fit(offset, opt.chunkSize), i + 1,
                                    Start(dst[..], stats.Counters(), cache.uses, cache.table.Keys))
      ensures rc != Ok ==> dst[..] == old(dst[..])
      ensures rc != Ok && path in env.files && env.reliable ==>
                offset + size > |env.files[path]| &&
                copied == Served(offset, size, opt.chunkSize, |env.files[path]|)
    {
      hide Sound, Coherent, AtCut, Filled, Served, Progress, FlowOk, PathSelector.CachedOnly, PathSelector.NeverOverwrites;
      var curOff := offset + copied;
      var chunkId, inChunk := Locate(curOff, opt.chunkSize);
      need := Min(opt.chunkSize - inChunk, size - copied);
      CutNext(offset, size, opt.chunkSize, i, copied);
      ghost var mid := Start(dst[..], stats.Counters(), cache.uses, cache.table.Keys);
      StepPresent(Key(path, chunkId));
      CachedOnlyAdmits();
      ghost var before := stats;
      rc := CountPiece(path, chunkId, inChunk, need, dst, copied);
      if rc != Ok {
        unserved := unserved + 1;
        if path in env.files && offset + copied + need > |env.files[path]| {
          ProgressInFile(path, offset, start, copied, Fit(offset, opt.chunkSize), i, mid);
          FailsAtServed(offset, size, opt.chunkSize, |env.files[path]|, copied, i);
        }
        return;
      }
      FilledInFile(env.files[path], curOff, need, mid.buffer, dst[..], copied);
      FlowElsewhere(opt, gdsSound, before, stats, 1, need);
      ProgressNext(path, offset, start, copied, Fit(offset, opt.chunkSize), i, mid,
                   Start(dst[..], stats.Counters(), cache.uses, cache.table.Keys), need);
    }

    /** memtier_prefetch: every chunk of the range not cached at its turn is read and admitted. */
    method Prefetch(path: Path, offset: nat, size: nat, target: PrefetchTarget, async: bool) returns (rc: Status)
      requires Valid()
      modifies this`stats, cache
      ensures Valid()
      ensures rc == Invalid <==> size == 0
      ensures rc == Unsupported <==> size > 0 && (target.ToHbm? || async)
      ensures rc == Ok || rc == Io || rc == Invalid || rc == Unsupported
      ensures rc == Ok ==> path in env.files
      ensures rc == Io && env.reliable ==> path !in env.files
      ensures rc == Ok && Orderly() ==>
                var run := PrefetchRun(cache.Capacity(), old(cache.uses),
                                       ChunkKeys(path, offset, size, opt.chunkSize),
                                       |env.files[path]|, opt.chunkSize);
                && cache.uses == run.uses
                && stats.posixReads == old(stats).posixReads + run.fetches
                && stats.ssdBytesRead == old(stats).ssdBytesRead + run.bytes
                && stats.prefetchBytes == old(stats).prefetchBytes + run.bytes
      ensures stats == old(stats).(posixReads := stats.posixReads, ssdBytesRead := stats.ssdBytesRead,
                                   prefetchBytes := stats.prefetchBytes, prefetchRequests := stats.prefetchRequests)
      ensures stats.prefetchRequests == old(stats).prefetchRequests + if rc == Ok then 1 else 0
    {
      hide Sound, Coherent, AtCut, PathSelector.NeverOverwrites, PrefetchProgress;
      if size == 0 {
        return Invalid;
      }
      if target.ToHbm? || async {
        return Unsupported;
      }
      var done := 0;
      ghost var i, first := 0, Fit(offset, opt.chunkSize);
      ghost var uses0, stats0 := cache.uses, stats;
      StartPrefetch(path, offset, size, uses0, stats0);
      while done < size
        invariant Valid() && OnlyFetches(stats0, stats)
        invariant done <= size && AtCut(offset, size, opt.chunkSize, done, i)
        invariant PrefetchProgress(path, uses0, stats0, first, i, cache.uses, stats)
        decreases size - done
      {
        var cid, inChunk := Locate(offset + done, opt.chunkSize);
        CutNext(offset, size, opt.chunkSize, i, done);
        ghost var u, t := cache.uses, stats;
        rc := PrefetchChunk(path, cid);
        if rc != Ok {
          return;
        }
        PrefetchNext(path, uses0, stats0, first, i, u, t, cache.uses, stats);
        done := done + Min(opt.chunkSize - inChunk, size - done);
        i := i + 1;
      }
      EndPrefetch(path, offset, size, uses0, stats0, i, cache.uses, stats);
      stats := stats.(prefetchRequests := stats.prefetchRequests + 1);
      return Ok;
    }

    lemma {:induction false} StartPrefetch(path: Path, offset: nat, size: nat, u0: seq<Key>, t0: Stats)
      requires opt.chunkSize > 0 && size > 0
      ensures AtCut(offset, size, opt.chunkSize, 0, 0)
      ensures PrefetchProgress(path, u0, t0, Fit(offset, opt.chunkSize), 0, u0, t0)
    {
    }

    lemma {:induction false} EndPrefetch(path: Path, offset: nat, size: nat, u0: seq<Key>, t0: Stats, i: nat,
        u: seq<Key>, t: Stats)
      requires opt.chunkSize > 0 && size > 0 && AtCut(offset, size, opt.chunkSize, size, i)
      requires PrefetchProgress(path, u0, t0, Fit(offset, opt.chunkSize), i, u, t)
      ensures path in env.files
      ensures Orderly() ==> Prefetched(path, u0, t0, ChunkKeys(path, offset, size, opt.chunkSize), u, t)
    {
    }

    ghost predicate PrefetchProgress(path: Path, u0: seq<Key>, t0: Stats, first: nat, i: nat, u: seq<Key>, t: Stats) {
      && (i > 0 ==> path in env.files)
      && (path in env.files && Orderly() ==> Prefetched(path, u0, t0, KeyRange(path, first, i), u, t))
    }

    lemma {:induction false} PrefetchNext(path: Path, u0: seq<Key>, t0: Stats, first: nat, i: nat, u: seq<Key>,
        t: Stats, u': seq<Key>, t': Stats)
      requires PrefetchProgress(path, u0, t0, first, i, u, t) && path in env.files
      requires Orderly() ==> PrefetchStep(u, t, Key(path, first + i), |env.files[path]|, u', t')
      ensures PrefetchProgress(path, u0, t0, first, i + 1, u', t')
    {
      KeyRangeNext(path, first, i);
    }

    /** Nothing moves but the counters of file reads. */
    predicate OnlyFetches(before: Stats, after: Stats) {
      after == before.(posixReads := after.posixReads, ssdBytesRead := after.ssdBytesRead,
                       prefetchBytes := after.prefetchBytes)
    }

    /** One turn of the prefetch loop. */
    method PrefetchChunk(path: Path, cid: nat) returns (rc: Status)
      requires Valid()
      modifies this`stats, cache
      ensures Valid() && OnlyFetches(old(stats), stats)
      ensures rc == Ok || rc == Io
      ensures rc == Ok ==> path in env.files
      ensures rc == Io && env.reliable ==> path !in env.files
      ensures rc == Ok && Orderly() ==>
                PrefetchStep(old(cache.uses), old(stats), Key(path, cid), |env.files[path]|, cache.uses, stats)
    {
      var key := Key(path, cid);
      StepPresent(key);
      var present := cache.Contains(key);
      if present {
        assert Backed(env, opt.chunkSize, key, cache.table[key].entry);
        return Ok;
      }
      var buf := new byte[opt.chunkSize];
      var n;
      rc, n := PreadFull(env, path, Times(cid, opt.chunkSize), opt.chunkSize, buf);
      if rc != Ok {
        return;
      }
      AdmitChunk(path, cid, buf, n);
      stats := stats.(prefetchBytes := stats.prefetchBytes + n, posixReads := stats.posixReads + 1,
                      ssdBytesRead := stats.ssdBytesRead + n);
    }

    /** What one turn of the prefetch loop does to the history and the counters. */
    ghost predicate PrefetchStep(u: seq<Key>, t: Stats, k: Key, len: nat, u': seq<Key>, t': Stats) {
      var before := Prefetching(u, t.posixReads, t.ssdBytesRead);
      var after := AfterFetch(cache.Capacity(), before, k, len, opt.chunkSize);
      && u' == after.uses && t'.posixReads == after.fetches && t'.ssdBytesRead == after.bytes
      && t'.prefetchBytes - t.prefetchBytes == after.bytes - before.bytes
    }

    ghost predicate Prefetched(path: Path, u0: seq<Key>, t0: Stats, ks: seq<Key>, u: seq<Key>, t: Stats)
      requires path in env.files
    {
      var run := PrefetchRun(cache.Capacity(), u0, ks, |env.files[path]|, opt.chunkSize);
      && u == run.uses
      && t.posixReads == t0.posixReads + run.fetches
      && t.ssdBytesRead == t0.ssdBytesRead + run.bytes
      && t.prefetchBytes == t0.prefetchBytes + run.bytes
    }

    lemma {:induction false} StepPresent(key: Key)
      requires CacheOk()
      ensures Orderly() ==> (key in cache.table <==> Cached(cache.Capacity(), cache.uses, key))
    {
      if Orderly() {
        TightKeys(cache.View());
      }
    }
  }

  /** memtier_init: no options mean the defaults, and zero options take theirs, before the context
      is built. */
  method Init(given: PathSelector.Given, env: Env, cudaAvailable: bool, gdsSound: bool) returns (ctx: Context)
    ensures fresh(ctx) && fresh(ctx.cache) && ctx.Valid() && |ctx.cache.uses| == 0 && ctx.cache.leaked == 0
    ensures given.With? ==> PathSelector.WorksWith(given.options, ctx.opt)
    ensures given.NoOptions? ==> PathSelector.WorksByDefault(ctx.opt)
    ensures ctx.env == env && ctx.cudaAvailable == cudaAvailable && ctx.gdsSound == gdsSound
    ensures ctx.stats == NoStats() && ctx.unserved == 0
  {
    var o := PathSelector.Defaults();
    if given.With? {
      o := given.options;
    }
    ctx := new Context(PathSelector.Normalize(o), env, cudaAvailable, gdsSound);
  }
}
