/** Options of the read runtime and the decision table the read loop branches on. */
module PathSelector {

  datatype Hint = Reuse | SmallIo | RandomAccess | Streaming | Checkpoint | Sequential | LatencySensitive
  datatype Path = DramHit | PosixRead | PosixReadThenCache | GdsRead | GdsStubFallback

  datatype Options = Options(
    chunkSize: nat, dramCacheSize: nat, enableDramCache: bool, cacheAdmit: bool, bypassCache: bool,
    forceGds: bool, forcePosix: bool, enableGds: bool, gdsMinSize: nat, gdsAlignment: nat,
    hints: set<Hint>, numWorkers: int, coalesceGap: nat, maxCoalesceSize: nat)

  /** What the caller hands to the initialiser. */
  datatype Given = NoOptions | With(options: Options)

  /** Used when the caller gives none: cache and admission on, nothing bypassed or forced, no GDS. */
  function Defaults(): Options {
    Options(1048576, 67108864, true, true, false, false, false, false, 1048576, 4096, {}, 4, 65536, 1048576)
  }

  /** Zero sizes take their defaults when a context is created. */
  function Normalize(o: Options): Options {
    Options(if o.chunkSize == 0 then 1048576 else o.chunkSize,
            if o.dramCacheSize == 0 then 67108864 else o.dramCacheSize,
            o.enableDramCache, o.cacheAdmit, o.bypassCache, o.forceGds, o.forcePosix, o.enableGds,
            if o.gdsMinSize == 0 then 1048576 else o.gdsMinSize,
            if o.gdsAlignment == 0 then 4096 else o.gdsAlignment,
            o.hints,
            if o.numWorkers <= 0 then 4 else o.numWorkers,
            if o.coalesceGap == 0 then 65536 else o.coalesceGap,
            if o.maxCoalesceSize == 0 then 1048576 else o.maxCoalesceSize)
  }

  /** A size that was given is kept; one that was not takes the number. */
  predicate Chosen(given: nat, got: nat, number: nat) {
    (given != 0 ==> got == given) && (given == 0 ==> got == number)
  }

  /** What a context works with, in terms of what the caller gave it. */
  predicate WorksWith(given: Options, got: Options) {
    && (got.enableDramCache <==> given.enableDramCache) && (got.cacheAdmit <==> given.cacheAdmit)
    && (got.bypassCache <==> given.bypassCache) && (got.forcePosix <==> given.forcePosix)
    && (got.forceGds <==> given.forceGds) && (got.enableGds <==> given.enableGds)
    && got.hints == given.hints
    && Chosen(given.chunkSize, got.chunkSize, 0x10_0000)
    && Chosen(given.dramCacheSize, got.dramCacheSize, 0x400_0000)
    && Chosen(given.gdsMinSize, got.gdsMinSize, 0x10_0000)
    && Chosen(given.gdsAlignment, got.gdsAlignment, 0x1000)
    && Chosen(given.coalesceGap, got.coalesceGap, 0x1_0000)
    && Chosen(given.maxCoalesceSize, got.maxCoalesceSize, 0x10_0000)
    && (given.numWorkers > 0 ==> got.numWorkers == given.numWorkers) && (given.numWorkers <= 0 ==> got.numWorkers == 4)
  }

  /** What a context works with when the caller gives nothing: every read goes through the cache. */
  predicate WorksByDefault(got: Options) {
    && CachedOnly(got) && !got.forcePosix && !got.forceGds && !got.enableGds && got.enableDramCache && got.hints == {}
    && got.chunkSize == 0x10_0000 && got.dramCacheSize == 0x400_0000
    && got.gdsMinSize == 0x10_0000 && got.gdsAlignment == 0x1000
    && got.coalesceGap == 0x1_0000 && got.maxCoalesceSize == 0x10_0000 && got.numWorkers == 4
  }

  predicate IsRequestGdsSuitable(offset: nat, size: nat, opt: Options) {
    if size < opt.gdsMinSize then false
    else if opt.gdsAlignment == 0 then false
    else if offset % opt.gdsAlignment != 0 || size % opt.gdsAlignment != 0 then false
    else opt.hints * {Reuse, SmallIo, RandomAccess} == {}
  }

  function SelectPath(dramHitCandidate: bool, offset: nat, size: nat, opt: Options): Path {
    if dramHitCandidate && !opt.bypassCache then DramHit
    else if opt.forcePosix then PosixReadThenCache
    else
      var gdsSuitable := IsRequestGdsSuitable(offset, size, opt) ||
                         opt.hints * {Streaming, Checkpoint, Sequential} != {};
      if opt.forceGds then
        if opt.enableGds && gdsSuitable then GdsRead else GdsStubFallback
      else if opt.enableGds && gdsSuitable then GdsRead
      else if opt.bypassCache || !opt.enableDramCache then PosixRead
      else PosixReadThenCache
  }

  /** GDS is on, and takes the request for its hints or for its size and place. */
  predicate GdsTakes(opt: Options, offset: nat, size: nat) {
    opt.enableGds &&
    (Streaming in opt.hints || Checkpoint in opt.hints || Sequential in opt.hints ||
     (size >= opt.gdsMinSize && opt.gdsAlignment > 0 &&
      offset % opt.gdsAlignment == 0 && size % opt.gdsAlignment == 0 &&
      Reuse !in opt.hints && SmallIo !in opt.hints && RandomAccess !in opt.hints))
  }

  /** When each path is taken, in terms of the request and the options. */
  lemma {:induction false} PathIff(opt: Options, hit: bool, offset: nat, size: nat)
    ensures var p := SelectPath(hit, offset, size, opt);
            var served := hit && !opt.bypassCache;
            && (p == DramHit <==> served)
            && (p == GdsRead <==> !served && !opt.forcePosix && GdsTakes(opt, offset, size))
            && (p == GdsStubFallback <==> !served && !opt.forcePosix && opt.forceGds && !GdsTakes(opt, offset, size))
            && (p == PosixRead <==> !served && !opt.forcePosix && !opt.forceGds && !GdsTakes(opt, offset, size) &&
                                    (opt.bypassCache || !opt.enableDramCache))
            && (p == PosixReadThenCache <==>
                  !served && (opt.forcePosix || (!opt.forceGds && !GdsTakes(opt, offset, size) &&
                                                 !opt.bypassCache && opt.enableDramCache)))
  {
    NoneOf(opt.hints, Streaming, Checkpoint, Sequential);
    NoneOf(opt.hints, Reuse, SmallIo, RandomAccess);
  }

  lemma {:induction false} NoneOf(hints: set<Hint>, a: Hint, b: Hint, c: Hint)
    ensures hints * {a, b, c} == {} <==> a !in hints && b !in hints && c !in hints
  {
    var both := hints * {a, b, c};
    assert (a in both <==> a in hints) && (b in both <==> b in hints) && (c in both <==> c in hints);
    if a !in hints && b !in hints && c !in hints {
      assert forall h :: h !in both;
    }
  }

  /** Without hints that override it, the selector sends to GDS only what the backend's own tests of
      alignment let through; the hints can send it more. */
  lemma {:induction false} GdsReadIsAligned(opt: Options, hit: bool, offset: nat, size: nat)
    requires Streaming !in opt.hints && Checkpoint !in opt.hints && Sequential !in opt.hints
    requires SelectPath(hit, offset, size, opt) == GdsRead
    ensures opt.enableGds && opt.gdsAlignment > 0 && size >= opt.gdsMinSize
    ensures offset % opt.gdsAlignment == 0 && size % opt.gdsAlignment == 0
  {
    PathIff(opt, hit, offset, size);
  }

  /** What a path says of the cache: hits are served from it unless it is bypassed, and a hit is read
      in again only when the cache is bypassed with POSIX forced. */
  lemma {:induction false} PathTellsHit(opt: Options, hit: bool, offset: nat, size: nat)
    ensures SelectPath(hit, offset, size, opt) == DramHit <==> hit && !opt.bypassCache
    ensures SelectPath(hit, offset, size, opt) == PosixReadThenCache ==> !hit || (opt.bypassCache && opt.forcePosix)
  {
  }

  /** What the read loop asks a path for: some bytes of one chunk. */
  predicate IsPiece(opt: Options, offset: nat, size: nat)
    requires opt.chunkSize > 0
  {
    0 < size && offset % opt.chunkSize + size <= opt.chunkSize
  }

  /** The most bytes of a chunk that meet GDS's alignment. */
  function AlignedChunk(opt: Options): nat
    requires opt.gdsAlignment > 0
  {
    opt.chunkSize - opt.chunkSize % opt.gdsAlignment
  }

  /** Some piece could go to GDS. */
  predicate GdsPossible(opt: Options) {
    opt.enableGds &&
    (opt.hints * {Streaming, Checkpoint, Sequential} != {} ||
     (opt.gdsAlignment > 0 && opt.hints * {Reuse, SmallIo, RandomAccess} == {} &&
      AlignedChunk(opt) > 0 && AlignedChunk(opt) >= opt.gdsMinSize))
  }

  /** The cache is neither bypassed nor overtaken by the GDS path, and reads are admitted. */
  predicate CachedOnly(opt: Options) {
    !opt.bypassCache && opt.cacheAdmit &&
    (opt.forcePosix || (!opt.forceGds && !GdsPossible(opt) && opt.enableDramCache))
  }

  /** The paths that go through the cache. */
  predicate ThroughCache(hit: bool, p: Path) {
    p == if hit then DramHit else PosixReadThenCache
  }

  lemma {:induction false} AlignedFits(size: nat, n: nat, a: nat)
    requires a > 0 && size % a == 0 && size <= n
    ensures size <= n - n % a
  {
    Remainder(size, a);
    Remainder(n, a);
    if size / a <= n / a {
      MultipleMono(a, size / a, n / a);
    } else {
      MultipleMono(a, n / a + 1, size / a);
    }
  }

  lemma {:induction false} MultipleMono(a: nat, p: nat, q: nat)
    requires p <= q
    ensures a * p <= a * q
  {
  }

  lemma {:induction false} Remainder(m: nat, a: nat)
    requires a > 0
    ensures m == a * (m / a) + m % a && m % a < a
  {
  }

  lemma {:induction false} AlignedIsAligned(n: nat, a: nat)
    requires a > 0
    ensures (n - n % a) % a == 0 && 0 % a == 0
  {
    Remainder(n, a);
    Remainder(n - n % a, a);
    Distribute(a, n / a, (n - n % a) / a);
    SmallMultiple(a, n / a - (n - n % a) / a);
  }

  lemma {:induction false} Distribute(a: nat, n: int, q: int)
    ensures a * (n - q) == a * n - a * q
  {
  }

  lemma {:induction false} SmallMultiple(a: nat, k: int)
    requires a > 0 && 0 <= a * k < a
    ensures k == 0 && a * k == 0
  {
  }

  lemma {:induction false} PieceThroughCache(opt: Options, hit: bool, offset: nat, size: nat)
    requires CachedOnly(opt) && 0 < size <= opt.chunkSize
    ensures ThroughCache(hit, SelectPath(hit, offset, size, opt))
  {
    if IsRequestGdsSuitable(offset, size, opt) {
      AlignedFits(size, opt.chunkSize, opt.gdsAlignment);
    }
  }

  /** Exactly when every piece of every read is served from the cache, or read into it and admitted. */
  lemma {:induction false} CachedOnlyIff(opt: Options)
    requires opt.chunkSize > 0
    ensures (forall hit, offset, size :: IsPiece(opt, offset, size) ==> ThroughCache(hit, SelectPath(hit, offset, size, opt)))
            && opt.cacheAdmit
            <==> CachedOnly(opt)
  {
    if CachedOnly(opt) {
      forall hit, offset: nat, size: nat | IsPiece(opt, offset, size)
        ensures ThroughCache(hit, SelectPath(hit, offset, size, opt))
      {
        PieceThroughCache(opt, hit, offset, size);
      }
    }
    if forall hit, offset, size :: IsPiece(opt, offset, size) ==> ThroughCache(hit, SelectPath(hit, offset, size, opt)) {
      assert IsPiece(opt, 0, 1);
      assert ThroughCache(true, SelectPath(true, 0, 1, opt)) && ThroughCache(false, SelectPath(false, 0, 1, opt));
      if opt.gdsAlignment > 0 && AlignedChunk(opt) > 0 {
        AlignedIsAligned(opt.chunkSize, opt.gdsAlignment);
        assert IsPiece(opt, 0, AlignedChunk(opt));
        assert ThroughCache(false, SelectPath(false, 0, AlignedChunk(opt), opt));
      }
    }
  }

  /** A request that could be served from the cache is sent to read-then-cache and admitted, and so
      inserts a key already present, exactly when the cache is bypassed with POSIX forced and
      admission on. */
  lemma {:induction false} ReinsertsIffBypassForced(opt: Options)
    ensures opt.cacheAdmit && (exists offset, size :: SelectPath(true, offset, size, opt) == PosixReadThenCache) <==>
            opt.bypassCache && opt.forcePosix && opt.cacheAdmit
  {
    if opt.bypassCache && opt.forcePosix {
      assert SelectPath(true, 0, 0, opt) == PosixReadThenCache;
    }
  }

  /** No present key is inserted again, or there is never room for the old and the new copy. */
  predicate NeverOverwrites(opt: Options) {
    !(opt.bypassCache && opt.forcePosix && opt.cacheAdmit && opt.dramCacheSize >= opt.chunkSize + opt.chunkSize)
  }
}
