/**
 One read as the sequence of atomic steps other threads can come between: a locked cache lookup,
 the private fetch and copy, a locked cache insertion.
 */
module ReadJobs {
  import opened Storage
  import PathSelector
  import opened Recency
  import opened ChunkCache
  import CacheDirectory
  import opened ChunkMath
  import opened Coherence

  datatype World = World(env: Env, opt: PathSelector.Options, cudaAvailable: bool)

  /** A read, what the caller's buffer held before it, and whether that is GPU memory. */
  datatype Request = Request(path: Path, offset: nat, buffer: seq<byte>, gpu: bool) {
    function Size(): nat {
      |buffer|
    }
  }

  datatype Phase =
    | AtLookup
    | Chosen(p: PathSelector.Path, entry: Entry)
    | Admitting(data: seq<byte>, n: nat)
    | Finished(rc: Status)

  /** A read under way; cid and inChunk locate the current piece, need is its length. */
  datatype Job = Job(req: Request, copied: nat, out: seq<byte>, phase: Phase) {
    function Cur(): nat {
      req.offset + copied
    }

    function Need(c: nat): nat
      requires c > 0 && copied < req.Size()
    {
      Piece(req.offset, req.Size(), c, copied)
    }
  }

  /** What the outside world decides at a step: whether GDS works, whether the device fails. */
  datatype Choice = Choice(gdsWorks: bool, deviceFails: bool)

  function Begin(w: World, req: Request): Job {
    Job(req, 0, req.buffer,
        if Blocked(w, req) then Finished(Refusal(w, req)) else AtLookup)
  }

  /** n bytes of the file at an offset, in a buffer of the given size. */
  function ReadBuffer(file: File, offset: nat, n: nat, size: nat): (r: seq<byte>)
    requires n <= size && (n == 0 || offset + n <= |file|)
    ensures |r| == size && forall i :: 0 <= i < n ==> r[i] == file[offset + i]
  {
    (if n == 0 then [] else file[offset..offset + n]) + Zeros(size - n)
  }

  function Zeros(n: nat): (r: seq<byte>)
    ensures |r| == n
  {
    if n == 0 then [] else Zeros(n - 1) + [0]
  }

  function Paste(out: seq<byte>, at: nat, src: seq<byte>): (r: seq<byte>)
    requires at + |src| <= |out|
    ensures |r| == |out|
    ensures forall i :: 0 <= i < |out| ==> r[i] == if at <= i < at + |src| then src[i - at] else out[i]
  {
    out[..at] + src + out[at + |src|..]
  }

  /** The piece is in the buffer; go on to the next, or finish. */
  function Advance(j: Job, need: nat): Job {
    j.(copied := j.copied + need, phase := if j.copied + need == j.req.Size() then Finished(Ok) else AtLookup)
  }

  predicate PreadFails(w: World, path: Path, choice: Choice) {
    path !in w.env.files || (choice.deviceFails && !w.env.reliable)
  }

  predicate GdsServes(w: World, path: Path, offset: nat, size: nat, choice: Choice) {
    && w.opt.enableGds && w.opt.gdsAlignment > 0
    && offset % w.opt.gdsAlignment == 0 && size % w.opt.gdsAlignment == 0
    && choice.gdsWorks && path in w.env.files && offset + size <= |w.env.files[path]|
  }

  ghost predicate JobOk(w: World, j: Job)
    requires w.opt.chunkSize > 0
  {
    var c := w.opt.chunkSize;
    && |j.out| == j.req.Size() && j.copied <= j.req.Size()
    && OnCut(j.req, c, j.copied)
    && (Blocked(w, j.req) ==> j.phase == Finished(Refusal(w, j.req)) && j.copied == 0)
    && (j.phase.Admitting? || Holds(w.env, j.req, j.out, j.copied))
    && match j.phase
       case Finished(rc) =>
         && (rc == Ok ==> j.copied == j.req.Size() > 0)
         && (rc != Ok ==> rc == Refusal(w, j.req) && (rc == Io ==> Unservable(w, j.req) && GaveUp(w, j.req, j.copied)))
       case AtLookup => j.copied < j.req.Size()
       case Chosen(p, e) =>
         j.copied < j.req.Size() &&
         (p.DramHit? ==> j.req.path in w.env.files && InChunk(j.Cur(), c) + j.Need(c) <= e.validSize &&
                         Agrees(e.data, e.validSize, w.env.files[j.req.path], c, Fit(j.Cur(), c)))
       case Admitting(data, n) =>
         j.copied < j.req.Size() && Holds(w.env, j.req, j.out, j.copied + j.Need(c)) &&
         j.req.path in w.env.files && |data| == c && Agrees(data, n, w.env.files[j.req.path], c, Fit(j.Cur(), c))
  }

  /** A request that is refused before anything is read. */
  predicate Blocked(w: World, req: Request) {
    req.Size() == 0 || (req.gpu && !w.cudaAvailable)
  }

  /** The status of a read that delivers nothing more. */
  function Refusal(w: World, req: Request): Status {
    if req.Size() == 0 then Invalid else if Blocked(w, req) then Unsupported else Io
  }

  /** The file does not hold the request, or the device may fail. */
  predicate Unservable(w: World, req: Request) {
    !w.env.reliable || req.path !in w.env.files || req.offset + req.Size() > |w.env.files[req.path]|
  }

  /** The first n bytes of the buffer are the file's bytes from the requested offset, and the others
      what they were before the call. */
  ghost predicate Holds(env: Env, req: Request, out: seq<byte>, n: nat)
    requires |out| == req.Size()
  {
    && n <= |out|
    && (n > 0 ==> req.path in env.files && req.offset + n <= |env.files[req.path]|)
    && forall i :: 0 <= i < |out| ==> out[i] == if i < n then env.files[req.path][req.offset + i] else req.buffer[i]
  }

  /** Some whole number of pieces has been delivered. */
  ghost predicate OnCut(req: Request, c: nat, n: nat)
    requires c > 0
  {
    if req.Size() == 0 then n == 0 else exists i: nat :: AtCut(req.offset, req.Size(), c, n, i)
  }

  /** On a device that does not fail, a read gives up at the last chunk boundary its file reaches. */
  predicate GaveUp(w: World, req: Request, n: nat)
    requires w.opt.chunkSize > 0
  {
    w.env.reliable && req.path in w.env.files ==>
      n == Served(req.offset, req.Size(), w.opt.chunkSize, |w.env.files[req.path]|)
  }

  /** One atomic step: the new cache and the new job. */
  function Step(w: World, cache: Cache, j: Job, choice: Choice): (r: (Cache, Job))
    requires w.opt.chunkSize > 0 && JobOk(w, j) && !j.phase.Finished?
  {
    var c := w.opt.chunkSize;
    var key := Key(j.req.path, Fit(j.Cur(), c));
    var need := j.Need(c);
    match j.phase
    case AtLookup =>
      var hit := key in cache.table && InChunk(j.Cur(), c) + need <= cache.table[key].entry.validSize;
      var e := if key in cache.table then cache.table[key].entry else Entry([], 0, 0, 0, false);
      (cache.Lookup(key), j.(phase := Chosen(PathSelector.SelectPath(hit, j.Cur(), need, w.opt), e)))
    case Chosen(p, e) =>
      (cache, Serve(w, j, p, e, choice))
    case Admitting(data, n) =>
      (cache.Insert(key, data, n), Advance(j, need))
  }

  /** Fetches the piece along the chosen path into the buffer. */
  function Serve(w: World, j: Job, p: PathSelector.Path, e: Entry, choice: Choice): Job
    requires w.opt.chunkSize > 0 && JobOk(w, j) && j.phase == Chosen(p, e)
  {
    var c := w.opt.chunkSize;
    var path, cur, at, need := j.req.path, j.Cur(), InChunk(j.Cur(), c), j.Need(c);
    if p.DramHit? then
      Advance(j.(out := Paste(j.out, j.copied, e.data[at..at + need])), need)
    else if (p.GdsRead? || p.GdsStubFallback?) && GdsServes(w, path, cur, need, choice) then
      Advance(j.(out := Paste(j.out, j.copied, w.env.files[path][cur..cur + need])), need)
    else if PreadFails(w, path, choice) then
      j.(phase := Finished(Io))
    else
      ServeBuffered(w, j, p)
  }

  /** The buffered fetch: the piece alone, or its whole chunk when it is to be cached. */
  function ServeBuffered(w: World, j: Job, p: PathSelector.Path): Job
    requires w.opt.chunkSize > 0 && j.copied < j.req.Size() == |j.out| && j.req.path in w.env.files
  {
    var c := w.opt.chunkSize;
    var path, cur, at, need := j.req.path, j.Cur(), InChunk(j.Cur(), c), j.Need(c);
    var file, whole := w.env.files[path], p.PosixReadThenCache?;
    var roff, rsz, srcOff := if whole then cur - at else cur, if whole then c else need, if whole then at else 0;
    var n := Avail(|file|, roff, rsz);
    if n < srcOff + need then j.(phase := Finished(Io))
    else
      var buf := ReadBuffer(file, roff, n, rsz);
      AfterServe(w, j.(out := Paste(j.out, j.copied, buf[srcOff..srcOff + need])), whole, buf, n, need)
  }

  /** A chunk read whole may be offered to the cache before the read goes on. */
  function AfterServe(w: World, served: Job, whole: bool, buf: seq<byte>, n: nat, need: nat): Job {
    if whole && w.opt.cacheAdmit then served.(phase := Admitting(buf, n)) else Advance(served, need)
  }

  // ---------------------------------------------------------------- every step keeps jobs right

  lemma {:induction false} BeginOk(w: World, req: Request)
    requires w.opt.chunkSize > 0
    ensures JobOk(w, Begin(w, req))
  {
    assert req.Size() > 0 ==> AtCut(req.offset, req.Size(), w.opt.chunkSize, 0, 0);
  }

  /** src is a slice of the file. */
  ghost predicate SliceAt(src: seq<byte>, file: File, offset: nat) {
    offset + |src| <= |file| && forall i :: 0 <= i < |src| ==> src[i] == file[offset + i]
  }

  lemma {:induction false} PasteHolds(env: Env, req: Request, out: seq<byte>, at: nat, src: seq<byte>)
    requires |out| == req.Size() && at + |src| <= |out| && |src| > 0 && Holds(env, req, out, at)
    requires req.path in env.files && SliceAt(src, env.files[req.path], req.offset + at)
    ensures Holds(env, req, Paste(out, at, src), at + |src|)
  {
    var r := Paste(out, at, src);
    forall i | 0 <= i < |r|
      ensures r[i] == if i < at + |src| then env.files[req.path][req.offset + i] else req.buffer[i]
    {
      if at <= i < at + |src| {
        assert src[i - at] == env.files[req.path][req.offset + at + (i - at)];
      }
    }
  }

  lemma {:induction false} NextCut(req: Request, c: nat, n: nat)
    requires c > 0 && n < req.Size() && OnCut(req, c, n)
    ensures OnCut(req, c, n + Piece(req.offset, req.Size(), c, n))
  {
    hide AtCut, Piece;
    var i: nat :| AtCut(req.offset, req.Size(), c, n, i);
    CutNext(req.offset, req.Size(), c, i, n);
  }

  lemma {:induction false} AdvanceOk(w: World, j: Job)
    requires w.opt.chunkSize > 0 && !Blocked(w, j.req) && |j.out| == j.req.Size() && j.copied < j.req.Size()
    requires OnCut(j.req, w.opt.chunkSize, j.copied)
    requires Holds(w.env, j.req, j.out, j.copied + j.Need(w.opt.chunkSize))
    ensures JobOk(w, Advance(j, j.Need(w.opt.chunkSize)))
  {
    hide OnCut, Holds, Piece;
    NextCut(j.req, w.opt.chunkSize, j.copied);
  }

  lemma {:induction false} ServeOk(w: World, j: Job, p: PathSelector.Path, e: Entry, choice: Choice)
    requires w.opt.chunkSize > 0 && JobOk(w, j) && j.phase == Chosen(p, e)
    ensures JobOk(w, Serve(w, j, p, e, choice)) && Serve(w, j, p, e, choice).req == j.req
  {
    hide JobOk, Holds, OnCut, Agrees, SliceAt, Paste, ServeBuffered, Fit, Times, Piece, PathSelector.SelectPath;
    var c := w.opt.chunkSize;
    JobOkFacts(w, j);
    var path, cur, at, need := j.req.path, j.Cur(), InChunk(j.Cur(), c), j.Need(c);
    if p.DramHit? {
      HitBytes(w, j, p, e);
      PasteHolds(w.env, j.req, j.out, j.copied, e.data[at..at + need]);
      AdvanceOk(w, j.(out := Paste(j.out, j.copied, e.data[at..at + need])));
    } else if (p.GdsRead? || p.GdsStubFallback?) && GdsServes(w, path, cur, need, choice) {
      FileSlice(w.env.files[path], cur, need);
      PasteHolds(w.env, j.req, j.out, j.copied, w.env.files[path][cur..cur + need]);
      AdvanceOk(w, j.(out := Paste(j.out, j.copied, w.env.files[path][cur..cur + need])));
    } else if PreadFails(w, path, choice) {
      FailOk(w, j);
    } else {
      ServeBufferedOk(w, j, p, e);
    }
  }

  lemma {:induction false} FileSlice(file: File, offset: nat, n: nat)
    requires offset + n <= |file|
    ensures SliceAt(file[offset..offset + n], file, offset)
  {
  }

  /** A fetch too short for its piece means the piece runs past the end of the file. */
  lemma {:induction false} ShortRead(len: nat, cur: nat, need: nat, roff: nat, rsz: nat, srcOff: nat)
    requires roff + srcOff == cur && srcOff + need <= rsz && need > 0
    requires Avail(len, roff, rsz) < srcOff + need
    ensures cur + need > len
  {
  }

  /** The first piece to run past the end of the file starts where a read gives up. */
  lemma {:induction false} ShortGivesUp(w: World, j: Job)
    requires w.opt.chunkSize > 0 && |j.out| == j.req.Size() && j.copied < j.req.Size() && j.req.path in w.env.files
    requires OnCut(j.req, w.opt.chunkSize, j.copied) && Holds(w.env, j.req, j.out, j.copied)
    requires j.Cur() + j.Need(w.opt.chunkSize) > |w.env.files[j.req.path]|
    ensures Unservable(w, j.req) && GaveUp(w, j.req, j.copied)
  {
    hide AtCut, Piece, Served;
    var i: nat :| AtCut(j.req.offset, j.req.Size(), w.opt.chunkSize, j.copied, i);
    FailsAtServed(j.req.offset, j.req.Size(), w.opt.chunkSize, |w.env.files[j.req.path]|, j.copied, i);
  }

  lemma {:induction false} BufferSlice(file: File, roff: nat, n: nat, rsz: nat, srcOff: nat, need: nat)
    requires n <= rsz && (n == 0 || roff + n <= |file|) && 0 < need && srcOff + need <= n
    ensures SliceAt(ReadBuffer(file, roff, n, rsz)[srcOff..srcOff + need], file, roff + srcOff)
  {
    var buf := ReadBuffer(file, roff, n, rsz);
    var src := buf[srcOff..srcOff + need];
    forall i | 0 <= i < |src| ensures src[i] == file[roff + srcOff + i] {
      assert src[i] == buf[srcOff + i];
    }
  }

  lemma {:induction false} BufferServed(env: Env, j: Job, roff: nat, n: nat, rsz: nat, srcOff: nat, need: nat)
    requires |j.out| == j.req.Size() && Holds(env, j.req, j.out, j.copied) && j.req.path in env.files
    requires n <= rsz && (n == 0 || roff + n <= |env.files[j.req.path]|) && 0 < need && srcOff + need <= n
    requires roff + srcOff == j.Cur() && j.copied + need <= |j.out|
    ensures var src := ReadBuffer(env.files[j.req.path], roff, n, rsz)[srcOff..srcOff + need];
            Holds(env, j.req, Paste(j.out, j.copied, src), j.copied + need)
  {
    hide Holds, SliceAt, Paste, ReadBuffer;
    BufferSlice(env.files[j.req.path], roff, n, rsz, srcOff, need);
    PasteHolds(env, j.req, j.out, j.copied, ReadBuffer(env.files[j.req.path], roff, n, rsz)[srcOff..srcOff + need]);
  }

  lemma {:induction false} ServeBufferedOk(w: World, j: Job, p: PathSelector.Path, e: Entry)
    requires w.opt.chunkSize > 0 && JobOk(w, j) && j.phase == Chosen(p, e) && j.req.path in w.env.files
    ensures JobOk(w, ServeBuffered(w, j, p)) && ServeBuffered(w, j, p).req == j.req
  {
    hide JobOk, Holds, OnCut, Agrees, Paste, SliceAt, ReadBuffer, Fit, Times, Piece, Unservable, GaveUp, AfterServe;
    JobOkFacts(w, j);
    var c := w.opt.chunkSize;
    var path, cur, at, need := j.req.path, j.Cur(), InChunk(j.Cur(), c), j.Need(c);
    var file, whole := w.env.files[path], p.PosixReadThenCache?;
    var roff, rsz, srcOff := if whole then cur - at else cur, if whole then c else need, if whole then at else 0;
    var n := Avail(|file|, roff, rsz);
    if n < srcOff + need {
      ShortRead(|file|, cur, need, roff, rsz, srcOff);
      ShortGivesUp(w, j);
      FailOk(w, j);
    } else {
      var buf := ReadBuffer(file, roff, n, rsz);
      var src := buf[srcOff..srcOff + need];
      BufferServed(w.env, j, roff, n, rsz, srcOff, need);
      AfterServeOk(w, j.(out := Paste(j.out, j.copied, src)), whole, n, buf);
    }
  }

  lemma {:induction false} AfterServeOk(w: World, served: Job, whole: bool, n: nat, buf: seq<byte>)
    requires w.opt.chunkSize > 0 && !Blocked(w, served.req)
    requires |served.out| == served.req.Size() && served.copied < served.req.Size()
    requires served.req.path in w.env.files && OnCut(served.req, w.opt.chunkSize, served.copied)
    requires Holds(w.env, served.req, served.out, served.copied + served.Need(w.opt.chunkSize))
    requires whole ==>
               var c, file := w.opt.chunkSize, w.env.files[served.req.path];
               var base := served.Cur() - InChunk(served.Cur(), c);
               0 < n == Avail(|file|, base, c) && buf == ReadBuffer(file, base, n, c)
    ensures var r := AfterServe(w, served, whole, buf, n, served.Need(w.opt.chunkSize));
            JobOk(w, r) && r.req == served.req
  {
    hide Holds, OnCut, JobOk, ReadBuffer, Piece;
    if whole && w.opt.cacheAdmit {
      AdmittingOk(w, served, n);
    } else {
      AdvanceOk(w, served);
    }
  }

  lemma {:induction false} JobOkFacts(w: World, j: Job)
    requires w.opt.chunkSize > 0 && JobOk(w, j)
    ensures |j.out| == j.req.Size() && j.copied <= j.req.Size() && OnCut(j.req, w.opt.chunkSize, j.copied)
    ensures !j.phase.Admitting? ==> Holds(w.env, j.req, j.out, j.copied)
    ensures !j.phase.Finished? ==> j.copied < j.req.Size() && !Blocked(w, j.req)
  {
  }

  lemma {:induction false} HitBytes(w: World, j: Job, p: PathSelector.Path, e: Entry)
    requires w.opt.chunkSize > 0 && JobOk(w, j) && j.phase == Chosen(p, e) && p.DramHit?
    ensures var c := w.opt.chunkSize;
            var at, need := InChunk(j.Cur(), c), j.Need(c);
            && j.req.path in w.env.files && at + need <= |e.data|
            && SliceAt(e.data[at..at + need], w.env.files[j.req.path], j.Cur())
  {
    var c := w.opt.chunkSize;
    var at, need, file := InChunk(j.Cur(), c), j.Need(c), w.env.files[j.req.path];
    var src := e.data[at..at + need];
    forall i | 0 <= i < |src| ensures src[i] == file[j.Cur() + i] {
      assert e.data[at + i] == file[Times(Fit(j.Cur(), c), c) + (at + i)];
    }
  }

  lemma {:induction false} FailOk(w: World, j: Job)
    requires w.opt.chunkSize > 0 && JobOk(w, j) && !Blocked(w, j.req) && !j.phase.Admitting?
    requires Unservable(w, j.req) && GaveUp(w, j.req, j.copied)
    ensures JobOk(w, j.(phase := Finished(Io)))
  {
  }

  lemma {:induction false} AdmittingOk(w: World, j: Job, n: nat)
    requires w.opt.chunkSize > 0 && !Blocked(w, j.req) && j.req.path in w.env.files
    requires |j.out| == j.req.Size() && j.copied < j.req.Size()
    requires OnCut(j.req, w.opt.chunkSize, j.copied)
    requires Holds(w.env, j.req, j.out, j.copied + j.Need(w.opt.chunkSize))
    requires var c := w.opt.chunkSize;
             0 < n == Avail(|w.env.files[j.req.path]|, j.Cur() - InChunk(j.Cur(), c), c)
    ensures var c := w.opt.chunkSize;
            JobOk(w, j.(phase := Admitting(ReadBuffer(w.env.files[j.req.path], j.Cur() - InChunk(j.Cur(), c), n, c), n)))
  {
    hide Agrees, ReadBuffer, Piece, Fit, Times, Holds, OnCut;
    var c := w.opt.chunkSize;
    BufferAgrees(w.env.files[j.req.path], Fit(j.Cur(), c), n, c);
  }

  lemma {:induction false} BufferAgrees(file: File, cid: nat, n: nat, c: nat)
    requires 0 < n == Avail(|file|, Times(cid, c), c)
    ensures Agrees(ReadBuffer(file, Times(cid, c), n, c), n, file, c, cid)
  {
    hide Times;
  }

  /** A step of one job keeps that job right and the shared cache coherent and bounded, whatever
      other threads did to the cache since the job last looked. */
  lemma {:induction false} StepOk(w: World, cache: Cache, leaked: nat, j: Job, choice: Choice)
    requires w.opt.chunkSize > 0 && cache.chunkSize == w.opt.chunkSize
    requires cache.Valid(leaked) && Coherent(w.env, cache)
    requires JobOk(w, j) && !j.phase.Finished?
    ensures var (d, j') := Step(w, cache, j, choice);
            && JobOk(w, j') && j'.req == j.req
            && d.Valid(leaked + StepLeaks(w, cache, j)) && Coherent(w.env, d)
            && d.chunkSize == cache.chunkSize && d.limit == cache.limit
  {
    hide Agrees, Holds, OnCut, Serve, Coherent, JobOk;
    match j.phase
    case AtLookup => LookupStepOk(w, cache, leaked, j, choice);
    case Chosen(p, e) => ServeOk(w, j, p, e, choice);
    case Admitting(data, n) => AdmitStepOk(w, cache, leaked, j, choice);
  }

  lemma {:induction false} LookupStepOk(w: World, cache: Cache, leaked: nat, j: Job, choice: Choice)
    requires w.opt.chunkSize > 0 && cache.chunkSize == w.opt.chunkSize
    requires cache.Valid(leaked) && Coherent(w.env, cache)
    requires JobOk(w, j) && j.phase.AtLookup?
    ensures var (d, j') := Step(w, cache, j, choice);
            && JobOk(w, j') && j'.req == j.req
            && d.Valid(leaked) && Coherent(w.env, d)
            && d.chunkSize == cache.chunkSize && d.limit == cache.limit
  {
    hide Agrees, Holds, OnCut, JobOk, Coherent, PathSelector.SelectPath;
    var key := Key(j.req.path, Fit(j.Cur(), w.opt.chunkSize));
    LookupCoherent(w.env, cache, key);
    ChosenOk(w, cache, j, choice);
    if key in cache.table {
      TouchLinked(cache, key);
    }
  }

  lemma {:induction false} AdmittingFacts(w: World, j: Job)
    requires w.opt.chunkSize > 0 && JobOk(w, j) && j.phase.Admitting?
    ensures var c := w.opt.chunkSize;
            && |j.out| == j.req.Size() && j.copied < j.req.Size() && !Blocked(w, j.req) && OnCut(j.req, c, j.copied)
            && Holds(w.env, j.req, j.out, j.copied + j.Need(c)) && j.req.path in w.env.files
            && |j.phase.data| == c
            && Agrees(j.phase.data, j.phase.n, w.env.files[j.req.path], c, Fit(j.Cur(), c))
  {
    hide Agrees, Holds, OnCut;
  }

  lemma {:induction false} ChosenOk(w: World, cache: Cache, j: Job, choice: Choice)
    requires w.opt.chunkSize > 0 && cache.chunkSize == w.opt.chunkSize && Coherent(w.env, cache)
    requires JobOk(w, j) && j.phase.AtLookup?
    ensures JobOk(w, Step(w, cache, j, choice).1)
  {
    hide Agrees, Holds, OnCut;
    var key := Key(j.req.path, Fit(j.Cur(), w.opt.chunkSize));
    assert key in cache.table ==> Backed(w.env, cache.chunkSize, key, cache.table[key].entry);
  }

  lemma {:induction false} AdmitStepOk(w: World, cache: Cache, leaked: nat, j: Job, choice: Choice)
    requires w.opt.chunkSize > 0 && cache.chunkSize == w.opt.chunkSize
    requires cache.Valid(leaked) && Coherent(w.env, cache)
    requires JobOk(w, j) && j.phase.Admitting?
    ensures var (d, j') := Step(w, cache, j, choice);
            && JobOk(w, j') && j'.req == j.req
            && d.Valid(leaked + StepLeaks(w, cache, j)) && Coherent(w.env, d)
            && d.chunkSize == cache.chunkSize && d.limit == cache.limit
  {
    hide Agrees, Holds, OnCut, JobOk, Coherent, Books, Cache.Linked, Cache.MakeRoom;
    AdmittingFacts(w, j);
    var cid := Fit(j.Cur(), w.opt.chunkSize);
    var Admitting(data, n) := j.phase;
    InsertCoherent(w.env, cache, j.req.path, cid, data, n);
    InsertValid(cache, Key(j.req.path, cid), data, n, leaked);
    MakeRoomKeepsSizes(cache);
    AdvanceOk(w, j);
  }

  /** Insertions racing on one chunk may overwrite it; each one that does leaks a chunk of books. */
  function StepLeaks(w: World, cache: Cache, j: Job): nat
    requires w.opt.chunkSize > 0
  {
    if j.phase.Admitting? then Overwrites(cache, Key(j.req.path, Fit(j.Cur(), w.opt.chunkSize)), j.phase.n) else 0
  }

  // ---------------------------------------------------------------- progress

  /** Steps a job may still take, at most. */
  function Work(j: Job): nat {
    var left := if j.copied < j.req.Size() then j.req.Size() - j.copied else 0;
    match j.phase
    case Finished(_) => 0
    case AtLookup => 3 * left
    case Chosen(_, _) => if left > 0 then 3 * left - 1 else 0
    case Admitting(_, _) => if left > 0 then 3 * left - 2 else 0
  }

  lemma {:induction false} StepWorks(w: World, cache: Cache, j: Job, choice: Choice)
    requires w.opt.chunkSize > 0 && JobOk(w, j) && !j.phase.Finished?
    ensures Work(Step(w, cache, j, choice).1) < Work(j)
  {
    hide Agrees, Holds, OnCut;
  }

  // ---------------------------------------------------------------- what a step means

  /** A lookup sends a piece of the file to the cache exactly when its chunk is cached and the cache is
      not bypassed, and otherwise where the options say; a cached chunk counts as used. */
  lemma {:induction false} LookupMeans(w: World, cache: Cache, j: Job, choice: Choice)
    requires w.opt.chunkSize > 0 && cache.chunkSize == w.opt.chunkSize && Coherent(w.env, cache)
    requires JobOk(w, j) && j.phase.AtLookup?
    requires j.req.path in w.env.files && j.Cur() + j.Need(w.opt.chunkSize) <= |w.env.files[j.req.path]|
    ensures var key := Key(j.req.path, Fit(j.Cur(), w.opt.chunkSize));
            var (d, next) := Step(w, cache, j, choice);
            && next.phase.Chosen? && next == j.(phase := next.phase)
            && (next.phase.p.DramHit? <==> key in cache.table && !w.opt.bypassCache)
            && (next.phase.p.GdsRead? ==> PathSelector.GdsTakes(w.opt, j.Cur(), j.Need(w.opt.chunkSize)))
            && (next.phase.p.GdsStubFallback? ==> w.opt.forceGds)
            && (next.phase.p.PosixRead? ==> w.opt.bypassCache || !w.opt.enableDramCache)
            && d.table.Keys == cache.table.Keys
  {
    hide JobOk, Agrees, PathSelector.SelectPath;
    JobOkFacts(w, j);
    var c := w.opt.chunkSize;
    PresentIsWhole(w.env, cache, j.req.path, Fit(j.Cur(), c));
    var key := Key(j.req.path, Fit(j.Cur(), c));
    var hit := key in cache.table && InChunk(j.Cur(), c) + j.Need(c) <= cache.table[key].entry.validSize;
    PathSelector.PathIff(w.opt, hit, j.Cur(), j.Need(c));
  }

  /** What a step does to the order of the cache, as long as no key was overwritten: a lookup of a
      cached chunk and the insertion of an absent one are LRU accesses, and nothing else moves it. */
  lemma {:induction false} StepRecency(w: World, cache: Cache, j: Job, choice: Choice)
    requires w.opt.chunkSize > 0 && cache.chunkSize == w.opt.chunkSize && cache.Valid(0) && cache.Tight()
    requires JobOk(w, j) && !j.phase.Finished?
    ensures var k := Key(j.req.path, Fit(j.Cur(), w.opt.chunkSize));
            var d := Step(w, cache, j, choice).0;
            && (j.phase.AtLookup? && k in cache.table ==> d.Keys() == LruStep(cache.Capacity(), cache.Keys(), k))
            && (j.phase.Admitting? && k !in cache.table ==>
                  d.Keys() == LruStep(cache.Capacity(), cache.Keys(), k) &&
                  (k in d.table ==> d.table[k].entry.data == j.phase.data && d.table[k].entry.validSize == j.phase.n))
            && ((j.phase.AtLookup? && k !in cache.table) || j.phase.Chosen? ==> d == cache)
  {
    hide Holds, OnCut, Agrees, Serve, Cache.Linked, Cache.Tight, Books, Cache.MakeRoom, LruStep, PathSelector.SelectPath;
    var k := Key(j.req.path, Fit(j.Cur(), w.opt.chunkSize));
    match j.phase
    case AtLookup =>
      if k in cache.table {
        CacheDirectory.TouchIsLru(cache, k);
      }
    case Chosen(_, _) =>
    case Admitting(data, n) =>
      AdmittedSize(w, j);
      MakeRoomSubset(cache);
      if k !in cache.table {
        CacheDirectory.InsertOrdered(cache, k, data, n);
      }
  }

  lemma {:induction false} AdmittedSize(w: World, j: Job)
    requires w.opt.chunkSize > 0 && JobOk(w, j) && j.phase.Admitting?
    ensures |j.phase.data| == w.opt.chunkSize && 0 < j.phase.n <= w.opt.chunkSize
  {
    hide Holds, OnCut;
  }

  /** Whether a piece is delivered: a hit and an accepted GDS read need no device, and any other piece
      is delivered when the device works and the file has it. */
  lemma {:induction false} ServeMeans(w: World, cache: Cache, j: Job, choice: Choice)
    requires w.opt.chunkSize > 0 && JobOk(w, j) && j.phase.Chosen?
    ensures var c := w.opt.chunkSize;
            var next := Step(w, cache, j, choice).1;
            var inFile := j.req.path in w.env.files && j.Cur() + j.Need(c) <= |w.env.files[j.req.path]|;
            var p := j.phase.p;
            && (next.phase == Finished(Io) || next.phase.Admitting? || next.copied == j.copied + j.Need(c))
            && (p.DramHit? ==> next.copied == j.copied + j.Need(c))
            && ((p.GdsRead? || p.GdsStubFallback?) && GdsServes(w, j.req.path, j.Cur(), j.Need(c), choice) ==>
                  next.copied == j.copied + j.Need(c))
            && (inFile && !choice.deviceFails ==> next.phase != Finished(Io))
            && (next.phase.Admitting? <==> p.PosixReadThenCache? && w.opt.cacheAdmit && next.phase != Finished(Io))
  {
    hide Holds, OnCut, Agrees, Paste, ReadBuffer, PathSelector.SelectPath;
  }
}
