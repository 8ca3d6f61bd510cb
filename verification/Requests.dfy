/**
 Requests, the worker pool and the callers, as one machine whose actions are single locked
 sections; any interleaving of any number of threads is a list of actions.
 */
module Requests {
  import opened Storage
  import opened ChunkCache
  import opened ChunkMath
  import opened Coherence
  import opened ReadJobs

  datatype Worker = Idle | Busy(id: nat, job: Job) | Gone

  /** What a request leaves behind: its status and the caller's buffer. */
  datatype Result = Result(rc: Status, out: seq<byte>)

  /** Request ids number the submissions; started lists the ids in the order workers took them;
      callers are the reads made on the callers' own threads; absent holds the chunks that prefetches
      have found absent and have yet to bring in. */
  datatype Pool = Pool(cache: Cache, leaked: nat, requests: seq<Request>, queue: seq<nat>, started: seq<nat>,
                       workers: seq<Worker>, results: map<nat, Result>, callers: seq<Job>,
                       absent: multiset<Key>, stop: bool)

  datatype Action =
    | Submit(req: Request)
    | Take(w: nat)
    | Work(w: nat, choice: Choice)
    | Deliver(w: nat)
    | Leave(w: nat)
    | Call(req: Request)
    | CallWork(i: nat, choice: Choice)
    | Check(path: Path, cid: nat)
    | Fill(path: Path, cid: nat, choice: Choice)
    | Stop
  {
    predicate ByWorker() {
      Take? || Work? || Deliver? || Leave?
    }
  }

  function Start(cache: Cache, numWorkers: nat): Pool {
    Pool(cache, 0, [], [], [], Idlers(numWorkers), map[], [], multiset{}, false)
  }

  function Idlers(n: nat): (r: seq<Worker>)
    ensures |r| == n && forall i :: 0 <= i < n ==> r[i] == Idle
  {
    if n == 0 then [] else Idlers(n - 1) + [Idle]
  }

  predicate Enabled(world: World, s: Pool, a: Action) {
    match a
    case Submit(_) => true
    case Take(w) => w < |s.workers| && s.workers[w].Idle? && s.queue != [] && s.queue[0] < |s.requests|
    case Work(w, _) => w < |s.workers| && s.workers[w].Busy? && !s.workers[w].job.phase.Finished?
    case Deliver(w) => w < |s.workers| && s.workers[w].Busy? && s.workers[w].job.phase.Finished?
    case Leave(w) => w < |s.workers| && s.workers[w].Idle? && s.stop && s.queue == []
    case Call(_) => true
    case CallWork(i, _) => i < |s.callers| && !s.callers[i].phase.Finished?
    case Check(path, cid) => Key(path, cid) !in s.cache.table
    case Fill(path, cid, _) => Key(path, cid) in s.absent
    case Stop => true
  }

  /** One action. */
  function Next(world: World, s: Pool, a: Action): Pool
    requires Inv(world, s) && Enabled(world, s, a)
  {
    match a
    case Submit(req) => s.(requests := s.requests + [req], queue := s.queue + [|s.requests|])
    case Take(w) =>
      s.(queue := s.queue[1..], started := s.started + [s.queue[0]],
         workers := s.workers[w := Busy(s.queue[0], Begin(world, s.requests[s.queue[0]]))])
    case Work(w, choice) =>
      var job := s.workers[w].job;
      var (cache, next) := Step(world, s.cache, job, choice);
      s.(cache := cache, leaked := s.leaked + StepLeaks(world, s.cache, job),
         workers := s.workers[w := Busy(s.workers[w].id, next)])
    case Deliver(w) =>
      var job := s.workers[w].job;
      s.(results := s.results[s.workers[w].id := Result(job.phase.rc, job.out)], workers := s.workers[w := Idle])
    case Leave(w) => s.(workers := s.workers[w := Gone])
    case Call(req) => s.(callers := s.callers + [Begin(world, req)])
    case CallWork(i, choice) =>
      var (cache, next) := Step(world, s.cache, s.callers[i], choice);
      s.(cache := cache, leaked := s.leaked + StepLeaks(world, s.cache, s.callers[i]),
         callers := s.callers[i := next])
    case Check(path, cid) => s.(absent := s.absent + multiset{Key(path, cid)})
    case Fill(path, cid, choice) =>
      var left := s.absent - multiset{Key(path, cid)};
      if PreadFails(world, path, choice) then s.(absent := left)
      else
        var chunk := Chunk(world.env.files[path], cid, world.opt.chunkSize);
        s.(absent := left, cache := s.cache.Insert(Key(path, cid), chunk.0, chunk.1),
           leaked := s.leaked + Overwrites(s.cache, Key(path, cid), chunk.1))
    case Stop => s.(stop := true)
  }

  /** A chunk as prefetching reads it: its buffer and the bytes read. */
  function Chunk(file: File, cid: nat, c: nat): (seq<byte>, nat) {
    var n := Avail(|file|, Times(cid, c), c);
    (ReadBuffer(file, Times(cid, c), n, c), n)
  }

  // ---------------------------------------------------------------- what every action keeps

  ghost predicate CacheOk(world: World, s: Pool) {
    && world.opt.chunkSize > 0 && s.cache.chunkSize == world.opt.chunkSize
    && s.cache.Valid(s.leaked) && Coherent(world.env, s.cache)
  }

  ghost predicate JobsOk(world: World, s: Pool)
    requires world.opt.chunkSize > 0
  {
    && (forall i :: 0 <= i < |s.workers| && s.workers[i].Busy? ==> BusyOk(world, s, s.workers[i]))
    && (forall i :: 0 <= i < |s.callers| ==> JobOk(world, s.callers[i]))
  }

  ghost predicate BusyOk(world: World, s: Pool, w: Worker)
    requires world.opt.chunkSize > 0 && w.Busy?
  {
    JobOk(world, w.job) && w.id < |s.requests| && w.job.req == s.requests[w.id]
  }

  /** A served request holds its slice of the file. A refused one left the buffer alone; one that
      failed could not be served, and left the file's bytes up to where it gave up and the rest of the
      buffer as it was. */
  ghost predicate ResultOk(world: World, req: Request, r: Result)
    requires world.opt.chunkSize > 0
  {
    && |r.out| == req.Size()
    && (r.rc == Ok ==> !Blocked(world, req) && Holds(world.env, req, r.out, req.Size()))
    && (r.rc != Ok ==> r.rc == Refusal(world, req))
    && (r.rc == Io ==> Unservable(world, req) && LeftOff(world, req, r.out))
    && (r.rc != Ok && r.rc != Io ==> r.out == req.buffer)
  }

  ghost predicate LeftOff(world: World, req: Request, out: seq<byte>)
    requires world.opt.chunkSize > 0 && |out| == req.Size()
  {
    exists n: nat :: Holds(world.env, req, out, n) && GaveUp(world, req, n)
  }

  ghost predicate ResultsOk(world: World, s: Pool)
    requires world.opt.chunkSize > 0
  {
    forall id :: id in s.results ==> id < |s.requests| && ResultOk(world, s.requests[id], s.results[id])
  }

  /** Requests are taken in submission order, and each is in exactly one place: the queue, one
      worker, or the results. */
  ghost predicate Placed(s: Pool) {
    && |s.started| + |s.queue| == |s.requests|
    && (forall i :: 0 <= i < |s.started| ==> s.started[i] == i)
    && (forall i :: 0 <= i < |s.queue| ==> s.queue[i] == |s.started| + i)
    && (forall id :: id in s.results ==> id < |s.started|)
    && (forall i :: 0 <= i < |s.workers| && s.workers[i].Busy? ==> RunsAlone(s, i))
    && (forall id :: 0 <= id < |s.started| ==> id in s.results || OnWorker(s, id))
  }

  ghost predicate RunsAlone(s: Pool, i: nat)
    requires i < |s.workers| && s.workers[i].Busy?
  {
    var id := s.workers[i].id;
    && id < |s.started| && id !in s.results
    && forall k :: 0 <= k < |s.workers| && s.workers[k].Busy? && s.workers[k].id == id ==> k == i
  }

  ghost predicate OnWorker(s: Pool, id: nat) {
    exists i :: 0 <= i < |s.workers| && s.workers[i].Busy? && s.workers[i].id == id
  }

  ghost predicate GoneOk(s: Pool) {
    forall i :: 0 <= i < |s.workers| && s.workers[i].Gone? ==> s.stop
  }

  ghost predicate Inv(world: World, s: Pool) {
    CacheOk(world, s) && JobsOk(world, s) && ResultsOk(world, s) && Placed(s) && GoneOk(s)
  }

  lemma {:induction false} StartInv(world: World, limit: nat, numWorkers: nat)
    requires world.opt.chunkSize > 0
    ensures Inv(world, Start(EmptyCache(world.opt.chunkSize, limit), numWorkers))
  {
  }

  lemma {:induction false} FillOk(world: World, s: Pool, path: Path, cid: nat)
    requires CacheOk(world, s) && path in world.env.files
    ensures var c := Chunk(world.env.files[path], cid, world.opt.chunkSize);
            var k := Key(path, cid);
            var d := s.cache.Insert(k, c.0, c.1);
            && d.Valid(s.leaked + Overwrites(s.cache, k, c.1)) && Coherent(world.env, d)
            && d.chunkSize == s.cache.chunkSize && d.limit == s.cache.limit
  {
    hide Agrees, Coherent, ReadBuffer, Books, Cache.Linked, Cache.MakeRoom;
    var (data, n) := Chunk(world.env.files[path], cid, world.opt.chunkSize);
    if n > 0 {
      BufferAgrees(world.env.files[path], cid, n, world.opt.chunkSize);
    }
    InsertCoherent(world.env, s.cache, path, cid, data, n);
    InsertValid(s.cache, Key(path, cid), data, n, s.leaked);
    MakeRoomKeepsSizes(s.cache);
  }

  lemma {:induction false} NextCacheOk(world: World, s: Pool, a: Action)
    requires Inv(world, s) && Enabled(world, s, a)
    ensures CacheOk(world, Next(world, s, a)) && Next(world, s, a).cache.limit == s.cache.limit
  {
    hide Placed, GoneOk, ResultsOk, Coherent, JobOk, Step, StepLeaks, Chunk, Overwrites, Cache.Valid, Cache.Insert;
    match a
    case Work(w, choice) =>
      assert BusyOk(world, s, s.workers[w]);
      StepOk(world, s.cache, s.leaked, s.workers[w].job, choice);
    case CallWork(i, choice) => StepOk(world, s.cache, s.leaked, s.callers[i], choice);
    case Fill(path, cid, choice) => if !PreadFails(world, path, choice) { FillOk(world, s, path, cid); }
    case _ =>
  }

  lemma {:induction false} NextJobsOk(world: World, s: Pool, a: Action)
    requires Inv(world, s) && Enabled(world, s, a)
    ensures JobsOk(world, Next(world, s, a))
  {
    hide Placed, GoneOk, ResultsOk, Coherent, JobOk, Step, StepLeaks, Chunk, Overwrites, Cache.Insert, Cache.Valid;
    match a
    case Take(w) => BeginOk(world, s.requests[s.queue[0]]);
    case Call(req) => BeginOk(world, req);
    case Work(w, choice) =>
      assert BusyOk(world, s, s.workers[w]);
      StepOk(world, s.cache, s.leaked, s.workers[w].job, choice);
    case CallWork(i, choice) => StepOk(world, s.cache, s.leaked, s.callers[i], choice);
    case _ =>
  }

  lemma {:induction false} NextResultsOk(world: World, s: Pool, a: Action)
    requires Inv(world, s) && Enabled(world, s, a)
    ensures ResultsOk(world, Next(world, s, a))
  {
    hide Placed, GoneOk, Coherent, JobOk, Step;
    if a.Deliver? {
      assert BusyOk(world, s, s.workers[a.w]);
      FinishedResult(world, s.workers[a.w].job);
    }
  }

  lemma {:induction false} FinishedResult(world: World, j: Job)
    requires world.opt.chunkSize > 0 && JobOk(world, j) && j.phase.Finished?
    ensures ResultOk(world, j.req, Result(j.phase.rc, j.out))
  {
    hide Holds, OnCut;
    if j.copied == 0 {
      HoldsNone(world.env, j.req, j.out);
    }
    assert j.phase.rc == Io ==> Holds(world.env, j.req, j.out, j.copied) && GaveUp(world, j.req, j.copied);
  }

  lemma {:induction false} HoldsNone(env: Env, req: Request, out: seq<byte>)
    requires |out| == req.Size()
    ensures Holds(env, req, out, 0) <==> out == req.buffer
  {
  }

  lemma {:induction false} NextFound(world: World, s: Pool, a: Action, id: nat)
    requires Inv(world, s) && Enabled(world, s, a) && id < |Next(world, s, a).started|
    ensures id in Next(world, s, a).results || OnWorker(Next(world, s, a), id)
  {
    hide CacheOk, JobsOk, ResultsOk, Step;
    var t := Next(world, s, a);
    if a.Take? && id == s.queue[0] {
      assert t.workers[a.w].id == id;
    } else if id !in t.results {
      var i :| 0 <= i < |s.workers| && s.workers[i].Busy? && s.workers[i].id == id;
      assert t.workers[i].Busy? && t.workers[i].id == id;
    }
  }

  lemma {:induction false} NextAlone(world: World, s: Pool, a: Action, i: nat)
    requires Inv(world, s) && Enabled(world, s, a)
    requires i < |Next(world, s, a).workers| && Next(world, s, a).workers[i].Busy?
    ensures RunsAlone(Next(world, s, a), i)
  {
    hide CacheOk, JobsOk, ResultsOk, Step, OnWorker;
    if s.workers[i].Busy? {
      assert RunsAlone(s, i);
    }
  }

  lemma {:induction false} NextPlaced(world: World, s: Pool, a: Action)
    requires Inv(world, s) && Enabled(world, s, a)
    ensures Placed(Next(world, s, a)) && GoneOk(Next(world, s, a))
  {
    hide CacheOk, JobsOk, ResultsOk, Step, OnWorker, RunsAlone;
    var t := Next(world, s, a);
    forall id | 0 <= id < |t.started| ensures id in t.results || OnWorker(t, id) {
      NextFound(world, s, a, id);
    }
    forall i | 0 <= i < |t.workers| && t.workers[i].Busy? ensures RunsAlone(t, i) {
      NextAlone(world, s, a, i);
    }
    NextQueue(world, s, a);
  }

  lemma {:induction false} NextQueue(world: World, s: Pool, a: Action)
    requires Inv(world, s) && Enabled(world, s, a)
    ensures var t := Next(world, s, a);
            && |t.started| + |t.queue| == |t.requests|
            && (forall i :: 0 <= i < |t.started| ==> t.started[i] == i)
            && (forall i :: 0 <= i < |t.queue| ==> t.queue[i] == |t.started| + i)
            && (forall id :: id in t.results ==> id < |t.started|)
            && GoneOk(t)
  {
    hide CacheOk, JobsOk, ResultsOk, Step, OnWorker;
    if a.Deliver? {
      assert RunsAlone(s, a.w);
    }
  }

  lemma {:induction false} NextInv(world: World, s: Pool, a: Action)
    requires Inv(world, s) && Enabled(world, s, a)
    ensures Inv(world, Next(world, s, a))
  {
    hide CacheOk, JobsOk, ResultsOk, Placed, GoneOk, Next;
    NextCacheOk(world, s, a);
    NextJobsOk(world, s, a);
    NextResultsOk(world, s, a);
    NextPlaced(world, s, a);
  }

  // ---------------------------------------------------------------- whole runs

  /** A list of actions in the order they happen; one that is not enabled is a thread that waits. */
  function Run(world: World, s: Pool, actions: seq<Action>): (t: Pool)
    requires Inv(world, s)
    ensures Inv(world, t) && t.cache.limit == s.cache.limit && |t.workers| == |s.workers|
    decreases |actions|
  {
    if actions == [] then s else Then(world, Run(world, s, actions[..|actions| - 1]), actions[|actions| - 1])
  }

  function Then(world: World, s: Pool, a: Action): (t: Pool)
    requires Inv(world, s)
    ensures Inv(world, t) && t.cache.limit == s.cache.limit && |t.workers| == |s.workers|
  {
    if Enabled(world, s, a) then
      NextInv(world, s, a);
      NextCacheOk(world, s, a);
      NextWorkers(world, s, a);
      Next(world, s, a)
    else s
  }

  lemma {:induction false} NextWorkers(world: World, s: Pool, a: Action)
    requires Inv(world, s) && Enabled(world, s, a)
    ensures |Next(world, s, a).workers| == |s.workers|
  {
    hide Step, Inv;
  }

  function RunFromStart(world: World, limit: nat, numWorkers: nat, actions: seq<Action>): (t: Pool)
    requires world.opt.chunkSize > 0
    ensures Inv(world, t) && t.cache.limit == limit && |t.workers| == numWorkers
  {
    StartInv(world, limit, numWorkers);
    Run(world, Start(EmptyCache(world.opt.chunkSize, limit), numWorkers), actions)
  }

  /** Whatever the interleaving, even when reads race to insert one chunk: each finished request
      and each read that a caller finished has the file's bytes or a good reason not to, and the
      bytes cached stay within the limit. */
  lemma {:induction false} AnyInterleaving(world: World, limit: nat, numWorkers: nat, actions: seq<Action>)
    requires world.opt.chunkSize > 0
    ensures var t := RunFromStart(world, limit, numWorkers, actions);
            && (forall id :: id in t.results ==> id < |t.requests| && ResultOk(world, t.requests[id], t.results[id]))
            && (forall i :: 0 <= i < |t.callers| && t.callers[i].phase.Finished? ==>
                  ResultOk(world, t.callers[i].req, Result(t.callers[i].phase.rc, t.callers[i].out)))
            && |t.cache.table| * world.opt.chunkSize <= limit
  {
    hide JobOk, ResultOk, Run, Placed, GoneOk, Coherent;
    var t := RunFromStart(world, limit, numWorkers, actions);
    forall i | 0 <= i < |t.callers| && t.callers[i].phase.Finished?
      ensures ResultOk(world, t.callers[i].req, Result(t.callers[i].phase.rc, t.callers[i].out))
    {
      FinishedResult(world, t.callers[i]);
    }
    TimesIsProduct(|t.cache.table|, world.opt.chunkSize);
  }

  /** On a device that does not fail, what a request comes to: its status, and every byte of the
      caller's buffer. */
  lemma {:induction false} ResultIs(world: World, req: Request, r: Result)
    requires world.opt.chunkSize > 0 && world.env.reliable && ResultOk(world, req, r)
    ensures r.rc == (if Blocked(world, req) || Unservable(world, req) then Refusal(world, req) else Ok)
    ensures r.rc == Ok ==> r.out == world.env.files[req.path][req.offset..req.offset + req.Size()]
    ensures |r.out| == req.Size() && Holds(world.env, req, r.out, Delivered(world, req))
  {
    if r.rc == Io {
      var n: nat :| Holds(world.env, req, r.out, n) && GaveUp(world, req, n);
    }
  }

  /** How much of its range a request gets, on a device that does not fail. */
  function Delivered(world: World, req: Request): nat
    requires world.opt.chunkSize > 0
  {
    if Blocked(world, req) || req.path !in world.env.files then 0
    else Served(req.offset, req.Size(), world.opt.chunkSize, |world.env.files[req.path]|)
  }

  lemma {:induction false} SameBuffer(env: Env, req: Request, a: seq<byte>, b: seq<byte>, n: nat)
    requires |a| == |b| == req.Size() && Holds(env, req, a, n) && Holds(env, req, b, n)
    ensures a == b
  {
  }

  /** On a device that does not fail, two requests for the same bytes come to the same status and,
      when it is OK, the same bytes, in whatever two runs, pools and caches and under whatever
      options they were made; with the same chunk size and the same buffer before, they leave the
      same buffer, whatever the status. */
  lemma {:induction false} ScheduleIndependent(world: World, limit: nat, numWorkers: nat, actions: seq<Action>, id: nat,
                            world': World, limit': nat, numWorkers': nat, actions': seq<Action>, id': nat)
    requires world.opt.chunkSize > 0 && world'.opt.chunkSize > 0
    requires world'.env == world.env && world'.cudaAvailable == world.cudaAvailable && world.env.reliable
    requires var s, s' := RunFromStart(world, limit, numWorkers, actions), RunFromStart(world', limit', numWorkers', actions');
             && id in s.results && id' in s'.results && id < |s.requests| && id' < |s'.requests|
             && s.requests[id].(buffer := []) == s'.requests[id'].(buffer := [])
             && s.requests[id].Size() == s'.requests[id'].Size()
    ensures var s, s' := RunFromStart(world, limit, numWorkers, actions), RunFromStart(world', limit', numWorkers', actions');
            && s.results[id].rc == s'.results[id'].rc
            && (s.results[id].rc == Ok ==> s.results[id].out == s'.results[id'].out)
            && (s.requests[id] == s'.requests[id'] && world.opt.chunkSize == world'.opt.chunkSize ==>
                  s.results[id] == s'.results[id'])
  {
    hide Run, RunFromStart, ResultOk, CacheOk, JobsOk, Placed, Holds, Served;
    var s, s' := RunFromStart(world, limit, numWorkers, actions), RunFromStart(world', limit', numWorkers', actions');
    SomeChunk(world, s);
    SomeChunk(world', s');
    ResultIs(world, s.requests[id], s.results[id]);
    ResultIs(world', s'.requests[id'], s'.results[id']);
    if s.requests[id] == s'.requests[id'] && world.opt.chunkSize == world'.opt.chunkSize {
      SameBuffer(world.env, s.requests[id], s.results[id].out, s'.results[id'].out, Delivered(world, s.requests[id]));
    }
  }

  lemma {:induction false} SomeChunk(world: World, s: Pool)
    requires Inv(world, s)
    ensures world.opt.chunkSize > 0
  {
  }

  /** A submitted request is in exactly one place, once, and taken at most once. */
  lemma {:induction false} OnePlace(world: World, s: Pool, id: nat)
    requires Inv(world, s) && id < |s.requests|
    ensures id in s.queue || OnWorker(s, id) || id in s.results
    ensures !(id in s.queue && OnWorker(s, id)) && !(id in s.queue && id in s.results)
    ensures !(OnWorker(s, id) && id in s.results)
    ensures id in s.started <==> id !in s.queue
    ensures forall i, j :: 0 <= i < j < |s.started| ==> s.started[i] != s.started[j]
    ensures forall i, j :: 0 <= i < j < |s.queue| ==> s.queue[i] != s.queue[j]
    ensures forall i, j :: 0 <= i < j < |s.workers| && s.workers[i].Busy? && s.workers[j].Busy? ==>
              s.workers[i].id != s.workers[j].id
  {
    hide CacheOk, JobsOk, ResultsOk, GoneOk;
    if id < |s.started| {
      assert s.started[id] == id;
    } else {
      assert s.queue[id - |s.started|] == id;
    }
  }

  /** Once a request is done, nothing changes its result, and requests are never forgotten. */
  lemma {:induction false} ResultsAreFinal(world: World, s: Pool, actions: seq<Action>)
    requires Inv(world, s)
    ensures var t := Run(world, s, actions);
            && (forall id :: id in s.results ==> id in t.results && t.results[id] == s.results[id])
            && |s.requests| <= |t.requests| && t.requests[..|s.requests|] == s.requests
            && (s.stop ==> t.stop)
    decreases |actions|
  {
    hide Inv, Then;
    if actions != [] {
      var m := Run(world, s, actions[..|actions| - 1]);
      ResultsAreFinal(world, s, actions[..|actions| - 1]);
      ThenKeepsResults(world, m, actions[|actions| - 1]);
    }
  }

  lemma {:induction false} ThenKeepsResults(world: World, s: Pool, a: Action)
    requires Inv(world, s)
    ensures var t := Then(world, s, a);
            && (forall id :: id in s.results ==> id in t.results && t.results[id] == s.results[id])
            && |s.requests| <= |t.requests| && t.requests[..|s.requests|] == s.requests
            && (s.stop ==> t.stop)
  {
    hide CacheOk, JobsOk, ResultsOk, GoneOk, Step;
    if a.Deliver? && Enabled(world, s, a) {
      assert RunsAlone(s, a.w);
    }
  }

  // ---------------------------------------------------------------- draining

  function Cost(w: Worker): nat {
    match w
    case Idle => 1
    case Busy(_, job) => 2 + ReadJobs.Work(job)
    case Gone => 0
  }

  function PoolCost(workers: seq<Worker>): nat {
    if workers == [] then 0 else Cost(workers[0]) + PoolCost(workers[1..])
  }

  function QueueCost(requests: seq<Request>, queue: seq<nat>): nat {
    if queue == [] then 0
    else (if queue[0] < |requests| then 2 + 3 * requests[queue[0]].Size() else 0) + QueueCost(requests, queue[1..])
  }

  /** At most this many worker actions are left. */
  function Remaining(s: Pool): nat {
    PoolCost(s.workers) + QueueCost(s.requests, s.queue)
  }

  lemma {:induction false} PoolCostUpdate(workers: seq<Worker>, i: nat, w: Worker)
    requires i < |workers|
    ensures PoolCost(workers[i := w]) == PoolCost(workers) - Cost(workers[i]) + Cost(w)
  {
    if i == 0 {
      assert workers[i := w][1..] == workers[1..];
    } else {
      assert workers[i := w][1..] == workers[1..][i - 1 := w];
      PoolCostUpdate(workers[1..], i - 1, w);
    }
  }

  /** What a submission adds. */
  function Brings(a: Action): nat {
    if a.Submit? then 2 + 3 * a.req.Size() else 0
  }

  lemma {:induction false} QueueCostAppend(requests: seq<Request>, queue: seq<nat>, req: Request)
    requires forall i :: 0 <= i < |queue| ==> queue[i] < |requests|
    ensures QueueCost(requests + [req], queue + [|requests|]) == QueueCost(requests, queue) + Brings(Submit(req))
  {
    if queue == [] {
      assert ([] + [|requests|])[1..] == [];
    } else {
      assert (queue + [|requests|])[1..] == queue[1..] + [|requests|];
      QueueCostAppend(requests, queue[1..], req);
    }
  }

  /** Worker actions use up what remains, submissions add to it, and nothing else moves it. */
  lemma {:induction false} NextRemaining(world: World, s: Pool, a: Action)
    requires Inv(world, s) && Enabled(world, s, a)
    ensures if a.ByWorker() then Remaining(Next(world, s, a)) < Remaining(s)
            else Remaining(Next(world, s, a)) == Remaining(s) + Brings(a)
  {
    hide Coherent, ResultsOk, GoneOk, JobOk, Step, StepLeaks, Chunk, Overwrites, Cache.Insert, Cache.Valid, ReadJobs.Work;
    var t := Next(world, s, a);
    match a
    case Submit(req) => QueueCostAppend(s.requests, s.queue, req);
    case Take(w) =>
      PoolCostUpdate(s.workers, w, t.workers[w]);
      BeginWork(world, s.requests[s.queue[0]]);
    case Work(w, choice) =>
      assert BusyOk(world, s, s.workers[w]);
      PoolCostUpdate(s.workers, w, t.workers[w]);
      StepWorks(world, s.cache, s.workers[w].job, choice);
    case Deliver(w) => PoolCostUpdate(s.workers, w, Idle);
    case Leave(w) => PoolCostUpdate(s.workers, w, Gone);
    case _ =>
  }

  lemma {:induction false} BeginWork(world: World, req: Request)
    ensures ReadJobs.Work(Begin(world, req)) <= 3 * req.Size()
  {
  }

  /** How many of the actions are taken by workers. */
  function WorkerActions(world: World, s: Pool, actions: seq<Action>): nat
    requires Inv(world, s)
    decreases |actions|
  {
    if actions == [] then 0 else
      var last := actions[|actions| - 1];
      WorkerActions(world, s, actions[..|actions| - 1]) +
      if last.ByWorker() && Enabled(world, Run(world, s, actions[..|actions| - 1]), last) then 1 else 0
  }

  /** What all the submissions add. */
  function Brought(actions: seq<Action>): nat
    decreases |actions|
  {
    if actions == [] then 0 else Brought(actions[..|actions| - 1]) + Brings(actions[|actions| - 1])
  }

  /** Workers can act only so often: what remained, and what was submitted since, bounds it. */
  lemma {:induction false} WorkersFinish(world: World, s: Pool, actions: seq<Action>)
    requires Inv(world, s)
    ensures WorkerActions(world, s, actions) + Remaining(Run(world, s, actions)) <= Remaining(s) + Brought(actions)
    decreases |actions|
  {
    hide Inv, Remaining, Next, Enabled, Brings;
    if actions != [] {
      var m := Run(world, s, actions[..|actions| - 1]);
      WorkersFinish(world, s, actions[..|actions| - 1]);
      if Enabled(world, m, actions[|actions| - 1]) {
        NextRemaining(world, m, actions[|actions| - 1]);
      }
    }
  }

  ghost predicate AllWait(world: World, s: Pool) {
    forall a: Action :: a.ByWorker() ==> !Enabled(world, s, a)
  }

  /** Some worker has not left. */
  ghost predicate Alive(s: Pool) {
    exists i :: 0 <= i < |s.workers| && !s.workers[i].Gone?
  }

  lemma {:induction false} NotStoppedAlive(world: World, s: Pool)
    requires Inv(world, s) && !s.stop && |s.workers| > 0
    ensures Alive(s)
  {
    assert !s.workers[0].Gone?;
  }

  /** When the workers all wait, every request taken is done; the queue is empty unless all have
      left, as after a stop they have. */
  lemma {:induction false} WaitingMeansDone(world: World, s: Pool)
    requires Inv(world, s) && AllWait(world, s)
    ensures forall id :: 0 <= id < |s.started| ==> id in s.results
    ensures Alive(s) ==> s.queue == []
    ensures s.stop ==> !Alive(s)
  {
    hide CacheOk, JobsOk, ResultsOk, GoneOk;
    forall i | 0 <= i < |s.workers| ensures !s.workers[i].Busy? {
      assert !Enabled(world, s, Work(i, Choice(false, false))) && !Enabled(world, s, Deliver(i));
    }
    forall i | 0 <= i < |s.workers| && !s.workers[i].Gone? ensures s.queue == [] && !s.stop {
      assert !Enabled(world, s, Take(i)) && !Enabled(world, s, Leave(i));
    }
  }

  /** A request is taken before the last worker leaves. */
  lemma {:induction false} TakenOrAliveNext(world: World, s: Pool, a: Action, id: nat)
    requires Inv(world, s) && id < |s.requests| && (id < |s.started| || Alive(s))
    ensures var t := Then(world, s, a); id < |t.requests| && (id < |t.started| || Alive(t))
  {
    hide CacheOk, JobsOk, ResultsOk, GoneOk, Step;
    if Alive(s) && Enabled(world, s, a) && !a.Leave? {
      var i :| 0 <= i < |s.workers| && !s.workers[i].Gone?;
      assert !Then(world, s, a).workers[i].Gone?;
    }
  }

  lemma {:induction false} TakenOrAlive(world: World, s: Pool, actions: seq<Action>, id: nat)
    requires Inv(world, s) && id < |s.requests| && (id < |s.started| || Alive(s))
    ensures var t := Run(world, s, actions); id < |t.requests| && (id < |t.started| || Alive(t))
    decreases |actions|
  {
    hide Inv, Then, Alive;
    if actions != [] {
      TakenOrAlive(world, s, actions[..|actions| - 1], id);
      TakenOrAliveNext(world, Run(world, s, actions[..|actions| - 1]), actions[|actions| - 1], id);
    }
  }

  lemma {:induction false} ThenGone(world: World, s: Pool, a: Action)
    requires Inv(world, s) && !Alive(s)
    ensures var t := Then(world, s, a); !Alive(t) && t.started == s.started
  {
    hide CacheOk, JobsOk, ResultsOk, GoneOk, Placed, Step, StepLeaks, Chunk, Overwrites;
  }

  /** Once all have left, nothing is taken any more. */
  lemma {:induction false} GoneForGood(world: World, s: Pool, actions: seq<Action>)
    requires Inv(world, s) && !Alive(s)
    ensures var t := Run(world, s, actions); !Alive(t) && t.started == s.started
    decreases |actions|
  {
    hide Inv, Then, Alive;
    if actions != [] {
      GoneForGood(world, s, actions[..|actions| - 1]);
      ThenGone(world, Run(world, s, actions[..|actions| - 1]), actions[|actions| - 1]);
    }
  }

  /** A submission, even one made after a stop, is served exactly when some worker has not left by
      then. */
  lemma {:induction false} SubmissionServedIff(world: World, s: Pool, req: Request, actions: seq<Action>)
    requires Inv(world, s)
    requires AllWait(world, Run(world, Then(world, s, Submit(req)), actions))
    ensures var t := Run(world, Then(world, s, Submit(req)), actions);
            && (|s.requests| in t.results <==> Alive(s))
            && (Alive(s) ==> ResultOk(world, req, t.results[|s.requests|]))
  {
    hide CacheOk, JobsOk, GoneOk, Run, ResultOk, AllWait;
    var id, n := |s.requests|, Then(world, s, Submit(req));
    var t := Run(world, n, actions);
    assert n.requests[id] == req && n.workers == s.workers;
    ResultsAreFinal(world, n, actions);
    WaitingMeansDone(world, t);
    if Alive(s) {
      TakenOrAlive(world, n, actions, id);
      assert t.requests[id] == t.requests[..|n.requests|][id] == req;
    } else {
      GoneForGood(world, n, actions);
    }
  }

  /** Finalizing drains: from a stop, the workers take a bounded number of actions, and when none can
      act all have left and every request submitted before the stop has its final, correct result. */
  lemma {:induction false} FinalizeDrains(world: World, s: Pool, actions: seq<Action>)
    requires Inv(world, s) && !s.stop && |s.workers| > 0
    ensures WorkerActions(world, Then(world, s, Stop), actions) <= Remaining(s) + Brought(actions)
    ensures var t := Run(world, Then(world, s, Stop), actions);
            AllWait(world, t) ==>
              !Alive(t) && forall id :: 0 <= id < |s.requests| ==>
                             id in t.results && ResultOk(world, s.requests[id], t.results[id])
  {
    hide CacheOk, JobsOk, Placed, GoneOk, ResultOk, Run, WorkerActions, AllWait;
    var n := Then(world, s, Stop);
    NotStoppedAlive(world, s);
    WorkersFinish(world, n, actions);
    NextRemaining(world, s, Stop);
    ResultsAreFinal(world, n, actions);
    var t := Run(world, n, actions);
    if AllWait(world, t) {
      WaitingMeansDone(world, t);
      assert n.workers == s.workers;
      SomeChunk(world, s);
      forall id | 0 <= id < |s.requests| ensures id in t.results && ResultOk(world, s.requests[id], t.results[id]) {
        TakenOrAlive(world, n, actions, id);
        assert t.requests[id] == t.requests[..|n.requests|][id];
      }
    }
  }
}
