/** The counters of paths and outcomes while any number of reads are under way. */
module RequestCounters {
  import opened Storage
  import PathSelector
  import opened ChunkCache
  import opened Coherence
  import opened ReadJobs
  import opened Requests

  datatype Flow = Flow(selectedGds: nat, selectedPosix: nat, selectedCache: nat,
                       dramHits: nat, dramMisses: nat, gdsReads: nat, gdsFallbacks: nat) {
    function Selections(): nat {
      selectedGds + selectedPosix + selectedCache
    }

    function Outcomes(): nat {
      dramHits + dramMisses + gdsReads + gdsFallbacks
    }

    function Select(p: PathSelector.Path): Flow {
      if p.GdsRead? || p.GdsStubFallback? then this.(selectedGds := selectedGds + 1)
      else if p.DramHit? || p.PosixReadThenCache? then this.(selectedCache := selectedCache + 1)
      else this.(selectedPosix := selectedPosix + 1)
    }
  }

  /** What a step of a read books: the path it selects, or the outcome of the piece it delivers. */
  function JobFlow(w: World, j: Job, next: Job, choice: Choice, f: Flow): Flow
    requires w.opt.chunkSize > 0 && JobOk(w, j)
  {
    match j.phase
    case AtLookup => if next.phase.Chosen? then f.Select(next.phase.p) else f
    case Chosen(p, _) =>
      if next.phase.Admitting? || next.phase == Finished(Io) then f
      else if p.DramHit? then f.(dramHits := f.dramHits + 1)
      else if p.GdsRead? || p.GdsStubFallback? then
        if GdsServes(w, j.req.path, j.Cur(), j.Need(w.opt.chunkSize), choice) then f.(gdsReads := f.gdsReads + 1)
        else f.(gdsFallbacks := f.gdsFallbacks + 1)
      else f.(dramMisses := f.dramMisses + 1)
    case Admitting(_, _) => f.(dramMisses := f.dramMisses + 1)
    case Finished(_) => f
  }

  function NextFlow(world: World, s: Pool, a: Action, f: Flow): Flow
    requires Inv(world, s) && Enabled(world, s, a)
  {
    match a
    case Work(w, choice) =>
      assert BusyOk(world, s, s.workers[w]);
      JobFlow(world, s.workers[w].job, Step(world, s.cache, s.workers[w].job, choice).1, choice, f)
    case CallWork(i, choice) =>
      JobFlow(world, s.callers[i], Step(world, s.cache, s.callers[i], choice).1, choice, f)
    case _ => f
  }

  /** The counters along a run. */
  function RunFlow(world: World, s: Pool, actions: seq<Action>, f: Flow): Flow
    requires Inv(world, s)
    decreases |actions|
  {
    if actions == [] then f
    else
      var before, last := actions[..|actions| - 1], actions[|actions| - 1];
      var m, g := Run(world, s, before), RunFlow(world, s, before, f);
      if Enabled(world, m, last) then NextFlow(world, m, last, g) else g
  }

  function FlowFromStart(world: World, limit: nat, numWorkers: nat, actions: seq<Action>): Flow
    requires world.opt.chunkSize > 0
  {
    StartInv(world, limit, numWorkers);
    RunFlow(world, Start(EmptyCache(world.opt.chunkSize, limit), numWorkers), actions, Flow(0, 0, 0, 0, 0, 0, 0))
  }

  // ---------------------------------------------------------------- what is selected but not booked

  /** A path was selected for the read's piece, and the piece is not delivered: it is under way, or
      the read has failed. */
  function Owes(j: Job): nat {
    match j.phase
    case AtLookup => 0
    case Chosen(_, _) => 1
    case Admitting(_, _) => 1
    case Finished(rc) => if rc == Io then 1 else 0
  }

  lemma {:induction false} StepFlow(w: World, cache: Cache, j: Job, choice: Choice, f: Flow)
    requires w.opt.chunkSize > 0 && JobOk(w, j) && !j.phase.Finished?
    ensures var next := Step(w, cache, j, choice).1;
            var g := JobFlow(w, j, next, choice, f);
            g.Selections() + f.Outcomes() + Owes(j) == f.Selections() + g.Outcomes() + Owes(next)
  {
    hide JobOk, Paste, ReadBuffer, PathSelector.SelectPath;
    JobOkFacts(w, j);
  }

  /** Which counter a step moves, told from what the step did: a selection at the lookup, by the path
      chosen, and at most one outcome, when the piece is delivered: a hit for a hit, a miss for a
      piece read as a file; for a piece sent to GDS a GDS read if it works, is on and the piece is
      aligned, else a fallback. */
  lemma {:induction false} StepBooks(w: World, cache: Cache, j: Job, choice: Choice, f: Flow)
    requires w.opt.chunkSize > 0 && JobOk(w, j) && !j.phase.Finished?
    ensures var next := Step(w, cache, j, choice).1;
            var g := JobFlow(w, j, next, choice, f);
            var delivered := next.copied > j.copied;
            var hit := j.phase.Chosen? && j.phase.p.DramHit?;
            var gds := j.phase.Chosen? && (j.phase.p.GdsRead? || j.phase.p.GdsStubFallback?);
            && g.dramHits - f.dramHits == (if delivered && hit then 1 else 0)
            && g.gdsReads + g.gdsFallbacks - f.gdsReads - f.gdsFallbacks == (if delivered && gds then 1 else 0)
            && g.dramMisses - f.dramMisses == (if delivered && !hit && !gds then 1 else 0)
            && (delivered && gds ==>
                  (g.gdsReads > f.gdsReads <==>
                     w.opt.enableGds && choice.gdsWorks && w.opt.gdsAlignment > 0 &&
                     j.Cur() % w.opt.gdsAlignment == 0 && (next.copied - j.copied) % w.opt.gdsAlignment == 0))
            && g.selectedGds - f.selectedGds ==
               (if j.phase.AtLookup? && (next.phase.p.GdsRead? || next.phase.p.GdsStubFallback?) then 1 else 0)
            && g.selectedPosix - f.selectedPosix == (if j.phase.AtLookup? && next.phase.p.PosixRead? then 1 else 0)
            && g.Selections() - f.Selections() == (if j.phase.AtLookup? then 1 else 0)
            && f.gdsReads <= g.gdsReads && f.gdsFallbacks <= g.gdsFallbacks
  {
    hide Holds, OnCut, Paste, ReadBuffer, PathSelector.SelectPath;
  }

  lemma {:induction false} BeginOwesNothing(w: World, req: Request)
    ensures Owes(Begin(w, req)) == 0
  {
  }

  function OwedByWorker(w: Worker): nat {
    if w.Busy? then Owes(w.job) else 0
  }

  function OwedByWorkers(workers: seq<Worker>): nat {
    if workers == [] then 0 else OwedByWorker(workers[0]) + OwedByWorkers(workers[1..])
  }

  function OwedByCallers(callers: seq<Job>): nat
    decreases |callers|
  {
    if callers == [] then 0 else OwedByCallers(callers[..|callers| - 1]) + Owes(callers[|callers| - 1])
  }

  /** Requests that are done and failed. */
  ghost function Failed(s: Pool): set<nat> {
    set id | id in s.results && s.results[id].rc == Io
  }

  ghost function Owed(s: Pool): nat {
    OwedByWorkers(s.workers) + OwedByCallers(s.callers) + |Failed(s)|
  }

  lemma {:induction false} WorkersUpdate(workers: seq<Worker>, i: nat, w: Worker)
    requires i < |workers|
    ensures OwedByWorkers(workers[i := w]) + OwedByWorker(workers[i]) == OwedByWorkers(workers) + OwedByWorker(w)
  {
    if i == 0 {
      assert workers[i := w][1..] == workers[1..];
    } else {
      assert workers[i := w][1..] == workers[1..][i - 1 := w];
      WorkersUpdate(workers[1..], i - 1, w);
    }
  }

  lemma {:induction false} CallersUpdate(callers: seq<Job>, i: nat, j: Job)
    requires i < |callers|
    ensures OwedByCallers(callers[i := j]) + Owes(callers[i]) == OwedByCallers(callers) + Owes(j)
  {
    var n := |callers| - 1;
    if i == n {
      assert callers[i := j][..n] == callers[..n];
    } else {
      assert callers[i := j][..n] == callers[..n][i := j];
      CallersUpdate(callers[..n], i, j);
    }
  }

  lemma {:induction false} CallersAppend(callers: seq<Job>, j: Job)
    ensures OwedByCallers(callers + [j]) == OwedByCallers(callers) + Owes(j)
  {
    assert (callers + [j])[..|callers|] == callers;
  }

  lemma {:induction false} IdlersOwe(n: nat)
    ensures OwedByWorkers(Idlers(n)) == 0
  {
    AllIdle(Idlers(n));
  }

  lemma {:induction false} AllIdle(workers: seq<Worker>)
    requires forall i :: 0 <= i < |workers| ==> workers[i] == Idle
    ensures OwedByWorkers(workers) == 0
  {
    if workers != [] {
      AllIdle(workers[1..]);
    }
  }

  lemma {:induction false} FailedMore(s: Pool, t: Pool, id: nat, r: Result)
    requires id !in s.results && t.results == s.results[id := r]
    ensures |Failed(t)| == |Failed(s)| + if r.rc == Io then 1 else 0
  {
    assert Failed(t) == if r.rc == Io then Failed(s) + {id} else Failed(s);
  }

  lemma {:induction false} FailedDelivered(world: World, s: Pool, w: nat)
    requires Inv(world, s) && Enabled(world, s, Deliver(w))
    ensures |Failed(Next(world, s, Deliver(w)))| == |Failed(s)| + Owes(s.workers[w].job)
  {
    hide CacheOk, JobsOk, ResultsOk, GoneOk, Failed, OnWorker;
    assert RunsAlone(s, w);
    var job := s.workers[w].job;
    FailedMore(s, Next(world, s, Deliver(w)), s.workers[w].id, Result(job.phase.rc, job.out));
  }

  ghost predicate Balanced(s: Pool, f: Flow) {
    f.Selections() == f.Outcomes() + Owed(s)
  }

  lemma {:induction false} NextBalanced(world: World, s: Pool, a: Action, f: Flow)
    requires Inv(world, s) && Enabled(world, s, a) && Balanced(s, f)
    ensures Balanced(Next(world, s, a), NextFlow(world, s, a, f))
  {
    hide Inv, Next, NextFlow, Enabled, Balanced;
    if a.ByWorker() {
      WorkerBalanced(world, s, a, f);
    } else {
      CallerBalanced(world, s, a, f);
    }
  }

  lemma {:induction false} WorkerBalanced(world: World, s: Pool, a: Action, f: Flow)
    requires Inv(world, s) && Enabled(world, s, a) && Balanced(s, f) && a.ByWorker()
    ensures Balanced(Next(world, s, a), NextFlow(world, s, a, f))
  {
    hide Coherent, ResultsOk, GoneOk, Placed, JobOk, Step, StepLeaks, Owes, JobFlow, Failed, Cache.Valid;
    var t := Next(world, s, a);
    match a
    case Take(w) =>
      WorkersUpdate(s.workers, w, t.workers[w]);
      BeginOwesNothing(world, s.requests[s.queue[0]]);
      SameFailed(s, t);
    case Work(w, choice) =>
      assert BusyOk(world, s, s.workers[w]);
      WorkersUpdate(s.workers, w, t.workers[w]);
      StepFlow(world, s.cache, s.workers[w].job, choice, f);
      SameFailed(s, t);
    case Deliver(w) =>
      WorkersUpdate(s.workers, w, Idle);
      FailedDelivered(world, s, w);
    case Leave(w) =>
      WorkersUpdate(s.workers, w, Gone);
      SameFailed(s, t);
  }

  lemma {:induction false} CallerBalanced(world: World, s: Pool, a: Action, f: Flow)
    requires Inv(world, s) && Enabled(world, s, a) && Balanced(s, f) && !a.ByWorker()
    ensures Balanced(Next(world, s, a), NextFlow(world, s, a, f))
  {
    hide Coherent, ResultsOk, GoneOk, Placed, JobOk, Step, StepLeaks, Chunk, Overwrites, Owes, JobFlow, Failed,
      Cache.Valid, Cache.Insert;
    var t := Next(world, s, a);
    SameFailed(s, t);
    match a
    case Call(req) =>
      CallersAppend(s.callers, Begin(world, req));
      BeginOwesNothing(world, req);
    case CallWork(i, choice) =>
      CallersUpdate(s.callers, i, t.callers[i]);
      StepFlow(world, s.cache, s.callers[i], choice, f);
    case _ =>
  }

  lemma {:induction false} SameFailed(s: Pool, t: Pool)
    requires t.results == s.results
    ensures Failed(t) == Failed(s)
  {
  }

  lemma {:induction false} RunBalanced(world: World, s: Pool, actions: seq<Action>, f: Flow)
    requires Inv(world, s) && Balanced(s, f)
    ensures Balanced(Run(world, s, actions), RunFlow(world, s, actions, f))
    decreases |actions|
  {
    hide Inv, Next, NextFlow, Enabled, Balanced;
    if actions != [] {
      var before := actions[..|actions| - 1];
      RunBalanced(world, s, before, f);
      if Enabled(world, Run(world, s, before), actions[|actions| - 1]) {
        NextBalanced(world, Run(world, s, before), actions[|actions| - 1], RunFlow(world, s, before, f));
      }
    }
  }

  /** In every interleaving, the paths selected are the outcomes booked, plus one for each read whose
      piece is under way and one for each read that failed. */
  lemma {:induction false} CountersBalance(world: World, limit: nat, numWorkers: nat, actions: seq<Action>)
    requires world.opt.chunkSize > 0
    ensures var t := RunFromStart(world, limit, numWorkers, actions);
            var f := FlowFromStart(world, limit, numWorkers, actions);
            f.Selections() == f.Outcomes() + OwedByWorkers(t.workers) + OwedByCallers(t.callers) + |Failed(t)|
  {
    hide Inv, Run;
    StartInv(world, limit, numWorkers);
    var s := Start(EmptyCache(world.opt.chunkSize, limit), numWorkers);
    IdlersOwe(numWorkers);
    assert Failed(s) == {};
    RunBalanced(world, s, actions, Flow(0, 0, 0, 0, 0, 0, 0));
  }
}
