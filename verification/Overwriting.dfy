/**
 When an insertion can overwrite a present key, and so cost the cache a chunk of capacity: for reads
 and prefetches made one after the other, and for any interleaving of them.
 */
module Overwriting {
  import opened Storage
  import PathSelector
  import opened ChunkCache
  import opened ChunkMath
  import opened Coherence
  import opened ReadJobs
  import opened Requests

  // ---------------------------------------------------------------- one call after the other

  /** No read and no chunk's prefetch is under way. */
  predicate Quiet(s: Pool) {
    |s.absent| == 0 && (s.callers == [] || s.callers[|s.callers| - 1].phase.Finished?)
  }

  /** What a single thread may do next: go on with its read, or start a read or a chunk's prefetch
      when it has none. A prefetch passes over cached chunks. */
  predicate InTurn(s: Pool, a: Action) {
    match a
    case Call(_) => Quiet(s)
    case CallWork(i, _) => i + 1 == |s.callers| && |s.absent| == 0
    case Check(_, _) => Quiet(s)
    case Fill(_, _, _) => true
    case _ => false
  }

  function SerialRun(world: World, s: Pool, actions: seq<Action>): (t: Pool)
    requires Inv(world, s)
    ensures Inv(world, t) && t.cache.limit == s.cache.limit
    decreases |actions|
  {
    if actions == [] then s
    else
      var m := SerialRun(world, s, actions[..|actions| - 1]);
      if InTurn(m, actions[|actions| - 1]) then Then(world, m, actions[|actions| - 1]) else m
  }

  function SerialFromStart(world: World, actions: seq<Action>): (t: Pool)
    requires world.opt.chunkSize > 0
    ensures Inv(world, t)
  {
    StartInv(world, world.opt.dramCacheSize, 0);
    SerialRun(world, Start(EmptyCache(world.opt.chunkSize, world.opt.dramCacheSize), 0), actions)
  }

  predicate BypassForced(opt: PathSelector.Options) {
    opt.bypassCache && opt.forcePosix
  }

  function KeyOf(w: World, j: Job): Key
    requires w.opt.chunkSize > 0
  {
    Key(j.req.path, Fit(j.Cur(), w.opt.chunkSize))
  }

  /** What a read that nobody interrupts knows of the cache. */
  ghost predicate Undisturbed(w: World, cache: Cache, j: Job)
    requires w.opt.chunkSize > 0 && JobOk(w, j)
  {
    var k := KeyOf(w, j);
    match j.phase
    case Chosen(p, _) =>
      p.PosixReadThenCache? && !BypassForced(w.opt) && k in cache.table ==>
        cache.table[k].entry.validSize < InChunk(j.Cur(), w.opt.chunkSize) + j.Need(w.opt.chunkSize)
    case Admitting(_, _) => w.opt.cacheAdmit && (!BypassForced(w.opt) ==> k !in cache.table)
    case _ => true
  }

  ghost predicate SerialOk(world: World, s: Pool)
    requires Inv(world, s)
  {
    && s.cache.limit == world.opt.dramCacheSize
    && (PathSelector.NeverOverwrites(world.opt) ==> s.leaked == 0)
    && (s.callers != [] ==> Undisturbed(world, s.cache, s.callers[|s.callers| - 1]))
    && |s.absent| <= 1 && (forall k :: k in s.absent ==> k !in s.cache.table)
    && (|s.absent| == 0 || s.callers == [] || s.callers[|s.callers| - 1].phase.Finished?)
  }

  lemma {:induction false} LookupUndisturbed(w: World, cache: Cache, j: Job, choice: Choice)
    requires w.opt.chunkSize > 0 && cache.chunkSize == w.opt.chunkSize && JobOk(w, j) && j.phase.AtLookup?
    requires JobOk(w, Step(w, cache, j, choice).1)
    ensures var (d, j') := Step(w, cache, j, choice); Undisturbed(w, d, j')
  {
    hide JobOk;
    JobOkFacts(w, j);
  }

  lemma {:induction false} ServeUndisturbed(w: World, cache: Cache, j: Job, choice: Choice)
    requires w.opt.chunkSize > 0 && cache.chunkSize == w.opt.chunkSize && Coherent(w.env, cache)
    requires JobOk(w, j) && j.phase.Chosen? && Undisturbed(w, cache, j)
    requires JobOk(w, Step(w, cache, j, choice).1)
    ensures var (d, j') := Step(w, cache, j, choice); Undisturbed(w, d, j')
  {
    hide JobOk, Holds, Paste, ReadBuffer, Coherent;
    JobOkFacts(w, j);
    if j.req.path in w.env.files {
      PresentIsWhole(w.env, cache, j.req.path, Fit(j.Cur(), w.opt.chunkSize));
    }
  }

  lemma {:induction false} StepUndisturbed(w: World, cache: Cache, leaked: nat, j: Job, choice: Choice)
    requires w.opt.chunkSize > 0 && cache.chunkSize == w.opt.chunkSize && cache.limit == w.opt.dramCacheSize
    requires cache.Valid(leaked) && Coherent(w.env, cache)
    requires JobOk(w, j) && !j.phase.Finished? && Undisturbed(w, cache, j)
    requires JobOk(w, Step(w, cache, j, choice).1)
    ensures var (d, j') := Step(w, cache, j, choice); Undisturbed(w, d, j')
    ensures PathSelector.NeverOverwrites(w.opt) ==> StepLeaks(w, cache, j) == 0
  {
    hide JobOk, Coherent;
    match j.phase
    case AtLookup => LookupUndisturbed(w, cache, j, choice);
    case Chosen(_, _) => ServeUndisturbed(w, cache, j, choice);
    case Admitting(data, n) =>
      JobOkFacts(w, j);
      MakeRoomSubset(cache);
      SmallNeverOverwrites(cache, leaked, KeyOf(w, j), n);
  }

  lemma {:induction false} SerialNext(world: World, s: Pool, a: Action)
    requires Inv(world, s) && SerialOk(world, s) && InTurn(s, a)
    ensures SerialOk(world, Then(world, s, a))
  {
    hide Inv, SerialOk, Next, Enabled;
    if Enabled(world, s, a) {
      match a
      case Call(req) => SerialCall(world, s, req);
      case CallWork(i, choice) => SerialWork(world, s, i, choice);
      case Check(path, cid) => SerialCheck(world, s, path, cid);
      case Fill(path, cid, choice) => SerialFill(world, s, path, cid, choice);
    } else {
      StaysPut(world, s, a);
    }
  }

  lemma {:induction false} StaysPut(world: World, s: Pool, a: Action)
    requires Inv(world, s) && !Enabled(world, s, a)
    ensures Then(world, s, a) == s
  {
    hide Inv, Enabled;
  }

  lemma {:induction false} SerialCall(world: World, s: Pool, req: Request)
    requires Inv(world, s) && SerialOk(world, s) && InTurn(s, Call(req))
    ensures SerialOk(world, Then(world, s, Call(req)))
  {
    hide Undisturbed, Placed, GoneOk, ResultsOk, Coherent, JobOk, PathSelector.NeverOverwrites;
    BeginOk(world, req);
    BeginUndisturbed(world, s.cache, req);
  }

  lemma {:induction false} SerialCheck(world: World, s: Pool, path: Path, cid: nat)
    requires Inv(world, s) && SerialOk(world, s) && InTurn(s, Check(path, cid))
    ensures SerialOk(world, Then(world, s, Check(path, cid)))
  {
    hide Undisturbed, Placed, GoneOk, ResultsOk, Coherent, JobOk, PathSelector.NeverOverwrites;
  }

  lemma {:induction false} SerialWork(world: World, s: Pool, i: nat, choice: Choice)
    requires Inv(world, s) && SerialOk(world, s) && InTurn(s, CallWork(i, choice)) && Enabled(world, s, CallWork(i, choice))
    ensures SerialOk(world, Then(world, s, CallWork(i, choice)))
  {
    hide Undisturbed, Placed, GoneOk, ResultsOk, Coherent, JobOk, Step, StepLeaks, PathSelector.NeverOverwrites;
    StepOk(world, s.cache, s.leaked, s.callers[i], choice);
    StepUndisturbed(world, s.cache, s.leaked, s.callers[i], choice);
  }

  lemma {:induction false} SerialFill(world: World, s: Pool, path: Path, cid: nat, choice: Choice)
    requires Inv(world, s) && SerialOk(world, s) && Enabled(world, s, Fill(path, cid, choice))
    ensures SerialOk(world, Then(world, s, Fill(path, cid, choice)))
  {
    hide Undisturbed, Inv, Enabled, Next, PathSelector.NeverOverwrites;
    FillKeeps(world, s, path, cid, choice);
    OneAbsent(s, Key(path, cid));
    FillUndisturbed(world, s, path, cid, choice);
  }

  /** Bringing in an absent chunk overwrites nothing. */
  lemma {:induction false} FillKeeps(world: World, s: Pool, path: Path, cid: nat, choice: Choice)
    requires Inv(world, s) && Enabled(world, s, Fill(path, cid, choice))
    ensures Key(path, cid) in s.absent
    ensures var t := Next(world, s, Fill(path, cid, choice));
            && t.cache.limit == s.cache.limit && t.callers == s.callers
            && t.absent == s.absent - multiset{Key(path, cid)}
            && (Key(path, cid) !in s.cache.table ==> t.leaked == s.leaked)
  {
    hide Placed, GoneOk, ResultsOk, JobsOk, Coherent, Chunk, Books, Cache.Linked;
    MakeRoomSubset(s.cache);
    MakeRoomKeepsSizes(s.cache);
  }

  lemma {:induction false} OneAbsent(s: Pool, k: Key)
    requires |s.absent| <= 1 && k in s.absent
    ensures |s.absent| == 1 && s.absent - multiset{k} == multiset{}
  {
    assert s.absent == multiset{k} + (s.absent - multiset{k});
  }

  lemma {:induction false} BeginUndisturbed(world: World, cache: Cache, req: Request)
    requires world.opt.chunkSize > 0 && JobOk(world, Begin(world, req))
    ensures Undisturbed(world, cache, Begin(world, req))
  {
  }

  lemma {:induction false} FillUndisturbed(world: World, s: Pool, path: Path, cid: nat, choice: Choice)
    requires Inv(world, s) && Enabled(world, s, Fill(path, cid, choice))
    requires s.callers == [] || s.callers[|s.callers| - 1].phase.Finished?
    ensures s.callers != [] ==>
              Undisturbed(world, Next(world, s, Fill(path, cid, choice)).cache, s.callers[|s.callers| - 1])
  {
    hide Placed, GoneOk, ResultsOk, Coherent, JobOk, Step;
  }

  lemma {:induction false} SerialRunOk(world: World, s: Pool, actions: seq<Action>)
    requires Inv(world, s) && SerialOk(world, s)
    ensures SerialOk(world, SerialRun(world, s, actions))
    decreases |actions|
  {
    hide Inv, SerialOk, InTurn, Then;
    if actions != [] {
      SerialRunOk(world, s, actions[..|actions| - 1]);
      var m := SerialRun(world, s, actions[..|actions| - 1]);
      if InTurn(m, actions[|actions| - 1]) {
        SerialNext(world, m, actions[|actions| - 1]);
      }
    }
  }

  // ---------------------------------------------------------------- a run that overwrites

  /** A file of one byte, on a sound device. */
  function OneByte(opt: PathSelector.Options): World {
    World(Env(map[0 := [0]], true), opt, false)
  }

  const TheRead: Request := Request(0, 0, [0], false)
  const TheKey: Key := Key(0, 0)
  const Now: Choice := Choice(false, false)

  lemma {:induction false} AtStart(c: nat)
    requires c > 0
    ensures Times(0, c) == 0 && Fit(0, c) == 0 && InChunk(0, c) == 0 && Piece(0, 1, c, 0) == 1 && Avail(1, 0, c) == 1
  {
  }

  /** The job after each of the read's steps. */
  function TheJob(c: nat, i: nat): Job {
    if i == 0 then Job(TheRead, 0, [0], AtLookup)
    else if i == 2 then Job(TheRead, 0, [0], Admitting(ReadBuffer([0], 0, 1, if c > 0 then c else 1), 1))
    else Job(TheRead, 1, [0], Finished(Ok))
  }

  lemma {:induction false} FirstStep(w: World, cache: Cache)
    requires w == OneByte(w.opt) && w.opt.chunkSize > 0 && BypassForced(w.opt) && JobOk(w, TheJob(w.opt.chunkSize, 0))
    ensures var (d, j) := Step(w, cache, TheJob(w.opt.chunkSize, 0), Now);
            d == cache.Lookup(TheKey) && j.phase.Chosen? && j.phase.p.PosixReadThenCache? &&
            j == TheJob(w.opt.chunkSize, 0).(phase := j.phase)
    ensures StepLeaks(w, cache, TheJob(w.opt.chunkSize, 0)) == 0
  {
    hide JobOk;
    AtStart(w.opt.chunkSize);
  }

  lemma {:induction false} SecondStep(w: World, cache: Cache, j: Job)
    requires w == OneByte(w.opt) && w.opt.chunkSize > 0 && w.opt.cacheAdmit && JobOk(w, j)
    requires j == TheJob(w.opt.chunkSize, 0).(phase := j.phase) && j.phase.Chosen? && j.phase.p.PosixReadThenCache?
    ensures Step(w, cache, j, Now) == (cache, TheJob(w.opt.chunkSize, 2)) && StepLeaks(w, cache, j) == 0
  {
    hide JobOk, Fit, Times, Piece, Paste, ReadBuffer, Avail;
    AtStart(w.opt.chunkSize);
    ServedByte(w.opt.chunkSize);
  }

  lemma {:induction false} ServedByte(c: nat)
    requires c > 0
    ensures ReadBuffer([0], 0, 1, c)[0..1] == [0] && Paste([0], 0, [0]) == [0]
  {
    var buf := ReadBuffer([0], 0, 1, c);
    assert buf[0] == 0;
  }

  lemma {:induction false} ThirdStep(w: World, cache: Cache)
    requires w == OneByte(w.opt) && w.opt.chunkSize > 0 && JobOk(w, TheJob(w.opt.chunkSize, 2))
    ensures Step(w, cache, TheJob(w.opt.chunkSize, 2), Now) ==
            (cache.Insert(TheKey, ReadBuffer([0], 0, 1, w.opt.chunkSize), 1), TheJob(w.opt.chunkSize, 3))
    ensures StepLeaks(w, cache, TheJob(w.opt.chunkSize, 2)) == Overwrites(cache, TheKey, 1)
  {
    hide JobOk, ReadBuffer, Overwrites;
    AtStart(w.opt.chunkSize);
  }

  lemma {:induction false} SerialRunNext(w: World, s: Pool, actions: seq<Action>, a: Action)
    requires Inv(w, s) && InTurn(SerialRun(w, s, actions), a)
    ensures SerialRun(w, s, actions + [a]) == Then(w, SerialRun(w, s, actions), a)
  {
    assert (actions + [a])[..|actions|] == actions;
  }

  lemma {:induction false} CallerSteps(w: World, s: Pool, n: nat)
    requires Inv(w, s) && n + 1 == |s.callers| && !s.callers[n].phase.Finished?
    ensures JobOk(w, s.callers[n]) && w.opt.chunkSize > 0
    ensures var (cache, j) := Step(w, s.cache, s.callers[n], Now);
            Then(w, s, CallWork(n, Now)) ==
              s.(cache := cache, leaked := s.leaked + StepLeaks(w, s.cache, s.callers[n]), callers := s.callers[n := j])
  {
    hide JobOk, Step, StepLeaks, Placed, GoneOk, ResultsOk;
  }

  /** The four actions of one read, when the cache is bypassed with POSIX forced: the chunk goes into
      the cache, whether it was there or not. */
  lemma {:induction false} OneRead(w: World, s: Pool) returns (actions: seq<Action>)
    requires w == OneByte(w.opt) && w.opt.chunkSize > 0 && BypassForced(w.opt) && w.opt.cacheAdmit
    requires Inv(w, s) && Quiet(s)
    ensures var t := SerialRun(w, s, actions);
            var looked := s.cache.Lookup(TheKey);
            && Quiet(t)
            && t.cache == looked.Insert(TheKey, ReadBuffer([0], 0, 1, w.opt.chunkSize), 1)
            && t.leaked == s.leaked + Overwrites(looked, TheKey, 1)
  {
    hide Inv, ReadBuffer, Overwrites, Step, StepLeaks, SerialRun, Next;
    var n, c := |s.callers|, w.opt.chunkSize;
    var work := CallWork(n, Now);
    SerialRunNone(w, s);
    SerialRunNext(w, s, [], Call(TheRead));
    CallIsTheJob(w, s);
    var s1 := SerialRun(w, s, [] + [Call(TheRead)]);
    CallerSteps(w, s1, n);
    FirstStep(w, s1.cache);
    SerialRunNext(w, s, [] + [Call(TheRead)], work);
    var s2 := SerialRun(w, s, [] + [Call(TheRead)] + [work]);
    CallerSteps(w, s2, n);
    SecondStep(w, s2.cache, s2.callers[n]);
    SerialRunNext(w, s, [] + [Call(TheRead)] + [work], work);
    var s3 := SerialRun(w, s, [] + [Call(TheRead)] + [work] + [work]);
    CallerSteps(w, s3, n);
    ThirdStep(w, s3.cache);
    SerialRunNext(w, s, [] + [Call(TheRead)] + [work] + [work], work);
    actions := [] + [Call(TheRead)] + [work] + [work] + [work];
    assert SerialRun(w, s, actions).callers[n] == TheJob(c, 3);
  }

  lemma {:induction false} SerialRunNone(w: World, s: Pool)
    requires Inv(w, s)
    ensures SerialRun(w, s, []) == s
  {
  }

  lemma {:induction false} CallIsTheJob(w: World, s: Pool)
    requires Inv(w, s) && w == OneByte(w.opt)
    ensures Then(w, s, Call(TheRead)) == s.(callers := s.callers + [TheJob(w.opt.chunkSize, 0)])
  {
    hide Inv;
  }

  lemma {:induction false} SerialRunConcat(w: World, s: Pool, a: seq<Action>, b: seq<Action>)
    requires Inv(w, s)
    ensures SerialRun(w, s, a + b) == SerialRun(w, SerialRun(w, s, a), b)
    decreases |b|
  {
    hide Inv, Then, InTurn;
    if b == [] {
      assert a + b == a;
    } else {
      assert (a + b)[..|a + b| - 1] == a + b[..|b| - 1];
      SerialRunConcat(w, s, a, b[..|b| - 1]);
    }
  }

  /** Into an empty cache nothing is overwritten; into one that has the key and room for another
      chunk, the key is. */
  lemma {:induction false} InsertTwice(c: nat, limit: nat, data: seq<byte>)
    requires c > 0 && |data| == c && limit >= c + c
    ensures var empty := EmptyCache(c, limit).Lookup(TheKey);
            var one := empty.Insert(TheKey, data, 1);
            empty == EmptyCache(c, limit) && Overwrites(empty, TheKey, 1) == 0 &&
            Overwrites(one.Lookup(TheKey), TheKey, 1) == 1 &&
            Overwrites(one, TheKey, 1) == 1
  {
    var empty := EmptyCache(c, limit);
    assert empty.Lookup(TheKey) == empty && empty.MakeRoom() == empty;
    var one := empty.Insert(TheKey, data, 1);
    assert one == empty.Admit(TheKey, data, 1) && one.used == c;
    assert one.MakeRoom() == one;
    assert one.Lookup(TheKey).MakeRoom() == one.Lookup(TheKey);
  }

  ghost predicate SerialOverwrites(world: World, actions: seq<Action>) {
    world.opt.chunkSize > 0 && SerialFromStart(world, actions).leaked > 0
  }

  lemma {:induction false} SerialWitness(opt: PathSelector.Options) returns (actions: seq<Action>)
    requires opt.chunkSize > 0 && !PathSelector.NeverOverwrites(opt)
    ensures SerialOverwrites(OneByte(opt), actions)
  {
    hide Inv, Overwrites, SerialRun, Cache.Insert, Cache.Lookup, ReadBuffer;
    var w, c := OneByte(opt), opt.chunkSize;
    StartInv(w, opt.dramCacheSize, 0);
    var s := Start(EmptyCache(c, opt.dramCacheSize), 0);
    var first := OneRead(w, s);
    var second := OneRead(w, SerialRun(w, s, first));
    SerialRunConcat(w, s, first, second);
    InsertTwice(c, opt.dramCacheSize, ReadBuffer([0], 0, 1, c));
    actions := first + second;
  }

  /** Exactly the options under which calls made one after the other can overwrite a present key. */
  lemma {:induction false} SerialOverwritesIff(opt: PathSelector.Options)
    requires opt.chunkSize > 0
    ensures (exists world: World, actions: seq<Action> :: world.opt == opt && SerialOverwrites(world, actions)) <==>
            opt.bypassCache && opt.forcePosix && opt.cacheAdmit && opt.dramCacheSize >= 2 * opt.chunkSize
  {
    hide SerialRun, Inv;
    if world: World, actions: seq<Action> :| world.opt == opt && SerialOverwrites(world, actions) {
      StartInv(world, opt.dramCacheSize, 0);
      SerialRunOk(world, Start(EmptyCache(opt.chunkSize, opt.dramCacheSize), 0), actions);
    }
    if !PathSelector.NeverOverwrites(opt) {
      var actions := SerialWitness(opt);
      assert OneByte(opt).opt == opt && SerialOverwrites(OneByte(opt), actions);
    }
  }

  // ---------------------------------------------------------------- any interleaving

  lemma {:induction false} SmallStepLeaks(world: World, s: Pool, a: Action)
    requires Inv(world, s) && s.cache.limit < 2 * s.cache.chunkSize
    ensures Then(world, s, a).leaked == s.leaked
  {
    hide Placed, GoneOk, ResultsOk, JobsOk, Coherent, Step, Overwrites;
    if Enabled(world, s, a) {
      match a
      case Work(w, _) =>
        var j := s.workers[w].job;
        SmallNeverOverwrites(s.cache, s.leaked, KeyOf(world, j), if j.phase.Admitting? then j.phase.n else 0);
      case CallWork(i, _) =>
        var j := s.callers[i];
        SmallNeverOverwrites(s.cache, s.leaked, KeyOf(world, j), if j.phase.Admitting? then j.phase.n else 0);
      case Fill(path, cid, _) =>
        SmallNeverOverwrites(s.cache, s.leaked, Key(path, cid),
                             if path in world.env.files then Chunk(world.env.files[path], cid, world.opt.chunkSize).1 else 0);
      case _ =>
    }
  }

  lemma {:induction false} SmallRunLeaks(world: World, s: Pool, actions: seq<Action>)
    requires Inv(world, s) && s.cache.limit < 2 * world.opt.chunkSize
    ensures Run(world, s, actions).leaked == s.leaked
    decreases |actions|
  {
    hide Placed, GoneOk, ResultsOk, JobsOk, Coherent, Then;
    if actions != [] {
      SmallRunLeaks(world, s, actions[..|actions| - 1]);
      SmallStepLeaks(world, Run(world, s, actions[..|actions| - 1]), actions[|actions| - 1]);
    }
  }

  ghost predicate RaceOverwrites(world: World, actions: seq<Action>) {
    world.opt.chunkSize > 0 && RunFromStart(world, world.opt.dramCacheSize, 0, actions).leaked > 0
  }

  const CheckIt: Action := Check(0, 0)
  const FillIt: Action := Fill(0, 0, Now)

  /** Two prefetches check for a chunk, both find it absent, and both bring it in. */
  lemma {:induction false} RaceWitness(opt: PathSelector.Options)
    requires opt.chunkSize > 0 && opt.dramCacheSize >= 2 * opt.chunkSize
    ensures RaceOverwrites(OneByte(opt), [CheckIt, CheckIt, FillIt, FillIt])
  {
    hide Inv, Overwrites, Cache.Insert, ReadBuffer, Run, Next, Enabled;
    var w, c := OneByte(opt), opt.chunkSize;
    StartInv(w, opt.dramCacheSize, 0);
    var s := Start(EmptyCache(c, opt.dramCacheSize), 0);
    RunFour(w, s, CheckIt, CheckIt, FillIt, FillIt);
    AtStart(c);
    InsertTwice(c, opt.dramCacheSize, ReadBuffer([0], 0, 1, c));
    CheckStep(w, s);
    CheckStep(w, Then(w, s, CheckIt));
    var checked := Then(w, Then(w, s, CheckIt), CheckIt);
    FillStep(w, checked);
    FillStep(w, Then(w, checked, FillIt));
  }

  lemma {:induction false} RunFour(w: World, s: Pool, a: Action, b: Action, c: Action, d: Action)
    requires Inv(w, s)
    ensures Run(w, s, [a, b, c, d]) == Then(w, Then(w, Then(w, Then(w, s, a), b), c), d)
  {
    hide Inv, Then;
    assert [a, b, c, d][..3] == [a, b, c] && [a, b, c][..2] == [a, b] && [a, b][..1] == [a] && [a][..0] == [];
    assert Run(w, s, [a]) == Then(w, s, a);
    assert Run(w, s, [a, b]) == Then(w, Run(w, s, [a]), b);
    assert Run(w, s, [a, b, c]) == Then(w, Run(w, s, [a, b]), c);
  }

  lemma {:induction false} CheckStep(w: World, s: Pool)
    requires Inv(w, s) && TheKey !in s.cache.table
    ensures Then(w, s, CheckIt) == s.(absent := s.absent + multiset{TheKey})
  {
    hide Inv;
  }

  lemma {:induction false} FillStep(w: World, s: Pool)
    requires Inv(w, s) && w == OneByte(w.opt) && w.opt.chunkSize > 0 && TheKey in s.absent
    ensures Then(w, s, FillIt) ==
            s.(absent := s.absent - multiset{TheKey},
               cache := s.cache.Insert(TheKey, ReadBuffer([0], 0, 1, w.opt.chunkSize), 1),
               leaked := s.leaked + Overwrites(s.cache, TheKey, 1))
  {
    hide Inv, Overwrites, Cache.Insert, ReadBuffer;
    AtStart(w.opt.chunkSize);
  }

  /** When calls overlap, options do not help: some run overwrites a present key exactly when there
      is room for two chunks. */
  lemma {:induction false} RaceOverwritesIff(opt: PathSelector.Options)
    requires opt.chunkSize > 0
    ensures (exists world: World, actions: seq<Action> :: world.opt == opt && RaceOverwrites(world, actions)) <==>
            opt.dramCacheSize >= 2 * opt.chunkSize
  {
    hide Run, Inv;
    if world: World, actions: seq<Action> :| world.opt == opt && RaceOverwrites(world, actions) {
      if opt.dramCacheSize < 2 * opt.chunkSize {
        StartInv(world, opt.dramCacheSize, 0);
        SmallRunLeaks(world, Start(EmptyCache(opt.chunkSize, opt.dramCacheSize), 0), actions);
      }
    }
    if opt.dramCacheSize >= 2 * opt.chunkSize {
      RaceWitness(opt);
      assert OneByte(opt).opt == opt;
    }
  }
}
