/** memtier_readv: sort, coalesce, read once per group, scatter. */
module VectorRead {
  import opened Storage
  import PathSelector
  import opened ChunkMath
  import opened Coalescing
  import opened Coherence
  import opened CacheDirectory
  import opened ReadRuntime

  /** A range and the position of its buffer among the caller's. */
  datatype Item = Item(range: Range, dst: nat)

  function Ranges(items: seq<Item>): (r: seq<Range>)
    ensures |r| == |items|
    ensures forall i :: 0 <= i < |items| ==> r[i] == items[i].range
  {
    if items == [] then [] else Ranges(items[..|items| - 1]) + [items[|items| - 1].range]
  }

  /** Order of the sort: by path, then by offset. */
  predicate Less(a: Item, b: Item) {
    if a.range.path != b.range.path then a.range.path < b.range.path else a.range.off < b.range.off
  }

  ghost predicate Sorted(items: seq<Item>) {
    forall i, j :: 0 <= i < j < |items| ==> !Less(items[j], items[i])
  }

  function Insert(s: seq<Item>, x: Item): (r: seq<Item>)
    ensures |r| == |s| + 1
  {
    if s == [] || !Less(x, s[|s| - 1]) then s + [x]
    else Insert(s[..|s| - 1], x) + [s[|s| - 1]]
  }

  /** A stable sort; the program's library sort promises no more than SortSorts says. */
  function Sort(items: seq<Item>): (r: seq<Item>)
    ensures |r| == |items|
  {
    if items == [] then [] else Insert(Sort(items[..|items| - 1]), items[|items| - 1])
  }

  lemma {:induction false} InsertKeeps(s: seq<Item>, x: Item)
    ensures multiset(Insert(s, x)) == multiset(s) + multiset{x}
    ensures SumSizes(Ranges(Insert(s, x))) == SumSizes(Ranges(s)) + x.range.size
  {
    if s == [] || !Less(x, s[|s| - 1]) {
      AppendSize(s, x);
    } else {
      var init, last := s[..|s| - 1], s[|s| - 1];
      assert s == init + [last];
      InsertKeeps(init, x);
      AppendSize(Insert(init, x), last);
      AppendSize(init, last);
    }
  }

  lemma {:induction false} InsertSorted(s: seq<Item>, x: Item)
    requires Sorted(s)
    ensures Sorted(Insert(s, x))
    ensures forall y :: y in Insert(s, x) ==> y in s || y == x
  {
    if s != [] && Less(x, s[|s| - 1]) {
      var init, last := s[..|s| - 1], s[|s| - 1];
      InsertSorted(init, x);
      var r := Insert(init, x);
      forall a | 0 <= a < |r| ensures !Less(last, r[a]) {
        assert r[a] in init || r[a] == x;
      }
    }
  }

  /** What the sort promises: the same items in order, and so the same total size. */
  lemma {:induction false} SortSorts(items: seq<Item>)
    ensures Sorted(Sort(items)) && multiset(Sort(items)) == multiset(items)
    ensures SumSizes(Ranges(Sort(items))) == SumSizes(Ranges(items))
  {
    hide Sorted, Insert, Ranges, SumSizes;
    if items != [] {
      var init, last := items[..|items| - 1], items[|items| - 1];
      SortSorts(init);
      InsertSorted(Sort(init), last);
      InsertKeeps(Sort(init), last);
      assert items == init + [last];
      AppendSize(init, last);
    } else {
      EmptySorted();
    }
  }

  lemma {:induction false} EmptySorted()
    ensures Sorted([])
  {
  }

  lemma {:induction false} AppendSize(a: seq<Item>, x: Item)
    ensures SumSizes(Ranges(a + [x])) == SumSizes(Ranges(a)) + x.range.size
  {
    assert (a + [x])[..|a|] == a;
    assert (Ranges(a) + [x.range])[..|a|] == Ranges(a);
  }

  /** A range that a single read would deliver. */
  predicate Readable(env: Env, r: Range) {
    r.path in env.files && r.End() <= |env.files[r.path]|
  }

  /** The item's own slice of its file is in its buffer, which is otherwise as before. */
  ghost predicate ItemRead(env: Env, it: Item, before: seq<byte>, after: seq<byte>) {
    it.range.path in env.files && Filled(env.files[it.range.path], it.range.off, it.range.size, before, after, 0)
  }

  /** Buffers are as large as their ranges, and no two items share one. */
  ghost predicate Prepared(items: seq<Item>, dsts: seq<array<byte>>) {
    && (forall k :: 0 <= k < |items| ==> ItemFits(items[k], dsts))
    && (forall a, b :: 0 <= a < b < |items| ==> items[a].dst != items[b].dst)
    && (forall a, b :: 0 <= a < b < |dsts| ==> dsts[a] != dsts[b])
  }

  ghost predicate ItemFits(it: Item, dsts: seq<array<byte>>) {
    it.dst < |dsts| && 0 < it.range.size <= dsts[it.dst].Length
  }

  lemma {:induction false} SpanReadable(env: Env, s: seq<Range>, i: nat, j: nat, gap: nat, maxSpan: nat)
    requires GroupOk(s, i, j, gap, maxSpan)
    ensures s[i].off <= s[j - 1].End()
    ensures forall k :: i <= k < j ==> s[k].path == s[i].path && s[i].off <= s[k].off && s[k].End() <= s[j - 1].End()
    ensures Readable(env, Range(s[i].path, s[i].off, s[j - 1].End() - s[i].off)) <==>
            (forall k :: i <= k < j ==> Readable(env, s[k]))
  {
    forall k | i <= k < j
      ensures s[k].path == s[i].path && s[i].off <= s[k].off && s[k].End() <= s[j - 1].End()
    {
      ChainForward(s, i, k, gap);
      ChainForward(s, k, j - 1, gap);
    }
  }

  /** The group starting at i: how far it reaches and how many bytes it spans. */
  method Coalesce(items: seq<Item>, i: nat, gap: nat, maxSpan: nat) returns (j: nat, total: nat)
    requires i < |items|
    ensures i < j <= |items| && j == GreedyEnd(Ranges(items), i, gap, maxSpan)
    ensures GroupOk(Ranges(items), i, j, gap, maxSpan)
    ensures items[i].range.off + total == items[j - 1].range.End()
  {
    ghost var s := Ranges(items);
    var base := items[i].range.off;
    j, total := i + 1, items[i].range.size;
    while j < |items| && items[j].range.path == items[i].range.path
      invariant i < j <= |items| && GroupOk(s, i, j, gap, maxSpan)
      invariant base + total == s[j - 1].End()
      invariant Extend(s, i, j, gap, maxSpan) == GreedyEnd(s, i, gap, maxSpan)
      decreases |items| - j
    {
      ChainForward(s, i, j - 1, gap);
      var prevEnd := base + total;
      var next := items[j].range;
      if next.off >= prevEnd && next.off - prevEnd <= gap && next.off + next.size - base <= maxSpan {
        total := next.off + next.size - base;
        j := j + 1;
      } else {
        break;
      }
    }
    ChainForward(s, i, j - 1, gap);
  }

  /** The buffer holds the item's part of a group's bytes, and is otherwise as before. */
  ghost predicate Scattered(it: Item, base: nat, tmp: seq<byte>, before: seq<byte>, after: seq<byte>)
    requires base <= it.range.off && it.range.End() - base <= |tmp|
  {
    && |after| == |before|
    && forall b :: 0 <= b < |after| ==>
         after[b] == if b < it.range.size then tmp[it.range.off - base + b] else before[b]
  }

  /** Copies each item's part of a group's bytes to its own buffer. */
  method Scatter(items: seq<Item>, dsts: seq<array<byte>>, i: nat, j: nat, base: nat, tmp: array<byte>)
    requires i <= j <= |items| && Prepared(items, dsts) && tmp !in dsts
    requires forall k :: i <= k < j ==> base <= items[k].range.off && items[k].range.End() - base <= tmp.Length
    modifies set d | d in dsts
    ensures forall k :: 0 <= k < |items| && !(i <= k < j) ==> dsts[items[k].dst][..] == old(dsts[items[k].dst][..])
    ensures forall k :: i <= k < j ==>
              Scattered(items[k], base, tmp[..], old(dsts[items[k].dst][..]), dsts[items[k].dst][..])
  {
    var k := i;
    while k < j
      invariant i <= k <= j && tmp[..] == old(tmp[..])
      invariant forall m :: 0 <= m < |items| && !(i <= m < k) ==> dsts[items[m].dst][..] == old(dsts[items[m].dst][..])
      invariant forall m :: i <= m < k ==>
        Scattered(items[m], base, tmp[..], old(dsts[items[m].dst][..]), dsts[items[m].dst][..])
    {
      assert ItemFits(items[k], dsts) && dsts[items[k].dst] in dsts;
      CopyPart(items[k], dsts[items[k].dst], base, tmp);
      k := k + 1;
    }
  }

  method CopyPart(it: Item, dst: array<byte>, base: nat, tmp: array<byte>)
    requires dst != tmp && it.range.size <= dst.Length
    requires base <= it.range.off && it.range.End() - base <= tmp.Length
    modifies dst
    ensures Scattered(it, base, tmp[..], old(dst[..]), dst[..])
  {
    var off := it.range.off - base;
    forall b | 0 <= b < it.range.size {
      dst[b] := tmp[off + b];
    }
  }

  /** Whether copies to the requested target can succeed at all. */
  predicate Deliverable(ctx: Context, target: Target) {
    target.Cpu? || ctx.cudaAvailable
  }

  lemma {:induction false} ScatteredIsRead(env: Env, it: Item, base: nat, total: nat, tmp0: seq<byte>,
      tmp: seq<byte>, before: seq<byte>, after: seq<byte>)
    requires it.range.path in env.files && base <= it.range.off && it.range.End() - base <= total == |tmp|
    requires 0 < it.range.size <= |before|
    requires Filled(env.files[it.range.path], base, total, tmp0, tmp, 0)
    requires Scattered(it, base, tmp, before, after)
    ensures ItemRead(env, it, before, after)
  {
  }

  /** After a call that fails a buffer holds its own slice, or what it held before. */
  ghost predicate ReadOrUntouched(env: Env, it: Item, before: seq<byte>, after: seq<byte>) {
    after == before || ItemRead(env, it, before, after)
  }

  /** The counters with the number of reads set aside. */
  function WithTotal(t: Stats, total: nat): Stats {
    t.(totalRequests := total)
  }

  /** The counters with those of the vector read itself set aside. */
  function AsBefore(t: Stats, before: Stats): Stats {
    t.(totalRequests := before.totalRequests, readvRequests := before.readvRequests, originalRanges := before.originalRanges,
       coalescedRanges := before.coalescedRanges, coalescedBytes := before.coalescedBytes)
  }

  /** The pieces that reading each greedy group from i on once takes. */
  function Pieces(s: seq<Range>, i: nat, opt: PathSelector.Options): nat
    requires i <= |s| && opt.chunkSize > 0
    decreases |s| - i
  {
    if i == |s| then 0
    else
      var e := GreedyEnd(s, i, opt.coalesceGap, opt.maxCoalesceSize);
      var span := s[e - 1].End() - s[i].off;
      (if span > 0 then ChunkCount(s[i].off, span, opt.chunkSize) else 0) + Pieces(s, e, opt)
  }

  lemma {:induction false} PiecesNext(s: seq<Range>, i: nat, j: nat, total: nat, opt: PathSelector.Options)
    requires i < |s| && opt.chunkSize > 0 && total > 0
    requires j == GreedyEnd(s, i, opt.coalesceGap, opt.maxCoalesceSize) && s[i].off + total == s[j - 1].End()
    ensures Pieces(s, i, opt) == ChunkCount(s[i].off, total, opt.chunkSize) + Pieces(s, j, opt)
  {
  }

  lemma {:induction false} NoPieces(s: seq<Range>, opt: PathSelector.Options)
    requires opt.chunkSize > 0
    ensures Pieces(s, |s|, opt) == 0
  {
  }

  lemma {:induction false} FlowGroup(opt: PathSelector.Options, gdsSound: bool, a: Stats, b: Stats, c: Stats,
                                     m: nat, n: nat, x: nat, y: nat)
    requires FlowOk(opt, gdsSound, a, WithTotal(b, a.totalRequests), m, x)
    requires FlowOk(opt, gdsSound, b, WithTotal(c, b.totalRequests), n, y)
    ensures FlowOk(opt, gdsSound, a, WithTotal(c, a.totalRequests), m + n, x + y)
  {
    FlowTotal(opt, gdsSound, b, WithTotal(c, b.totalRequests), n, y, a.totalRequests);
    FlowThen(opt, gdsSound, a, WithTotal(b, a.totalRequests), WithTotal(c, a.totalRequests), m, n, x, y);
  }

  lemma {:induction false} FlowTotal(opt: PathSelector.Options, gdsSound: bool, a: Stats, b: Stats,
                                     n: nat, x: nat, total: nat)
    requires FlowOk(opt, gdsSound, a, b, n, x)
    ensures FlowOk(opt, gdsSound, WithTotal(a, total), WithTotal(b, total), n, x)
  {
    hide PathSelector.CachedOnly;
  }

  lemma {:induction false} FailedElsewhere(opt: PathSelector.Options, gdsSound: bool, a: Stats, b: Stats, x: nat)
    requires FailedFlow(opt, gdsSound, a, b, x)
    ensures b.SameElsewhere(a)
  {
    hide FlowOk;
    var mid: Stats, n: nat :| FlowOk(opt, gdsSound, a, mid, n, x) && SelectedAs(mid, b, b.lastSelectedPath);
    FlowElsewhere(opt, gdsSound, a, mid, n, x);
  }

  /** The one read of a group's span, into a buffer of its own. */
  method ReadSpan(ctx: Context, path: Path, base: nat, total: nat, tmp: array<byte>) returns (rc: Status)
    requires ctx.Valid() && ctx.opt.chunkSize > 0 && 0 < total == tmp.Length
    modifies ctx`stats, ctx`unserved, ctx.cache, tmp
    ensures ctx.Valid() && (rc == Ok || rc == Io)
    ensures rc == Ok ==> path in ctx.env.files && Filled(ctx.env.files[path], base, total, old(tmp[..]), tmp[..], 0)
    ensures rc == Io && ctx.env.reliable ==> !Readable(ctx.env, Range(path, base, total))
    ensures ctx.stats.totalRequests == old(ctx.stats.totalRequests) + if rc == Io then 0 else 1
    ensures WithTotal(ctx.stats, old(ctx.stats.totalRequests)).SameElsewhere(old(ctx.stats))
    ensures rc == Ok ==>
              FlowOk(ctx.opt, ctx.gdsSound, old(ctx.stats), WithTotal(ctx.stats, old(ctx.stats.totalRequests)),
                     ChunkCount(base, total, ctx.opt.chunkSize), total)
    ensures ctx.unserved == old(ctx.unserved) + if rc == Io then 1 else 0
  {
    hide Context.Valid, AllIn, Filled, FlowOk, AfterRead, Served, PathSelector.CachedOnly;
    ghost var stats0, served := ctx.stats, 0;
    rc, served := ctx.DoRead(path, base, total, tmp, Cpu);
    if rc == Ok {
      FlowElsewhere(ctx.opt, ctx.gdsSound, stats0, WithTotal(ctx.stats, stats0.totalRequests),
                    ChunkCount(base, total, ctx.opt.chunkSize), total);
    } else {
      FailedElsewhere(ctx.opt, ctx.gdsSound, stats0, ctx.stats, served);
    }
  }

  /** The counters of the vector read itself. */
  method CountReadv(ctx: Context, ranges: nat, coalesced: nat, cbytes: nat)
    requires ctx.Valid()
    modifies ctx`stats
    ensures ctx.Valid()
    ensures ctx.stats == old(ctx.stats).(readvRequests := old(ctx.stats.readvRequests) + 1,
                                         originalRanges := old(ctx.stats.originalRanges) + ranges,
                                         coalescedRanges := old(ctx.stats.coalescedRanges) + coalesced,
                                         coalescedBytes := old(ctx.stats.coalescedBytes) + cbytes)
  {
    hide Sound, Coherent;
    ctx.stats := ctx.stats.(readvRequests := ctx.stats.readvRequests + 1,
                            originalRanges := ctx.stats.originalRanges + ranges,
                            coalescedRanges := ctx.stats.coalescedRanges + coalesced,
                            coalescedBytes := ctx.stats.coalescedBytes + cbytes);
  }

  /** A group's bytes, read from the file, reach every buffer of the group as its own slice. */
  method ScatterRead(ghost env: Env, items: seq<Item>, dsts: seq<array<byte>>, i: nat, j: nat, base: nat,
                     tmp: array<byte>, ghost tmp0: seq<byte>, ghost gap: nat, ghost maxSpan: nat)
    requires Prepared(items, dsts) && tmp !in dsts && GroupOk(Ranges(items), i, j, gap, maxSpan)
    requires base == items[i].range.off && base + tmp.Length == items[j - 1].range.End()
    requires items[i].range.path in env.files
    requires Filled(env.files[items[i].range.path], base, tmp.Length, tmp0, tmp[..], 0)
    modifies set d | d in dsts
    ensures forall k :: 0 <= k < |items| && !(i <= k < j) ==> dsts[items[k].dst][..] == old(dsts[items[k].dst][..])
    ensures forall k :: i <= k < j ==> ItemRead(env, items[k], old(dsts[items[k].dst][..]), dsts[items[k].dst][..])
  {
    hide Adjacent, Filled;
    ghost var s := Ranges(items);
    SpanReadable(env, s, i, j, gap, maxSpan);
    forall k | i <= k < j
      ensures base <= items[k].range.off && items[k].range.End() - base <= tmp.Length
    {
      assert s[k] == items[k].range;
    }
    Scatter(items, dsts, i, j, base, tmp);
    forall k | i <= k < j
      ensures ItemRead(env, items[k], old(dsts[items[k].dst][..]), dsts[items[k].dst][..])
    {
      assert s[k].path == s[i].path;
      ScatteredIsRead(env, items[k], base, tmp.Length, tmp0, tmp[..], old(dsts[items[k].dst][..]), dsts[items[k].dst][..]);
    }
  }

  /** One group: read its span once, then give every item its part. */
  method ReadGroup(ctx: Context, items: seq<Item>, dsts: seq<array<byte>>, i: nat, target: Target)
    returns (rc: Status, j: nat, total: nat)
    requires ctx.Valid() && i < |items| && Prepared(items, dsts)
    modifies ctx`stats, ctx`unserved, ctx.cache, set d | d in dsts
    ensures ctx.Valid()
    ensures j == GreedyEnd(Ranges(items), i, ctx.opt.coalesceGap, ctx.opt.maxCoalesceSize)
    ensures GroupOk(Ranges(items), i, j, ctx.opt.coalesceGap, ctx.opt.maxCoalesceSize)
    ensures i < j <= |items| && items[i].range.off + total == items[j - 1].range.End()
    ensures rc == Ok || rc == Io || rc == CudaError
    ensures forall k :: 0 <= k < |items| && !(i <= k < j) ==> dsts[items[k].dst][..] == old(dsts[items[k].dst][..])
    ensures rc == Ok ==> Deliverable(ctx, target)
    ensures rc == Ok ==> forall k :: i <= k < j ==>
              ItemRead(ctx.env, items[k], old(dsts[items[k].dst][..]), dsts[items[k].dst][..])
    ensures rc == Io && ctx.env.reliable ==> exists k :: i <= k < j && !Readable(ctx.env, items[k].range)
    ensures rc == CudaError ==> !Deliverable(ctx, target)
    ensures rc != Ok ==> forall k :: 0 <= k < |items| ==> dsts[items[k].dst][..] == old(dsts[items[k].dst][..])
    ensures ctx.stats.totalRequests == old(ctx.stats.totalRequests) + if rc == Io then 0 else 1
    ensures total > 0
    ensures rc == Ok ==>
              FlowOk(ctx.opt, ctx.gdsSound, old(ctx.stats), WithTotal(ctx.stats, old(ctx.stats.totalRequests)),
                     ChunkCount(items[i].range.off, total, ctx.opt.chunkSize), total)
    ensures ctx.unserved == old(ctx.unserved) + if rc == Io then 1 else 0
    ensures ctx.stats.readvRequests == old(ctx.stats.readvRequests)
    ensures ctx.stats.originalRanges == old(ctx.stats.originalRanges)
    ensures ctx.stats.coalescedRanges == old(ctx.stats.coalescedRanges)
    ensures ctx.stats.coalescedBytes == old(ctx.stats.coalescedBytes)
  {
    hide Sound, Coherent, Context.Valid, GreedyEnd, AllIn, Adjacent, Filled, FlowOk;
    ctx.PositiveSizes();
    ghost var s := Ranges(items);
    j, total := Coalesce(items, i, ctx.opt.coalesceGap, ctx.opt.maxCoalesceSize);
    SpanReadable(ctx.env, s, i, j, ctx.opt.coalesceGap, ctx.opt.maxCoalesceSize);
    var base := items[i].range.off;
    var tmp := new byte[total];
    ghost var tmp0 := tmp[..];
    rc := ReadSpan(ctx, items[i].range.path, base, total, tmp);
    if rc != Ok {
      if ctx.env.reliable {
        assert !Readable(ctx.env, Range(s[i].path, s[i].off, total));
        ghost var k :| i <= k < j && !Readable(ctx.env, s[k]);
        assert !Readable(ctx.env, items[k].range);
      }
      return;
    }
    if !Deliverable(ctx, target) {
      rc := CudaError;
      return;
    }
    ScatterRead(ctx.env, items, dsts, i, j, base, tmp, tmp0, ctx.opt.coalesceGap, ctx.opt.maxCoalesceSize);
  }

  // ---------------------------------------------------------------- the whole call

  lemma {:induction false} InsertElements(s: seq<Item>, x: Item)
    ensures forall y :: y in Insert(s, x) <==> y in s || y == x
  {
    if s != [] && Less(x, s[|s| - 1]) {
      InsertElements(s[..|s| - 1], x);
      assert s == s[..|s| - 1] + [s[|s| - 1]];
    }
  }

  ghost predicate OwnBuffers(items: seq<Item>) {
    forall a, b :: 0 <= a < b < |items| ==> items[a].dst != items[b].dst
  }

  lemma {:induction false} InsertOwn(s: seq<Item>, x: Item)
    requires OwnBuffers(s) && forall y :: y in s ==> y.dst != x.dst
    ensures OwnBuffers(Insert(s, x))
  {
    if s == [] || !Less(x, s[|s| - 1]) {
      forall k | 0 <= k < |s| ensures s[k].dst != x.dst {
        assert s[k] in s;
      }
    } else {
      var init, last := s[..|s| - 1], s[|s| - 1];
      assert last in s && s == init + [last];
      InsertOwn(init, x);
      InsertElements(init, x);
      AppendOwn(init, x, last, Insert(init, x));
    }
  }

  lemma {:induction false} AppendOwn(init: seq<Item>, x: Item, last: Item, r: seq<Item>)
    requires OwnBuffers(init + [last]) && OwnBuffers(r) && last.dst != x.dst
    requires forall y :: y in r ==> y in init || y == x
    ensures OwnBuffers(r + [last])
  {
    forall k | 0 <= k < |r| ensures r[k].dst != last.dst {
      assert r[k] in r;
      if r[k] != x {
        var m :| 0 <= m < |init| && init[m] == r[k];
        assert (init + [last])[m] == r[k] && (init + [last])[|init|] == last;
      }
    }
  }

  lemma {:induction false} SortOwn(items: seq<Item>)
    requires OwnBuffers(items)
    ensures OwnBuffers(Sort(items))
    ensures forall y :: y in Sort(items) <==> y in items
  {
    if items != [] {
      var init, last := items[..|items| - 1], items[|items| - 1];
      assert items == init + [last];
      SortOwn(init);
      forall y | y in Sort(init) ensures y.dst != last.dst {
        var m :| 0 <= m < |init| && init[m] == y;
        assert items[m] == y;
      }
      InsertOwn(Sort(init), last);
      InsertElements(Sort(init), last);
    }
  }

  /** The ranges as items, each with its own buffer's position. */
  function Items(ranges: seq<Range>): (r: seq<Item>)
    ensures |r| == |ranges|
    ensures forall i :: 0 <= i < |r| ==> r[i] == Item(ranges[i], i)
  {
    if ranges == [] then []
    else Items(ranges[..|ranges| - 1]) + [Item(ranges[|ranges| - 1], |ranges| - 1)]
  }

  lemma {:induction false} ItemRanges(ranges: seq<Range>)
    ensures Ranges(Items(ranges)) == ranges
  {
  }

  /** Where the loop over groups stands: items before i are read, the rest untouched, and the
      groups so far span their ranges plus at most one gap per join. */
  ghost predicate GroupsDone(s: seq<Range>, i: nat, groups: nat, bytes: nat, gap: nat, maxSpan: nat) {
    && i <= |s|
    && groups + |GreedyCuts(s, i, gap, maxSpan)| == |GreedyCuts(s, 0, gap, maxSpan)|
    && groups <= i
    && SumSizes(s[..i]) <= bytes <= SumSizes(s[..i]) + Times(i - groups, gap)
  }

  lemma {:induction false} GroupsNext(s: seq<Range>, i: nat, groups: nat, bytes: nat, j: nat, total: nat, gap: nat,
      maxSpan: nat)
    requires GroupsDone(s, i, groups, bytes, gap, maxSpan) && i < |s|
    requires j == GreedyEnd(s, i, gap, maxSpan) && GroupOk(s, i, j, gap, maxSpan)
    requires s[i].off + total == s[j - 1].End()
    ensures GroupsDone(s, j, groups + 1, bytes + total, gap, maxSpan)
  {
    hide SumSizes, Times, CanExtend, Adjacent, Extend;
    SpanBounds(s, i, j, gap);
    assert s[..j] == s[..i] + s[i..j];
    SumSizesConcat(s[..i], s[i..j]);
    TimesAdd(i - groups, j - i - 1, gap);
  }

  lemma {:induction false} NoGroupsYet(s: seq<Range>, gap: nat, maxSpan: nat)
    ensures GroupsDone(s, 0, 0, 0, gap, maxSpan)
  {
    assert s[..0] == [];
  }

  lemma {:induction false} AllGroupsDone(s: seq<Range>, groups: nat, bytes: nat, gap: nat, maxSpan: nat)
    requires GroupsDone(s, |s|, groups, bytes, gap, maxSpan)
    ensures groups == |GreedyCuts(s, 0, gap, maxSpan)| && groups <= |s|
    ensures SumSizes(s) <= bytes <= SumSizes(s) + Times(|s| - groups, gap)
  {
    assert s[..|s|] == s;
  }

  lemma {:induction false} TimesAdd(a: nat, b: nat, c: nat)
    ensures Times(a + b, c) == Times(a, c) + Times(b, c)
  {
    if b > 0 {
      TimesAdd(a, b - 1, c);
    }
  }

  /** Every group in turn. */
  method ReadGroups(ctx: Context, items: seq<Item>, dsts: seq<array<byte>>, target: Target) returns (rc: Status,
      coalesced: nat, cbytes: nat)
    requires ctx.Valid() && Prepared(items, dsts)
    modifies ctx`stats, ctx`unserved, ctx.cache, set d | d in dsts
    ensures ctx.Valid()
    ensures rc == Ok || rc == Io || rc == CudaError
    ensures rc == Ok ==> items == [] || Deliverable(ctx, target)
    ensures rc == Ok ==> forall k :: 0 <= k < |items| ==>
              ItemRead(ctx.env, items[k], old(dsts[items[k].dst][..]), dsts[items[k].dst][..])
    ensures rc == Io && ctx.env.reliable ==> exists k :: 0 <= k < |items| && !Readable(ctx.env, items[k].range)
    ensures rc == CudaError ==> !Deliverable(ctx, target)
    ensures rc != Ok ==> forall k :: 0 <= k < |items| ==>
              ReadOrUntouched(ctx.env, items[k], old(dsts[items[k].dst][..]), dsts[items[k].dst][..])
    ensures rc == Ok ==>
              && ctx.stats.totalRequests == old(ctx.stats.totalRequests) + coalesced
              && FlowOk(ctx.opt, ctx.gdsSound, old(ctx.stats), WithTotal(ctx.stats, old(ctx.stats.totalRequests)),
                        Pieces(Ranges(items), 0, ctx.opt), cbytes)
    ensures rc == Ok ==> GroupsDone(Ranges(items), |items|, coalesced, cbytes, ctx.opt.coalesceGap, ctx.opt.maxCoalesceSize)
    ensures ctx.unserved == old(ctx.unserved) + if rc == Io then 1 else 0
    ensures ctx.stats.readvRequests == old(ctx.stats.readvRequests)
    ensures ctx.stats.originalRanges == old(ctx.stats.originalRanges)
    ensures ctx.stats.coalescedRanges == old(ctx.stats.coalescedRanges)
    ensures ctx.stats.coalescedBytes == old(ctx.stats.coalescedBytes)
  {
    hide Sound, Coherent, GroupsDone, GroupOk, GreedyEnd, Ranges, Filled, FlowOk, Pieces;
    var i := 0;
    coalesced, cbytes := 0, 0;
    rc := Ok;
    ghost var s, stats0 := Ranges(items), ctx.stats;
    ghost var pieces: nat := 0;
    NoFlow(ctx.opt, ctx.gdsSound, stats0);
    NoGroupsYet(s, ctx.opt.coalesceGap, ctx.opt.maxCoalesceSize);
    while i < |items|
      invariant ctx.Valid() && rc == Ok && i <= |items|
      invariant GroupsDone(s, i, coalesced, cbytes, ctx.opt.coalesceGap, ctx.opt.maxCoalesceSize)
      invariant i > 0 ==> Deliverable(ctx, target)
      invariant ctx.stats.totalRequests == stats0.totalRequests + coalesced
      invariant pieces + Pieces(s, i, ctx.opt) == Pieces(s, 0, ctx.opt)
      invariant FlowOk(ctx.opt, ctx.gdsSound, stats0, WithTotal(ctx.stats, stats0.totalRequests), pieces, cbytes)
      invariant forall k :: 0 <= k < i ==>
                ItemRead(ctx.env, items[k], old(dsts[items[k].dst][..]), dsts[items[k].dst][..])
      invariant forall k :: i <= k < |items| ==> dsts[items[k].dst][..] == old(dsts[items[k].dst][..])
      invariant ctx.unserved == old(ctx.unserved)
      invariant ctx.stats.readvRequests == old(ctx.stats.readvRequests)
      invariant ctx.stats.originalRanges == old(ctx.stats.originalRanges)
      invariant ctx.stats.coalescedRanges == old(ctx.stats.coalescedRanges)
      invariant ctx.stats.coalescedBytes == old(ctx.stats.coalescedBytes)
      decreases |items| - i
    {
      var j, total;
      ghost var before := ctx.stats;
      rc, j, total := ReadGroup(ctx, items, dsts, i, target);
      if rc != Ok {
        return;
      }
      ghost var turns := ChunkCount(items[i].range.off, total, ctx.opt.chunkSize);
      PiecesNext(s, i, j, total, ctx.opt);
      FlowGroup(ctx.opt, ctx.gdsSound, stats0, before, ctx.stats, pieces, turns, cbytes, total);
      pieces := pieces + turns;
      GroupsNext(s, i, coalesced, cbytes, j, total, ctx.opt.coalesceGap, ctx.opt.maxCoalesceSize);
      coalesced, cbytes, i := coalesced + 1, cbytes + total, j;
    }
    NoPieces(s, ctx.opt);
  }

  /** memtier_readv refines independent reads: it succeeds exactly when every single range could be
      read, and then every buffer holds its own slice of its file. */
  method Readv(ctx: Context, ranges: seq<Range>, dsts: seq<array<byte>>, target: Target) returns (rc: Status)
    requires ctx.Valid() && |ranges| == |dsts|
    requires forall i :: 0 <= i < |ranges| ==> ranges[i].size <= dsts[i].Length
    requires forall i, j :: 0 <= i < j < |dsts| ==> dsts[i] != dsts[j]
    modifies ctx`stats, ctx`unserved, ctx.cache, set d | d in dsts
    ensures ctx.Valid()
    ensures rc == Invalid <==> ranges == [] || exists i :: 0 <= i < |ranges| && ranges[i].size == 0
    ensures rc == CudaError ==> !Deliverable(ctx, target)
    ensures rc == Ok ==> Deliverable(ctx, target)
    ensures rc == Ok ==> forall i :: 0 <= i < |ranges| ==>
              ItemRead(ctx.env, Item(ranges[i], i), old(dsts[i][..]), dsts[i][..])
    ensures rc == Io && ctx.env.reliable ==> exists i :: 0 <= i < |ranges| && !Readable(ctx.env, ranges[i])
    ensures rc == Ok || rc == Io || rc == Invalid || rc == CudaError
    ensures rc == Invalid ==> ctx.stats == old(ctx.stats) && forall i :: 0 <= i < |dsts| ==> dsts[i][..] == old(dsts[i][..])
    ensures rc != Ok ==> forall i :: 0 <= i < |ranges| ==>
              ReadOrUntouched(ctx.env, Item(ranges[i], i), old(dsts[i][..]), dsts[i][..])
    ensures ctx.unserved == old(ctx.unserved) + if rc == Io then 1 else 0
    ensures rc == Ok ==>
              var s := Ranges(Sort(Items(ranges)));
              var groups := |GreedyCuts(s, 0, ctx.opt.coalesceGap, ctx.opt.maxCoalesceSize)|;
              var bytes := ctx.stats.coalescedBytes - old(ctx.stats.coalescedBytes);
              && ctx.stats.coalescedRanges == old(ctx.stats.coalescedRanges) + groups
              && groups <= |ranges|
              && ctx.stats.totalRequests == old(ctx.stats.totalRequests) + groups
              && SumSizes(ranges) <= bytes <= SumSizes(ranges) + Times(|ranges| - groups, ctx.opt.coalesceGap)
              && FlowOk(ctx.opt, ctx.gdsSound, old(ctx.stats), AsBefore(ctx.stats, old(ctx.stats)), Pieces(s, 0, ctx.opt), bytes)
              && ctx.stats.readvRequests == old(ctx.stats.readvRequests) + 1
              && ctx.stats.originalRanges == old(ctx.stats.originalRanges) + |ranges|
  {
    hide Sound, Coherent, Sort, Items, SumSizes, Ranges, GreedyCuts, FlowOk, Pieces, ItemRead, Context.Valid;
    ctx.PositiveSizes();
    ghost var stats0 := ctx.stats;
    if ranges == [] {
      return Invalid;
    }
    var n := 0;
    while n < |ranges|
      invariant n <= |ranges| && forall i :: 0 <= i < n ==> ranges[i].size > 0
    {
      if ranges[n].size == 0 {
        return Invalid;
      }
      n := n + 1;
    }
    var given := Items(ranges);
    var items := Sort(given);
    ReadyToRead(ranges, dsts);
    var coalesced, cbytes;
    rc, coalesced, cbytes := ReadGroups(ctx, items, dsts, target);
    if rc != Ok {
      forall i | 0 <= i < |ranges|
        ensures ReadOrUntouched(ctx.env, Item(ranges[i], i), old(dsts[i][..]), dsts[i][..])
      {
        assert given[i] in items;
      }
      if rc == Io && ctx.env.reliable {
        ghost var k :| 0 <= k < |items| && !Readable(ctx.env, items[k].range);
        assert items[k] in given;
      }
      return;
    }
    forall i | 0 <= i < |ranges|
      ensures ItemRead(ctx.env, Item(ranges[i], i), old(dsts[i][..]), dsts[i][..])
    {
      assert given[i] in items;
    }
    FlowElsewhere(ctx.opt, ctx.gdsSound, stats0, WithTotal(ctx.stats, stats0.totalRequests),
                  Pieces(Ranges(items), 0, ctx.opt), cbytes);
    AllGroupsDone(Ranges(items), coalesced, cbytes, ctx.opt.coalesceGap, ctx.opt.maxCoalesceSize);
    CountReadv(ctx, |ranges|, coalesced, cbytes);
  }

  lemma {:induction false} SortSize(ranges: seq<Range>)
    ensures SumSizes(Ranges(Sort(Items(ranges)))) == SumSizes(ranges)
  {
    SortSorts(Items(ranges));
    ItemRanges(ranges);
  }

  lemma {:induction false} SortFits(ranges: seq<Range>, dsts: seq<array<byte>>)
    requires |ranges| == |dsts|
    requires forall i :: 0 <= i < |ranges| ==> 0 < ranges[i].size <= dsts[i].Length
    ensures var items := Sort(Items(ranges));
            && (forall k :: 0 <= k < |items| ==> ItemFits(items[k], dsts))
            && OwnBuffers(items)
            && (forall y :: y in items <==> y in Items(ranges))
  {
    hide Sort;
    var given := Items(ranges);
    var items := Sort(given);
    SortOwn(given);
    forall k | 0 <= k < |items| ensures ItemFits(items[k], dsts) {
      assert items[k] in items;
      assert items[k] in given;
      var m :| 0 <= m < |given| && given[m] == items[k];
      assert given[m] == Item(ranges[m], m);
    }
  }

  /** The sorted items are the caller's, in buffers of their own. */
  lemma {:induction false} ReadyToRead(ranges: seq<Range>, dsts: seq<array<byte>>)
    requires |ranges| == |dsts|
    requires forall i :: 0 <= i < |ranges| ==> 0 < ranges[i].size <= dsts[i].Length
    requires forall i, j :: 0 <= i < j < |dsts| ==> dsts[i] != dsts[j]
    ensures var items := Sort(Items(ranges));
            && Prepared(items, dsts) && SumSizes(Ranges(items)) == SumSizes(ranges)
            && (forall y :: y in items <==> y in Items(ranges))
  {
    hide Sort, Items, SumSizes, Ranges;
    SortFits(ranges, dsts);
    SortSize(ranges);
  }
}
