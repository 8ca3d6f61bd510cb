/** How memtier_readv groups neighbouring ranges, and that no grouping is smaller. */
module Coalescing {
  import opened Storage

  datatype Range = Range(path: Path, off: nat, size: nat) {
    function End(): nat {
      off + size
    }
  }

  /** b may directly follow a in one group. */
  predicate Adjacent(a: Range, b: Range, gap: nat) {
    a.path == b.path && b.off >= a.End() && b.off - a.End() <= gap
  }

  /** s[i..j) may be read at once: neighbours are adjacent and the whole span is bounded; a single
      range always may. */
  ghost predicate GroupOk(s: seq<Range>, i: nat, j: nat, gap: nat, maxSpan: nat) {
    && i < j <= |s|
    && (forall k :: i < k < j ==> Adjacent(s[k - 1], s[k], gap))
    && (j == i + 1 || s[j - 1].End() - s[i].off <= maxSpan)
  }

  /** The test that lets a group starting at i take in range j. */
  predicate CanExtend(s: seq<Range>, i: nat, j: nat, gap: nat, maxSpan: nat)
    requires i < j < |s|
  {
    Adjacent(s[j - 1], s[j], gap) && s[j].End() - s[i].off <= maxSpan
  }

  function Extend(s: seq<Range>, i: nat, j: nat, gap: nat, maxSpan: nat): (e: nat)
    requires i < j <= |s|
    ensures j <= e <= |s|
    decreases |s| - j
  {
    if j < |s| && CanExtend(s, i, j, gap, maxSpan) then Extend(s, i, j + 1, gap, maxSpan) else j
  }

  /** Where the greedy group starting at i ends. */
  function GreedyEnd(s: seq<Range>, i: nat, gap: nat, maxSpan: nat): (e: nat)
    requires i < |s|
    ensures i < e <= |s|
  {
    Extend(s, i, i + 1, gap, maxSpan)
  }

  /** The ends of the greedy groups from i on. */
  function GreedyCuts(s: seq<Range>, i: nat, gap: nat, maxSpan: nat): seq<nat>
    requires i <= |s|
    decreases |s| - i
  {
    if i == |s| then []
    else
      var e := GreedyEnd(s, i, gap, maxSpan);
      [e] + GreedyCuts(s, e, gap, maxSpan)
  }

  /** A partition of s[i..] into consecutive groups, given by their ends. */
  ghost predicate Partition(s: seq<Range>, i: nat, cuts: seq<nat>, gap: nat, maxSpan: nat)
    decreases |cuts|
  {
    if cuts == [] then i == |s|
    else GroupOk(s, i, cuts[0], gap, maxSpan) && Partition(s, cuts[0], cuts[1..], gap, maxSpan)
  }

  lemma {:induction false} ChainForward(s: seq<Range>, i: nat, j: nat, gap: nat)
    requires i <= j < |s| && forall k :: i < k <= j ==> Adjacent(s[k - 1], s[k], gap)
    ensures s[i].off <= s[j].off && s[i].End() <= s[j].End() && s[i].path == s[j].path
  {
    if i < j {
      ChainForward(s, i, j - 1, gap);
      assert Adjacent(s[j - 1], s[j], gap);
    }
  }

  /** Any part of a permitted group is permitted. */
  lemma {:induction false} GroupHereditary(s: seq<Range>, i: nat, j: nat, i': nat, j': nat, gap: nat, maxSpan: nat)
    requires GroupOk(s, i, j, gap, maxSpan) && i <= i' < j' <= j
    ensures GroupOk(s, i', j', gap, maxSpan)
  {
    ChainForward(s, i, i', gap);
    ChainForward(s, j' - 1, j - 1, gap);
  }

  /** The greedy end is the furthest permitted one. */
  lemma {:induction false} ExtendIsFurthest(s: seq<Range>, i: nat, j: nat, gap: nat, maxSpan: nat)
    requires GroupOk(s, i, j, gap, maxSpan)
    ensures GroupOk(s, i, Extend(s, i, j, gap, maxSpan), gap, maxSpan)
    ensures forall e :: j <= e && GroupOk(s, i, e, gap, maxSpan) ==> e <= Extend(s, i, j, gap, maxSpan)
    decreases |s| - j
  {
    forall e | j < e && GroupOk(s, i, e, gap, maxSpan) ensures j < |s| && CanExtend(s, i, j, gap, maxSpan) {
      GroupHereditary(s, i, e, i, j + 1, gap, maxSpan);
    }
    if j < |s| && CanExtend(s, i, j, gap, maxSpan) {
      assert GroupOk(s, i, j + 1, gap, maxSpan);
      ExtendIsFurthest(s, i, j + 1, gap, maxSpan);
    }
  }

  lemma {:induction false} GreedyIsPartition(s: seq<Range>, i: nat, gap: nat, maxSpan: nat)
    requires i <= |s|
    ensures Partition(s, i, GreedyCuts(s, i, gap, maxSpan), gap, maxSpan)
    decreases |s| - i
  {
    if i < |s| {
      ExtendIsFurthest(s, i, i + 1, gap, maxSpan);
      var e := GreedyEnd(s, i, gap, maxSpan);
      GreedyIsPartition(s, e, gap, maxSpan);
      assert ([e] + GreedyCuts(s, e, gap, maxSpan))[1..] == GreedyCuts(s, e, gap, maxSpan);
    }
  }

  /** Starting later never needs more greedy groups. */
  lemma {:induction false} GreedyMonotone(s: seq<Range>, i: nat, i': nat, gap: nat, maxSpan: nat)
    requires i <= i' <= |s|
    ensures |GreedyCuts(s, i', gap, maxSpan)| <= |GreedyCuts(s, i, gap, maxSpan)|
    decreases |s| - i
  {
    if i < i' < |s| {
      ExtendIsFurthest(s, i, i + 1, gap, maxSpan);
      ExtendIsFurthest(s, i', i' + 1, gap, maxSpan);
      var e, e' := GreedyEnd(s, i, gap, maxSpan), GreedyEnd(s, i', gap, maxSpan);
      if i' < e {
        GroupHereditary(s, i, e, i', e, gap, maxSpan);
        GreedyMonotone(s, e, e', gap, maxSpan);
      } else {
        GreedyMonotone(s, e, i', gap, maxSpan);
      }
    }
  }

  /** No partition into permitted groups has fewer groups than the greedy one. */
  lemma {:induction false} GreedyIsMinimal(s: seq<Range>, i: nat, cuts: seq<nat>, gap: nat, maxSpan: nat)
    requires i <= |s| && Partition(s, i, cuts, gap, maxSpan)
    ensures |GreedyCuts(s, i, gap, maxSpan)| <= |cuts|
    decreases |s| - i
  {
    if i < |s| {
      ExtendIsFurthest(s, i, i + 1, gap, maxSpan);
      assert GroupOk(s, i, cuts[0], gap, maxSpan);
      GreedyIsMinimal(s, cuts[0], cuts[1..], gap, maxSpan);
      GreedyMonotone(s, cuts[0], GreedyEnd(s, i, gap, maxSpan), gap, maxSpan);
    }
  }

  // ---------------------------------------------------------------- bytes read

  function SumSizes(s: seq<Range>): nat {
    if s == [] then 0 else SumSizes(s[..|s| - 1]) + s[|s| - 1].size
  }

  lemma {:induction false} SumSizesConcat(a: seq<Range>, b: seq<Range>)
    ensures SumSizes(a + b) == SumSizes(a) + SumSizes(b)
  {
    if b == [] {
      assert a + b == a;
    } else {
      assert (a + b)[..|a + b| - 1] == a + b[..|b| - 1];
      SumSizesConcat(a, b[..|b| - 1]);
    }
  }

  /** A group's span is its ranges plus at most one gap per join. */
  lemma {:induction false} SpanBounds(s: seq<Range>, i: nat, j: nat, gap: nat)
    requires i < j <= |s| && forall k :: i < k < j ==> Adjacent(s[k - 1], s[k], gap)
    ensures s[i].off <= s[j - 1].End()
    ensures SumSizes(s[i..j]) <= s[j - 1].End() - s[i].off <= SumSizes(s[i..j]) + Times(j - i - 1, gap)
  {
    SubSlice(s, i, j, 0, j - i - 1);
    if j == i + 1 {
      assert s[i..j] == [s[i]] && s[i..i] == [];
    } else {
      SpanBounds(s, i, j - 1, gap);
      assert Adjacent(s[j - 2], s[j - 1], gap);
    }
  }
}
