/**
 Eviction order as mathematics: a cache is the sequence of its keys, newest first.
 The LRU half serves the chunk cache, the DRAM slot cache and the trace simulator;
 the FIFO half (insert if absent, never refresh) serves prefetching and the HBM cache.
 */
module Recency {

  ghost predicate NoDup<T(!new)>(s: seq<T>) {
    forall i, j :: 0 <= i < j < |s| ==> s[i] != s[j]
  }

  ghost function Elements<T(!new)>(s: seq<T>): set<T> {
    set x | x in s
  }

  function Without<T(==,!new)>(s: seq<T>, k: T): (r: seq<T>)
    ensures k !in r && |r| <= |s|
    ensures forall x :: x in r <==> x in s && x != k
  {
    if s == [] then []
    else if s[0] == k then Without(s[1..], k)
    else [s[0]] + Without(s[1..], k)
  }

  function Take<T(!new)>(s: seq<T>, n: nat): seq<T> {
    if |s| <= n then s else s[..n]
  }

  /** One access at capacity c. */
  function LruStep<T(==,!new)>(c: nat, s: seq<T>, k: T): seq<T> {
    Take([k] + Without(s, k), c)
  }

  function LruRun<T(==,!new)>(c: nat, s: seq<T>, trace: seq<T>): seq<T>
    decreases |trace|
  {
    if trace == [] then s else LruStep(c, LruRun(c, s, trace[..|trace| - 1]), trace[|trace| - 1])
  }

  /** The accesses of a trace that miss at capacity c, in order. */
  function Missed<T(==,!new)>(c: nat, s: seq<T>, trace: seq<T>): seq<T>
    decreases |trace|
  {
    if trace == [] then []
    else
      var init, k := trace[..|trace| - 1], trace[|trace| - 1];
      Missed(c, s, init) + if k in LruRun(c, s, init) then [] else [k]
  }

  /** Every key ever accessed, latest access first: LRU with nothing evicted. */
  function Recent<T(==,!new)>(s: seq<T>, trace: seq<T>): seq<T>
    decreases |trace|
  {
    if trace == [] then s
    else
      var k := trace[|trace| - 1];
      [k] + Without(Recent(s, trace[..|trace| - 1]), k)
  }

  /** Insert if absent; a hit does not refresh. */
  function FifoStep<T(==,!new)>(c: nat, s: seq<T>, k: T): seq<T> {
    if k in s then s else Take([k] + s, c)
  }

  function FifoRun<T(==,!new)>(c: nat, s: seq<T>, trace: seq<T>): seq<T>
    decreases |trace|
  {
    if trace == [] then s else FifoStep(c, FifoRun(c, s, trace[..|trace| - 1]), trace[|trace| - 1])
  }

  /** The keys a FIFO run inserts, in order. */
  function Admitted<T(==,!new)>(c: nat, s: seq<T>, trace: seq<T>): seq<T>
    decreases |trace|
  {
    if trace == [] then []
    else
      var init, k := trace[..|trace| - 1], trace[|trace| - 1];
      Admitted(c, s, init) + if k in FifoRun(c, s, init) then [] else [k]
  }

  function Reversed<T(!new)>(s: seq<T>): (r: seq<T>)
    ensures |r| == |s|
    ensures forall i :: 0 <= i < |s| ==> r[i] == s[|s| - 1 - i]
  {
    if s == [] then [] else [s[|s| - 1]] + Reversed(s[..|s| - 1])
  }

  // ---------------------------------------------------------------- sequences

  lemma {:induction false} WithoutAbsent<T(!new)>(s: seq<T>, k: T)
    requires k !in s
    ensures Without(s, k) == s
  {
    if s != [] {
      WithoutAbsent(s[1..], k);
    }
  }

  lemma {:induction false} WithoutConcat<T(!new)>(a: seq<T>, b: seq<T>, k: T)
    ensures Without(a + b, k) == Without(a, k) + Without(b, k)
  {
    if a == [] {
      assert a + b == b;
    } else {
      assert (a + b)[1..] == a[1..] + b;
      WithoutConcat(a[1..], b, k);
    }
  }

  lemma {:induction false} WithoutNoDup<T(!new)>(s: seq<T>, k: T)
    requires NoDup(s)
    ensures NoDup(Without(s, k))
    ensures |Without(s, k)| == if k in s then |s| - 1 else |s|
  {
    if s != [] {
      var rest := s[1..];
      WithoutNoDup(rest, k);
      assert s == [s[0]] + rest;
      if s[0] == k {
        assert k !in rest;
      } else {
        var w := Without(s, k);
        forall i, j | 0 <= i < j < |w| ensures w[i] != w[j] {
          assert w[j] == Without(rest, k)[j - 1] && w[j] in rest;
        }
      }
    }
  }

  lemma {:induction false} FrontNoDup<T(!new)>(s: seq<T>, k: T)
    requires NoDup(s)
    ensures NoDup([k] + Without(s, k))
  {
    WithoutNoDup(s, k);
    var w := [k] + Without(s, k);
    forall i, j | 0 <= i < j < |w| ensures w[i] != w[j] {
      assert w[j] == Without(s, k)[j - 1];
    }
  }

  lemma {:induction false} CardNoDup<T(!new)>(s: seq<T>)
    requires NoDup(s)
    ensures |Elements(s)| == |s|
  {
    if s != [] {
      var init := s[..|s| - 1];
      CardNoDup(init);
      assert s == init + [s[|s| - 1]];
      assert Elements(s) == Elements(init) + {s[|s| - 1]};
    }
  }

  lemma {:induction false} SubsetSize<T>(a: set<T>, b: set<T>)
    requires a <= b
    ensures |a| <= |b|
  {
    if x :| x in a {
      SubsetSize(a - {x}, b - {x});
    }
  }

  lemma {:induction false} WithoutSelf<T(!new)>(k: T)
    ensures Without([k], k) == []
  {
  }

  /** Removing a key from the middle. */
  lemma {:induction false} WithoutSplit<T(!new)>(p: seq<T>, k: T, q: seq<T>)
    requires NoDup(p + [k] + q)
    ensures Without(p + [k] + q, k) == p + q
  {
    hide Without;
    var s := p + [k] + q;
    assert forall i :: 0 <= i < |p| ==> p[i] == s[i];
    assert s[|p|] == k;
    assert forall i :: 0 <= i < |q| ==> q[i] == s[|p| + 1 + i];
    WithoutConcat(p + [k], q, k);
    WithoutConcat(p, [k], k);
    WithoutSelf(k);
    assert p + [] == p;
    assert k !in p && k !in q;
    WithoutAbsent(p, k);
    WithoutAbsent(q, k);
  }

  // ---------------------------------------------------------------- LRU

  lemma {:induction false} LruStepNoDup<T(!new)>(c: nat, s: seq<T>, k: T)
    requires NoDup(s)
    ensures NoDup(LruStep(c, s, k)) && |LruStep(c, s, k)| <= c
  {
    FrontNoDup(s, k);
  }

  lemma {:induction false} LruRunNoDup<T(!new)>(c: nat, s: seq<T>, trace: seq<T>)
    requires NoDup(s) && |s| <= c
    ensures NoDup(LruRun(c, s, trace)) && |LruRun(c, s, trace)| <= c
  {
    if trace != [] {
      LruRunNoDup(c, s, trace[..|trace| - 1]);
      LruStepNoDup(c, LruRun(c, s, trace[..|trace| - 1]), trace[|trace| - 1]);
    }
  }

  lemma {:induction false} RecentNoDup<T(!new)>(s: seq<T>, trace: seq<T>)
    requires NoDup(s)
    ensures NoDup(Recent(s, trace))
  {
    if trace != [] {
      RecentNoDup(s, trace[..|trace| - 1]);
      FrontNoDup(Recent(s, trace[..|trace| - 1]), trace[|trace| - 1]);
    }
  }

  /** Truncating before an access or after it gives the same cache. */
  lemma {:induction false} TruncateCommutes<T(!new)>(c: nat, s: seq<T>, k: T)
    requires NoDup(s)
    ensures LruStep(c, Take(s, c), k) == Take([k] + Without(s, k), c)
  {
    if |s| > c {
      var a, b := s[..c], s[c..];
      assert s == a + b;
      WithoutConcat(a, b, k);
      WithoutNoDup(a, k);
      if c > 0 {
        var wa, wb := Without(a, k), Without(b, k);
        assert |wa| >= c - 1;
        assert ([k] + (wa + wb))[..c] == ([k] + wa)[..c];
      }
    }
  }

  /** An LRU cache is the newest part of the full recency order. */
  lemma {:induction false} LruIsRecentPrefix<T(!new)>(c: nat, s: seq<T>, trace: seq<T>)
    requires NoDup(s)
    ensures LruRun(c, Take(s, c), trace) == Take(Recent(s, trace), c)
  {
    if trace != [] {
      var init, k := trace[..|trace| - 1], trace[|trace| - 1];
      LruIsRecentPrefix(c, s, init);
      RecentNoDup(s, init);
      TruncateCommutes(c, Recent(s, init), k);
    }
  }

  /** Stack inclusion: the smaller cache is the newest part of the larger one, for any trace. */
  lemma {:induction false} StackInclusion<T(!new)>(c1: nat, c2: nat, s: seq<T>, trace: seq<T>)
    requires c1 <= c2 && NoDup(s)
    ensures LruRun(c1, Take(s, c1), trace) == Take(LruRun(c2, Take(s, c2), trace), c1)
  {
    LruIsRecentPrefix(c1, s, trace);
    LruIsRecentPrefix(c2, s, trace);
  }

  /** So a larger cache never hits less. */
  lemma {:induction false} MissesAntitone<T(!new)>(c1: nat, c2: nat, s: seq<T>, trace: seq<T>)
    requires c1 <= c2 && NoDup(s)
    ensures |Missed(c2, Take(s, c2), trace)| <= |Missed(c1, Take(s, c1), trace)|
  {
    if trace != [] {
      var init := trace[..|trace| - 1];
      MissesAntitone(c1, c2, s, init);
      StackInclusion(c1, c2, s, init);
    }
  }

  /** After its own access, k lies behind exactly the distinct keys accessed since. */
  lemma {:induction false} RecencyDepth<T(!new)>(s: seq<T>, k: T, post: seq<T>) returns (p: seq<T>, q: seq<T>)
    requires NoDup(s) && k !in s && k !in post
    ensures Recent([k] + s, post) == p + [k] + q
    ensures NoDup(p + [k] + q)
    ensures Elements(p) == Elements(post)
  {
    FrontNoDup(s, k);
    WithoutAbsent(s, k);
    if post == [] {
      p, q := [], s;
      assert Recent([k] + s, post) == p + [k] + q;
    } else {
      var init, x := post[..|post| - 1], post[|post| - 1];
      assert post == init + [x];
      var p0, q0 := RecencyDepth(s, k, init);
      var r := Recent([k] + s, init);
      WithoutConcat(p0 + [k], q0, x);
      WithoutConcat(p0, [k], x);
      FrontNoDup(r, x);
      p, q := [x] + Without(p0, x), Without(q0, x);
      assert Without([k], x) == [k];
      assert [x] + Without(r, x) == p + [k] + q;
      forall y ensures y in p <==> y in post {
        assert y in p0 <==> y in Elements(p0);
        assert y in init <==> y in Elements(init);
      }
    }
  }

  /** Distinct keys accessed after the last access of k (which must occur). */
  ghost function SinceLastUse<T(!new)>(trace: seq<T>, k: T): set<T>
    requires k in trace
    decreases |trace|
  {
    var init, x := trace[..|trace| - 1], trace[|trace| - 1];
    if x == k then {} else
      assert trace == init + [x];
      SinceLastUse(init, k) + {x}
  }

  lemma {:induction false} LastUseSplit<T(!new)>(trace: seq<T>, k: T) returns (pre: seq<T>, post: seq<T>)
    requires k in trace
    ensures trace == pre + [k] + post && k !in post
    ensures SinceLastUse(trace, k) == Elements(post)
  {
    var init, x := trace[..|trace| - 1], trace[|trace| - 1];
    assert trace == init + [x];
    if x == k {
      pre, post := init, [];
    } else {
      var post0;
      pre, post0 := LastUseSplit(init, k);
      post := post0 + [x];
      assert trace == pre + [k] + post;
    }
  }

  lemma {:induction false} RecentConcat<T(!new)>(s: seq<T>, a: seq<T>, b: seq<T>)
    ensures Recent(s, a + b) == Recent(Recent(s, a), b)
  {
    if b == [] {
      assert a + b == a;
    } else {
      assert (a + b)[..|a + b| - 1] == a + b[..|b| - 1];
      RecentConcat(s, a, b[..|b| - 1]);
    }
  }

  lemma {:induction false} RecentKeys<T(!new)>(trace: seq<T>)
    ensures forall x :: x in Recent([], trace) <==> x in trace
  {
    if trace != [] {
      var init, k := trace[..|trace| - 1], trace[|trace| - 1];
      RecentKeys(init);
      assert trace == init + [k];
    }
  }

  /** Reuse distance: a key is cached at capacity c iff it was used before and fewer than c
      distinct other keys were used since. */
  lemma {:induction false} HitIffReuseDistance<T(!new)>(c: nat, trace: seq<T>, k: T)
    requires c >= 1
    ensures k in LruRun(c, [], trace) <==> k in trace && |SinceLastUse(trace, k)| < c
  {
    LruIsRecentPrefix(c, [], trace);
    RecentKeys(trace);
    if k in trace {
      var pre, post := LastUseSplit(trace, k);
      RecentConcat([], pre + [k], post);
      assert (pre + [k])[..|pre|] == pre;
      RecentNoDup([], pre);
      WithoutNoDup(Recent([], pre), k);
      var p, q := RecencyDepth(Without(Recent([], pre), k), k, post);
      var r := Recent([], trace);
      assert r == p + [k] + q;
      assert forall i :: 0 <= i < |p| ==> p[i] == r[i];
      CardNoDup(p);
      assert r[|p|] == k;
      if |p| < c {
        assert Take(r, c)[|p|] == k;
      }
    }
  }

  lemma {:induction false} LruRunConcat<T(!new)>(c: nat, s: seq<T>, a: seq<T>, b: seq<T>)
    ensures LruRun(c, s, a + b) == LruRun(c, LruRun(c, s, a), b)
    ensures Missed(c, s, a + b) == Missed(c, s, a) + Missed(c, LruRun(c, s, a), b)
  {
    if b == [] {
      assert a + b == a;
    } else {
      assert (a + b)[..|a + b| - 1] == a + b[..|b| - 1];
      LruRunConcat(c, s, a, b[..|b| - 1]);
    }
  }

  /** Accessing only cached keys misses nothing and evicts nothing. */
  lemma {:induction false} AllCachedAllHit<T(!new)>(c: nat, s: seq<T>, trace: seq<T>)
    requires NoDup(s) && |s| <= c
    requires forall x :: x in trace ==> x in s
    ensures Missed(c, s, trace) == []
    ensures Elements(LruRun(c, s, trace)) == Elements(s)
  {
    if trace != [] {
      var init, k := trace[..|trace| - 1], trace[|trace| - 1];
      assert trace == init + [k];
      AllCachedAllHit(c, s, init);
      LruRunNoDup(c, s, init);
      var t := LruRun(c, s, init);
      assert k in Elements(t);
      WithoutNoDup(t, k);
      CardNoDup(s);
      CardNoDup(t);
    }
  }

  /** A run over at most c distinct keys leaves all of them cached. */
  lemma {:induction false} DistinctFit<T(!new)>(c: nat, s: seq<T>, trace: seq<T>)
    requires NoDup(s) && |s| <= c && NoDup(trace) && |trace| <= c
    ensures forall x :: x in trace ==> x in LruRun(c, s, trace)
  {
    assert Take(s, c) == s;
    LruIsRecentPrefix(c, s, trace);
    DistinctNewestFirst(s, trace);
    forall x | x in trace ensures x in LruRun(c, s, trace) {
      var i :| 0 <= i < |trace| && trace[i] == x;
      assert Recent(s, trace)[|trace| - 1 - i] == x;
    }
  }

  /** Recency order splits into the keys of the trace and older ones. */
  lemma {:induction false} TraceComesFirst<T(!new)>(s: seq<T>, trace: seq<T>) returns (p: seq<T>, q: seq<T>)
    requires NoDup(s)
    ensures Recent(s, trace) == p + q && Elements(p) == Elements(trace)
  {
    if trace == [] {
      p, q := [], s;
    } else {
      var init, k := trace[..|trace| - 1], trace[|trace| - 1];
      assert trace == init + [k];
      var p0, q0 := TraceComesFirst(s, init);
      WithoutConcat(p0, q0, k);
      p, q := [k] + Without(p0, k), Without(q0, k);
      assert Recent(s, trace) == p + q;
      forall x ensures x in p <==> x in trace {
        assert x in Elements(p0) <==> x in Elements(init);
      }
    }
  }

  /** A run over at most c distinct keys, however often each, leaves all of them cached. */
  lemma {:induction false} FewKeysStay<T(!new)>(c: nat, s: seq<T>, trace: seq<T>)
    requires NoDup(s) && |s| <= c && |Elements(trace)| <= c
    ensures forall x :: x in trace ==> x in LruRun(c, s, trace)
  {
    assert Take(s, c) == s;
    LruIsRecentPrefix(c, s, trace);
    RecentNoDup(s, trace);
    var p, q := TraceComesFirst(s, trace);
    var r := Recent(s, trace);
    assert forall i :: 0 <= i < |p| ==> p[i] == r[i];
    CardNoDup(p);
    forall x | x in trace ensures x in LruRun(c, s, trace) {
      assert x in Elements(p);
      var i :| 0 <= i < |p| && p[i] == x;
      assert Take(r, c)[i] == x;
    }
  }

  lemma {:induction false} DistinctNewestFirst<T(!new)>(s: seq<T>, trace: seq<T>)
    requires NoDup(trace)
    ensures |Recent(s, trace)| >= |trace|
    ensures forall i :: 0 <= i < |trace| ==> Recent(s, trace)[i] == trace[|trace| - 1 - i]
  {
    hide Without, NoDup;
    if trace != [] {
      var init, k := trace[..|trace| - 1], trace[|trace| - 1];
      LastIsNew(trace);
      DistinctNewestFirst(s, init);
      var r := Recent(s, init);
      var a, b := r[..|init|], r[|init|..];
      assert r == a + b;
      assert forall i :: 0 <= i < |a| ==> a[i] == trace[|init| - 1 - i];
      assert k !in a;
      WithoutConcat(a, b, k);
      WithoutAbsent(a, k);
    }
  }

  lemma {:induction false} LastIsNew<T(!new)>(trace: seq<T>)
    requires NoDup(trace) && trace != []
    ensures NoDup(trace[..|trace| - 1]) && forall i :: 0 <= i < |trace| - 1 ==> trace[i] != trace[|trace| - 1]
  {
  }

  /** Repeating a run of at most c distinct keys misses nothing. */
  lemma {:induction false} RepeatHits<T(!new)>(c: nat, s: seq<T>, trace: seq<T>)
    requires NoDup(s) && |s| <= c && NoDup(trace) && |trace| <= c
    ensures Missed(c, LruRun(c, s, trace), trace) == []
  {
    DistinctFit(c, s, trace);
    LruRunNoDup(c, s, trace);
    AllCachedAllHit(c, LruRun(c, s, trace), trace);
  }

  /** A run over distinct keys misses every key that is absent at the start. */
  lemma {:induction false} DistinctMisses<T(!new)>(c: nat, s: seq<T>, trace: seq<T>)
    requires NoDup(trace)
    ensures forall x :: x in trace && x !in s ==> x in Missed(c, s, trace)
    ensures forall x :: x in LruRun(c, s, trace) ==> x in s || x in trace
  {
    if trace != [] {
      var init, k := trace[..|trace| - 1], trace[|trace| - 1];
      assert trace == init + [k];
      DistinctMisses(c, s, init);
      assert k !in init;
    }
  }

  // ---------------------------------------------------------------- FIFO

  lemma {:induction false} TakeTwice<T(!new)>(c: nat, k: T, s: seq<T>)
    ensures Take([k] + Take(s, c), c) == Take([k] + s, c)
  {
    if |s| > c && c > 0 {
      assert ([k] + s[..c])[..c] == ([k] + s)[..c];
    }
  }

  /** A FIFO cache holds the last c keys inserted, whatever hits came in between. */
  lemma {:induction false} FifoIsLastAdmitted<T(!new)>(c: nat, h: seq<T>, trace: seq<T>)
    ensures FifoRun(c, Take(h, c), trace) == Take(Reversed(Admitted(c, Take(h, c), trace)) + h, c)
  {
    var s := Take(h, c);
    if trace == [] {
      assert Reversed(Admitted(c, s, trace)) + h == h;
    } else {
      var init, k := trace[..|trace| - 1], trace[|trace| - 1];
      FifoIsLastAdmitted(c, h, init);
      var a := Admitted(c, s, init);
      if k !in FifoRun(c, s, init) {
        assert (a + [k])[..|a|] == a;
        assert Reversed(a + [k]) + h == [k] + (Reversed(a) + h);
        TakeTwice(c, k, Reversed(a) + h);
      } else {
        assert Admitted(c, s, trace) == a;
      }
    }
  }

  lemma {:induction false} FifoRunNoDup<T(!new)>(c: nat, s: seq<T>, trace: seq<T>)
    requires NoDup(s) && |s| <= c
    ensures NoDup(FifoRun(c, s, trace)) && |FifoRun(c, s, trace)| <= c
  {
    if trace != [] {
      FifoRunNoDup(c, s, trace[..|trace| - 1]);
    }
  }

  // ---------------------------------------------------------------- FIFO against LRU

  lemma {:induction false} RunsNext<T(!new)>(c: nat, s: seq<T>, trace: seq<T>, k: T)
    ensures FifoRun(c, s, trace + [k]) == FifoStep(c, FifoRun(c, s, trace), k)
    ensures LruRun(c, s, trace + [k]) == LruStep(c, LruRun(c, s, trace), k)
  {
    assert (trace + [k])[..|trace|] == trace;
  }

  lemma {:induction false} SameStepIff<T(!new)>(c: nat, s: seq<T>, k: T)
    requires NoDup(s) && |s| <= c
    ensures FifoStep(c, s, k) == LruStep(c, s, k) <==> (k in s ==> s[0] == k)
  {
    if k !in s {
      WithoutAbsent(s, k);
    } else {
      assert s == [s[0]] + s[1..];
      if s[0] == k {
        assert k !in s[1..];
        WithoutAbsent(s[1..], k);
      }
    }
  }

  /** After i accesses both orders hold the same list. */
  ghost predicate SameAt<T(!new)>(c: nat, trace: seq<T>, i: nat)
    requires i <= |trace|
  {
    FifoRun(c, [], trace[..i]) == LruRun(c, [], trace[..i])
  }

  /** Access i, if it hits, hits the newest key. */
  ghost predicate HitsNewest<T(!new)>(c: nat, trace: seq<T>, i: nat)
    requires i < |trace|
  {
    var s := FifoRun(c, [], trace[..i]);
    trace[i] in s ==> s[0] == trace[i]
  }

  lemma {:induction false} SameAtNext<T(!new)>(c: nat, trace: seq<T>, i: nat)
    requires i < |trace| && SameAt(c, trace, i)
    ensures SameAt(c, trace, i + 1) <==> HitsNewest(c, trace, i)
  {
    assert trace[..i + 1][..i] == trace[..i];
    FifoRunNoDup(c, [], trace[..i]);
    SameStepIff(c, FifoRun(c, [], trace[..i]), trace[i]);
  }

  lemma {:induction false} SameUpTo<T(!new)>(c: nat, trace: seq<T>, i: nat)
    requires i <= |trace| && forall j :: 0 <= j < i ==> HitsNewest(c, trace, j)
    ensures SameAt(c, trace, i)
  {
    if i > 0 {
      SameUpTo(c, trace, i - 1);
      SameAtNext(c, trace, i - 1);
    }
  }

  /** Insertion order is recency order, all along a trace, exactly when every hit is of the newest
      key. */
  lemma {:induction false} FifoIsLruIff<T(!new)>(c: nat, trace: seq<T>)
    ensures (forall i :: 0 <= i <= |trace| ==> SameAt(c, trace, i)) <==>
            (forall i :: 0 <= i < |trace| ==> HitsNewest(c, trace, i))
  {
    hide SameAt, HitsNewest;
    if forall i :: 0 <= i <= |trace| ==> SameAt(c, trace, i) {
      forall i | 0 <= i < |trace| ensures HitsNewest(c, trace, i) {
        assert SameAt(c, trace, i) && SameAt(c, trace, i + 1);
        SameAtNext(c, trace, i);
      }
    }
    if forall i :: 0 <= i < |trace| ==> HitsNewest(c, trace, i) {
      forall i | 0 <= i <= |trace| ensures SameAt(c, trace, i) {
        SameUpTo(c, trace, i);
      }
    }
  }

  function IndexOf<T(==,!new)>(s: seq<T>, k: T): (i: nat)
    requires k in s
    ensures i < |s| && s[i] == k && k !in s[..i]
  {
    if s[0] == k then 0 else
      assert s == [s[0]] + s[1..];
      1 + IndexOf(s[1..], k)
  }

  /** How many keys of a trace will be inserted, told from the starting positions alone: a key
      is still cached at its turn iff the insertions before it have not pushed it out. */
  function Insertions<T(==,!new)>(c: nat, s: seq<T>, trace: seq<T>): (n: nat)
    ensures n <= |trace|
    decreases |trace|
  {
    if trace == [] then 0
    else
      var n, k := Insertions(c, s, trace[..|trace| - 1]), trace[|trace| - 1];
      if k in s && IndexOf(s, k) + n < c then n else n + 1
  }

  lemma {:induction false} AdmittedFrom<T(!new)>(c: nat, s: seq<T>, trace: seq<T>)
    ensures forall x :: x in Admitted(c, s, trace) ==> x in trace
  {
    if trace != [] {
      AdmittedFrom(c, s, trace[..|trace| - 1]);
    }
  }

  lemma {:induction false} InTruncated<T(!new)>(c: nat, a: seq<T>, s: seq<T>, k: T)
    requires NoDup(s) && k !in a
    ensures k in Take(a + s, c) <==> k in s && IndexOf(s, k) + |a| < c
  {
    var t := Take(a + s, c);
    if k in t {
      var i :| 0 <= i < |t| && t[i] == k;
      assert (a + s)[i] == k && i >= |a|;
      assert s[i - |a|] == k;
      assert IndexOf(s, k) == i - |a|;
    }
    if k in s && IndexOf(s, k) + |a| < c {
      assert (a + s)[|a| + IndexOf(s, k)] == k;
      assert t[|a| + IndexOf(s, k)] == k;
    }
  }

  lemma {:induction false} ReversedElements<T(!new)>(s: seq<T>)
    ensures forall x :: x in Reversed(s) <==> x in s
  {
    forall x | x in s ensures x in Reversed(s) {
      var i :| 0 <= i < |s| && s[i] == x;
      assert Reversed(s)[|s| - 1 - i] == x;
    }
  }

  /** Membership in a FIFO cache, for a key the run did not insert. */
  lemma {:induction false} OldKeySurvives<T(!new)>(c: nat, s: seq<T>, trace: seq<T>, k: T)
    requires |s| <= c && NoDup(s) && k !in Admitted(c, s, trace)
    ensures k in FifoRun(c, s, trace) <==>
            k in s && IndexOf(s, k) + |Admitted(c, s, trace)| < c
  {
    FifoIsLastAdmitted(c, s, trace);
    ReversedElements(Admitted(c, s, trace));
    InTruncated(c, Reversed(Admitted(c, s, trace)), s, k);
  }

  /** The key at position i is still cached when its turn comes. */
  ghost predicate CachedAtTurn<T(!new)>(c: nat, s: seq<T>, trace: seq<T>, i: nat)
    requires i < |trace|
  {
    trace[i] in s && IndexOf(s, trace[i]) + Insertions(c, s, trace[..i]) < c
  }

  lemma {:induction false} InsertionsCountAdmitted<T(!new)>(c: nat, s: seq<T>, trace: seq<T>)
    requires |s| <= c && NoDup(s) && NoDup(trace)
    ensures |Admitted(c, s, trace)| == Insertions(c, s, trace)
    ensures forall i :: 0 <= i < |trace| ==>
              (trace[i] !in Admitted(c, s, trace) <==> CachedAtTurn(c, s, trace, i))
  {
    hide FifoRun, CachedAtTurn, IndexOf;
    if trace != [] {
      var init, k := trace[..|trace| - 1], trace[|trace| - 1];
      AtLastTurn(c, s, trace);
      InsertionsCountAdmitted(c, s, init);
      AdmittedFrom(c, s, init);
      OldKeySurvives(c, s, init, k);
      forall i | 0 <= i < |init|
        ensures trace[i] !in Admitted(c, s, trace) <==> CachedAtTurn(c, s, trace, i)
      {
        CachedAtEarlierTurn(c, s, trace, i);
      }
      assert trace[..|init|] == init;
    }
  }

  lemma {:induction false} AtLastTurn<T(!new)>(c: nat, s: seq<T>, trace: seq<T>)
    requires trace != [] && NoDup(trace)
    ensures var init, k := trace[..|trace| - 1], trace[|trace| - 1];
            && k !in init && NoDup(init)
            && (CachedAtTurn(c, s, trace, |init|) <==> k in s && IndexOf(s, k) + Insertions(c, s, init) < c)
            && Insertions(c, s, trace) == Insertions(c, s, init) + if CachedAtTurn(c, s, trace, |init|) then 0 else 1
  {
  }

  lemma {:induction false} CachedAtEarlierTurn<T(!new)>(c: nat, s: seq<T>, trace: seq<T>, i: nat)
    requires NoDup(trace) && i + 1 < |trace|
    ensures var init := trace[..|trace| - 1];
            && init[i] == trace[i] != trace[|trace| - 1]
            && CachedAtTurn(c, s, init, i) == CachedAtTurn(c, s, trace, i)
  {
    assert trace[..|trace| - 1][..i] == trace[..i];
  }

  ghost predicate PushedOut<T(!new)>(c: nat, s: seq<T>, trace: seq<T>, i: nat)
    requires i < |trace|
  {
    CachedAtTurn(c, s, trace, i) && IndexOf(s, trace[i]) + Insertions(c, s, trace) >= c
  }

  lemma {:induction false} KeptIff<T(!new)>(c: nat, s: seq<T>, trace: seq<T>, i: nat)
    requires |s| <= c && NoDup(s) && NoDup(trace) && |trace| <= c && i < |trace|
    ensures trace[i] in FifoRun(c, s, trace) <==> !PushedOut(c, s, trace, i)
  {
    InsertionsCountAdmitted(c, s, trace);
    if trace[i] in Admitted(c, s, trace) {
      AdmittedStays(c, s, trace, trace[i]);
    } else {
      OldKeySurvives(c, s, trace, trace[i]);
    }
  }

  /** Exactly when a FIFO run over at most c distinct keys ends with all of them cached: no key
      still cached at its turn is pushed out by the insertions after it. */
  lemma {:induction false} FifoKeepsAllIff<T(!new)>(c: nat, s: seq<T>, trace: seq<T>)
    requires |s| <= c && NoDup(s) && NoDup(trace) && |trace| <= c
    ensures (forall x :: x in trace ==> x in FifoRun(c, s, trace)) <==>
            (forall i :: 0 <= i < |trace| ==> !PushedOut(c, s, trace, i))
  {
    var end := FifoRun(c, s, trace);
    if forall x :: x in trace ==> x in end {
      forall i | 0 <= i < |trace| ensures !PushedOut(c, s, trace, i) {
        KeptIff(c, s, trace, i);
      }
    }
    if forall i :: 0 <= i < |trace| ==> !PushedOut(c, s, trace, i) {
      forall x | x in trace ensures x in end {
        var i :| 0 <= i < |trace| && trace[i] == x;
        KeptIff(c, s, trace, i);
      }
    }
  }

  lemma {:induction false} AdmittedStays<T(!new)>(c: nat, s: seq<T>, trace: seq<T>, k: T)
    requires |s| <= c && |Admitted(c, s, trace)| <= c && k in Admitted(c, s, trace)
    ensures k in FifoRun(c, s, trace)
  {
    FifoIsLastAdmitted(c, s, trace);
    var a := Reversed(Admitted(c, s, trace));
    ReversedElements(Admitted(c, s, trace));
    var j :| 0 <= j < |a| && a[j] == k;
    assert Take(a + s, c)[j] == k;
  }

  /** In particular when none of them is cached to begin with. */
  lemma {:induction false} FreshKeysFit<T(!new)>(c: nat, s: seq<T>, trace: seq<T>)
    requires |s| <= c && NoDup(s) && NoDup(trace) && |trace| <= c
    requires forall x :: x in trace ==> x !in s
    ensures forall x :: x in trace ==> x in FifoRun(c, s, trace)
    ensures |Admitted(c, s, trace)| == |trace|
  {
    FifoKeepsAllIff(c, s, trace);
    FreshAllInserted(c, s, trace);
    InsertionsCountAdmitted(c, s, trace);
  }

  lemma {:induction false} FreshAllInserted<T(!new)>(c: nat, s: seq<T>, trace: seq<T>)
    requires forall x :: x in trace ==> x !in s
    ensures Insertions(c, s, trace) == |trace|
  {
    if trace != [] {
      FreshAllInserted(c, s, trace[..|trace| - 1]);
    }
  }
}
