/** How a FIFO run moves its keys, when keys may repeat: which accesses keep their key to the end, and
    which find it again a whole number of rounds of insertions later. */
module FifoRounds {
  import opened Recency

  /** Everything ever inserted, newest first, down to what was there at the start. */
  function History<T(==,!new)>(c: nat, s: seq<T>, trace: seq<T>): seq<T> {
    Reversed(Admitted(c, s, trace)) + s
  }

  lemma {:induction false} HistoryNext<T(!new)>(c: nat, s: seq<T>, trace: seq<T>)
    requires trace != []
    ensures var init, k := trace[..|trace| - 1], trace[|trace| - 1];
            if k in FifoRun(c, s, init)
            then Admitted(c, s, trace) == Admitted(c, s, init) && History(c, s, trace) == History(c, s, init)
            else |Admitted(c, s, trace)| == |Admitted(c, s, init)| + 1 && History(c, s, trace) == [k] + History(c, s, init)
  {
    var init, k := trace[..|trace| - 1], trace[|trace| - 1];
    var a := Admitted(c, s, init);
    assert a + [] == a && (a + [k])[..|a|] == a;
  }

  lemma {:induction false} RunIsHistory<T(!new)>(c: nat, s: seq<T>, trace: seq<T>)
    requires |s| <= c
    ensures FifoRun(c, s, trace) == Take(History(c, s, trace), c)
  {
    FifoIsLastAdmitted(c, s, trace);
  }

  /** How many keys the run inserts after its first i accesses. */
  function Later<T(==,!new)>(c: nat, s: seq<T>, trace: seq<T>, i: nat): int
    requires i <= |trace|
  {
    |Admitted(c, s, trace)| - |Admitted(c, s, trace[..i])|
  }

  /** An earlier history is the older part of a later one. */
  lemma {:induction false} HistorySuffix<T(!new)>(c: nat, s: seq<T>, trace: seq<T>, i: nat)
    requires i <= |trace|
    ensures 0 <= Later(c, s, trace, i) <= |History(c, s, trace)|
    ensures History(c, s, trace)[Later(c, s, trace, i)..] == History(c, s, trace[..i])
    decreases |trace|
  {
    if i == |trace| {
      assert trace[..i] == trace;
    } else {
      var init := trace[..|trace| - 1];
      HistorySuffix(c, s, init, i);
      assert init[..i] == trace[..i];
      HistoryNext(c, s, trace);
    }
  }

  /** A key the run inserted was not among the c keys before it. */
  lemma {:induction false} InsertedWasAbsent<T(!new)>(c: nat, s: seq<T>, trace: seq<T>, p: nat, q: nat)
    requires |s| <= c && p < |Admitted(c, s, trace)| && p < q <= p + c && q < |History(c, s, trace)|
    ensures History(c, s, trace)[p] != History(c, s, trace)[q]
    decreases |trace|
  {
    hide History, FifoRun;
    if trace == [] {
      return;
    }
    var init := trace[..|trace| - 1];
    HistoryNext(c, s, trace);
    if trace[|trace| - 1] in FifoRun(c, s, init) {
      InsertedWasAbsent(c, s, init, p, q);
    } else if p > 0 {
      InsertedWasAbsent(c, s, init, p - 1, q - 1);
    } else {
      RunIsHistory(c, s, init);
      assert Take(History(c, s, init), c)[q - 1] == History(c, s, trace)[q];
    }
  }

  /** A run over at most c distinct keys inserts none twice. */
  lemma {:induction false} FewKeysInsertedOnce<T(!new)>(c: nat, s: seq<T>, trace: seq<T>)
    requires |s| <= c && |Elements(trace)| <= c
    ensures NoDup(Admitted(c, s, trace)) && |Admitted(c, s, trace)| <= c
    decreases |trace|
  {
    if trace != [] {
      var init, k := trace[..|trace| - 1], trace[|trace| - 1];
      var a := Admitted(c, s, init);
      assert trace == init + [k];
      SubsetSize(Elements(init), Elements(trace));
      FewKeysInsertedOnce(c, s, init);
      if k !in FifoRun(c, s, init) && k in a {
        AdmittedStays(c, s, init, k);
      }
      AdmittedFrom(c, s, trace);
      CardNoDup(Admitted(c, s, trace));
      SubsetSize(Elements(Admitted(c, s, trace)), Elements(trace));
    }
  }

  lemma {:induction false} JustSeen<T(!new)>(c: nat, s: seq<T>, trace: seq<T>, i: nat)
    requires c >= 1 && i < |trace|
    ensures trace[i] in FifoRun(c, s, trace[..i + 1])
  {
    var r, k := FifoRun(c, s, trace[..i]), trace[i];
    assert trace[..i + 1][..i] == trace[..i];
    if k !in r {
      assert Take([k] + r, c)[0] == k;
    }
  }

  /** Where the key accessed at i is right after its access. */
  function PlaceAt<T(==,!new)>(c: nat, s: seq<T>, trace: seq<T>, i: nat): (j: nat)
    requires c >= 1 && i < |trace|
  {
    JustSeen(c, s, trace, i);
    IndexOf(FifoRun(c, s, trace[..i + 1]), trace[i])
  }

  /** The insertions after access i do not reach far enough to push its key out. */
  predicate StaysFrom<T(==,!new)>(c: nat, s: seq<T>, trace: seq<T>, i: nat)
    requires c >= 1 && i < |trace|
  {
    PlaceAt(c, s, trace, i) + Later(c, s, trace, i + 1) < c
  }

  /** The run ends with the key accessed at i cached, a whole number of rounds of c insertions later
      than it was inserted at its access. */
  predicate RoundsLater<T(==,!new)>(c: nat, s: seq<T>, trace: seq<T>, i: nat)
    requires c >= 1 && i < |trace|
  {
    var end := FifoRun(c, s, trace);
    trace[i] in end && (Later(c, s, trace, i + 1) + PlaceAt(c, s, trace, i) - IndexOf(end, trace[i])) % c == 0
  }

  /** The key accessed at i, in the history of the whole run. */
  lemma {:induction false} PlaceInHistory<T(!new)>(c: nat, s: seq<T>, trace: seq<T>, i: nat)
    requires c >= 1 && |s| <= c && i < |trace|
    ensures var at := Later(c, s, trace, i + 1) + PlaceAt(c, s, trace, i);
            0 <= Later(c, s, trace, i + 1) <= at < |History(c, s, trace)| && History(c, s, trace)[at] == trace[i]
    ensures forall j :: Later(c, s, trace, i + 1) <= j < Later(c, s, trace, i + 1) + PlaceAt(c, s, trace, i) ==>
              History(c, s, trace)[j] != trace[i]
  {
    HistorySuffix(c, s, trace, i + 1);
    RunIsHistory(c, s, trace[..i + 1]);
    var w, r, d, j1 := History(c, s, trace), FifoRun(c, s, trace[..i + 1]), Later(c, s, trace, i + 1), PlaceAt(c, s, trace, i);
    assert w[d..] == History(c, s, trace[..i + 1]);
    assert w[d..][j1] == r[j1] == trace[i];
    forall j | d <= j < d + j1 ensures w[j] != trace[i] {
      assert w[d..][j - d] == r[j - d] == r[..j1][j - d];
    }
  }

  lemma {:induction false} IndexOfFirst<T(!new)>(s: seq<T>, k: T, j: nat)
    requires j < |s| && s[j] == k
    ensures IndexOf(s, k) <= j
  {
    if s[0] != k {
      IndexOfFirst(s[1..], k, j - 1);
    }
  }

  /** Its first place in the final list: where it was, shifted by the later insertions, unless it was
      inserted again. */
  lemma {:induction false} FinalPlace<T(!new)>(c: nat, s: seq<T>, trace: seq<T>, i: nat)
    requires c >= 1 && |s| <= c && i < |trace| && trace[i] in FifoRun(c, s, trace)
    ensures var j2, d, at := IndexOf(FifoRun(c, s, trace), trace[i]), Later(c, s, trace, i + 1),
                             Later(c, s, trace, i + 1) + PlaceAt(c, s, trace, i);
            j2 == at || (j2 < d && j2 + c < at)
  {
    hide History, FifoRun, Admitted, PlaceAt, Later, IndexOf;
    var w, end := History(c, s, trace), FifoRun(c, s, trace);
    var j2, d, at := IndexOf(end, trace[i]), Later(c, s, trace, i + 1),
                     Later(c, s, trace, i + 1) + PlaceAt(c, s, trace, i);
    RunIsHistory(c, s, trace);
    PlaceInHistory(c, s, trace, i);
    assert w[j2] == end[j2] == trace[i];
    if at < |end| {
      assert end[at] == w[at];
      IndexOfFirst(end, trace[i], at);
    }
    assert j2 == at || j2 < d;
    PlaceBounds(c, s, trace, i);
    if j2 < d && at <= j2 + c {
      InsertedWasAbsent(c, s, trace, j2, at);
    }
  }

  lemma {:induction false} StaysIsRounds<T(!new)>(c: nat, s: seq<T>, trace: seq<T>, i: nat)
    requires c >= 1 && |s| <= c && i < |trace| && StaysFrom(c, s, trace, i)
    ensures RoundsLater(c, s, trace, i)
  {
    hide FifoRun, Admitted, History, IndexOf, PlaceAt, Later;
    RunIsHistory(c, s, trace);
    PlaceInHistory(c, s, trace, i);
    var at := Later(c, s, trace, i + 1) + PlaceAt(c, s, trace, i);
    assert FifoRun(c, s, trace)[at] == trace[i];
    FinalPlace(c, s, trace, i);
  }

  lemma {:induction false} RoundsIsStays<T(!new)>(c: nat, s: seq<T>, trace: seq<T>, i: nat)
    requires c >= 1 && |s| <= c && i < |trace| && RoundsLater(c, s, trace, i)
    requires |Admitted(c, s, trace)| <= c
    ensures StaysFrom(c, s, trace, i)
  {
    hide History, IndexOf, FifoRun, Admitted, Take, PlaceAt, Later;
    FinalPlace(c, s, trace, i);
    PlaceInHistory(c, s, trace, i);
    PlaceBounds(c, s, trace, i);
    NoRound(IndexOf(FifoRun(c, s, trace), trace[i]), Later(c, s, trace, i + 1), PlaceAt(c, s, trace, i), c);
  }

  lemma {:induction false} PlaceBounds<T(!new)>(c: nat, s: seq<T>, trace: seq<T>, i: nat)
    requires c >= 1 && |s| <= c && i < |trace|
    ensures |FifoRun(c, s, trace)| <= c && PlaceAt(c, s, trace, i) < c
    ensures Later(c, s, trace, i + 1) <= |Admitted(c, s, trace)|
  {
    RunIsHistory(c, s, trace);
    RunIsHistory(c, s, trace[..i + 1]);
  }

  /** Places less than two rounds apart and more than one are not whole rounds apart. */
  lemma {:induction false} NoRound(j2: nat, d: nat, j1: nat, c: nat)
    requires j2 < c && j1 < c && d <= c && (d + j1 - j2) % c == 0
    requires j2 == d + j1 || (j2 < d && j2 + c < d + j1)
    ensures d + j1 < c
  {
    if j2 + c < d + j1 {
      NotARound(d + j1 - j2, c);
    }
  }

  lemma {:induction false} NotARound(n: int, c: nat)
    requires c < n < c + c
    ensures n % c != 0
  {
    assert n == c * 1 + (n - c);
    assert n / c == 1;
  }

  /** Every access of a run finds its key, at the end, a whole number of rounds later exactly when no
      key is ever pushed out after its access. */
  lemma {:induction false} AllRoundsIffAllStay<T(!new)>(c: nat, s: seq<T>, trace: seq<T>)
    requires c >= 1 && |s| <= c && NoDup(s)
    ensures (forall i :: 0 <= i < |trace| ==> RoundsLater(c, s, trace, i)) <==>
            (forall i :: 0 <= i < |trace| ==> StaysFrom(c, s, trace, i))
  {
    if forall i :: 0 <= i < |trace| ==> RoundsLater(c, s, trace, i) {
      FifoRunNoDup(c, s, trace);
      var end := FifoRun(c, s, trace);
      CardNoDup(end);
      forall x | x in trace ensures x in end {
        var i :| 0 <= i < |trace| && trace[i] == x;
        assert RoundsLater(c, s, trace, i);
      }
      SubsetSize(Elements(trace), Elements(end));
      FewKeysInsertedOnce(c, s, trace);
      forall i | 0 <= i < |trace| ensures StaysFrom(c, s, trace, i) {
        RoundsIsStays(c, s, trace, i);
      }
    }
    if forall i :: 0 <= i < |trace| ==> StaysFrom(c, s, trace, i) {
      forall i | 0 <= i < |trace| ensures RoundsLater(c, s, trace, i) {
        StaysIsRounds(c, s, trace, i);
      }
    }
  }

  /** With distinct keys a key that is cached at the end was never pushed out. */
  lemma {:induction false} AllStayIffAllCached<T(!new)>(c: nat, s: seq<T>, trace: seq<T>)
    requires c >= 1 && |s| <= c && NoDup(s) && NoDup(trace)
    ensures (forall i :: 0 <= i < |trace| ==> StaysFrom(c, s, trace, i)) <==>
            (forall x :: x in trace ==> x in FifoRun(c, s, trace))
  {
    AllRoundsIffAllStay(c, s, trace);
    if forall i :: 0 <= i < |trace| ==> StaysFrom(c, s, trace, i) {
      forall x | x in trace ensures x in FifoRun(c, s, trace) {
        var i :| 0 <= i < |trace| && trace[i] == x;
        assert RoundsLater(c, s, trace, i);
      }
    }
    if forall x :: x in trace ==> x in FifoRun(c, s, trace) {
      forall i | 0 <= i < |trace| ensures StaysFrom(c, s, trace, i) {
        CachedStays(c, s, trace, i);
      }
    }
  }

  /** What the run inserts after its first i accesses comes from the accesses after them. */
  lemma {:induction false} LaterFrom<T(!new)>(c: nat, s: seq<T>, trace: seq<T>, i: nat, p: nat)
    requires i <= |trace| && p < Later(c, s, trace, i)
    ensures p < |History(c, s, trace)| && History(c, s, trace)[p] in trace[i..]
    decreases |trace|
  {
    hide FifoRun, History;
    HistorySuffix(c, s, trace, i);
    assert trace[..|trace|] == trace;
    if i < |trace| {
      var init, k := trace[..|trace| - 1], trace[|trace| - 1];
      HistoryNext(c, s, trace);
      assert trace[i..] == init[i..] + [k] && init[..i] == trace[..i];
      if k in FifoRun(c, s, init) {
        LaterFrom(c, s, init, i, p);
      } else if p > 0 {
        LaterFrom(c, s, init, i, p - 1);
      }
    }
  }

  lemma {:induction false} CachedStays<T(!new)>(c: nat, s: seq<T>, trace: seq<T>, i: nat)
    requires c >= 1 && |s| <= c && NoDup(trace) && i < |trace| && trace[i] in FifoRun(c, s, trace)
    ensures StaysFrom(c, s, trace, i)
  {
    hide FifoRun, Admitted, IndexOf, History, Later, PlaceAt;
    var j2 := IndexOf(FifoRun(c, s, trace), trace[i]);
    FinalPlace(c, s, trace, i);
    PlaceBounds(c, s, trace, i);
    RunIsHistory(c, s, trace);
    if j2 < Later(c, s, trace, i + 1) {
      LaterIsOther(c, s, trace, i, j2);
    }
  }

  lemma {:induction false} LaterIsOther<T(!new)>(c: nat, s: seq<T>, trace: seq<T>, i: nat, p: nat)
    requires NoDup(trace) && i < |trace| && p < Later(c, s, trace, i + 1)
    ensures p < |History(c, s, trace)| && History(c, s, trace)[p] != trace[i]
  {
    LaterFrom(c, s, trace, i + 1, p);
    NotAfter(trace, i, History(c, s, trace)[p]);
  }

  lemma {:induction false} NotAfter<T(!new)>(trace: seq<T>, i: nat, x: T)
    requires NoDup(trace) && i < |trace| && x in trace[i + 1..]
    ensures x != trace[i]
  {
    var j :| 0 <= j < |trace[i + 1..]| && trace[i + 1..][j] == x;
    assert trace[i + 1 + j] == x;
  }
}
