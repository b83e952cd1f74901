/** The nearest-rank percentiles the pool reports over latency samples. */
module Percentiles {
  import Digits

  /** How many samples are at most v, and how many are less. */
  function AtMost(samples: seq<int>, v: int): nat {
    if samples == [] then 0 else (if samples[0] <= v then 1 else 0) + AtMost(samples[1..], v)
  }

  function Below(samples: seq<int>, v: int): nat {
    AtMost(samples, v - 1)
  }

  /** v is a sample with at least p percent of the samples at or below it, and fewer than that below. */
  predicate IsPercentile(samples: seq<int>, p: nat, v: int) {
    v in samples && 100 * AtMost(samples, v) >= p * |samples| > 100 * Below(samples, v)
  }

  /** The definition leaves no choice. */
  lemma PercentileIsUnique(samples: seq<int>, p: nat, v: int, u: int)
    requires IsPercentile(samples, p, v) && IsPercentile(samples, p, u)
    ensures v == u
  {
    if v < u {
      AtMostMonotone(samples, v, u - 1);
    } else if u < v {
      AtMostMonotone(samples, u, v - 1);
    }
  }

  lemma {:induction false} AtMostMonotone(samples: seq<int>, v: int, u: int)
    requires v <= u
    ensures AtMost(samples, v) <= AtMost(samples, u)
  {
    if samples != [] {
      AtMostMonotone(samples[1..], v, u);
    }
  }

  lemma HigherPercentileIsNoLess(samples: seq<int>, p: nat, q: nat, v: int, u: int)
    requires p <= q && IsPercentile(samples, p, v) && IsPercentile(samples, q, u)
    ensures v <= u
  {
    Digits.MulMonotone(p, q, |samples|);
    if u < v {
      AtMostMonotone(samples, u, v - 1);
    }
  }

  // ----- sorting: what the library's sort does to the copy -----

  predicate Sorted(s: seq<int>) {
    forall i, j :: 0 <= i < j < |s| ==> s[i] <= s[j]
  }

  function Insert(x: int, s: seq<int>): (r: seq<int>)
    requires Sorted(s)
    ensures Sorted(r) && |r| == |s| + 1
    ensures r[0] == if s == [] || x <= s[0] then x else s[0]
  {
    if s == [] || x <= s[0] then [x] + s else [s[0]] + Insert(x, s[1..])
  }

  function Sort(s: seq<int>): (r: seq<int>)
    ensures Sorted(r) && |r| == |s|
  {
    if s == [] then [] else Insert(s[0], Sort(s[1..]))
  }

  /** Membership, and so everything sorting must keep, shows in the counts. */
  lemma {:induction false} MemberCounts(s: seq<int>, v: int)
    ensures v in s <==> AtMost(s, v) > Below(s, v)
    ensures AtMost(s, v) >= Below(s, v)
  {
    if s != [] {
      MemberCounts(s[1..], v);
      assert v in s <==> v == s[0] || v in s[1..];
    }
  }

  lemma {:induction false} InsertCounts(x: int, s: seq<int>, v: int)
    requires Sorted(s)
    ensures AtMost(Insert(x, s), v) == AtMost([x] + s, v)
  {
    assert ([x] + s)[1..] == s;
    if s != [] && x > s[0] {
      InsertCounts(x, s[1..], v);
      assert ([x] + s[1..])[1..] == s[1..];
      assert ([s[0]] + Insert(x, s[1..]))[1..] == Insert(x, s[1..]);
    }
  }

  lemma {:induction false} SortCounts(s: seq<int>, v: int)
    ensures AtMost(Sort(s), v) == AtMost(s, v)
  {
    if s != [] {
      SortCounts(s[1..], v);
      InsertCounts(s[0], Sort(s[1..]), v);
      assert ([s[0]] + Sort(s[1..]))[1..] == Sort(s[1..]);
    }
  }

  /** In a sorted sequence the counts are read off the position. */
  lemma {:induction false} SortedCounts(s: seq<int>, v: int, k: nat)
    requires Sorted(s) && k <= |s|
    ensures (forall i :: 0 <= i < k ==> s[i] <= v) ==> AtMost(s, v) >= k
    ensures (forall i :: k <= i < |s| ==> s[i] > v) ==> AtMost(s, v) <= k
  {
    if s != [] {
      if k > 0 {
        SortedCounts(s[1..], v, k - 1);
      } else {
        SortedCounts(s[1..], v, 0);
      }
    }
  }

  /** The zero-based index of the nearest rank: percent times n over 100, rounded up, less one. */
  function NearestRank(ordered: seq<int>, percent: nat): (r: int)
    requires ordered != [] && percent <= 100
  {
    var rank := (percent * |ordered| + 99) / 100;
    Digits.MulMonotone(percent, 100, |ordered|);
    ordered[if rank - 1 > 0 then rank - 1 else 0]
  }

  lemma RankBounds(percent: nat, n: nat, at: int)
    requires 0 < percent <= 100 && n > 0 && at == (percent * n + 99) / 100 - 1
    ensures 0 <= at < n && 100 * (at + 1) >= percent * n > 100 * at
  {
  }

  lemma NearestRankIsPercentile(samples: seq<int>, percent: nat)
    requires samples != [] && 0 < percent <= 100
    ensures IsPercentile(samples, percent, NearestRank(Sort(samples), percent))
  {
    var ordered := Sort(samples);
    var at := (percent * |samples| + 99) / 100 - 1;
    RankBounds(percent, |samples|, at);
    forall v
      ensures AtMost(ordered, v) == AtMost(samples, v)
    {
      SortCounts(samples, v);
    }
    RankCounts(samples, ordered, at);
    assert NearestRank(ordered, percent) == ordered[at];
  }

  lemma PositionCounts(ordered: seq<int>, at: nat)
    requires Sorted(ordered) && at < |ordered|
    ensures AtMost(ordered, ordered[at]) >= at + 1 && AtMost(ordered, ordered[at] - 1) <= at
  {
    var v := ordered[at];
    assert forall i :: 0 <= i < at + 1 ==> ordered[i] <= v;
    assert forall i :: at <= i < |ordered| ==> ordered[i] > v - 1;
    SortedCounts(ordered, v, at + 1);
    SortedCounts(ordered, v - 1, at);
  }

  /** ordered is samples sorted: same counts, in order. */
  lemma RankCounts(samples: seq<int>, ordered: seq<int>, at: nat)
    requires Sorted(ordered) && at < |ordered|
    requires forall v :: AtMost(ordered, v) == AtMost(samples, v)
    ensures var v := ordered[at];
            v in samples && AtMost(samples, v) >= at + 1 && Below(samples, v) <= at
  {
    PositionCounts(ordered, at);
    MemberCounts(samples, ordered[at]);
  }

  method LatencyPercentiles(samples: seq<int>) returns (p50: int, p95: int)
    ensures samples == [] ==> p50 == p95 == 0
    ensures samples != [] ==> IsPercentile(samples, 50, p50) && IsPercentile(samples, 95, p95)
    ensures p50 <= p95
  {
    if |samples| == 0 {
      return 0, 0;
    }
    var ordered := Sort(samples);
    p50, p95 := NearestRank(ordered, 50), NearestRank(ordered, 95);
    NearestRankIsPercentile(samples, 50);
    NearestRankIsPercentile(samples, 95);
    HigherPercentileIsNoLess(samples, 50, 95, p50, p95);
  }
}
