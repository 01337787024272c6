/** The percentile dampening of `RebalancePolicy`: an interpolated percentile over a sliding window
    of load samples, and how many spikes it withstands. */
module Dampening {
  import opened Common

  datatype Sample = Sample(t: int, load: real)

  const SMOOTHING_FACTOR := 0.85

  function Loads(samples: seq<Sample>): (loads: seq<real>)
    ensures |loads| == |samples| && forall i :: 0 <= i < |samples| ==> loads[i] == samples[i].load
  {
    seq(|samples|, i requires 0 <= i < |samples| => samples[i].load)
  }

  ghost predicate Ordered(s: seq<real>) {
    forall i, j :: 0 <= i < j < |s| ==> s[i] <= s[j]
  }

  function Insert(s: seq<real>, x: real): (r: seq<real>)
    ensures |r| == |s| + 1
  {
    if s == [] || x < s[0] then [x] + s else [s[0]] + Insert(s[1..], x)
  }

  function Sort(s: seq<real>): (r: seq<real>)
    ensures |r| == |s|
  {
    if s == [] then [] else Insert(Sort(s[..|s| - 1]), s[|s| - 1])
  }

  function Blend(x: real, y: real, f: real): real { x * (1.0 - f) + y * f }

  /** Linear interpolation between the two positions around `rank`. */
  function AtRank(sorted: seq<real>, rank: real): real
    requires 0.0 <= rank <= (|sorted| - 1) as real
  {
    var lo, hi := rank.Floor, Ceiling(rank);
    if lo == hi then sorted[lo] else Blend(sorted[lo], sorted[hi], rank - lo as real)
  }

  function Position(n: nat, p: real): real { p * (n - 1) as real }

  function Rank(n: nat, p: real): (rank: real)
    requires n >= 1 && 0.0 <= p <= 1.0
    ensures 0.0 <= rank <= (n - 1) as real
  {
    Portion((n - 1) as real, p);
    Position(n, p)
  }

  lemma ProductNonNegative(a: real, b: real)
    requires a >= 0.0 && b >= 0.0
    ensures a * b >= 0.0
  {
  }

  lemma ProductPositive(a: real, b: real)
    requires a > 0.0 && b > 0.0
    ensures a * b > 0.0
  {
  }

  lemma Difference(p: real, q: real, m: real)
    ensures (q - p) * m == q * m - p * m
  {
  }

  lemma Portion(m: real, p: real)
    requires m >= 0.0 && 0.0 <= p <= 1.0
    ensures 0.0 <= p * m <= m
  {
    ProductNonNegative(p, m);
    ProductNonNegative(1.0 - p, m);
    Difference(p, 1.0, m);
  }

  lemma ScaleLess(q: real, r: real, y: real)
    requires q < r && y > 0.0
    ensures q * y < r * y
  {
    ProductPositive(r - q, y);
    Difference(q, r, y);
  }

  /** `_percentileOfWindow` once the window is trimmed. */
  function WindowPercentile(loads: seq<real>, p: real): real
    requires 0.0 <= p <= 1.0
  {
    if loads == [] then 0.0
    else AtRank(Sort(loads), Rank(|loads|, p))
  }

  /** The same for every configured percentile.  Outside the range from 0 to 1 the rank lies outside
      the window as soon as there are two samples, and reading there gives NaN (`None`). */
  function Percentile(loads: seq<real>, p: real): Option<real> {
    if 0.0 <= p <= 1.0 then Some(WindowPercentile(loads, p))
    else if |loads| <= 1 then Some(WindowPercentile(loads, 0.0))
    else None
  }

  function Read(sorted: seq<real>, i: int): Option<real> {
    if 0 <= i < |sorted| then Some(sorted[i]) else None
  }

  /** The interpolation at `rank`: both positions are in the window exactly when `rank` is. */
  method Interpolate(sorted: seq<real>, rank: real) returns (r: Option<real>)
    ensures r == if 0.0 <= rank <= (|sorted| - 1) as real then Some(AtRank(sorted, rank)) else None
  {
    var lo, hi := rank.Floor, Ceiling(rank);
    Surrounding(rank, |sorted| - 1);
    var low, high := Read(sorted, lo), Read(sorted, hi);
    if lo == hi { return low; }
    if low.None? || high.None? { return None; }
    r := Some(Blend(low.value, high.value, rank - lo as real));
  }

  /** The computing part of `_percentileOfWindow`. */
  method PercentileOf(loads: seq<real>, p: real) returns (r: Option<real>)
    ensures r == Percentile(loads, p)
    ensures loads == [] ==> r == Some(0.0)
  {
    if |loads| == 0 { return Some(0.0); }
    var sorted := Sort(loads);
    if |sorted| == 1 { return Some(sorted[0]); }
    RankInWindow(|sorted|, p);
    r := Interpolate(sorted, Position(|sorted|, p));
  }

  lemma Surrounding(rank: real, last: int)
    ensures rank.Floor <= Ceiling(rank)
    ensures 0 <= rank.Floor <==> 0.0 <= rank
    ensures Ceiling(rank) <= last <==> rank <= last as real
  {
  }

  /** With two or more samples the position is in the window exactly for percentiles from 0 to 1. */
  lemma RankInWindow(n: nat, p: real)
    requires n >= 2
    ensures 0.0 <= Position(n, p) <= (n - 1) as real <==> 0.0 <= p <= 1.0
  {
    var m := (n - 1) as real;
    if p < 0.0 {
      ScaleLess(p, 0.0, m);
    } else if p > 1.0 {
      ScaleLess(1.0, p, m);
    } else {
      Portion(m, p);
    }
  }

  // ---- Sorting ----------------------------------------------------------------------------------

  /** How many of `s` lie above `m`. */
  function Above(s: seq<real>, m: real): nat {
    if s == [] then 0 else Above(s[1..], m) + if s[0] > m then 1 else 0
  }

  lemma {:induction false} AboveAppend(a: seq<real>, b: seq<real>, m: real)
    ensures Above(a + b, m) == Above(a, m) + Above(b, m)
  {
    if a == [] {
      assert a + b == b;
    } else {
      assert (a + b)[1..] == a[1..] + b;
      AboveAppend(a[1..], b, m);
    }
  }

  lemma {:induction false} InsertFacts(s: seq<real>, x: real, m: real)
    requires Ordered(s)
    ensures forall y :: y in Insert(s, x) ==> y == x || y in s
    ensures Ordered(Insert(s, x))
    ensures Above(Insert(s, x), m) == Above(s, m) + if x > m then 1 else 0
  {
    if s != [] && x >= s[0] {
      InsertFacts(s[1..], x, m);
    } else {
      assert ([x] + s)[1..] == s;
    }
  }

  lemma {:induction false} SortFacts(s: seq<real>, m: real)
    ensures Ordered(Sort(s))
    ensures Above(Sort(s), m) == Above(s, m)
  {
    if s != [] {
      SortFacts(s[..|s| - 1], m);
      InsertFacts(Sort(s[..|s| - 1]), s[|s| - 1], m);
      assert s == s[..|s| - 1] + [s[|s| - 1]];
      AboveAppend(s[..|s| - 1], [s[|s| - 1]], m);
    }
  }

  lemma {:induction false} SortOrderedSame(s: seq<real>)
    requires Ordered(s)
    ensures Sort(s) == s
  {
    if s != [] {
      var front, x := s[..|s| - 1], s[|s| - 1];
      SortOrderedSame(front);
      InsertAtEnd(front, x);
      assert s == front + [x];
    }
  }

  lemma {:induction false} InsertAtEnd(s: seq<real>, x: real)
    requires forall i :: 0 <= i < |s| ==> s[i] <= x
    ensures Insert(s, x) == s + [x]
  {
    if s != [] { InsertAtEnd(s[1..], x); }
  }

  lemma {:induction false} AllAbove(s: seq<real>, m: real)
    requires forall i :: 0 <= i < |s| ==> s[i] > m
    ensures Above(s, m) == |s|
  {
    if s != [] { AllAbove(s[1..], m); }
  }

  lemma {:induction false} NoneAbove(s: seq<real>, m: real)
    requires forall i :: 0 <= i < |s| ==> s[i] <= m
    ensures Above(s, m) == 0
  {
    if s != [] { NoneAbove(s[1..], m); }
  }

  // ---- Spike resistance -------------------------------------------------------------------------

  lemma TailAbove(s: seq<real>, j: nat, m: real)
    requires Ordered(s) && j < |s| && s[j] > m
    ensures Above(s, m) >= |s| - j
  {
    var tail := s[j..];
    assert s == s[..j] + tail;
    forall i | 0 <= i < |tail| ensures tail[i] > m { assert tail[i] == s[j + i] && (i > 0 ==> s[j] <= s[j + i]); }
    AboveAppend(s[..j], tail, m);
    AllAbove(tail, m);
  }

  /** If at most `k` of an ordered window lie above `m`, position `n - 1 - k` does not. */
  lemma QuietPosition(s: seq<real>, k: nat, m: real)
    requires Ordered(s) && k < |s| && Above(s, m) <= k
    ensures s[|s| - 1 - k] <= m
  {
    var j := |s| - 1 - k;
    if s[j] > m { TailAbove(s, j, m); }
  }

  lemma BlendParts(x: real, y: real, f: real)
    ensures Blend(x, y, f) == x - x * f + y * f
  {
  }

  lemma PortionOfGap(x: real, y: real, f: real)
    requires x <= y && 0.0 <= f <= 1.0
    ensures 0.0 <= y * f - x * f <= y - x
  {
    ProductNonNegative(y - x, f);
    ProductNonNegative(y - x, 1.0 - f);
    Difference(x, y, f);
    Difference(x, y, 1.0 - f);
    Rest(x, f);
    Rest(y, f);
  }

  lemma Rest(x: real, f: real)
    ensures x * (1.0 - f) == x - x * f
  {
  }

  lemma BlendBetween(x: real, y: real, f: real)
    requires x <= y && 0.0 <= f <= 1.0
    ensures x <= Blend(x, y, f) <= y
  {
    BlendParts(x, y, f);
    PortionOfGap(x, y, f);
  }

  lemma QuietAtRank(s: seq<real>, rank: real, m: real, j: nat)
    requires Ordered(s) && j < |s| && s[j] <= m && 0.0 <= rank <= j as real
    ensures AtRank(s, rank) <= m
  {
    var lo, hi := rank.Floor, Ceiling(rank);
    assert lo <= hi <= j;
    assert s[lo] <= s[hi] <= m;
    if lo != hi { BlendBetween(s[lo], s[hi], rank - lo as real); }
  }

  /** Whatever `n` loads are in the window, if at most `k` of them exceed `m` then the percentile
      does not exceed `m`: no choice of `k` spikes can push it above the other samples. */
  ghost predicate Withstands(n: nat, k: nat, p: real)
    requires 0.0 <= p <= 1.0
  {
    forall loads, m :: |loads| == n && Above(loads, m) <= k ==> WindowPercentile(loads, p) <= m || n == 0
  }

  lemma QuietOrdered(s: seq<real>, k: nat, m: real, rank: real)
    requires Ordered(s) && k < |s| && Above(s, m) <= k && 0.0 <= rank <= (|s| - 1 - k) as real
    ensures AtRank(s, rank) <= m
  {
    var j := |s| - 1 - k;
    QuietPosition(s, k, m);
    QuietAtRank(s, rank, m, j);
  }

  lemma QuietPercentile(loads: seq<real>, k: nat, p: real, m: real)
    requires 0.0 <= p <= 1.0 && k < |loads| && Above(loads, m) <= k
    requires Rank(|loads|, p) <= (|loads| - 1 - k) as real
    ensures WindowPercentile(loads, p) <= m
  {
    SortFacts(loads, m);
    QuietOrdered(Sort(loads), k, m, Rank(|loads|, p));
  }

  ghost function Flat(n: nat, x: real): seq<real> { seq(n, _ => x) }

  /** `calm` low samples, then only high ones. */
  ghost function Burst(calm: nat, low: real, spikes: nat, high: real): seq<real> {
    Flat(calm, low) + Flat(spikes, high)
  }

  lemma BlendAbove(low: real, high: real, f: real)
    requires low < high && f > 0.0
    ensures Blend(low, high, f) > low && Blend(high, high, f) == high
  {
    ScaleLess(low, high, f);
    BlendParts(low, high, f);
    BlendParts(high, high, f);
  }

  lemma BurstAtRank(calm: nat, low: real, spikes: nat, high: real, rank: real)
    requires low < high && 0.0 <= rank && (calm - 1) as real < rank <= (calm + spikes - 1) as real
    ensures AtRank(Burst(calm, low, spikes, high), rank) > low
  {
    var s := Burst(calm, low, spikes, high);
    var lo, hi := rank.Floor, Ceiling(rank);
    assert calm <= hi < |s| && s[hi] == high;
    if lo != hi { BlendAbove(low, high, rank - lo as real); }
  }

  lemma AboveBurst(calm: nat, low: real, spikes: nat, high: real)
    requires low < high
    ensures Above(Burst(calm, low, spikes, high), low) == spikes
  {
    AboveAppend(Flat(calm, low), Flat(spikes, high), low);
    NoneAbove(Flat(calm, low), low);
    AllAbove(Flat(spikes, high), low);
  }

  /** The window of `n` samples that ends in `k` spikes, or has only spikes. */
  ghost function Spiky(n: nat, k: nat, low: real, high: real): seq<real> {
    if k < n then Burst(n - k, low, k, high) else Burst(0, low, n, high)
  }

  /** With one spike more than the percentile allows, a burst shows in the result. */
  lemma BurstShows(n: nat, k: nat, p: real, low: real, high: real)
    requires 0.0 <= p <= 1.0 && n >= 1 && Rank(n, p) > (n - 1 - k) as real && low < high
    ensures var loads := Spiky(n, k, low, high);
            |loads| == n && Above(loads, low) <= k && WindowPercentile(loads, p) > low
  {
    var spikes := Min(n, k);
    AboveBurst(n - spikes, low, spikes, high);
    SortOrderedSame(Spiky(n, k, low, high));
    BurstAtRank(n - spikes, low, spikes, high, Rank(n, p));
  }

  /** The dampened load withstands any `k` spikes exactly when the percentile's rank does not reach
      into the top `k` samples. */
  lemma WithstandsIff(n: nat, k: nat, p: real)
    requires 0.0 <= p <= 1.0 && n >= 1
    ensures Withstands(n, k, p) <==> Rank(n, p) <= (n - 1 - k) as real
  {
    if Rank(n, p) <= (n - 1 - k) as real {
      forall loads, m | |loads| == n && Above(loads, m) <= k ensures WindowPercentile(loads, p) <= m {
        QuietPercentile(loads, k, p, m);
      }
    } else {
      BurstShows(n, k, p, 0.0, 1.0);
      assert Above(Spiky(n, k, 0.0, 1.0), 0.0) <= k;
    }
  }

  // ---- The gates --------------------------------------------------------------------------------

  datatype Verdict = BelowThreshold | Dampened | Rebalance

  function Gate(threshold: real): real { 1.0 + threshold * SMOOTHING_FACTOR }

  /** The loads at the instantaneous and at the dampened gate. */
  function LoadLimit(threshold: real, mean: real): real { (1.0 + threshold) * mean }
  function QuietLimit(threshold: real, mean: real): real { Gate(threshold) * mean }

  lemma LimitsAtOne(threshold: real)
    ensures LoadLimit(threshold, 1.0) == 1.0 + threshold && QuietLimit(threshold, 1.0) == Gate(threshold)
  {
  }

  lemma LimitsAtZero(mean: real)
    ensures LoadLimit(0.0, mean) == mean && QuietLimit(0.0, mean) == mean
  {
  }

  /** Steps 5 and 6 of a pass, from the cluster mean to the two gates.  No comparison with NaN holds,
      so a percentile that is NaN never dampens. */
  function Judge(localLoad: real, p95: Option<real>, clusterMean: real, thresholdAboveMean: real): Verdict {
    if clusterMean <= 0.0 then BelowThreshold
    else if localLoad / clusterMean <= 1.0 + thresholdAboveMean then BelowThreshold
    else if p95.Some? && p95.value / clusterMean <= Gate(thresholdAboveMean) then Dampened
    else Rebalance
  }

  /** The gates without division: the load is above `1 + threshold` times the mean, and the dampened
      load, unless it is NaN, above `1 + 0.85 * threshold` times. */
  lemma JudgeIff(localLoad: real, p95: Option<real>, mean: real, threshold: real)
    ensures var verdict := Judge(localLoad, p95, mean, threshold);
            var loaded := mean > 0.0 && localLoad > (1.0 + threshold) * mean;
            var quiet := p95.Some? && p95.value <= (1.0 + threshold * 0.85) * mean;
            && (verdict == BelowThreshold <==> !loaded)
            && (verdict == Dampened <==> loaded && quiet)
            && (verdict == Rebalance <==> loaded && !quiet)
  {
    if mean > 0.0 {
      QuotientAtMost(localLoad, mean, 1.0 + threshold);
      if p95.Some? { QuotientAtMost(p95.value, mean, 1.0 + threshold * 0.85); }
    }
  }

  /** What a pass decides when its own sample is the last one of the window. */
  function JudgeWindow(loads: seq<real>, p: real, mean: real, threshold: real): Verdict
    requires loads != []
  {
    Judge(loads[|loads| - 1], Percentile(loads, p), mean, threshold)
  }

  lemma QuotientAtMost(x: real, y: real, q: real)
    requires y > 0.0
    ensures x / y <= q <==> x <= q * y
  {
    var r := x / y;
    assert r * y == x;
    if r > q { ScaleLess(q, r, y); }
    if r < q { ScaleLess(r, q, y); }
  }

  /** A percentile within the dampened gate keeps it shut. */
  lemma WithinGate(localLoad: real, x: real, mean: real, threshold: real)
    requires mean > 0.0 && x <= QuietLimit(threshold, mean)
    ensures Judge(localLoad, Some(x), mean, threshold) != Rebalance
  {
    QuotientAtMost(x, mean, Gate(threshold));
  }

  lemma BothGatesOpen(localLoad: real, x: Option<real>, mean: real, threshold: real)
    requires mean > 0.0 && localLoad > LoadLimit(threshold, mean)
    requires x.Some? ==> x.value > QuietLimit(threshold, mean)
    ensures Judge(localLoad, x, mean, threshold) == Rebalance
  {
    QuotientAtMost(localLoad, mean, 1.0 + threshold);
    if x.Some? { QuotientAtMost(x.value, mean, Gate(threshold)); }
  }

  lemma WindowRebalances(loads: seq<real>, p: real, mean: real, threshold: real)
    requires loads != [] && mean > 0.0 && loads[|loads| - 1] > LoadLimit(threshold, mean)
    requires var x := Percentile(loads, p); x.Some? ==> x.value > QuietLimit(threshold, mean)
    ensures JudgeWindow(loads, p, mean, threshold) == Rebalance
  {
    BothGatesOpen(loads[|loads| - 1], Percentile(loads, p), mean, threshold);
  }

  /** A burst of up to `k` spikes never starts a rebalance while every other sample is within the
      dampened gate, however high the spikes are. */
  lemma SpikesNeverRebalance(
    loads: seq<real>, k: nat, p: real, quiet: real, localLoad: real, mean: real, threshold: real)
    requires 0.0 <= p <= 1.0 && k < |loads| && Above(loads, quiet) <= k
    requires Rank(|loads|, p) <= (|loads| - 1 - k) as real
    requires mean > 0.0 && quiet <= QuietLimit(threshold, mean)
    ensures Judge(localLoad, Percentile(loads, p), mean, threshold) != Rebalance
  {
    QuietPercentile(loads, k, p, quiet);
    WithinGate(localLoad, WindowPercentile(loads, p), mean, threshold);
  }

  /** A window of `n` samples; measured loads are never negative. */
  ghost predicate IsWindow(loads: seq<real>, n: nat) {
    |loads| == n >= 1 && forall i :: 0 <= i < |loads| ==> loads[i] >= 0.0
  }

  /** No window of `n` samples of which at most `k` are above the dampened gate starts a rebalance. */
  ghost predicate SpikesAreDampened(n: nat, k: nat, p: real, threshold: real) {
    forall loads, mean :: IsWindow(loads, n) && mean > 0.0 && Above(loads, QuietLimit(threshold, mean)) <= k
      ==> JudgeWindow(loads, p, mean, threshold) != Rebalance
  }

  /** Above both gates of a cluster whose mean is 1. */
  ghost function Spike(threshold: real): real { if threshold < 0.0 then 2.0 else 2.0 + threshold }

  lemma SpikyEnds(n: nat, k: nat, low: real, high: real)
    requires n >= 1 && k >= 1
    ensures |Spiky(n, k, low, high)| == n && Spiky(n, k, low, high)[n - 1] == high
  {
  }

  lemma OneSample(loads: seq<real>, p: real)
    requires |loads| == 1 && 0.0 <= p <= 1.0
    ensures WindowPercentile(loads, p) == loads[0]
  {
    SortOrderedSame(loads);
  }

  lemma SpikesShow(n: nat, k: nat, p: real, low: real, high: real)
    requires n >= 1 && k >= 1 && low < high && (0.0 <= p <= 1.0 ==> Rank(n, p) > (n - 1 - k) as real)
    ensures var x := Percentile(Spiky(n, k, low, high), p); x.Some? ==> x.value > low
  {
    if 0.0 <= p <= 1.0 {
      BurstShows(n, k, p, low, high);
    } else if n == 1 {
      SpikyEnds(1, k, low, high);
      OneSample(Spiky(1, k, low, high), 0.0);
    }
  }

  lemma SpikesRebalance(n: nat, k: nat, p: real, threshold: real, low: real)
    requires n >= 1 && k >= 1 && 0.0 <= low < Spike(threshold) && low >= Gate(threshold)
    requires 0.0 <= p <= 1.0 ==> Rank(n, p) > (n - 1 - k) as real
    ensures JudgeWindow(Spiky(n, k, low, Spike(threshold)), p, 1.0, threshold) == Rebalance
  {
    var high := Spike(threshold);
    SpikyEnds(n, k, low, high);
    SpikesShow(n, k, p, low, high);
    LimitsAtOne(threshold);
    WindowRebalances(Spiky(n, k, low, high), p, 1.0, threshold);
  }

  lemma SpikyIsWindow(n: nat, k: nat, low: real, high: real)
    requires n >= 1 && 0.0 <= low < high
    ensures IsWindow(Spiky(n, k, low, high), n)
  {
  }

  lemma SpikyIsFewSpikes(n: nat, k: nat, low: real, high: real, gate: real)
    requires n >= 1 && low < high && (low == gate || k >= n)
    ensures Above(Spiky(n, k, low, high), gate) <= k
  {
    if k < n {
      AboveBurst(n - k, low, k, high);
    } else {
      AboveAtMost(Spiky(n, k, low, high), gate);
    }
  }

  /** Bursts that the percentile does not withstand do start one, when they last until now. */
  lemma BurstRebalances(n: nat, k: nat, p: real, threshold: real)
    requires n >= 1 && k >= 1 && (Gate(threshold) >= 0.0 || k >= n)
    requires 0.0 <= p <= 1.0 ==> Rank(n, p) > (n - 1 - k) as real
    ensures !SpikesAreDampened(n, k, p, threshold)
  {
    var low := if Gate(threshold) >= 0.0 then Gate(threshold) else 0.0;
    SpikesRebalance(n, k, p, threshold, low);
    LimitsAtOne(threshold);
    SpikyIsWindow(n, k, low, Spike(threshold));
    SpikyIsFewSpikes(n, k, low, Spike(threshold), QuietLimit(threshold, 1.0));
  }

  lemma {:induction false} AboveAtMost(s: seq<real>, m: real)
    ensures Above(s, m) <= |s|
  {
    if s != [] { AboveAtMost(s[1..], m); }
  }

  /** Below a negative gate there is no room for a sample. */
  lemma AllAboveNegative(loads: seq<real>, n: nat, threshold: real, mean: real)
    requires IsWindow(loads, n) && Gate(threshold) < 0.0 && mean > 0.0
    ensures Above(loads, QuietLimit(threshold, mean)) == n
  {
    ScaleLess(Gate(threshold), 0.0, mean);
    AllAbove(loads, QuietLimit(threshold, mean));
  }

  lemma NegativeGateVacuous(n: nat, k: nat, p: real, threshold: real)
    requires Gate(threshold) < 0.0 && k < n
    ensures SpikesAreDampened(n, k, p, threshold)
  {
    forall loads, mean | IsWindow(loads, n) && mean > 0.0 ensures Above(loads, QuietLimit(threshold, mean)) == n {
      AllAboveNegative(loads, n, threshold, mean);
    }
  }

  /** Any `k` spikes are dampened exactly when the percentile is one and its rank does not reach into
      the top `k` samples; outside the range from 0 to 1 the dampening is off.  (With a threshold so
      low that the dampened gate is negative, every sample is a spike.) */
  lemma SpikesAreDampenedIff(n: nat, k: nat, p: real, threshold: real)
    requires n >= 1 && k >= 1
    ensures SpikesAreDampened(n, k, p, threshold)
      <==> (0.0 <= p <= 1.0 && Position(n, p) <= (n - 1 - k) as real) || (Gate(threshold) < 0.0 && k < n)
  {
    if 0.0 <= p <= 1.0 && Position(n, p) <= (n - 1 - k) as real {
      assert Rank(n, p) >= 0.0;
      forall loads, mean | IsWindow(loads, n) && mean > 0.0 && Above(loads, QuietLimit(threshold, mean)) <= k
        ensures JudgeWindow(loads, p, mean, threshold) != Rebalance
      {
        SpikesNeverRebalance(loads, k, p, QuietLimit(threshold, mean), loads[n - 1], mean, threshold);
      }
    } else if Gate(threshold) < 0.0 && k < n {
      NegativeGateVacuous(n, k, p, threshold);
    } else {
      BurstRebalances(n, k, p, threshold);
    }
  }

  /** With the default percentile a single spike is dampened only once the window has 21 samples. */
  lemma SingleSpikeIff(n: nat, threshold: real)
    requires n >= 1
    ensures SpikesAreDampened(n, 1, 0.95, threshold) <==> n >= 21 || (Gate(threshold) < 0.0 && n >= 2)
  {
    SpikesAreDampenedIff(n, 1, 0.95, threshold);
  }

  // ---- Reactivity -------------------------------------------------------------------------------

  lemma RankMonotone(n: nat, p: real, q: real)
    requires n >= 1 && 0.0 <= p <= q <= 1.0
    ensures Rank(n, p) <= Rank(n, q)
  {
    ProductNonNegative(q - p, (n - 1) as real);
    Difference(p, q, (n - 1) as real);
  }

  lemma GapGrows(x: real, y: real, f: real, g: real)
    requires x <= y && f <= g
    ensures y * f - x * f <= y * g - x * g
  {
    ProductNonNegative(y - x, g - f);
    Difference(f, g, y - x);
    Difference(x, y, f);
    Difference(x, y, g);
  }

  lemma BlendMonotone(x: real, y: real, f: real, g: real)
    requires x <= y && f <= g
    ensures Blend(x, y, f) <= Blend(x, y, g)
  {
    BlendParts(x, y, f);
    BlendParts(x, y, g);
    GapGrows(x, y, f, g);
  }

  lemma AtRankBetween(s: seq<real>, r: real)
    requires Ordered(s) && 0.0 <= r <= (|s| - 1) as real
    ensures s[r.Floor] <= AtRank(s, r) <= s[Ceiling(r)]
  {
    var lo, hi := r.Floor, Ceiling(r);
    if lo != hi { BlendBetween(s[lo], s[hi], r - lo as real); }
  }

  lemma AtRankMonotone(s: seq<real>, r: real, r': real)
    requires Ordered(s) && 0.0 <= r <= r' <= (|s| - 1) as real
    ensures AtRank(s, r) <= AtRank(s, r')
  {
    AtRankBetween(s, r);
    AtRankBetween(s, r');
    if r.Floor == r'.Floor && r.Floor as real < r {
      BlendMonotone(s[r.Floor], s[Ceiling(r)], r - r.Floor as real, r' - r.Floor as real);
    }
  }

  lemma PercentileMonotone(loads: seq<real>, p: real, q: real)
    requires loads != [] && 0.0 <= p <= q <= 1.0
    ensures WindowPercentile(loads, p) <= WindowPercentile(loads, q)
  {
    SortFacts(loads, 0.0);
    RankMonotone(|loads|, p, q);
    AtRankMonotone(Sort(loads), Rank(|loads|, p), Rank(|loads|, q));
  }

  lemma GateMonotone(localLoad: real, x: real, y: real, mean: real, threshold: real)
    requires x <= y && Judge(localLoad, Some(x), mean, threshold) == Rebalance
    ensures Judge(localLoad, Some(y), mean, threshold) == Rebalance
  {
    QuotientAtMost(x, mean, Gate(threshold));
    QuotientAtMost(y, mean, Gate(threshold));
  }

  /** A larger percentile never makes the policy slower to act: whatever makes it rebalance with the
      smaller one makes it rebalance with the larger one. */
  lemma LargerPercentileReactsMore(loads: seq<real>, p: real, q: real, mean: real, threshold: real)
    requires loads != [] && 0.0 <= p <= q <= 1.0 && JudgeWindow(loads, p, mean, threshold) == Rebalance
    ensures JudgeWindow(loads, q, mean, threshold) == Rebalance
  {
    PercentileMonotone(loads, p, q);
    GateMonotone(
      loads[|loads| - 1], WindowPercentile(loads, p), WindowPercentile(loads, q), mean, threshold);
  }

  /** Every window of `n` samples gets the same verdict on a rebalance with `p` and with `q`. */
  ghost predicate ReactsAlike(n: nat, p: real, q: real) {
    forall loads, mean, threshold :: IsWindow(loads, n) ==>
      (JudgeWindow(loads, p, mean, threshold) == Rebalance <==> JudgeWindow(loads, q, mean, threshold) == Rebalance)
  }

  ghost function Ramp(n: nat): seq<real> { seq(n, i => i as real) }

  /** The percentile of the loads 0, 1, 2, ... is its rank. */
  lemma RampPercentile(n: nat, p: real)
    requires n >= 1 && 0.0 <= p <= 1.0
    ensures WindowPercentile(Ramp(n), p) == Rank(n, p)
  {
    SortOrderedSame(Ramp(n));
    RampAtRank(n, Rank(n, p));
  }

  lemma RampAtRank(n: nat, rank: real)
    requires 0.0 <= rank <= (n - 1) as real
    ensures AtRank(Ramp(n), rank) == rank
  {
    var lo, hi := rank.Floor, Ceiling(rank);
    if lo != hi {
      assert hi == lo + 1;
      BlendStep(lo as real, rank - lo as real);
    } else {
      assert lo as real == rank;
    }
  }

  lemma BlendStep(x: real, f: real)
    ensures Blend(x, x + 1.0, f) == x + f
  {
    BlendParts(x, x + 1.0, f);
    Difference(-1.0, x, f);
  }

  lemma RankStrict(n: nat, p: real, q: real)
    requires n >= 2 && 0.0 <= p < q <= 1.0
    ensures Rank(n, p) < Rank(n, q)
  {
    PositionStrict(n, p, q);
  }

  lemma PositionStrict(n: nat, p: real, q: real)
    requires n >= 2 && p < q
    ensures Position(n, p) < Position(n, q)
  {
    ScaleLess(p, q, (n - 1) as real);
  }

  /** A ramp whose cluster mean lies between the two percentiles rebalances with the larger only. */
  lemma RampTells(n: nat, p: real, q: real)
    requires n >= 2 && 0.0 <= p < q <= 1.0
    ensures var mean := (Rank(n, p) + Rank(n, q)) / 2.0;
            && JudgeWindow(Ramp(n), p, mean, 0.0) != Rebalance
            && JudgeWindow(Ramp(n), q, mean, 0.0) == Rebalance
  {
    var x, y := Rank(n, p), Rank(n, q);
    var mean := (x + y) / 2.0;
    RankStrict(n, p, q);
    RampPercentile(n, p);
    RampPercentile(n, q);
    assert Ramp(n)[n - 1] == (n - 1) as real;
    LimitsAtZero(mean);
    WithinGate((n - 1) as real, x, mean, 0.0);
    BothGatesOpen((n - 1) as real, Some(y), mean, 0.0);
  }

  /** So a larger percentile is slower to act for no window, and quicker for some window of every size
      but one: the verdicts agree exactly when the percentiles or the samples leave no choice. */
  lemma ReactsAlikeIff(n: nat, p: real, q: real)
    requires n >= 1 && 0.0 <= p <= q <= 1.0
    ensures ReactsAlike(n, p, q) <==> n == 1 || p == q
  {
    if n >= 2 && p < q {
      RampTells(n, p, q);
      assert IsWindow(Ramp(n), n);
    } else if n == 1 {
      forall loads | IsWindow(loads, 1) ensures WindowPercentile(loads, p) == WindowPercentile(loads, q) {
        OneSample(loads, p);
        OneSample(loads, q);
      }
    }
  }

  // ---- The window -------------------------------------------------------------------------------

  /** `kept` is what the window has left of `samples`: it starts behind samples that are all too old,
      and nothing in it is. */
  ghost predicate Window(samples: seq<Sample>, cutoff: int, kept: seq<Sample>) {
    && |kept| <= |samples| && kept == samples[|samples| - |kept|..]
    && (forall i :: 0 <= i < |samples| - |kept| ==> samples[i].t < cutoff)
    && forall i :: 0 <= i < |kept| ==> kept[i].t >= cutoff
  }

  /** So it holds exactly the samples that are young enough. */
  lemma WindowMembers(samples: seq<Sample>, cutoff: int, kept: seq<Sample>)
    requires Window(samples, cutoff, kept)
    ensures forall s :: s in kept <==> s in samples && s.t >= cutoff
  {
    assert samples == samples[..|samples| - |kept|] + kept;
  }

  function Times(samples: seq<Sample>): seq<int> {
    seq(|samples|, i requires 0 <= i < |samples| => samples[i].t)
  }

  /** Recording a new sample keeps the window in time order ... */
  lemma WindowInOrder(samples: seq<Sample>, s: Sample)
    requires InTimeOrder(Times(samples)) && forall x :: x in samples ==> x.t <= s.t
    ensures InTimeOrder(Times(samples + [s]))
  {
    assert Times(samples + [s]) == Times(samples) + [s.t];
    assert forall i :: 0 <= i < |samples| ==> samples[i] in samples && Times(samples)[i] == samples[i].t;
  }

  /** ... and so does dropping the oldest. */
  lemma OldestFirst(samples: seq<Sample>)
    requires InTimeOrder(Times(samples)) && samples != []
    ensures InTimeOrder(Times(samples[1..]))
    ensures forall i :: 0 <= i < |samples| ==> samples[0].t <= samples[i].t
  {
    assert Times(samples[1..]) == Times(samples)[1..];
    assert forall i :: 0 <= i < |samples| ==> Times(samples)[i] == samples[i].t;
  }
}
