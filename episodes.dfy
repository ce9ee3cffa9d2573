/** Episode aggregation: the second part of calculate. The measured trace is cut into episodes,
    each closed by a pause segment or by the last segment, and each episode gets the eight
    statistics of the plugin's per-episode record. */
module Episodes {
  import opened Phases
  import opened Measurement

  /** The per-episode record, in the plugin's slot order: catastrophe and rescue counts, growth
      and shrink time, catastrophe and rescue frequency, growth and shrink distance. */
  datatype Stats = Stats(numCat: nat, numRes: nat, tGrowth: real, tShrink: real,
                         freqCat: real, freqRes: real, dGrowth: real, dShrink: real)

  const NoStats := Stats(0, 0, 0.0, 0.0, 0.0, 0.0, 0.0, 0.0)

  /** Total time of the segments of phase p among ms[lo..hi]. */
  function PhaseTime(ms: seq<Measurement>, p: Phase, lo: nat, hi: nat): real
    requires lo <= hi <= |ms|
    decreases hi
  {
    if hi == lo then 0.0
    else PhaseTime(ms, p, lo, hi - 1) + (if ms[hi - 1].phase == p then ms[hi - 1].time else 0.0)
  }

  /** Total distance of the segments of phase p among ms[lo..hi]. */
  function PhaseDist(ms: seq<Measurement>, p: Phase, lo: nat, hi: nat): real
    requires lo <= hi <= |ms|
    decreases hi
  {
    if hi == lo then 0.0
    else PhaseDist(ms, p, lo, hi - 1) + (if ms[hi - 1].phase == p then ms[hi - 1].dist else 0.0)
  }

  /** Number of segments of phase p among ms[lo..hi]. */
  function PhaseCount(ms: seq<Measurement>, p: Phase, lo: nat, hi: nat): nat
    requires lo <= hi <= |ms|
    decreases hi
  {
    if hi == lo then 0
    else PhaseCount(ms, p, lo, hi - 1) + (if ms[hi - 1].phase == p then 1 else 0)
  }

  /** Whether segment j is counted as a rescue: a growth segment right after a shrink segment,
      at an index above 1. */
  predicate RescueAt(ms: seq<Measurement>, j: nat)
    requires j < |ms|
  {
    j > 1 && ms[j].phase == Growth && ms[j - 1].phase == Shrink
  }

  /** Number of indices j among lo..hi-1 where a rescue is counted. */
  function Rescues(ms: seq<Measurement>, lo: nat, hi: nat): nat
    requires lo <= hi <= |ms|
    decreases hi
  {
    if hi == lo then 0
    else Rescues(ms, lo, hi - 1) + (if RescueAt(ms, hi - 1) then 1 else 0)
  }

  /** The statistics of the episode ms[lo..hi]: totals over its growth and shrink segments
      (pause and undefined segments add nothing), one catastrophe per shrink segment, the
      rescues, and each frequency set only when its time is not zero. */
  function EpisodeStats(ms: seq<Measurement>, lo: nat, hi: nat): Stats
    requires lo <= hi <= |ms|
  {
    var tGrowth := PhaseTime(ms, Growth, lo, hi);
    var tShrink := PhaseTime(ms, Shrink, lo, hi);
    var numCat := PhaseCount(ms, Shrink, lo, hi);
    var numRes := Rescues(ms, lo, hi);
    Stats(numCat, numRes, tGrowth, tShrink,
          if tGrowth != 0.0 then numCat as real / tGrowth else 0.0,
          if tShrink != 0.0 then numRes as real / tShrink else 0.0,
          PhaseDist(ms, Growth, lo, hi), PhaseDist(ms, Shrink, lo, hi))
  }

  /** The inner loop of calculate: accumulate the statistics of the episode ms[lo..hi]. */
  method AccumulateEpisode(ms: seq<Measurement>, lo: nat, hi: nat) returns (d: Stats)
    requires lo <= hi <= |ms|
    ensures d == EpisodeStats(ms, lo, hi)
  {
    d := NoStats;
    for j := lo to hi
      invariant d.tGrowth == PhaseTime(ms, Growth, lo, j) && d.dGrowth == PhaseDist(ms, Growth, lo, j)
      invariant d.tShrink == PhaseTime(ms, Shrink, lo, j) && d.dShrink == PhaseDist(ms, Shrink, lo, j)
      invariant d.numCat == PhaseCount(ms, Shrink, lo, j) && d.numRes == Rescues(ms, lo, j)
      invariant d.freqCat == 0.0 && d.freqRes == 0.0
    {
      if ms[j].phase == Growth {
        d := d.(tGrowth := d.tGrowth + ms[j].time, dGrowth := d.dGrowth + ms[j].dist);
        if j > 1 && ms[j - 1].phase == Shrink {
          d := d.(numRes := d.numRes + 1);
        }
      } else if ms[j].phase == Shrink {
        d := d.(tShrink := d.tShrink + ms[j].time, dShrink := d.dShrink + ms[j].dist);
        d := d.(numCat := d.numCat + 1);
      }
    }
    if d.tGrowth != 0.0 {
      d := d.(freqCat := d.numCat as real / d.tGrowth);
    }
    if d.tShrink != 0.0 {
      d := d.(freqRes := d.numRes as real / d.tShrink);
    }
  }

  predicate StrictlyIncreasing(s: seq<int>) {
    forall a, b :: 0 <= a < b < |s| ==> s[a] < s[b]
  }

  /** Where an episode may start: at the first segment, or right after a pause segment. */
  predicate IsStart(ms: seq<Measurement>, s: int) {
    s == 0 || (0 < s < |ms| && ms[s - 1].phase == Pause)
  }

  /** starts lists, in increasing order, exactly the indices where an episode starts. */
  ghost predicate Partitioned(ms: seq<Measurement>, starts: seq<int>) {
    && |starts| > 0
    && starts[0] == 0
    && StrictlyIncreasing(starts)
    && (forall s :: s in starts <==> IsStart(ms, s))
  }

  /** The last index of episode k: one before the next start, or the last segment. */
  function EpisodeEnd(ms: seq<Measurement>, starts: seq<int>, k: nat): int
    requires k < |starts|
  {
    if k + 1 < |starts| then starts[k + 1] - 1 else |ms| - 1
  }

  /** The result of the aggregation: starts partitions the trace, there is one record per
      episode, and record k holds the statistics of the segments starts[k] .. EpisodeEnd(k). */
  ghost predicate Aggregated(ms: seq<Measurement>, starts: seq<int>, episodes: seq<Stats>) {
    && Partitioned(ms, starts)
    && |episodes| == (if |ms| == 0 then 0 else |starts|)
    && Recorded(ms, starts, episodes)
  }

  /** What the outer loop of calculate has established after looking at ms[..i]: the starts
      found so far, start the last of them, and one record for each episode closed so far. */
  ghost predicate Progress(ms: seq<Measurement>, i: nat, start: int, starts: seq<int>, episodes: seq<Stats>) {
    var n := |ms|;
    && i <= n
    && |starts| > 0 && starts[0] == 0 && StrictlyIncreasing(starts)
    && start == starts[|starts| - 1] && start <= i && (n > 0 ==> start < n)
    && |episodes| == (if i == n && n > 0 then |starts| else |starts| - 1)
    && (forall s :: s in starts <==> IsStart(ms, s) && s <= i)
    && Recorded(ms, starts, episodes)
  }

  /** Record k holds the statistics of episode k, for every record so far. */
  ghost predicate Recorded(ms: seq<Measurement>, starts: seq<int>, episodes: seq<Stats>) {
    forall k :: 0 <= k < |episodes| ==>
      && k < |starts|
      && 0 <= starts[k] <= EpisodeEnd(ms, starts, k) < |ms|
      && episodes[k] == EpisodeStats(ms, starts[k], EpisodeEnd(ms, starts, k) + 1)
  }

  lemma RecordedExtend(ms: seq<Measurement>, starts: seq<int>, episodes: seq<Stats>, x: int)
    requires Recorded(ms, starts, episodes) && |episodes| < |starts|
    ensures Recorded(ms, starts + [x], episodes)
  {
    forall k | 0 <= k < |episodes|
      ensures EpisodeEnd(ms, starts + [x], k) == EpisodeEnd(ms, starts, k)
    {
    }
  }

  lemma RecordedAppend(ms: seq<Measurement>, starts: seq<int>, episodes: seq<Stats>, e: Stats)
    requires Recorded(ms, starts, episodes) && |episodes| < |starts|
    requires 0 <= starts[|episodes|] <= EpisodeEnd(ms, starts, |episodes|) < |ms|
    requires e == EpisodeStats(ms, starts[|episodes|], EpisodeEnd(ms, starts, |episodes|) + 1)
    ensures Recorded(ms, starts, episodes + [e])
  {
  }

  lemma IncreasingAppend(s: seq<int>, x: int)
    requires StrictlyIncreasing(s) && |s| > 0 && s[|s| - 1] < x
    ensures StrictlyIncreasing(s + [x])
  {
  }

  lemma StepOpen(ms: seq<Measurement>, i: nat, start: int, starts: seq<int>, episodes: seq<Stats>)
    requires i < |ms| - 1 && ms[i].phase != Pause
    requires Progress(ms, i, start, starts, episodes)
    ensures Progress(ms, i + 1, start, starts, episodes)
  {
  }

  lemma StepClose(ms: seq<Measurement>, i: nat, start: int, starts: seq<int>, episodes: seq<Stats>)
    requires i < |ms| - 1 && ms[i].phase == Pause
    requires Progress(ms, i, start, starts, episodes)
    ensures Progress(ms, i + 1, i + 1, starts + [i + 1], episodes + [EpisodeStats(ms, start, i + 1)])
  {
    var starts' := starts + [i + 1];
    IncreasingAppend(starts, i + 1);
    RecordedExtend(ms, starts, episodes, i + 1);
    assert EpisodeEnd(ms, starts', |episodes|) == i;
    RecordedAppend(ms, starts', episodes, EpisodeStats(ms, start, i + 1));
    forall s
      ensures s in starts' <==> IsStart(ms, s) && s <= i + 1
    {
      assert s in starts' <==> s in starts || s == i + 1;
    }
  }

  lemma StepLast(ms: seq<Measurement>, start: int, starts: seq<int>, episodes: seq<Stats>)
    requires |ms| > 0 && Progress(ms, |ms| - 1, start, starts, episodes)
    ensures Progress(ms, |ms|, start, starts, episodes + [EpisodeStats(ms, start, |ms|)])
  {
    assert EpisodeEnd(ms, starts, |episodes|) == |ms| - 1;
  }

  /** The outer loop of calculate: one left-to-right pass that closes an episode at every
      pause segment and at the last segment, recording where each episode starts. */
  method Aggregate(ms: seq<Measurement>) returns (starts: seq<int>, episodes: seq<Stats>)
    ensures Aggregated(ms, starts, episodes)
  {
    var n := |ms|;
    var start := 0;
    starts := [start];
    episodes := [];
    for i := 0 to n
      invariant Progress(ms, i, start, starts, episodes)
    {
      if ms[i].phase == Pause || i == n - 1 {
        var d := AccumulateEpisode(ms, start, i + 1);
        if i < n - 1 {
          StepClose(ms, i, start, starts, episodes);
          start := i + 1;
          starts := starts + [start];
        } else {
          StepLast(ms, start, starts, episodes);
        }
        episodes := episodes + [d];
      } else {
        StepOpen(ms, i, start, starts, episodes);
      }
    }
  }

  // ---------------------------------------------------------------------------------------
  // The partition

  /** Every episode is a non-empty range of segment indices inside the trace. */
  lemma EpisodeBounds(ms: seq<Measurement>, starts: seq<int>, k: nat)
    requires |ms| > 0 && Partitioned(ms, starts) && k < |starts|
    ensures 0 <= starts[k] <= EpisodeEnd(ms, starts, k) < |ms|
  {
    assert IsStart(ms, starts[k]) by { assert starts[k] in starts; }
    if k + 1 < |starts| {
      assert IsStart(ms, starts[k + 1]) by { assert starts[k + 1] in starts; }
    }
  }

  /** An index strictly between two consecutive starts, or after the last one, is no start. */
  lemma GapHasNoStart(starts: seq<int>, k: nat, x: int)
    requires StrictlyIncreasing(starts) && k < |starts| && starts[k] < x
    requires k + 1 < |starts| ==> x < starts[k + 1]
    ensures x !in starts
  {
    forall m | 0 <= m < |starts|
      ensures starts[m] != x
    {
      assert m <= k ==> starts[m] <= starts[k];
      assert m > k ==> starts[k + 1] <= starts[m];
    }
  }

  /** An episode ends at a pause segment or at the last segment, and there is no pause
      segment before its end. */
  lemma EpisodeClosesAtPause(ms: seq<Measurement>, starts: seq<int>, k: nat)
    requires |ms| > 0 && Partitioned(ms, starts) && k < |starts|
    ensures var e := EpisodeEnd(ms, starts, k);
      && 0 <= e < |ms|
      && (e == |ms| - 1 || ms[e].phase == Pause)
      && forall j :: starts[k] <= j < e ==> ms[j].phase != Pause
  {
    EpisodeBounds(ms, starts, k);
    var e := EpisodeEnd(ms, starts, k);
    if k + 1 < |starts| {
      assert IsStart(ms, starts[k + 1]) by { assert starts[k + 1] in starts; }
    }
    forall j | starts[k] <= j < e
      ensures ms[j].phase != Pause
    {
      GapHasNoStart(starts, k, j + 1);
      assert !IsStart(ms, j + 1);
    }
  }

  /** Conversely, every pause segment is the end of an episode, and so is the last segment. */
  lemma PauseEndsAnEpisode(ms: seq<Measurement>, starts: seq<int>, j: nat)
    requires Partitioned(ms, starts) && j < |ms|
    requires ms[j].phase == Pause || j == |ms| - 1
    ensures exists k :: 0 <= k < |starts| && EpisodeEnd(ms, starts, k) == j
  {
    if j == |ms| - 1 {
      assert EpisodeEnd(ms, starts, |starts| - 1) == j;
    } else {
      assert IsStart(ms, j + 1);
      var m :| 0 <= m < |starts| && starts[m] == j + 1;
      assert m > 0;
      assert EpisodeEnd(ms, starts, m - 1) == j;
    }
  }

  /** The episode segment j belongs to: the last one starting at or before j. */
  function EpisodeOf(starts: seq<int>, j: int): (k: nat)
    requires |starts| > 0 && starts[0] <= j
    ensures k < |starts| && starts[k] <= j
    ensures forall m :: k < m < |starts| ==> j < starts[m]
    decreases |starts|
  {
    if starts[|starts| - 1] <= j then |starts| - 1 else EpisodeOf(starts[..|starts| - 1], j)
  }

  /** Every segment lies in exactly one episode. */
  lemma SegmentInExactlyOneEpisode(ms: seq<Measurement>, starts: seq<int>, j: nat)
    requires Partitioned(ms, starts) && j < |ms|
    ensures var k := EpisodeOf(starts, j); starts[k] <= j <= EpisodeEnd(ms, starts, k)
    ensures forall k :: 0 <= k < |starts| && starts[k] <= j <= EpisodeEnd(ms, starts, k) ==> k == EpisodeOf(starts, j)
  {
    var k := EpisodeOf(starts, j);
    forall k' | 0 <= k' < |starts|
      ensures starts[k'] <= j <= EpisodeEnd(ms, starts, k') ==> k' == k
    {
      if k' < k {
        assert starts[k' + 1] <= starts[k];
      }
    }
  }

  lemma SharedElement(a: seq<int>, b: seq<int>)
    requires |a| > 0
    requires forall x :: x in a <==> x in b
    ensures |b| > 0
  {
    var x := a[0];
    assert x in a;
  }

  lemma {:induction false} IncreasingSameElements(a: seq<int>, b: seq<int>)
    requires StrictlyIncreasing(a) && StrictlyIncreasing(b)
    requires forall x :: x in a <==> x in b
    ensures a == b
    decreases |a|
  {
    if |a| > 0 {
      SharedElement(a, b);
    }
    if |b| > 0 {
      SharedElement(b, a);
    }
    if a != [] {
      var x, y := a[0], b[0];
      assert x in a && y in b;
      assert x == y;
      forall x
        ensures x in a[1..] <==> x in b[1..]
      {
        assert x in a[1..] <==> x in a && x > a[0];
        assert x in b[1..] <==> x in b && x > b[0];
      }
      IncreasingSameElements(a[1..], b[1..]);
    }
  }

  /** The episode starts of a trace are determined by its phases alone. */
  lemma PartitionUnique(ms: seq<Measurement>, s1: seq<int>, s2: seq<int>)
    requires Partitioned(ms, s1) && Partitioned(ms, s2)
    ensures s1 == s2
  {
    IncreasingSameElements(s1, s2);
  }

  /** The aggregation has one possible result, so it is deterministic and repeating it gives
      the same episodes. */
  lemma AggregatedUnique(ms: seq<Measurement>, s1: seq<int>, e1: seq<Stats>, s2: seq<int>, e2: seq<Stats>)
    requires Aggregated(ms, s1, e1) && Aggregated(ms, s2, e2)
    ensures s1 == s2 && e1 == e2
  {
    PartitionUnique(ms, s1, s2);
  }

  /** A rescue is never counted at the first segment of an episode: its predecessor is the
      pause that closed the previous episode, or there is none. */
  lemma NoRescueAtEpisodeStart(ms: seq<Measurement>, starts: seq<int>, k: nat)
    requires Partitioned(ms, starts) && k < |starts| && 0 <= starts[k] < |ms|
    ensures !RescueAt(ms, starts[k])
  {
    assert IsStart(ms, starts[k]) by { assert starts[k] in starts; }
  }

  // ---------------------------------------------------------------------------------------
  // The statistics

  /** Pause and undefined segments add nothing to an episode's statistics. */
  lemma NeutralSegment(ms: seq<Measurement>, lo: nat, hi: nat)
    requires lo <= hi < |ms| && (ms[hi].phase == Pause || ms[hi].phase == Undefined)
    ensures EpisodeStats(ms, lo, hi + 1) == EpisodeStats(ms, lo, hi)
  {
  }

  /** Growth and shrink time are non-negative, and zero exactly when the range holds no
      segment of that phase. */
  lemma {:induction false} PhaseTimeSign(ms: seq<Measurement>, p: Phase, lo: nat, hi: nat)
    requires lo <= hi <= |ms| && Calibrated(ms) && (p == Growth || p == Shrink)
    ensures PhaseTime(ms, p, lo, hi) >= 0.0
    ensures PhaseTime(ms, p, lo, hi) == 0.0 <==> PhaseCount(ms, p, lo, hi) == 0
    decreases hi
  {
    if hi > lo {
      PhaseTimeSign(ms, p, lo, hi - 1);
    }
  }

  /** The catastrophe frequency is the number of catastrophes per unit of growth time when the
      episode has a growth segment, and 0 otherwise; likewise the rescue frequency with shrink. */
  lemma FrequencyRule(ms: seq<Measurement>, lo: nat, hi: nat)
    requires lo <= hi <= |ms| && Calibrated(ms)
    ensures var e := EpisodeStats(ms, lo, hi);
      && e.tGrowth >= 0.0 && e.tShrink >= 0.0
      && (PhaseCount(ms, Growth, lo, hi) == 0 ==> e.tGrowth == 0.0 && e.freqCat == 0.0)
      && (PhaseCount(ms, Growth, lo, hi) > 0 ==> e.tGrowth > 0.0 && e.freqCat * e.tGrowth == e.numCat as real)
      && (PhaseCount(ms, Shrink, lo, hi) == 0 ==> e.tShrink == 0.0 && e.freqRes == 0.0)
      && (PhaseCount(ms, Shrink, lo, hi) > 0 ==> e.tShrink > 0.0 && e.freqRes * e.tShrink == e.numRes as real)
  {
    PhaseTimeSign(ms, Growth, lo, hi);
    PhaseTimeSign(ms, Shrink, lo, hi);
  }

  lemma {:induction false} PhaseTimeSplit(ms: seq<Measurement>, p: Phase, lo: nat, mid: nat, hi: nat)
    requires lo <= mid <= hi <= |ms|
    ensures PhaseTime(ms, p, lo, hi) == PhaseTime(ms, p, lo, mid) + PhaseTime(ms, p, mid, hi)
    decreases hi
  {
    if hi > mid {
      PhaseTimeSplit(ms, p, lo, mid, hi - 1);
    }
  }

  /** The growth (p == Growth) or shrink (p == Shrink) time of an episode record. */
  function EpisodeTime(e: Stats, p: Phase): real {
    if p == Growth then e.tGrowth else if p == Shrink then e.tShrink else 0.0
  }

  /** The growth or shrink time of the first m episode records, added up. */
  function SumTime(episodes: seq<Stats>, p: Phase, m: nat): real
    requires m <= |episodes|
  {
    if m == 0 then 0.0 else SumTime(episodes, p, m - 1) + EpisodeTime(episodes[m - 1], p)
  }

  /** Record k holds the growth or shrink time of episode k, for every record. */
  ghost predicate TimesRecorded(ms: seq<Measurement>, starts: seq<int>, episodes: seq<Stats>, p: Phase) {
    forall k :: 0 <= k < |episodes| ==>
      && k < |starts|
      && 0 <= starts[k] <= EpisodeEnd(ms, starts, k) < |ms|
      && EpisodeTime(episodes[k], p) == PhaseTime(ms, p, starts[k], EpisodeEnd(ms, starts, k) + 1)
  }

  lemma {:induction false} SumTimePrefix(ms: seq<Measurement>, starts: seq<int>, episodes: seq<Stats>, p: Phase, m: nat)
    requires |starts| > 0 && starts[0] == 0 && |episodes| == |starts|
    requires TimesRecorded(ms, starts, episodes, p)
    requires m <= |episodes|
    ensures SumTime(episodes, p, m) == PhaseTime(ms, p, 0, if m < |starts| then starts[m] else |ms|)
  {
    if m > 0 {
      SumTimePrefix(ms, starts, episodes, p, m - 1);
      var k := m - 1;
      var end := EpisodeEnd(ms, starts, k) + 1;
      if m < |starts| {
        assert end == starts[m];
      } else {
        assert end == |ms|;
      }
      assert EpisodeTime(episodes[k], p) == PhaseTime(ms, p, starts[k], end);
      PhaseTimeSplit(ms, p, 0, starts[k], end);
    }
  }

  /** Episodes split the trace's growth and shrink time without loss or overlap: added over
      all episodes they give the time of the whole trace. */
  lemma EpisodeTimesAddUp(ms: seq<Measurement>, starts: seq<int>, episodes: seq<Stats>, p: Phase)
    requires |ms| > 0 && Aggregated(ms, starts, episodes) && (p == Growth || p == Shrink)
    ensures SumTime(episodes, p, |episodes|) == PhaseTime(ms, p, 0, |ms|)
  {
    assert TimesRecorded(ms, starts, episodes, p) by {
      assert Recorded(ms, starts, episodes);
    }
    SumTimePrefix(ms, starts, episodes, p, |episodes|);
  }

  /** An episode made of one pause segment has all eight slots zero. */
  lemma PauseOnlyEpisode(ms: seq<Measurement>, i: nat)
    requires i < |ms| && ms[i].phase == Pause
    ensures EpisodeStats(ms, i, i + 1) == NoStats
  {
    NeutralSegment(ms, i, i);
  }

  /** A measurement of phase p with unit distance and time, for the examples below. */
  function Unit(p: Phase): Measurement {
    Measurement(p, 1.0, 1.0, Wrappers.Some(1.0))
  }

  /** Growth, shrink, growth, pause: a single episode with one catastrophe and one rescue. */
  lemma TransitionExample(starts: seq<int>, episodes: seq<Stats>)
    requires Aggregated([Unit(Growth), Unit(Shrink), Unit(Growth), Unit(Pause)], starts, episodes)
    ensures starts == [0] && |episodes| == 1
    ensures episodes[0].numCat == 1 && episodes[0].numRes == 1
  {
    var ms := [Unit(Growth), Unit(Shrink), Unit(Growth), Unit(Pause)];
    assert Partitioned(ms, [0]) by {
      forall s
        ensures s in [0] <==> IsStart(ms, s)
      {
        if 0 < s < 4 {
          assert ms[s - 1].phase != Pause;
        }
      }
    }
    PartitionUnique(ms, starts, [0]);
    assert EpisodeEnd(ms, starts, 0) == 3;
    assert PhaseCount(ms, Shrink, 0, 1) == 0 && PhaseCount(ms, Shrink, 0, 2) == 1;
    assert PhaseCount(ms, Shrink, 0, 3) == 1 && PhaseCount(ms, Shrink, 0, 4) == 1;
    assert Rescues(ms, 0, 1) == 0 && Rescues(ms, 0, 2) == 0;
    assert Rescues(ms, 0, 3) == 1 && Rescues(ms, 0, 4) == 1;
  }

  /** As written, every shrink segment counts as a catastrophe, even one with no growth
      segment before it. */
  lemma CatastropheWithoutGrowth()
    ensures EpisodeStats([Unit(Shrink)], 0, 1).numCat == 1
  {
  }

  /** As written, a shrink-to-growth transition into index 1 is not counted as a rescue. */
  lemma RescueAtIndexOneMissed()
    ensures EpisodeStats([Unit(Shrink), Unit(Growth)], 0, 2).numRes == 0
  {
  }
}
