/** What the plugin shows of a computed trace: the cells of each exported table row (output)
    and the episode statistics shown in the window (display). */
module Report {
  import opened Wrappers
  import opened Phases
  import opened Measurement
  import opened Episodes

  /** The position of the first occurrence of x in s, or -1 when x does not occur (as a list's indexOf). */
  function IndexOf(s: seq<int>, x: int): (k: int)
    ensures -1 <= k < |s|
    ensures k == -1 <==> x !in s
    ensures k >= 0 ==> s[k] == x && forall m :: 0 <= m < k ==> s[m] != x
  {
    if s == [] then -1
    else if s[0] == x then 0
    else
      var r := IndexOf(s[1..], x);
      if r == -1 then -1 else r + 1
  }

  /** The cells of one exported row after the trace label: 1-based index, phase label,
      distance, time, the rate in the growth or in the shrink column, and the statistics of
      the episode when the row is the first segment of one. A None cell is left blank. */
  datatype Row = Row(index: int, phase: string, dist: real, time: real,
                     growthRate: Option<real>, shrinkRate: Option<real>, episode: Option<Stats>)

  function OutputRow(ms: seq<Measurement>, starts: seq<int>, episodes: seq<Stats>, i: nat): (r: Row)
    requires i < |ms| && |starts| == |episodes|
    ensures r.index == i + 1 && r.phase == Name(ms[i].phase)
    ensures r.dist == ms[i].dist && r.time == ms[i].time
    ensures r.growthRate.Some? ==> ms[i].phase == Growth && r.growthRate == ms[i].rate
    ensures r.shrinkRate.Some? ==> ms[i].phase == Shrink && r.shrinkRate == ms[i].rate
    ensures r.episode.Some? <==> i in starts
  {
    var m := ms[i];
    Row(i + 1, PhaseToString(Code(m.phase)), m.dist, m.time,
        if m.phase == Growth then m.rate else None,
        if m.phase == Shrink then m.rate else None,
        if i in starts then Some(episodes[IndexOf(starts, i)]) else None)
  }

  /** For an aggregated, calibrated trace: a growth row fills only the growth-rate cell, a
      shrink row only the shrink-rate cell, pause and undefined rows neither; the episode
      cells are filled exactly on the first segment of an episode, with that episode's
      statistics. */
  lemma OutputRowMeaning(ms: seq<Measurement>, starts: seq<int>, episodes: seq<Stats>, i: nat)
    requires |ms| > 0 && Aggregated(ms, starts, episodes) && Calibrated(ms) && i < |ms|
    ensures |starts| == |episodes|
    ensures var r := OutputRow(ms, starts, episodes, i);
      && (ms[i].phase == Growth ==> r.growthRate.Some? && r.shrinkRate.None?)
      && (ms[i].phase == Shrink ==> r.shrinkRate.Some? && r.growthRate.None?)
      && (ms[i].phase == Pause || ms[i].phase == Undefined ==> r.growthRate.None? && r.shrinkRate.None?)
      && (r.episode.Some? <==> IsStart(ms, i))
      && (r.episode.Some? ==> exists k :: 0 <= k < |starts| && starts[k] == i
                                && r.episode.value == EpisodeStats(ms, i, EpisodeEnd(ms, starts, k) + 1))
  {
    var r := OutputRow(ms, starts, episodes, i);
    if i in starts {
      var k := IndexOf(starts, i);
      assert starts[k] == i && r.episode.value == episodes[k];
    }
  }

  /** The episode statistics shown in the window after an edit: those of the last episode,
      unless the last segment is a pause, when all eight shown values are zero. */
  function DisplayedEpisode(ms: seq<Measurement>, episodes: seq<Stats>): (d: Stats)
    requires |ms| > 0 && (ms[|ms| - 1].phase != Pause ==> |episodes| > 0)
    ensures ms[|ms| - 1].phase != Pause ==> d in episodes && d == episodes[|episodes| - 1]
    ensures ms[|ms| - 1].phase == Pause ==> d == NoStats
  {
    if ms[|ms| - 1].phase != Pause then episodes[|episodes| - 1] else NoStats
  }

  /** While the trace does not end in a pause, the window shows the statistics of the episode
      the last segment belongs to, from its start up to that segment; once the trace ends in
      a pause it shows zeros, although the episode that pause closed has its own statistics. */
  lemma DisplayedEpisodeMeaning(ms: seq<Measurement>, starts: seq<int>, episodes: seq<Stats>)
    requires |ms| > 0 && Aggregated(ms, starts, episodes)
    ensures |episodes| > 0
    ensures var k := EpisodeOf(starts, |ms| - 1);
      && k == |starts| - 1
      && (ms[|ms| - 1].phase != Pause ==> DisplayedEpisode(ms, episodes) == EpisodeStats(ms, starts[k], |ms|))
      && (ms[|ms| - 1].phase == Pause ==> DisplayedEpisode(ms, episodes) == NoStats)
  {
    var k := EpisodeOf(starts, |ms| - 1);
    EpisodeBounds(ms, starts, |starts| - 1);
    assert k == |starts| - 1;
  }
}
