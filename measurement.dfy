/** The calibrated measurement of each segment: the first loop of calculate. */
module Measurement {
  import opened Wrappers
  import opened Geometry
  import opened Phases

  /** One row of the data table: phase, distance, time and rate of a segment. The rate is
      absent when the time is zero. */
  datatype Measurement = Measurement(phase: Phase, dist: real, time: real, rate: Option<real>)

  /** The measurement of one segment with distanceRatio units of distance per pixel of width
      and timeRatio units of time per pixel of height. */
  function Measure(l: Line, side: Side, pauseTolerance: int, distanceRatio: real, timeRatio: real): (m: Measurement)
    ensures m.phase == GetPhase(l, side, pauseTolerance)
    ensures m.rate.Some? <==> m.time != 0.0
    ensures m.rate.Some? ==> m.rate.value * m.time == m.dist
  {
    var width := Abs(l.x2 - l.x1);
    var height := l.y2 - l.y1;
    var dist := width as real * distanceRatio;
    var time := height as real * timeRatio;
    Measurement(GetPhase(l, side, pauseTolerance), dist, time, if time != 0.0 then Some(dist / time) else None)
  }

  /** The data table of a whole trace, one measurement per segment. */
  function MeasureAll(ls: seq<Line>, side: Side, pauseTolerance: int, distanceRatio: real, timeRatio: real): (ms: seq<Measurement>)
    ensures |ms| == |ls|
  {
    seq(|ls|, i requires 0 <= i < |ls| => Measure(ls[i], side, pauseTolerance, distanceRatio, timeRatio))
  }

  /** What a table measured with positive ratios satisfies: growth and shrink segments take
      positive time, and a rate is present exactly where the time is not zero. */
  predicate Calibrated(ms: seq<Measurement>) {
    forall i :: 0 <= i < |ms| ==>
      && (ms[i].phase == Growth || ms[i].phase == Shrink ==> ms[i].time > 0.0)
      && (ms[i].rate.Some? <==> ms[i].time != 0.0)
  }

  /** With positive calibration ratios: every distance is non-negative and is the width in
      pixels times distanceRatio; the time is the height times timeRatio and is positive exactly
      for forward segments; a growth or shrink segment therefore has a non-negative rate. */
  lemma MeasureMeaning(l: Line, side: Side, pauseTolerance: int, distanceRatio: real, timeRatio: real)
    requires distanceRatio > 0.0 && timeRatio > 0.0
    ensures var m := Measure(l, side, pauseTolerance, distanceRatio, timeRatio);
      && m.dist == Abs(l.x2 - l.x1) as real * distanceRatio
      && m.time == (l.y2 - l.y1) as real * timeRatio
      && m.dist >= 0.0
      && (m.time > 0.0 <==> l.y1 < l.y2)
      && (m.phase == Undefined <== m.time <= 0.0)
      && (m.phase == Growth || m.phase == Shrink ==> m.time > 0.0 && m.rate.Some? && m.rate.value >= 0.0)
  {
  }

  /** With positive ratios the whole table is Calibrated. */
  lemma MeasureAllCalibrated(ls: seq<Line>, side: Side, pauseTolerance: int, distanceRatio: real, timeRatio: real)
    requires distanceRatio > 0.0 && timeRatio > 0.0
    ensures Calibrated(MeasureAll(ls, side, pauseTolerance, distanceRatio, timeRatio))
  {
    forall i | 0 <= i < |ls| {
      MeasureMeaning(ls[i], side, pauseTolerance, distanceRatio, timeRatio);
    }
  }
}
