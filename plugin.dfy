/** The plugin object: its configuration, the current trace and the results computed from it,
    which every edit of the trace recomputes. */
module Plugin {
  import opened Geometry
  import opened Phases
  import opened Measurement
  import opened Episodes

  class KymographMeasurer {
    var side: Side
    var pauseTolerance: int
    /** Whether the polyline has been completed; until then its last vertex is provisional. */
    var finished: bool
    /** The vertices of the current polyline. */
    var polyline: seq<Point>
    var lines: array?<Line>
    /** The data table: one measurement per segment. */
    var data: array?<Measurement>
    /** Where each episode starts, and its statistics. */
    var starts: seq<int>
    var data2: seq<Stats>
    /** The number of episodes. */
    var numMicrotubule: int

    /** The state once the plugin has started: a tolerance of 3 pixels, drawing on the right
        side, no trace and no results. */
    constructor ()
      ensures side == Right && pauseTolerance == 3 && !finished
      ensures polyline == [] && lines == null && data == null
      ensures starts == [] && data2 == [] && numMicrotubule == 0
    {
      side := Right;
      pauseTolerance := 3;
      finished := false;
      polyline := [];
      lines := null;
      data := null;
      starts := [];
      data2 := [];
      numMicrotubule := 0;
    }

    /** Discards the trace and everything computed from it; the configuration stays. */
    method Redraw()
      modifies this
      ensures side == old(side) && pauseTolerance == old(pauseTolerance) && !finished
      ensures polyline == [] && lines == null && data == null
      ensures starts == [] && data2 == [] && numMicrotubule == 0
    {
      polyline := [];
      lines := null;
      data := null;
      starts := [];
      data2 := [];
      numMicrotubule := 0;
      finished := false;
    }

    /** Starts a new drawing on the given side of the kymograph. */
    method StartDrawing(s: Side)
      modifies this
      ensures side == s && pauseTolerance == old(pauseTolerance) && !finished
      ensures polyline == [] && lines == null && data == null
      ensures starts == [] && data2 == [] && numMicrotubule == 0
    {
      side := s;
      Redraw();
    }

    /** A new polyline has been started: its last vertex is provisional again. */
    method TraceCreated()
      modifies this`finished
      ensures !finished
    {
      finished := false;
    }

    /** Derives the segments of the polyline. When the trace is too short the previous
        segments are kept. */
    method GetLines()
      modifies this`lines
      ensures var k := SegmentCount(|polyline|, finished);
        && (k > 0 ==> lines != null && fresh(lines) && lines[..] == Segments(polyline, k))
        && (k <= 0 ==> lines == old(lines))
    {
      var n := |polyline|;
      if finished {
        n := n + 1;
      }
      if n > 2 {
        var ls := new Line[n - 2];
        for i := 0 to n - 2
          invariant forall j :: 0 <= j < i ==> ls[j] == Join(polyline[j], polyline[j + 1])
        {
          ls[i] := Line(polyline[i].x, polyline[i].y, polyline[i + 1].x, polyline[i + 1].y);
        }
        lines := ls;
      }
    }

    /** Measures every segment and aggregates the episodes. The result warned says whether a
        segment of the current lines is undefined (drawn backward or level in time). When the
        trace is too short the previous results are kept. */
    method Calculate(distanceRatio: real, timeRatio: real) returns (warned: bool)
      requires SegmentCount(|polyline|, finished) > 0 ==> lines != null
      modifies this`data, this`starts, this`data2, this`numMicrotubule
      ensures warned <==> lines != null && AnyUndefined(lines[..], side, pauseTolerance)
      ensures SegmentCount(|polyline|, finished) > 0 ==>
        && lines != null && data != null && fresh(data)
        && data[..] == MeasureAll(lines[..], side, pauseTolerance, distanceRatio, timeRatio)
        && Aggregated(data[..], starts, data2)
        && numMicrotubule == |data2|
      ensures SegmentCount(|polyline|, finished) <= 0 ==>
        && data == old(data) && starts == old(starts) && data2 == old(data2)
        && numMicrotubule == old(numMicrotubule)
    {
      warned := false;
      if lines != null {
        for i := 0 to lines.Length
          invariant warned <==> AnyUndefined(lines[..i], side, pauseTolerance)
        {
          if GetPhase(lines[i], side, pauseTolerance) == Undefined {
            warned := true;
          }
          assert lines[..i + 1] == lines[..i] + [lines[i]];
        }
        assert lines[..lines.Length] == lines[..];
      }
      var n := |polyline|;
      if finished {
        n := n + 1;
      }
      if n < 3 {
        return;
      }
      n := lines.Length;
      var table := new Measurement[n];
      for i := 0 to n
        invariant forall j :: 0 <= j < i ==> table[j] == Measure(lines[j], side, pauseTolerance, distanceRatio, timeRatio)
      {
        table[i] := Measure(lines[i], side, pauseTolerance, distanceRatio, timeRatio);
      }
      data := table;
      starts, data2 := Aggregate(data[..]);
      numMicrotubule := |data2|;
    }

    /** The polyline was extended, moved, modified or completed: record it and recompute
        everything from scratch. */
    method TraceChanged(vertices: seq<Point>, completed: bool, distanceRatio: real, timeRatio: real)
      returns (warned: bool)
      modifies this
      ensures side == old(side) && pauseTolerance == old(pauseTolerance)
      ensures polyline == vertices && finished == (old(finished) || completed)
      ensures var k := SegmentCount(|vertices|, finished);
        && (k > 0 ==>
             && lines != null && data != null
             && lines[..] == Segments(vertices, k)
             && data[..] == MeasureAll(lines[..], side, pauseTolerance, distanceRatio, timeRatio)
             && Aggregated(data[..], starts, data2)
             && numMicrotubule == |data2|)
        && (k <= 0 ==>
             && lines == old(lines) && data == old(data) && starts == old(starts) && data2 == old(data2)
             && numMicrotubule == old(numMicrotubule))
      ensures warned <==> lines != null && AnyUndefined(lines[..], side, pauseTolerance)
    {
      if completed {
        finished := true;
      }
      polyline := vertices;
      GetLines();
      warned := Calculate(distanceRatio, timeRatio);
    }
  }
}
