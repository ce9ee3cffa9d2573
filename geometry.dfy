/** The traced polyline and the straight segments derived from it. */
module Geometry {

  /** A vertex of the trace in integer pixel coordinates; y grows with elapsed time. */
  datatype Point = Point(x: int, y: int)

  /** One straight piece of the trace, from (x1, y1) to (x2, y2), as an ImageJ line roi holds it. */
  datatype Line = Line(x1: int, y1: int, x2: int, y2: int)
  {
    function Start(): Point { Point(x1, y1) }
    function End(): Point { Point(x2, y2) }
  }

  /** The segment that joins two vertices. */
  function Join(p: Point, q: Point): Line {
    Line(p.x, p.y, q.x, q.y)
  }

  /** How many segments a trace of vertexCount vertices yields: every consecutive pair once the
      trace is finished; while it is still being drawn the last vertex follows the mouse and is
      not used. A count that is not positive means the trace is too short to measure. */
  function SegmentCount(vertexCount: nat, finished: bool): int {
    if finished then vertexCount - 1 else vertexCount - 2
  }

  /** The first k segments of the polyline vs: segment i runs from vertex i to vertex i + 1. */
  function Segments(vs: seq<Point>, k: nat): (ls: seq<Line>)
    requires k < |vs|
    ensures |ls| == k
  {
    seq(k, i requires 0 <= i < k => Join(vs[i], vs[i + 1]))
  }

  /** Consecutive segments meet: each one ends where the next begins. */
  predicate Connected(ls: seq<Line>) {
    forall i :: 0 <= i < |ls| - 1 ==> ls[i].End() == ls[i + 1].Start()
  }

  /** The end points of the segments, in order. */
  function Ends(ls: seq<Line>): (ps: seq<Point>)
    ensures |ps| == |ls|
  {
    if ls == [] then [] else Ends(ls[..|ls| - 1]) + [ls[|ls| - 1].End()]
  }

  /** The polyline a non-empty sequence of segments traces: the first start, then every end. */
  function Vertices(ls: seq<Line>): (vs: seq<Point>)
    requires |ls| > 0
    ensures |vs| == |ls| + 1
  {
    [ls[0].Start()] + Ends(ls)
  }

  lemma {:induction false} EndsOfSegments(vs: seq<Point>, k: nat)
    requires k < |vs|
    ensures Ends(Segments(vs, k)) == vs[1..k + 1]
  {
    if k > 0 {
      EndsOfSegments(vs, k - 1);
      assert Segments(vs, k)[..k - 1] == Segments(vs, k - 1);
    }
  }

  /** Derived segments are connected, and they give back exactly the vertices they were built
      from: the first k + 1 of the trace. */
  lemma {:induction false} SegmentsRoundTrip(vs: seq<Point>, k: nat)
    requires 0 < k < |vs|
    ensures Connected(Segments(vs, k))
    ensures Vertices(Segments(vs, k)) == vs[..k + 1]
  {
    EndsOfSegments(vs, k);
  }

  lemma {:induction false} EndsAt(ls: seq<Line>, i: nat)
    requires i < |ls|
    ensures Ends(ls)[i] == ls[i].End()
  {
    if i < |ls| - 1 {
      EndsAt(ls[..|ls| - 1], i);
    }
  }

  /** Conversely, connected segments are recovered from the polyline they trace. */
  lemma {:induction false} VerticesRoundTrip(ls: seq<Line>)
    requires |ls| > 0 && Connected(ls)
    ensures Segments(Vertices(ls), |ls|) == ls
  {
    var vs := Vertices(ls);
    forall i | 0 <= i < |ls|
      ensures Segments(vs, |ls|)[i] == ls[i]
    {
      EndsAt(ls, i);
      if i > 0 {
        EndsAt(ls, i - 1);
      }
    }
  }
}
