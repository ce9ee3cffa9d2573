/** Phase classification of one segment (getPhase) and the phase labels (phase2String). */
module Phases {
  import opened Geometry

  /** Which side of the kymograph the traced tip is on; it fixes which horizontal direction is growth. */
  datatype Side = Left | Right

  datatype Phase = Growth | Shrink | Pause | Undefined

  /** The integer code the plugin stores for a phase in its data table. */
  function Code(p: Phase): int {
    match p
    case Growth => 0
    case Shrink => 1
    case Pause => 2
    case Undefined => -1
  }

  /** The label of a stored phase code; a code that names no phase has the empty label. */
  function PhaseToString(code: int): (s: string)
    ensures forall p: Phase :: Code(p) == code ==> s == Name(p)
    ensures (forall p: Phase :: Code(p) != code) ==> s == ""
  {
    if code == 0 then assert Code(Growth) == code; "growth"
    else if code == 1 then assert Code(Shrink) == code; "shrink"
    else if code == 2 then assert Code(Pause) == code; "pause"
    else if code == -1 then assert Code(Undefined) == code; "undefined"
    else ""
  }

  /** The name under which each phase is reported. */
  function Name(p: Phase): string {
    match p
    case Growth => "growth"
    case Shrink => "shrink"
    case Pause => "pause"
    case Undefined => "undefined"
  }

  /** The four phases have four distinct, non-empty labels. */
  lemma LabelsDistinct(p: Phase, q: Phase)
    ensures PhaseToString(Code(p)) != ""
    ensures PhaseToString(Code(p)) == PhaseToString(Code(q)) ==> p == q
  {
  }

  function Abs(n: int): nat {
    if n < 0 then -n else n
  }

  /** How far the tip moved in the growth direction of side: on the right side growth moves
      right (x increases), on the left side it moves left. */
  function Advance(l: Line, side: Side): int {
    match side
    case Right => l.x2 - l.x1
    case Left => l.x1 - l.x2
  }

  /** getPhase: a segment that does not go forward in time is Undefined; one that moves less
      than pauseTolerance pixels sideways is a Pause; otherwise the direction of the movement,
      read through side, makes it Growth or Shrink. */
  function GetPhase(l: Line, side: Side, pauseTolerance: int): (p: Phase)
    ensures l.y1 >= l.y2 ==> p == Undefined
    ensures l.y1 < l.y2 && Abs(l.x2 - l.x1) < pauseTolerance ==> p == Pause
    ensures p == Growth <==> l.y1 < l.y2 && Abs(l.x2 - l.x1) >= pauseTolerance && Advance(l, side) > 0
    ensures p == Shrink <==> l.y1 < l.y2 && Abs(l.x2 - l.x1) >= pauseTolerance && Advance(l, side) < 0
    ensures l.y1 < l.y2 && l.x1 == l.x2 && pauseTolerance <= 0 ==> p == Undefined
  {
    if l.y1 >= l.y2 then Undefined
    else match side
      case Left =>
        if Abs(l.x2 - l.x1) < pauseTolerance then Pause
        else if l.x1 < l.x2 then Shrink
        else if l.x1 > l.x2 then Growth
        else Undefined
      case Right =>
        if Abs(l.x2 - l.x1) < pauseTolerance then Pause
        else if l.x1 > l.x2 then Shrink
        else if l.x1 < l.x2 then Growth
        else Undefined
  }

  /** With a tolerance of at least one pixel, a segment going forward in time always gets a
      phase: the final Undefined of getPhase (no sideways movement yet not a pause) is unreachable. */
  lemma ForwardSegmentHasPhase(l: Line, side: Side, pauseTolerance: int)
    requires pauseTolerance >= 1 && l.y1 < l.y2
    ensures GetPhase(l, side, pauseTolerance) != Undefined
  {
  }

  /** A forward segment is Undefined exactly when it is vertical and the tolerance is not positive. */
  lemma ForwardUndefinedOnlyWithoutTolerance(l: Line, side: Side, pauseTolerance: int)
    requires l.y1 < l.y2
    ensures GetPhase(l, side, pauseTolerance) == Undefined <==> pauseTolerance <= 0 && l.x1 == l.x2
  {
  }

  /** Whether some segment of ls is undefined, which the plugin reports as a warning. */
  predicate AnyUndefined(ls: seq<Line>, side: Side, pauseTolerance: int) {
    exists i :: 0 <= i < |ls| && GetPhase(ls[i], side, pauseTolerance) == Undefined
  }

  /** The segment reflected in the vertical axis. */
  function Mirror(l: Line): Line {
    Line(-l.x1, l.y1, -l.x2, l.y2)
  }

  function Opposite(p: Phase): Phase {
    match p
    case Growth => Shrink
    case Shrink => Growth
    case other => other
  }

  /** Side symmetry: classifying a segment for the left side is classifying its mirror image
      for the right side; Undefined and Pause do not depend on the side at all, and the two
      sides give opposite Growth/Shrink labels to the same segment. */
  lemma SideSymmetry(l: Line, pauseTolerance: int)
    ensures GetPhase(l, Left, pauseTolerance) == GetPhase(Mirror(l), Right, pauseTolerance)
    ensures GetPhase(l, Left, pauseTolerance) == Opposite(GetPhase(l, Right, pauseTolerance))
  {
  }
}
