# Kymograph trace analysis: a verified model of the measurement engine

The ImageJ plugin `New` lets a user trace a polyline over a kymograph. A kymograph is an
image where x is the position of a microtubule tip and y is elapsed time. After every edit
the plugin:

1. cuts the trace into segments (`getLines`);
2. gives each segment a phase, one of growth, shrink, pause or undefined (`getPhase`);
3. converts each segment's pixel width and height into a calibrated distance, time and rate
   (the first loop of `calculate`);
4. cuts the trace into episodes, each closed by a pause segment or by the last segment, and
   builds one record of eight statistics per episode (the nested loops of `calculate`). The
   eight are growth and shrink time, growth and shrink distance, the catastrophe and rescue
   counts, and the two frequencies.

This project models those four steps in Dafny and proves what they compute. It also models
the plugin state the steps update, and the cells of the exported table and of the window
display.

Modules, leaf first:

- `Wrappers`: `Option`.
- `Geometry`: vertices, segments, segment derivation.
- `Phases`: `Side`, `Phase`, `getPhase`, `phase2String`.
- `Measurement`: one row of the data table.
- `Episodes`: the specification of the episode statistics and of the partition, the two loops
  of the aggregation, and the lemmas about them.
- `Report`: the cells of each exported row, and the episode the window shows.
- `Plugin`: the class `KymographMeasurer`. It holds the fields that `getLines` and
  `calculate` assign: `lines`, `data` (arrays filled in loops), and `starts`, `data2` (lists
  appended to, here sequences) with `numMicrotubule`.

Numbers: pixel coordinates are `int`. The two calibration ratios are `real` parameters. The
plugin holds them as constants, 0.08 and 2.5. Rates are `Option<real>`, absent when the time
is zero.

## Behaviour of the code, modelled as written

- A pause is decided by a pixel tolerance on the horizontal displacement
  (`pauseTolerance`, 3 pixels), not by an angle (`Phases.GetPhase`).
- A frequency whose time is zero stays 0 (`Episodes.FrequencyRule`).
- Every shrink segment adds one catastrophe, with or without a growth segment before it
  (`Episodes.CatastropheWithoutGrowth`).
- A shrink-to-growth transition into index 1 is not counted as a rescue
  (`Episodes.RescueAtIndexOneMissed`).
- A transition across an episode boundary can never count, because the segment before an
  episode is the pause that closed the previous one (`Episodes.NoRescueAtEpisodeStart`).
- When the trace ends in a pause, the window shows zeros. The episode that this pause closed
  does have statistics of its own (`Report.DisplayedEpisodeMeaning`).
- When a trace is too short, `getLines` and `calculate` keep the previous segments and
  results (`Plugin.KymographMeasurer.TraceChanged`).

## Model

| member | source | states |
|---|---|---|
| `Plugin.KymographMeasurer.GetLines` | src/main/java/sc/fiji/New.java:485-505 | With c vertices the new `lines` is a fresh array of c-1 segments when finished and c-2 otherwise, whenever that count is positive; segment i joins vertex i to vertex i+1; otherwise `lines` is left as it was |
| `Geometry.SegmentsRoundTrip` | src/main/java/sc/fiji/New.java:498-501 | Derived segments are connected (each ends where the next begins) and give back exactly the first k+1 vertices |
| `Geometry.VerticesRoundTrip` | src/main/java/sc/fiji/New.java:498-501 | Conversely, connected segments are rebuilt exactly by segment derivation from the polyline they trace |
| `Phases.GetPhase` | src/main/java/sc/fiji/New.java:507-540 | A segment with y1 >= y2 is Undefined for either side; a forward segment moving less than the tolerance sideways is Pause; Growth iff it goes forward, moves at least the tolerance, and advances in the growth direction of the side; Shrink likewise with a retreat; a vertical forward segment with a tolerance that is not positive is Undefined |
| `Phases.ForwardSegmentHasPhase` | src/main/java/sc/fiji/New.java:513-532 | With a tolerance of at least one pixel, a forward segment is never Undefined: the final fall-through of each side branch is unreachable |
| `Phases.ForwardUndefinedOnlyWithoutTolerance` | src/main/java/sc/fiji/New.java:513-532 | A forward segment reaches that fall-through exactly when it is vertical and the tolerance is not positive |
| `Phases.SideSymmetry` | src/main/java/sc/fiji/New.java:512-533 | Left-side classification of a segment equals right-side classification of its mirror image, and the two sides give opposite Growth/Shrink labels (Pause and Undefined do not depend on the side) |
| `Phases.PhaseToString` | src/main/java/sc/fiji/New.java:542-556 | Each phase code is mapped to the name of its phase; a code naming no phase gets the empty label |
| `Phases.LabelsDistinct` | src/main/java/sc/fiji/New.java:542-556 | The four phases have four distinct non-empty labels |
| `Measurement.Measure` | src/main/java/sc/fiji/New.java:576-584 | The phase is that of the segment; the rate is present exactly when the time is not zero, and then rate times time is the distance (the distance and time values are stated by `Measurement.MeasureMeaning`) |
| `Measurement.MeasureMeaning` | src/main/java/sc/fiji/New.java:576-584 | With positive ratios: distance is width times the distance ratio and is non-negative; time is height times the time ratio and is positive exactly for forward segments; a growth or shrink segment has positive time and a present, non-negative rate |
| `Measurement.MeasureAllCalibrated` | src/main/java/sc/fiji/New.java:576-584 | With positive ratios the whole measured table has positive times on growth and shrink rows and rates exactly where time is not zero |
| `Plugin.KymographMeasurer.Calculate` | src/main/java/sc/fiji/New.java:558-616 | The warning flag is set iff a current segment is Undefined; for a long enough trace `data` is the measurement of every segment, `starts`/`data2` are the aggregation of `data`, and `numMicrotubule` is the episode count; for a short trace all results are unchanged |
| `Episodes.AccumulateEpisode` | src/main/java/sc/fiji/New.java:594-608 | The record built for an episode holds its growth and shrink time and distance summed over its growth and shrink segments, one catastrophe per shrink segment, the rescues, and each frequency only when its time is not zero |
| `Episodes.Aggregate` | src/main/java/sc/fiji/New.java:587-616 | starts begins at 0, is strictly increasing, and holds exactly 0 and every index following a pause before the last segment; there is one record per start (none for an empty table, whose starts are [0]); record k holds the statistics of segments starts[k] up to the episode's end |
| `Episodes.EpisodeBounds` | src/main/java/sc/fiji/New.java:590-612 | Every episode is a non-empty index range within the trace |
| `Episodes.EpisodeClosesAtPause` | src/main/java/sc/fiji/New.java:595-612 | Each episode ends at a pause segment or at the last segment, with no pause before its end |
| `Episodes.PauseEndsAnEpisode` | src/main/java/sc/fiji/New.java:595-612 | Every pause segment, and the last segment, ends some episode (a pause at the last index closes once) |
| `Episodes.SegmentInExactlyOneEpisode` | src/main/java/sc/fiji/New.java:590-616 | Every segment index lies in exactly one episode |
| `Episodes.PartitionUnique` | src/main/java/sc/fiji/New.java:590-612 | The episode starts are determined by the phases alone |
| `Episodes.AggregatedUnique` | src/main/java/sc/fiji/New.java:587-616 | The aggregation has one possible result, so repeating it gives identical episodes |
| `Episodes.NoRescueAtEpisodeStart` | src/main/java/sc/fiji/New.java:600 | No rescue is counted at the first segment of an episode |
| `Episodes.NeutralSegment` | src/main/java/sc/fiji/New.java:597-605 | Pause and undefined segments leave all eight statistics unchanged |
| `Episodes.PhaseTimeSign` | src/main/java/sc/fiji/New.java:597-603 | On a calibrated table, growth and shrink time are non-negative and zero exactly when the range has no segment of that phase |
| `Episodes.FrequencyRule` | src/main/java/sc/fiji/New.java:607-608 | The catastrophe frequency is catastrophes per growth time when the episode has a growth segment and 0 otherwise; the same for rescues and shrink |
| `Episodes.PauseOnlyEpisode` | src/main/java/sc/fiji/New.java:594-608 | An episode of one pause segment has all eight slots zero |
| `Episodes.EpisodeTimesAddUp` | src/main/java/sc/fiji/New.java:590-616 | Added over all episodes, the growth (or shrink) times equal the growth (or shrink) time of the whole trace |
| `Episodes.TransitionExample` | src/main/java/sc/fiji/New.java:596-606 | Growth, shrink, growth, pause forms a single episode starting at 0 with one catastrophe and one rescue |
| `Episodes.CatastropheWithoutGrowth` | src/main/java/sc/fiji/New.java:601-605 | A lone shrink segment counts as one catastrophe |
| `Episodes.RescueAtIndexOneMissed` | src/main/java/sc/fiji/New.java:600 | Shrink then growth at indices 0 and 1 counts no rescue |
| `Report.IndexOf` | src/main/java/sc/fiji/New.java:718-719 | The first position of a value in the list, or -1 exactly when it is absent |
| `Report.OutputRow` | src/main/java/sc/fiji/New.java:706-728 | A row has the 1-based index, the phase name, distance and time; a rate only in the growth column of a growth row or the shrink column of a shrink row; episode cells exactly when the index is an episode start |
| `Report.OutputRowMeaning` | src/main/java/sc/fiji/New.java:713-728 | For an aggregated, calibrated trace the rate cell of growth and shrink rows is filled, pause and undefined rows have no rate; episode cells appear exactly on an episode's first segment and hold that episode's statistics |
| `Report.DisplayedEpisode` | src/main/java/sc/fiji/New.java:633-635 | The window shows the most recent episode record, one of the records of the aggregation, unless the last segment is a pause, when it shows zeros |
| `Report.DisplayedEpisodeMeaning` | src/main/java/sc/fiji/New.java:633-635 | The window shows the statistics of the episode containing the last segment, from its start to that segment, unless the last segment is a pause, when it shows zeros |
| `Plugin.KymographMeasurer.constructor` | src/main/java/sc/fiji/New.java:142-153 | After start-up: the 3-pixel tolerance of the field initialiser, the right side, no trace and no results |
| `Plugin.KymographMeasurer.Redraw` | src/main/java/sc/fiji/New.java:344-351 | Redrawing discards the trace and all results and marks the trace unfinished; the configuration stays |
| `Plugin.KymographMeasurer.StartDrawing` | src/main/java/sc/fiji/New.java:381-399 | Choosing a side sets it and discards the trace and all results |
| `Plugin.KymographMeasurer.TraceCreated` | src/main/java/sc/fiji/New.java:777-779 | A newly created trace is unfinished |
| `Plugin.KymographMeasurer.TraceChanged` | src/main/java/sc/fiji/New.java:780-787 | After an edit the trace is recorded, finished once completed, and all results are recomputed from scratch from its segments, or kept when it is too short |

## Left out

- The window, its labels, buttons and button dispatch are user interface only. So are the
  label texts that `display` writes for the last segment. Only the choice of the episode that
  `display` shows is modelled.
- Listener registration, the event dispatch of `roiModified` (beyond the three branches
  above) and the key, mouse and window handlers are host event plumbing.
- Overlay drawing and colours are rendering.
- TIFF saving, CSV file writing, time stamps, hard-coded paths and `main` are I/O and host
  lifecycle. The image title written in each row is not modelled. The order of the eight
  episode columns, and the formatting of numbers as text, are output formatting.
- The warning is computed and returned. Writing it to the log is I/O.
- Java's 32-bit `int` arithmetic is left out: the differences of pixel coordinates and their
  `Math.abs` in `getPhase` and `calculate` can wrap only for coordinates near 2^31, which an
  image cannot have. Here coordinates are unbounded integers.
- IEEE double arithmetic is left out: distances, times and rates are exact reals. The
  infinity, NaN or negative rate that Java produces for a non-forward segment is modelled as
  the exact quotient when the time is not zero, and as an absent rate when it is zero.
- The cast of the stored phase code from double to int in `phase2String` is left out. Stored
  codes are exact integers.
- The "side not set" branch of `getPhase` is left out. Side has exactly two values, so that
  branch cannot occur.
- `null` lists: after a redraw, `starts` and `data2` are `null` in Java. Here they are empty
  sequences, which gives the same exported rows.
- The commented-out totals and dynamicity code is dead.
