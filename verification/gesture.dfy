/** The stage dock's reveal gesture (packages/ext-stage-dock/src/reveal.hpp, dock_layout.hpp,
    gesture.hpp). Positions and fractions are reals: floating-point rounding is not modelled. */
module Gesture {
  import opened Options

  // ---- dock_layout.hpp ----

  function Clamp(f: real): real {
    if f < 0.0 then 0.0 else if f > 1.0 then 1.0 else f
  }

  /** The conversion of a double to int: towards zero. */
  function Truncate(r: real): int {
    if r >= 0.0 then r.Floor else -((-r).Floor)
  }

  /** The x of `dock_box` at a reveal fraction. */
  function DockX(width: int, fraction: real): int {
    -Truncate(Times(width, 1.0 - Clamp(fraction)))
  }

  /** Hidden at 0, out at 1, and moving one way in between. */
  lemma {:induction false} DockXBounds(width: int, f: real, g: real)
    requires width >= 0 && f <= g
    ensures -width <= DockX(width, f) <= DockX(width, g) <= 0
    ensures DockX(width, 0.0) == -width && DockX(width, 1.0) == 0
  {
    var a, b := 1.0 - Clamp(f), 1.0 - Clamp(g);
    assert 0.0 <= b <= a <= 1.0;
    DockXEnds(width);
    hide Clamp, Truncate;
    Scale(width, 0.0, b);
    Scale(width, b, a);
    Scale(width, a, 1.0);
    HiddenPixels(width, Times(width, b), Times(width, a));
    hide Times;
  }

  /** A product as a name of its own: the length of a part of the dock. */
  function Times(width: int, a: real): real {
    width as real * a
  }

  lemma {:induction false} Scale(width: int, a: real, b: real)
    requires width >= 0 && a <= b
    ensures Times(width, a) <= Times(width, b)
    ensures Times(width, 0.0) == 0.0 && Times(width, 1.0) == width as real
  {
    var w, d := width as real, b - a;
    assert w * d >= 0.0;
    assert w * b == w * a + w * d;
  }

  lemma {:induction false} HiddenPixels(width: int, b: real, a: real)
    requires 0.0 <= b <= a <= width as real
    ensures 0 <= Truncate(b) <= Truncate(a) <= width
  {
  }

  lemma {:induction false} DockXEnds(width: int)
    ensures DockX(width, 0.0) == -width && DockX(width, 1.0) == 0
  {
    assert Clamp(0.0) == 0.0 && Clamp(1.0) == 1.0;
    assert Times(width, 1.0) == width as real && Times(width, 0.0) == 0.0;
  }

  /** Re-seeding a drag from the pixel the dock is at is exact: truncation loses nothing that the
      inverse does not give back. */
  lemma {:induction false} ReseedIsExact(width: int, x: int)
    requires width > 0 && -width <= x <= 0
    ensures 0.0 <= 1.0 + x as real / width as real <= 1.0
    ensures DockX(width, 1.0 + x as real / width as real) == x
  {
    Quotient(width, x as real);
    var f := 1.0 + x as real / width as real;
    assert Clamp(f) == f;
    HiddenPart(width, x as real);
    hide Times, Clamp;
    assert Truncate(-(x as real)) == -x;
  }

  /** Dividing by a positive width keeps the place relative to the two ends of the dock's travel. */
  lemma {:induction false} Quotient(w: int, a: real)
    requires w > 0
    ensures (a / w as real) * w as real == a
    ensures a >= 0.0 ==> a / w as real >= 0.0
    ensures a <= 0.0 ==> a / w as real <= 0.0
    ensures a >= -(w as real) ==> a / w as real >= -1.0
    ensures a <= -(w as real) ==> a / w as real <= -1.0
  {
  }

  // ---- reveal.hpp ----

  datatype Config = Config(dockWidth: int, openThreshold: real, flingVelocity: real, edgeSlop: int)

  datatype Commit = Open | Close

  datatype Recognizer = Recognizer(originX: real, startFraction: real, fraction: real, lastX: real,
                                   lastT: nat, velocity: real, active: bool)

  const IDLE: Recognizer := Recognizer(0.0, 0.0, 0.0, 0.0, 0, 0.0, false)

  function Begin(c: Config, x: real, t: nat, start: real, force: bool): Recognizer {
    Recognizer(x, Clamp(start), Clamp(start), x, t, 0.0, force || x <= c.edgeSlop as real)
  }

  function Width(c: Config): real {
    if c.dockWidth > 0 then c.dockWidth as real else 1.0
  }

  function Update(c: Config, r: Recognizer, x: real, t: nat): Recognizer {
    if !r.active then r
    else
      var dt := t as real - r.lastT as real;
      r.(fraction := Clamp(r.startFraction + (x - r.originX) / Width(c)),
         velocity := if dt > 0.0 then (x - r.lastX) / dt else r.velocity,
         lastX := x, lastT := t)
  }

  function End(c: Config, r: Recognizer): Commit {
    if !r.active then Close
    else if r.velocity >= c.flingVelocity then Open
    else if r.velocity <= -c.flingVelocity then Close
    else if r.fraction >= c.openThreshold then Open
    else Close
  }

  datatype Sample = Sample(x: real, t: nat)

  function UpdateAll(c: Config, r: Recognizer, samples: seq<Sample>): Recognizer
    decreases |samples|
  {
    if samples == [] then r else UpdateAll(c, Update(c, r, samples[0].x, samples[0].t), samples[1..])
  }

  /** The speed between the last two samples of which the later has a later time, the finger having
      gone down at `start`; `initial` if time never advanced. */
  function Speed(start: Sample, samples: seq<Sample>, initial: real): real
    decreases |samples|
  {
    if samples == [] then initial
    else
      var rest, last := samples[..|samples| - 1], samples[|samples| - 1];
      var before := if rest == [] then start else rest[|rest| - 1];
      if last.t > before.t then (last.x - before.x) / (last.t as real - before.t as real)
      else Speed(start, rest, initial)
  }

  lemma {:induction false} UpdateAllSnoc(c: Config, r: Recognizer, samples: seq<Sample>, s: Sample)
    ensures UpdateAll(c, r, samples + [s]) == Update(c, UpdateAll(c, r, samples), s.x, s.t)
    decreases |samples|
  {
    hide Update;
    if samples == [] {
      assert [] + [s] == [s] && [s][1..] == [];
    } else {
      assert (samples + [s])[1..] == samples[1..] + [s];
      UpdateAllSnoc(c, Update(c, r, samples[0].x, samples[0].t), samples[1..], s);
    }
  }

  /** REVERSIBLE: during a gesture the fraction depends on where the finger is now, not on how it
      got there, and the speed on the last two samples between which time advanced. */
  lemma {:induction false} LastSampleDecides(c: Config, r: Recognizer, samples: seq<Sample>)
    requires r.active
    ensures var end := UpdateAll(c, r, samples);
      && end.active && end.originX == r.originX && end.startFraction == r.startFraction
      && end.velocity == Speed(Sample(r.lastX, r.lastT), samples, r.velocity)
      && (samples == [] ==> end == r)
      && (samples != [] ==>
            var last := samples[|samples| - 1];
            && end.lastX == last.x && end.lastT == last.t
            && end.fraction == Clamp(r.startFraction + (last.x - r.originX) / Width(c)))
    decreases |samples|
  {
    if samples == [] {
    } else {
      var rest, last := samples[..|samples| - 1], samples[|samples| - 1];
      assert samples == rest + [last];
      LastSampleDecides(c, r, rest);
      UpdateAllSnoc(c, r, rest, last);
      hide UpdateAll, Clamp, Width;
    }
  }

  // ---- gesture.hpp ----

  datatype Metrics = Metrics(outputH: int, dockWidth: int)

  /** `slidePx` is a whole number: every assignment to it converts the int that dock_box returns. */
  datatype Dock = Dock(recognizer: Recognizer, metrics: Metrics, activeTouch: Option<int>, slidePx: int,
                       dragging: bool, open: bool)

  datatype Event =
    | TouchDown(id: int, x: real, t: nat)
    | TouchMotion(id: int, x: real, t: nat)
    | TouchUp(id: int)
    | TouchCancel(id: int)
    | DragStart(x: real, t: nat)
    | DragMove(x: real, t: nat)
    | DragEnd
    | OpenNow
    | CloseNow
    | SetMetrics(metrics: Metrics)

  datatype Outcome = Outcome(makeVisible: bool, dirtySlide: bool)

  const IGNORED: Outcome := Outcome(false, false)

  function DockPx(d: Dock, fraction: real): int {
    DockX(d.metrics.dockWidth, fraction)
  }

  function Snap(d: Dock, commit: Commit): (Dock, Outcome) {
    if commit == Open then (d.(dragging := false, open := true, slidePx := DockPx(d, 1.0)), Outcome(true, true))
    else (d.(dragging := false, open := false, slidePx := DockPx(d, 0.0)), Outcome(false, true))
  }

  /** The fraction a drag is seeded with: the inverse of DockX at the current slide. */
  function SeedFraction(d: Dock): real {
    if d.metrics.dockWidth > 0 then 1.0 + d.slidePx as real / d.metrics.dockWidth as real else 1.0
  }

  function Step(c: Config, d: Dock, e: Event): (Dock, Outcome) {
    match e
    case TouchDown(id, x, t) =>
      if d.activeTouch.Some? || d.open then (d, IGNORED)
      else
        var d1 := d.(recognizer := Begin(c, x, t, 0.0, false));
        if !d1.recognizer.active then (d1, IGNORED)
        else (d1.(activeTouch := Some(id), dragging := true, slidePx := DockPx(d1, 0.0)), Outcome(true, true))
    case TouchMotion(id, x, t) =>
      if d.activeTouch != Some(id) then (d, IGNORED)
      else
        var r := Update(c, d.recognizer, x, t);
        (d.(recognizer := r, slidePx := DockPx(d, r.fraction)), Outcome(false, true))
    case TouchUp(id) =>
      if d.activeTouch != Some(id) then (d, IGNORED)
      else Snap(d.(activeTouch := None), End(c, d.recognizer))
    case TouchCancel(id) =>
      if d.activeTouch != Some(id) then (d, IGNORED) else Snap(d.(activeTouch := None), Close)
    case DragStart(x, t) =>
      (d.(recognizer := Begin(c, x, t, SeedFraction(d), true), dragging := true), IGNORED)
    case DragMove(x, t) =>
      var r := Update(c, d.recognizer, x, t);
      (d.(recognizer := r, slidePx := DockPx(d, r.fraction)), Outcome(false, true))
    case DragEnd => Snap(d, End(c, d.recognizer))
    case OpenNow => (d.(open := true, dragging := false, slidePx := DockPx(d, 1.0)), Outcome(true, true))
    case CloseNow => (d.(open := false, dragging := false, slidePx := DockPx(d, 0.0)), Outcome(false, true))
    case SetMetrics(m) => (d.(metrics := m), IGNORED)
  }

  /** A dock with whether the surface is delivering a drag: the state of a run. */
  datatype Run = Run(dock: Dock, inDrag: bool)

  /** What the environment may do next: drags are delivered start, moves, end; the width stays. */
  predicate Can(r: Run, e: Event) {
    && (e.DragStart? ==> !r.inDrag)
    && (e.DragMove? || e.DragEnd? ==> r.inDrag)
    && (e.SetMetrics? ==> e.metrics.dockWidth == r.dock.metrics.dockWidth)
  }

  function Next(c: Config, r: Run, e: Event): Run {
    Run(Step(c, r.dock, e).0, if e.DragStart? then true else if e.DragEnd? then false else r.inDrag)
  }

  predicate Possible(c: Config, r: Run, events: seq<Event>)
    decreases |events|
  {
    events == [] || (Can(r, events[0]) && Possible(c, Next(c, r, events[0]), events[1..]))
  }

  function After(c: Config, r: Run, events: seq<Event>): Run
    decreases |events|
  {
    if events == [] then r else After(c, Next(c, r, events[0]), events[1..])
  }

  /** The slide stays within the dock's travel; with no finger on the dock it is at the
      end that `open` names, and nothing is dragging. */
  predicate Placed(r: Run) {
    var w := r.dock.metrics.dockWidth;
    && w > 0
    && -w <= r.dock.slidePx <= 0
    && (r.dock.activeTouch.None? && !r.inDrag ==> !r.dock.dragging && r.dock.slidePx == if r.dock.open then 0 else -w)
  }

  lemma NextKeepsPlaced(c: Config, r: Run, e: Event)
    requires Placed(r) && Can(r, e)
    ensures Placed(Next(c, r, e))
  {
    var w := r.dock.metrics.dockWidth;
    var r' := Next(c, r, e);
    var f := r'.dock.recognizer.fraction;
    DockXBounds(w, f, f);
    hide DockX;
    assert r'.dock.slidePx == DockX(w, f) || r'.dock.slidePx == DockX(w, 0.0)
        || r'.dock.slidePx == DockX(w, 1.0) || r'.dock.slidePx == r.dock.slidePx;
  }

  /** What the glue is told is enough to follow: the slide moves only when it is marked dirty, a dock
      that opens or starts to be swiped in is made visible, and no other. */
  lemma OutcomeTellsTheGlue(c: Config, d: Dock, e: Event)
    ensures var (d', out) := Step(c, d, e);
      && (!out.dirtySlide ==> d'.slidePx == d.slidePx && d'.open == d.open)
      && (d'.open && !d.open ==> out.makeVisible)
      && (d'.activeTouch.Some? && d.activeTouch.None? ==> out.makeVisible)
      && (out.makeVisible ==> d'.open || d'.activeTouch.Some?)
  {
  }

  /** Over every run from the seeded dock, whatever touches, drags and commands are interleaved. */
  lemma {:induction false} AlwaysPlaced(c: Config, r: Run, events: seq<Event>)
    requires Placed(r) && Possible(c, r, events)
    ensures Placed(After(c, r, events))
    decreases |events|
  {
    if events == [] {
    } else {
      NextKeepsPlaced(c, r, events[0]);
      AlwaysPlaced(c, Next(c, r, events[0]), events[1..]);
    }
  }

  /** What create_dock_surface does: set the metrics, then close_now. */
  function Seeded(c: Config, metrics: Metrics): Run {
    Run(Step(c, Dock(IDLE, metrics, None, 0, false, false), CloseNow).0, false)
  }

  lemma SeededIsPlaced(c: Config, metrics: Metrics)
    requires metrics.dockWidth > 0
    ensures Placed(Seeded(c, metrics))
  {
    DockXBounds(metrics.dockWidth, 0.0, 0.0);
  }

  /** The moves of one finger: touch point `touch` on the bus, or a drag captured by the surface. */
  function Moves(touch: Option<int>, samples: seq<Sample>): (events: seq<Event>)
    ensures |events| == |samples|
  {
    if samples == [] then []
    else
      var s := samples[0];
      [if touch.Some? then TouchMotion(touch.value, s.x, s.t) else DragMove(s.x, s.t)] + Moves(touch, samples[1..])
  }

  lemma {:induction false} MovesFollowRecognizer(c: Config, r: Run, touch: Option<int>, samples: seq<Sample>)
    requires touch.Some? ==> r.dock.activeTouch == touch
    ensures var r' := After(c, r, Moves(touch, samples));
      var k := UpdateAll(c, r.dock.recognizer, samples);
      var px := if samples == [] then r.dock.slidePx else DockX(r.dock.metrics.dockWidth, k.fraction);
      r' == r.(dock := r.dock.(recognizer := k, slidePx := px))
    decreases |samples|
  {
    if samples == [] {
    } else {
      var moves := Moves(touch, samples);
      assert moves[1..] == Moves(touch, samples[1..]);
      var r1 := Next(c, r, moves[0]);
      assert r1.dock.recognizer == Update(c, r.dock.recognizer, samples[0].x, samples[0].t);
      MovesFollowRecognizer(c, r1, touch, samples[1..]);
    }
  }

  /** Where a dock of width w stands when it is dragged to q: stopped at the ends of its travel, and in
      between at the pixel q is in or the next one to the right, towards open. */
  function DraggedTo(w: int, q: real): int {
    if q <= -w as real then -w else if q >= 0.0 then 0 else -((-q).Floor)
  }

  /** Taking hold of the dock and moving along it drags it with the finger, from wherever it was; only
      the finger's last place counts. A finger that has moved by whole pixels has moved the dock by as
      many, short of the ends, and one that has not moved leaves it where it is. */
  lemma {:induction false} DragFollowsFinger(c: Config, r: Run, x: real, t: nat, samples: seq<Sample>)
    requires Placed(r) && c.dockWidth == r.dock.metrics.dockWidth && samples != []
    ensures var w, px := r.dock.metrics.dockWidth, r.dock.slidePx; var dx := samples[|samples| - 1].x - x;
      var stands := After(c, Next(c, r, DragStart(x, t)), Moves(None, samples)).dock.slidePx;
      && stands == DraggedTo(w, px as real + dx)
      && (dx == dx.Floor as real && -w <= px + dx.Floor <= 0 ==> stands == px + dx.Floor)
  {
    var w, px := r.dock.metrics.dockWidth, r.dock.slidePx;
    var r1 := Next(c, r, DragStart(x, t));
    assert r1.dock.recognizer.startFraction == 1.0 + px as real / w as real by {
      ReseedIsExact(w, px);
    }
    assert r1.dock.recognizer.active && r1.dock.recognizer.originX == x && r1.dock.metrics == r.dock.metrics;
    assert Width(c) == w as real;
    var dx := samples[|samples| - 1].x - x;
    hide *;
    MovesFollowRecognizer(c, r1, None, samples);
    LastSampleDecides(c, r1.dock.recognizer, samples);
    DraggedPixel(w, px, dx);
    WholePixels(w, px, dx);
  }

  lemma {:induction false} WholePixels(w: int, px: int, dx: real)
    requires w > 0
    ensures dx == dx.Floor as real && -w <= px + dx.Floor <= 0 ==> DraggedTo(w, px as real + dx) == px + dx.Floor
  {
    var n := px + dx.Floor;
    if dx == dx.Floor as real && -w <= n <= 0 {
      assert px as real + dx == n as real;
      assert (-(n as real)).Floor == -n;
    }
  }

  lemma {:induction false} DraggedPixel(w: int, px: int, dx: real)
    requires w > 0
    ensures DockX(w, Clamp(1.0 + px as real / w as real + dx / w as real)) == DraggedTo(w, px as real + dx)
  {
    var q := px as real + dx;
    QuotientSum(w, px as real, dx);
    hide DockX, DraggedTo;
    PixelOf(w, q);
  }

  lemma {:induction false} QuotientSum(w: int, a: real, b: real)
    requires w > 0
    ensures a / w as real + b / w as real == (a + b) / w as real
  {
  }

  lemma {:induction false} PixelOf(w: int, q: real)
    requires w > 0
    ensures DockX(w, Clamp(1.0 + q / w as real)) == DraggedTo(w, q)
  {
    Quotient(w, q);
    var f := 1.0 + q / w as real;
    if q <= -(w as real) {
      assert Clamp(f) == 0.0;
      DockXEnds(w);
    } else if q >= 0.0 {
      assert Clamp(f) == 1.0;
      DockXEnds(w);
    } else {
      assert Clamp(f) == f;
      HiddenPart(w, q);
      hide Clamp, Times;
      assert Truncate(-q) == (-q).Floor;
    }
  }

  /** The hidden part of the dock at fraction 1 + q/w is -q. */
  lemma {:induction false} HiddenPart(w: int, q: real)
    requires w > 0
    ensures Times(w, 1.0 - (1.0 + q / w as real)) == -q
  {
    Quotient(w, q);
    var z := q / w as real;
    assert 1.0 - (1.0 + z) == -z;
    assert w as real * -z == -(z * w as real);
  }

  /** When a release opens the dock: a fling decides, else the position does. */
  predicate Opens(c: Config, velocity: real, fraction: real) {
    velocity >= c.flingVelocity || (velocity > -c.flingVelocity && fraction >= c.openThreshold)
  }

  /** A whole swipe: a finger that goes down at the edge of a closed dock, moves or not and lifts leaves
      it open or closed by its speed and its last place relative to where it went down, and at rest
      there. A finger that goes down further in does nothing at all. */
  lemma {:induction false} SwipeOutcome(c: Config, r: Run, id: int, x: real, t: nat, samples: seq<Sample>)
    requires Placed(r) && r.dock.activeTouch.None? && !r.dock.open && !r.inDrag
    ensures var moved := if samples == [] then 0.0 else samples[|samples| - 1].x - x;
      var down := Next(c, r, TouchDown(id, x, t));
      var end := Next(c, After(c, down, Moves(Some(id), samples)), TouchUp(id));
      && (x <= c.edgeSlop as real ==>
            && end.dock.activeTouch.None? && !end.dock.dragging && Placed(end)
            && (end.dock.open <==> Opens(c, Speed(Sample(x, t), samples, 0.0), Clamp(moved / Width(c)))))
      && (x > c.edgeSlop as real ==> down == r.(dock := r.dock.(recognizer := down.dock.recognizer)))
  {
    if x <= c.edgeSlop as real {
      var down := Next(c, r, TouchDown(id, x, t));
      MovesFollowRecognizer(c, down, Some(id), samples);
      LastSampleDecides(c, down.dock.recognizer, samples);
      assert Clamp(0.0) == 0.0;
      assert samples == [] ==> 0.0 / Width(c) == 0.0;
      DockXBounds(r.dock.metrics.dockWidth, 0.0, 1.0);
      hide UpdateAll, DockX, After, Clamp, Width, Speed;
    }
  }

  // ---- new metrics ----

  lemma StepKeepsMetrics(c: Config, d: Dock, e: Event)
    requires !e.SetMetrics?
    ensures Step(c, d, e).0.metrics == d.metrics
  {
    hide DockX, Begin, Update, End;
  }

  lemma {:induction false} MetricsStay(c: Config, r: Run, events: seq<Event>)
    requires forall e :: e in events ==> !e.SetMetrics?
    ensures After(c, r, events).dock.metrics == r.dock.metrics
    decreases |events|
  {
    if events == [] {
    } else {
      StepKeepsMetrics(c, r.dock, events[0]);
      MetricsStay(c, Next(c, r, events[0]), events[1..]);
    }
  }

  /** Metrics that are set do not move the dock, and are those of every later layout until they are set
      again: hidden it is by their width, and a swiping finger moves it over that width. */
  lemma MetricsCountLater(c: Config, r: Run, m: Metrics, events: seq<Event>, id: int, x: real, t: nat)
    requires forall e :: e in events ==> !e.SetMetrics?
    ensures Next(c, r, SetMetrics(m)).dock == r.dock.(metrics := m)
    ensures var r' := After(c, Next(c, r, SetMetrics(m)), events);
      && r'.dock.metrics == m
      && Next(c, r', CloseNow).dock.slidePx == -m.dockWidth && Next(c, r', OpenNow).dock.slidePx == 0
      && (r'.dock.activeTouch == Some(id) ==>
            var d := Next(c, r', TouchMotion(id, x, t)).dock; d.slidePx == DockX(m.dockWidth, d.recognizer.fraction))
  {
    var r1 := Next(c, r, SetMetrics(m));
    MetricsStay(c, r1, events);
    DockXEnds(m.dockWidth);
    hide After, Update, Begin, End, DockX;
  }
}
