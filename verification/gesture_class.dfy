/** The recognizer and the controller as the objects the dock holds. Every method does what the step
    function of Gesture says, keeps the object's invariant, and says what that means for the dock. */
module GestureClass {
  import opened Options
  import opened Gesture

  /** reveal.hpp, RevealRecognizer. Only x matters: y is accepted there and ignored. */
  class RevealRecognizer {
    const config: Config
    var originX: real
    var startFraction: real
    var fraction: real
    var lastX: real
    var lastT: nat
    var velocity: real
    var active: bool

    ghost function State(): Recognizer
      reads this
    {
      Recognizer(originX, startFraction, fraction, lastX, lastT, velocity, active)
    }

    /** The fraction is one, and in a drag it is the start fraction plus the travel of the finger. */
    ghost predicate Valid()
      reads this
    {
      && 0.0 <= startFraction <= 1.0 && 0.0 <= fraction <= 1.0
      && (active ==> fraction == Clamp(startFraction + (lastX - originX) / Width(config)))
    }

    constructor (config: Config)
      ensures this.config == config && Valid() && State() == IDLE
    {
      this.config := config;
      originX, startFraction, fraction := 0.0, 0.0, 0.0;
      lastX, lastT, velocity, active := 0.0, 0, 0.0, false;
    }

    /** A press is taken at the edge, or anywhere when forced; the fraction begins at the start
        fraction, clamped. */
    method BeginDrag(x: real, t: nat, start: real, force: bool) returns (accepted: bool)
      modifies this
      ensures Valid() && State() == Begin(config, x, t, start, force)
      ensures accepted == active && (accepted <==> force || x <= config.edgeSlop as real)
      ensures 0.0 <= start <= 1.0 ==> fraction == start
    {
      originX := x;
      startFraction := Clamp(start);
      fraction := startFraction;
      lastX := x;
      lastT := t;
      velocity := 0.0;
      active := force || x <= config.edgeSlop as real;
      assert (lastX - originX) / Width(config) == 0.0;
      return active;
    }

    /** Back where it went down, the finger has the start fraction again; further right it never has a
        smaller one. */
    method Move(x: real, t: nat) returns (live: real)
      requires Valid()
      modifies this
      ensures Valid() && State() == Update(config, old(State()), x, t) && live == fraction
      ensures !old(active) ==> State() == old(State())
      ensures active && x == originX ==> live == startFraction
      ensures active && x >= old(lastX) ==> live >= old(fraction)
      ensures active && x <= old(lastX) ==> live <= old(fraction)
    {
      if !active {
        return fraction;
      }
      var inward := x - originX;
      var width := if config.dockWidth > 0 then config.dockWidth as real else 1.0;
      TravelOrder(width, lastX - originX, inward);
      fraction := Clamp(startFraction + inward / width);
      var dt := t as real - lastT as real;
      if dt > 0.0 {
        velocity := (x - lastX) / dt;
      }
      lastX := x;
      lastT := t;
      return fraction;
    }

    /** A drag that was taken opens by its speed, or without a fling by its place; one that was not
        never does. */
    method Release() returns (commit: Commit)
      ensures commit == End(config, State())
      ensures commit == Open <==> active && Opens(config, velocity, fraction)
    {
      if !active {
        return Close;
      }
      if velocity >= config.flingVelocity {
        return Open;
      }
      if velocity <= -config.flingVelocity {
        return Close;
      }
      return if fraction >= config.openThreshold then Open else Close;
    }
  }

  lemma {:induction false} TravelOrder(width: real, a: real, b: real)
    requires width > 0.0
    ensures a <= b ==> a / width <= b / width
    ensures b <= a ==> b / width <= a / width
    ensures b == 0.0 ==> b / width == 0.0
  {
  }

  /** gesture.hpp, Controller. */
  class Controller {
    const recognizer: RevealRecognizer
    var metrics: Metrics
    var activeTouch: Option<int>
    var slidePx: int
    var dragging: bool
    var open: bool
    /** Whether the surface is delivering a drag. */
    ghost var inDrag: bool

    ghost function State(): Dock
      reads this, recognizer
    {
      Dock(recognizer.State(), metrics, activeTouch, slidePx, dragging, open)
    }

    ghost predicate Valid()
      reads recognizer
    {
      recognizer.Valid()
    }

    /** The dock is within its travel, and at rest it is at the end that `open` names. Conceal brings
        this about, and every method keeps it. */
    ghost predicate InPlace()
      reads this, recognizer
    {
      Placed(Run(State(), inDrag))
    }

    ghost predicate AtRest()
      reads this
    {
      !dragging && slidePx == if open then 0 else -metrics.dockWidth
    }

    constructor (config: Config, metrics: Metrics)
      ensures fresh(recognizer) && Valid() && recognizer.config == config && !inDrag
      ensures State() == Dock(IDLE, metrics, None, 0, false, false)
    {
      recognizer := new RevealRecognizer(config);
      this.metrics := metrics;
      activeTouch, slidePx, dragging, open := None, 0, false, false;
      inDrag := false;
    }

    /** A swipe begins at the edge of a dock that is closed and not being swiped, hidden; any other
        touch leaves the dock as it is. */
    method OnTouchDown(id: int, x: real, t: nat) returns (outcome: Outcome)
      requires Valid()
      modifies this, recognizer
      ensures Valid() && inDrag == old(inDrag) && (old(InPlace()) ==> InPlace())
      ensures (State(), outcome) == Step(recognizer.config, old(State()), TouchDown(id, x, t))
      ensures outcome.makeVisible <==>
        old(activeTouch).None? && !old(open) && x <= recognizer.config.edgeSlop as real
      ensures outcome.makeVisible ==> activeTouch == Some(id) && slidePx == -metrics.dockWidth
      ensures !outcome.makeVisible ==>
        slidePx == old(slidePx) && activeTouch == old(activeTouch) && dragging == old(dragging)
    {
      if activeTouch.Some? || open {
        return IGNORED;
      }
      var accepted := recognizer.BeginDrag(x, t, 0.0, false);
      if !accepted {
        return IGNORED;
      }
      DockXEnds(metrics.dockWidth);
      activeTouch := Some(id);
      dragging := true;
      slidePx := DockX(metrics.dockWidth, 0.0);
      return Outcome(true, true);
    }

    /** The dock stands where the swiping finger's fraction puts it; no other finger moves it. */
    method OnTouchMotion(id: int, x: real, t: nat) returns (outcome: Outcome)
      requires Valid()
      modifies this, recognizer
      ensures Valid() && inDrag == old(inDrag) && (old(InPlace()) ==> InPlace())
      ensures (State(), outcome) == Step(recognizer.config, old(State()), TouchMotion(id, x, t))
      ensures old(activeTouch) == Some(id) ==> slidePx == DockX(metrics.dockWidth, recognizer.fraction)
      ensures old(activeTouch) != Some(id) ==> State() == old(State())
    {
      if activeTouch != Some(id) {
        return IGNORED;
      }
      var live := recognizer.Move(x, t);
      if metrics.dockWidth >= 0 {
        DockXBounds(metrics.dockWidth, live, live);
      }
      slidePx := DockX(metrics.dockWidth, live);
      return Outcome(false, true);
    }

    /** The swiping finger lifts: the dock comes to rest, open or closed as its speed and place say. */
    method OnTouchUp(id: int) returns (outcome: Outcome)
      requires Valid()
      modifies this
      ensures Valid() && inDrag == old(inDrag) && (old(InPlace()) ==> InPlace())
      ensures (State(), outcome) == Step(recognizer.config, old(State()), TouchUp(id))
      ensures old(activeTouch) == Some(id) ==>
        && activeTouch.None? && AtRest()
        && (open <==> recognizer.active && Opens(recognizer.config, recognizer.velocity, recognizer.fraction))
      ensures old(activeTouch) != Some(id) ==> State() == old(State())
    {
      if activeTouch != Some(id) {
        return IGNORED;
      }
      var commit := recognizer.Release();
      activeTouch := None;
      outcome := SnapTo(commit);
    }

    /** A cancelled swipe closes the dock, however far it had come. */
    method OnTouchCancel(id: int) returns (outcome: Outcome)
      requires Valid()
      modifies this
      ensures Valid() && inDrag == old(inDrag) && (old(InPlace()) ==> InPlace())
      ensures (State(), outcome) == Step(recognizer.config, old(State()), TouchCancel(id))
      ensures old(activeTouch) == Some(id) ==> activeTouch.None? && AtRest() && !open
      ensures old(activeTouch) != Some(id) ==> State() == old(State())
    {
      if activeTouch != Some(id) {
        return IGNORED;
      }
      activeTouch := None;
      outcome := SnapTo(Close);
    }

    /** Taking hold of the dock does not move it, and the fraction it starts with is the one that lays
        it out where it is. */
    method OnDragStart(x: real, t: nat) returns (outcome: Outcome)
      requires Valid()
      modifies this, recognizer
      ensures Valid() && inDrag && (old(InPlace()) ==> InPlace())
      ensures (State(), outcome) == Step(recognizer.config, old(State()), DragStart(x, t))
      ensures recognizer.active && slidePx == old(slidePx)
      ensures old(InPlace()) ==> slidePx == DockX(metrics.dockWidth, recognizer.fraction)
    {
      var current := if metrics.dockWidth > 0 then 1.0 + slidePx as real / metrics.dockWidth as real else 1.0;
      if metrics.dockWidth > 0 && -metrics.dockWidth <= slidePx <= 0 {
        ReseedIsExact(metrics.dockWidth, slidePx);
      }
      var _ := recognizer.BeginDrag(x, t, current, true);
      dragging := true;
      inDrag := true;
      return IGNORED;
    }

    /** The dock follows the finger in its direction, and is back where it was with the finger. */
    method OnDragMove(x: real, t: nat) returns (outcome: Outcome)
      requires Valid()
      modifies this, recognizer
      ensures Valid() && inDrag == old(inDrag) && (old(InPlace() && inDrag) ==> InPlace())
      ensures (State(), outcome) == Step(recognizer.config, old(State()), DragMove(x, t))
      ensures slidePx == DockX(metrics.dockWidth, recognizer.fraction)
      ensures
        old(InPlace()) && recognizer.active && old(slidePx) == DockX(metrics.dockWidth, old(recognizer.fraction)) ==>
        && (x >= old(recognizer.lastX) ==> slidePx >= old(slidePx))
        && (x <= old(recognizer.lastX) ==> slidePx <= old(slidePx))
    {
      ghost var was := recognizer.fraction;
      var live := recognizer.Move(x, t);
      if metrics.dockWidth >= 0 && was <= live {
        DockXBounds(metrics.dockWidth, was, live);
      }
      if metrics.dockWidth >= 0 && live <= was {
        DockXBounds(metrics.dockWidth, live, was);
      }
      slidePx := DockX(metrics.dockWidth, live);
      return Outcome(false, true);
    }

    /** The drag is over: the dock comes to rest, open or closed as its speed and place say. */
    method OnDragEnd() returns (outcome: Outcome)
      requires Valid()
      modifies this
      ensures Valid() && !inDrag && (metrics.dockWidth > 0 ==> InPlace())
      ensures (State(), outcome) == Step(recognizer.config, old(State()), DragEnd)
      ensures AtRest()
        && (open <==> recognizer.active && Opens(recognizer.config, recognizer.velocity, recognizer.fraction))
    {
      var commit := recognizer.Release();
      outcome := SnapTo(commit);
      inDrag := false;
    }

    method Reveal() returns (outcome: Outcome)
      requires Valid()
      modifies this
      ensures Valid() && inDrag == old(inDrag) && (old(InPlace()) ==> InPlace())
      ensures (State(), outcome) == Step(recognizer.config, old(State()), OpenNow)
      ensures AtRest() && open
    {
      DockXEnds(metrics.dockWidth);
      open := true;
      dragging := false;
      slidePx := DockX(metrics.dockWidth, 1.0);
      return Outcome(true, true);
    }

    /** Hidden, from any state: this is what puts a new dock in place. */
    method Conceal() returns (outcome: Outcome)
      requires Valid()
      modifies this
      ensures Valid() && inDrag == old(inDrag) && (metrics.dockWidth > 0 ==> InPlace())
      ensures (State(), outcome) == Step(recognizer.config, old(State()), CloseNow)
      ensures AtRest() && !open
    {
      DockXEnds(metrics.dockWidth);
      open := false;
      dragging := false;
      slidePx := DockX(metrics.dockWidth, 0.0);
      return Outcome(false, true);
    }

    method RefreshMetrics(m: Metrics)
      modifies this`metrics
      ensures State() == Step(recognizer.config, old(State()), SetMetrics(m)).0
      ensures old(InPlace()) && m.dockWidth == old(metrics.dockWidth) ==> InPlace()
    {
      metrics := m;
    }

    /** The shared release: at rest at the end the commit names. */
    method SnapTo(commit: Commit) returns (outcome: Outcome)
      requires Valid()
      modifies this
      ensures Valid() && inDrag == old(inDrag) && (metrics.dockWidth > 0 ==> InPlace())
      ensures (State(), outcome) == Snap(old(State()), commit)
      ensures AtRest() && (open <==> commit == Open) && outcome == Outcome(open, true)
      ensures activeTouch == old(activeTouch)
    {
      DockXEnds(metrics.dockWidth);
      dragging := false;
      if commit == Open {
        open := true;
        slidePx := DockX(metrics.dockWidth, 1.0);
        return Outcome(true, true);
      }
      open := false;
      slidePx := DockX(metrics.dockWidth, 0.0);
      return Outcome(false, true);
    }
  }
}
