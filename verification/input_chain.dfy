/** The substrate and the shell's grab machine in a row (packages/kernel/src/input.cpp,
    packages/ext-xdg-shell/src/extension.cpp): what the substrate does not consume goes to the bus
    and feeds the grab machine. */
module InputChain {
  import opened Options
  import R = Routing
  import G = GrabMachines

  /** `points` are the touch points that are physically down; `bus.down` those the bus has seen. */
  datatype Chain = Chain(ui: R.State, bus: G.Fed, points: set<int>)

  datatype Event = Device(e: R.Event) | Client(mode: G.Mode) | TargetLost

  /** The event the bus gets for a device event that was not consumed. */
  function ToBus(e: R.Event): Option<G.Input> {
    match e
    case Button(_, _, pressed) => Some(G.Button(pressed))
    case TouchDown(id, _, _) => Some(G.PointDown(id))
    case TouchEnd(id, _) => Some(G.PointUp(id))
    case _ => None
  }

  function Points(points: set<int>, e: R.Event): set<int> {
    if e.TouchDown? then points + {e.id} else if e.TouchEnd? then points - {e.id} else points
  }

  /** What the bus hears of an event. */
  function Heard(c: Chain, e: Event): Option<G.Input> {
    match e
    case Device(d) => if R.Step(c.ui, d).1.consumed then None else ToBus(d)
    case Client(mode) => Some(G.Request(mode))
    case TargetLost => Some(G.TargetLost)
  }

  function Next(c: Chain, e: Event): Chain {
    Chain(if e.Device? then R.Step(c.ui, e.e).0 else c.ui,
          if Heard(c, e).Some? then G.Feed(c.bus, Heard(c, e).value) else c.bus,
          if e.Device? then Points(c.points, e.e) else c.points)
  }

  function After(c: Chain, events: seq<Event>): Chain
    decreases |events|
  {
    if events == [] then c else After(Next(c, events[0]), events[1..])
  }

  // ---- the pointer ----

  /** What the machine takes for a button that is down is a grab of the bus, with buttons down. */
  predicate PointerSafe(c: Chain) {
    && (c.ui.grab.owner == R.Nobody <==> c.ui.grab.down == 0)
    && (c.bus.m.pointerDown ==> c.ui.grab.owner == R.Bus)
    && G.ButtonHeld(c.bus.m)
  }

  lemma NextKeepsPointerSafe(c: Chain, e: Event)
    requires PointerSafe(c)
    ensures PointerSafe(Next(c, e))
  {
  }

  /** NO UNCLICKED DRAG: in every run, whatever is clicked, touched, requested or destroyed, a window
      follows the pointer only while a button is physically down and the stream belongs to the bus:
      never during or after a click on a ui surface. */
  lemma {:induction false} PointerDragIsHeld(c: Chain, events: seq<Event>)
    requires PointerSafe(c)
    ensures var c' := After(c, events);
      && PointerSafe(c')
      && (G.OnMotion(c'.bus.m) != G.Idle ==> c'.ui.grab.owner == R.Bus && c'.ui.grab.down > 0)
    decreases |events|
  {
    if events == [] {
    } else {
      NextKeepsPointerSafe(c, events[0]);
      hide Next;
      PointerDragIsHeld(Next(c, events[0]), events[1..]);
    }
  }

  /** The way through: a press between the surfaces, with no button and no point of the bus down, reaches
      the machine, so a request made under it drags. */
  lemma PressBetweenDrags(c: Chain, x: real, y: real, mode: G.Mode)
    requires PointerSafe(c) && c.ui.grab.down == 0 && R.NoneShows(c.ui.surfaces, x, y)
    requires c.bus.m.count == 0 && mode != G.Idle
    ensures var c' := Next(Next(c, Device(R.Button(x, y, true))), Client(mode));
      G.OnMotion(c'.bus.m) == mode && c'.ui.grab.owner == R.Bus
  {
    R.HitExactly(c.ui.surfaces, x, y, 0);
    hide R.SurfaceAt, R.NoneShows;
  }

  /** And a point that goes down between them: a request made under it follows it, whatever else is down. */
  lemma PointBetweenDrags(c: Chain, x: real, y: real, id: int, mode: G.Mode)
    requires R.NoneShows(c.ui.surfaces, x, y) && mode != G.Idle
    ensures var c' := Next(Next(c, Device(R.TouchDown(id, x, y))), Client(mode));
      G.OnTouchMotion(c'.bus.m, id) == mode && id in c'.bus.down && id in c'.points
  {
    R.HitExactly(c.ui.surfaces, x, y, 0);
    hide R.SurfaceAt, R.NoneShows;
  }

  // ---- the touch points ----

  /** The device does not reuse an id that is down, and only points that are down end. */
  predicate Real(c: Chain, e: Event) {
    && (e.Device? && e.e.TouchDown? ==> e.e.id !in c.points)
    && (e.Device? && e.e.TouchEnd? ==> e.e.id in c.points)
  }

  /** A surface that has captured a touch point is destroyed. */
  predicate Orphans(c: Chain, e: Event) {
    e.Device? && e.e.Destroy? && exists id :: id in c.ui.capture && c.ui.capture[id] == e.e.u
  }

  /** No point is known to both sides. */
  predicate Apart(c: Chain) {
    && (forall id :: id in c.ui.capture ==> id in c.points && id !in c.bus.down)
    && c.bus.down <= c.points
  }

  /** Points that are down and known to neither side. */
  function Lost(c: Chain): set<int> {
    c.points - c.ui.capture.Keys - c.bus.down
  }

  lemma NextKeepsApart(c: Chain, e: Event)
    requires Apart(c) && Real(c, e)
    ensures Apart(Next(c, e))
  {
    hide R.SurfaceAt, R.Removed;
  }

  /** A step makes points lost exactly when it destroys a surface that has captured one. */
  lemma LostByDestruction(c: Chain, e: Event)
    requires Apart(c) && Real(c, e)
    ensures Lost(Next(c, e)) <= Lost(c) <==> !Orphans(c, e)
  {
    hide R.SurfaceAt, R.Removed;
    if Orphans(c, e) {
      var id :| id in c.ui.capture && c.ui.capture[id] == e.e.u;
      assert id in Lost(Next(c, e)) && id !in Lost(c);
    } else {
      forall id | id in Lost(Next(c, e))
        ensures id in Lost(c)
      {
      }
    }
  }

  /** A point that is known to neither side lifts. */
  predicate LostLifts(c: Chain, e: Event) {
    e.Device? && e.e.TouchEnd? && e.e.id in Lost(c)
  }

  /** The bus sees a matched touch stream exactly as long as no lost point lifts. */
  lemma BusSeesMatched(c: Chain, e: Event)
    requires Apart(c) && Real(c, e) && Heard(c, e).Some?
    ensures G.Matched(c.bus, Heard(c, e).value) <==> !LostLifts(c, e)
  {
    hide R.SurfaceAt, R.Removed;
  }

  /** What is heard of a point: its down when it is new, its up when it is the bus's or lost. */
  lemma HeardOfPoints(c: Chain, e: Event)
    requires Apart(c) && Real(c, e)
    ensures LostLifts(c, e) ==> Heard(c, e) == Some(G.PointUp(e.e.id)) && e.e.id !in c.bus.down
    ensures Heard(c, e).Some? && Heard(c, e).value.PointDown? ==> Heard(c, e).value.id !in c.bus.down
    ensures Heard(c, e).Some? && Heard(c, e).value.PointUp? && !LostLifts(c, e) ==> Heard(c, e).value.id in c.bus.down
  {
    hide R.SurfaceAt, R.Removed;
  }

  /** The machine's count of the points of the bus goes wrong exactly when a lost point lifts while the
      bus has points down. */
  lemma NextKeepsCounted(c: Chain, e: Event)
    requires Apart(c) && Real(c, e) && G.Counted(c.bus)
    ensures G.Counted(Next(c, e).bus) <==> !(LostLifts(c, e) && c.bus.down != {})
  {
    HeardOfPoints(c, e);
    if Heard(c, e).Some? {
      G.FeedKeepsCounted(c.bus, Heard(c, e).value);
    }
    hide Heard, G.Feed;
  }

  /** A run of a real device, surfaces dying at will, in which no lost point lifts while the bus has
      points down. */
  predicate CountedRun(c: Chain, events: seq<Event>)
    decreases |events|
  {
    || events == []
    || (&& Real(c, events[0]) && !(LostLifts(c, events[0]) && c.bus.down != {})
        && CountedRun(Next(c, events[0]), events[1..]))
  }

  /** In such a run the machine counts the points of the bus. */
  lemma {:induction false} BusTouchesAreCounted(c: Chain, events: seq<Event>)
    requires Apart(c) && G.Counted(c.bus) && CountedRun(c, events)
    ensures Apart(After(c, events)) && G.Counted(After(c, events).bus)
    decreases |events|
  {
    if events == [] {
    } else {
      NextKeepsApart(c, events[0]);
      NextKeepsCounted(c, events[0]);
      hide Next;
      BusTouchesAreCounted(Next(c, events[0]), events[1..]);
    }
  }

  /** A run of a real device in which no capturing surface is destroyed. */
  predicate CalmRun(c: Chain, events: seq<Event>)
    decreases |events|
  {
    events == [] || (Real(c, events[0]) && !Orphans(c, events[0]) && CalmRun(Next(c, events[0]), events[1..]))
  }

  lemma NoneLost(c: Chain)
    requires Apart(c) && Lost(c) == {}
    ensures c.points == c.ui.capture.Keys + c.bus.down
  {
    assert forall id :: id in c.points ==> id in Lost(c) || id in c.ui.capture.Keys || id in c.bus.down;
    forall id | id in c.ui.capture.Keys
      ensures id in c.points
    {
      assert id in c.ui.capture;
    }
  }

  /** As long as no capturing surface is destroyed, every point down belongs to one side, and the
      machine counts the points of the bus. */
  lemma {:induction false} EveryPointHasItsSide(c: Chain, events: seq<Event>)
    requires Apart(c) && Lost(c) == {} && CalmRun(c, events)
    ensures var c' := After(c, events);
      Apart(c') && c'.points == c'.ui.capture.Keys + c'.bus.down && CountedRun(c, events)
    decreases |events|
  {
    if events == [] {
      NoneLost(c);
    } else {
      NextKeepsApart(c, events[0]);
      LostByDestruction(c, events[0]);
      hide Next;
      EveryPointHasItsSide(Next(c, events[0]), events[1..]);
    }
  }

  /** A request comes when the latest point of the bus has lifted, and the machine counts an older one. */
  predicate StaleRequest(c: Chain, e: Event) {
    e.Client? && G.Stale(c.bus, G.Request(e.mode))
  }

  /** A run of a real device in which surfaces may die at any time, with no stale request. */
  predicate PromptRun(c: Chain, events: seq<Event>)
    decreases |events|
  {
    || events == []
    || (Real(c, events[0]) && !StaleRequest(c, events[0]) && PromptRun(Next(c, events[0]), events[1..]))
  }

  /** The origin of a touch drag stays down over a step exactly when the step is no stale request,
      whatever has been lost and miscounted. */
  lemma NextKeepsOriginHeld(c: Chain, e: Event)
    requires Apart(c) && Real(c, e) && G.NotOvercounted(c.bus) && G.OriginHeld(c.bus)
    ensures G.NotOvercounted(Next(c, e).bus)
    ensures G.OriginHeld(Next(c, e).bus) <==> !StaleRequest(c, e)
  {
    HeardOfPoints(c, e);
    assert StaleRequest(c, e) <==> Heard(c, e).Some? && G.Stale(c.bus, Heard(c, e).value);
    if Heard(c, e).Some? {
      G.FeedKeepsNotOvercounted(c.bus, Heard(c, e).value);
      G.FeedKeepsOriginHeld(c.bus, Heard(c, e).value);
    }
    hide Heard, G.Feed;
  }

  /** In every run of a real device, surfaces dying at will: with requests that come while the latest
      point is down, a window follows a touch point only while that point is physically down, and the
      bus's own. */
  lemma {:induction false} TouchDragIsHeld(c: Chain, events: seq<Event>, id: int)
    requires Apart(c) && G.NotOvercounted(c.bus) && G.OriginHeld(c.bus) && PromptRun(c, events)
    ensures var c' := After(c, events);
      G.OnTouchMotion(c'.bus.m, id) != G.Idle ==> id in c'.points && id in c'.bus.down && id !in c'.ui.capture
    decreases |events|
  {
    if events == [] {
    } else {
      var e := events[0];
      NextKeepsApart(c, e);
      NextKeepsOriginHeld(c, e);
      hide Next;
      TouchDragIsHeld(Next(c, e), events[1..], id);
    }
  }

  const START: Chain := Chain(R.EMPTY, G.Fed(G.FRESH, {}), {})

  const DYING: R.Surface := R.Surface(0, true, 0, 0, 10, 10)
  const ONE_POINT: G.Machine := G.FRESH.(count := 1, anyTouch := true, last := 1)
  const ON_A_WINDOW: Chain := Chain(R.EMPTY.(surfaces := [DYING], next := 1), G.Fed(ONE_POINT, {1}), {1})

  /** Point 1 is on a window, point 2 on a ui surface. */
  const TWO_POINTS: Chain := ON_A_WINDOW.(ui := ON_A_WINDOW.ui.(capture := map[2 := 0]), points := {1, 2})

  const AFTER_DEATH: Chain := TWO_POINTS.(ui := R.EMPTY.(next := 1))
  const MISCOUNTED: Chain := AFTER_DEATH.(bus := G.Fed(ONE_POINT.(count := 0), {1}), points := {1})

  lemma RunCons(c: Chain, e: Event, events: seq<Event>)
    ensures After(c, [e] + events) == After(Next(c, e), events)
    ensures PromptRun(c, [e] + events) <==> Real(c, e) && !StaleRequest(c, e) && PromptRun(Next(c, e), events)
  {
    assert ([e] + events)[1..] == events;
  }

  const CREATION: Event := Device(R.Create(true, 0, 0, 10, 10))
  const BESIDE: Event := Device(R.TouchDown(1, 50.0, 50.0))
  const INSIDE: Event := Device(R.TouchDown(2, 5.0, 5.0))
  const DEATH: Event := Device(R.Destroy(0))
  const LIFT: Event := Device(R.TouchEnd(2, false))

  lemma PointsGoDown()
    ensures Next(Next(START, CREATION), BESIDE) == ON_A_WINDOW && Next(ON_A_WINDOW, INSIDE) == TWO_POINTS
  {
    var created := START.(ui := R.EMPTY.(surfaces := [DYING], next := 1));
    assert [] + [DYING] == [DYING] && [DYING][..0] == [];
    assert R.SurfaceAt([DYING], 50.0, 50.0) == None && R.SurfaceAt([DYING], 5.0, 5.0) == Some(0);
    assert Next(START, CREATION) == created;
    assert Next(created, BESIDE) == ON_A_WINDOW;
  }

  lemma SurfaceDies()
    ensures Next(TWO_POINTS, DEATH) == AFTER_DEATH
  {
    assert [DYING][1..] == [];
    assert R.Removed([], 0) == [] && R.Removed([DYING], 0) == [];
    var ui := R.Destroyed(TWO_POINTS.ui, 0);
    assert ui.capture == map[] && ui.reloads == [] && ui.surfaces == [];
  }

  lemma LostPointLifts()
    ensures Next(AFTER_DEATH, LIFT) == MISCOUNTED
    ensures Real(START, CREATION) && Real(Next(START, CREATION), BESIDE) && Real(ON_A_WINDOW, INSIDE)
    ensures Real(TWO_POINTS, DEATH) && Real(AFTER_DEATH, LIFT)
  {
    assert {1, 2} - {2} == {1};
  }

  /** After a destruction the count goes wrong. From the start, point 1 goes down on a window, point 2
      on a surface that is then destroyed: when point 2 lifts, the bus gets its up and the machine
      counts no point, so a request made under point 1 is refused. */
  lemma LostPointMiscounts()
    ensures var events := [CREATION, BESIDE, INSIDE, DEATH, LIFT]; var c := After(START, events);
      && PromptRun(START, events)
      && c.bus.down == {1} && c.bus.m.count == 0 && G.Step(c.bus.m, G.Request(G.Moving)).1 == G.Refused
  {
    assert G.Step(MISCOUNTED.bus.m, G.Request(G.Moving)).1 == G.Refused;
    assert After(MISCOUNTED, []) == MISCOUNTED && PromptRun(MISCOUNTED, []);
    assert forall c: Chain, e: R.Event :: !StaleRequest(c, Device(e));
    PointsGoDown();
    SurfaceDies();
    LostPointLifts();
    hide *;
    RunCons(AFTER_DEATH, LIFT, []);
    RunCons(TWO_POINTS, DEATH, [LIFT]);
    RunCons(ON_A_WINDOW, INSIDE, [DEATH, LIFT]);
    RunCons(Next(START, CREATION), BESIDE, [INSIDE, DEATH, LIFT]);
    RunCons(START, CREATION, [BESIDE, INSIDE, DEATH, LIFT]);
  }
}
