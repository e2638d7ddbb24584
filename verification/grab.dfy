/** The interactive move or resize of a window: the grab machine (packages/ext-xdg-shell/src/policy.hpp)
    and the window it drags (grabbed_ in packages/ext-xdg-shell/src/extension.cpp). */
module GrabMachines {
  import opened Options

  datatype Mode = Idle | Moving | Resizing

  datatype Source = Pointer | Touch

  datatype Machine = Machine(mode: Mode, source: Source, pointerDown: bool, count: nat, anyTouch: bool,
                             last: int, origin: int)

  const FRESH: Machine := Machine(Idle, Pointer, false, 0, false, 0, 0)

  datatype Input =
    | Button(pressed: bool)
    | PointDown(id: int)
    | PointUp(id: int)
    | Request(mode: Mode)
    | TargetLost

  /** What the glue is told to do. */
  datatype Reaction = Nothing | Engaged | Refused | EndGrab

  function Step(m: Machine, i: Input): (Machine, Reaction) {
    match i
    case Button(pressed) =>
      var m1 := m.(pointerDown := pressed);
      if !pressed && m.mode != Idle && m.source == Pointer then (Stopped(m1), EndGrab) else (m1, Nothing)
    case PointDown(id) => (m.(count := m.count + 1, last := id, anyTouch := true), Nothing)
    case PointUp(id) =>
      var m1 := m.(count := if m.count > 0 then m.count - 1 else 0);
      if TouchDriven(m) && id == m.origin then (Stopped(m1), EndGrab) else (m1, Nothing)
    case Request(mode) =>
      if m.count > 0 && m.anyTouch then (m.(mode := mode, source := Touch, origin := m.last), Engaged)
      else if m.pointerDown then (m.(mode := mode, source := Pointer), Engaged)
      else (m, Refused)
    case TargetLost => (Stopped(m), Nothing)
  }

  function Stopped(m: Machine): Machine {
    m.(mode := Idle, source := Pointer)
  }

  predicate TouchDriven(m: Machine) {
    m.mode != Idle && m.source == Touch
  }

  predicate PointerDriven(m: Machine) {
    m.mode != Idle && m.source == Pointer
  }

  /** What a motion drags: on_motion and on_touch_motion. */
  function OnMotion(m: Machine): Mode {
    if m.source == Pointer then m.mode else Idle
  }

  function OnTouchMotion(m: Machine, id: int): Mode {
    if TouchDriven(m) && id == m.origin then m.mode else Idle
  }

  // ---- what the grab follows ----

  /** A pointer grab only lives while the button is down. */
  predicate ButtonHeld(m: Machine) {
    PointerDriven(m) ==> m.pointerDown
  }

  lemma StepKeepsButtonHeld(m: Machine, i: Input)
    requires ButtonHeld(m)
    ensures ButtonHeld(Step(m, i).0)
  {
  }

  /** Only its own source steers or ends a grab: not the pointer nor another point a touch grab, and
      no touch point a pointer grab. */
  lemma OthersLeaveTheGrab(m: Machine, i: Input)
    requires TouchDriven(m) || PointerDriven(m)
    requires TouchDriven(m) ==> i.Button? || i.PointDown? || (i.PointUp? && i.id != m.origin)
    requires PointerDriven(m) ==> i.PointDown? || i.PointUp? || (i.Button? && i.pressed)
    ensures var (m', r) := Step(m, i);
      && r == Nothing
      && m'.mode == m.mode && m'.source == m.source && m'.origin == m.origin
    ensures TouchDriven(m) ==> OnMotion(m) == Idle && forall id :: OnTouchMotion(m, id) != Idle ==> id == m.origin
    ensures PointerDriven(m) ==> forall id :: OnTouchMotion(m, id) == Idle
  {
  }

  // ---- the points that are down ----

  /** The machine fed by a stream whose points are `down`. */
  datatype Fed = Fed(m: Machine, down: set<int>)

  /** Ids are distinct while down, and only a point that is down goes up. */
  predicate Matched(f: Fed, i: Input) {
    && (i.PointDown? ==> i.id !in f.down)
    && (i.PointUp? ==> i.id in f.down)
  }

  function Feed(f: Fed, i: Input): Fed {
    Fed(Step(f.m, i).0, if i.PointDown? then f.down + {i.id} else if i.PointUp? then f.down - {i.id} else f.down)
  }

  /** The counter is the number of points down, and a touch id has been seen if any is. */
  predicate Counted(f: Fed) {
    f.m.count == |f.down| && (f.down != {} ==> f.m.anyTouch)
  }

  /** The counter is at most the points down: all that is left of Counted when ups can come that
      have no down. */
  predicate NotOvercounted(f: Fed) {
    f.m.count <= |f.down| && (f.m.count > 0 ==> f.m.anyTouch)
  }

  /** A touch grab's origin is down. */
  predicate OriginHeld(f: Fed) {
    TouchDriven(f.m) ==> f.m.origin in f.down
  }

  /** A request that the machine takes for a touch, when the latest point has lifted. */
  predicate Stale(f: Fed, i: Input) {
    i.Request? && i.mode != Idle && f.m.count > 0 && f.m.last !in f.down
  }

  lemma PointsAfter(down: set<int>, id: int)
    ensures id !in down ==> |down + {id}| == |down| + 1 && down - {id} == down
    ensures id in down ==> |down - {id}| == |down| - 1
  {
  }

  /** A step keeps the counter right exactly when no up comes without its down while points are down. */
  lemma FeedKeepsCounted(f: Fed, i: Input)
    requires Counted(f) && (i.PointDown? ==> i.id !in f.down)
    ensures Counted(Feed(f, i)) <==> !(i.PointUp? && i.id !in f.down && f.down != {})
  {
    CountAfter(f, i);
    hide Step;
  }

  /** The counter never exceeds the points down, whatever ups come. */
  lemma FeedKeepsNotOvercounted(f: Fed, i: Input)
    requires NotOvercounted(f) && (i.PointDown? ==> i.id !in f.down)
    ensures NotOvercounted(Feed(f, i))
  {
    CountAfter(f, i);
    hide Step;
  }

  lemma CountAfter(f: Fed, i: Input)
    requires i.PointDown? ==> i.id !in f.down
    ensures var f' := Feed(f, i);
      match i
      case PointDown(id) => f'.m.count == f.m.count + 1 && |f'.down| == |f.down| + 1 && f'.m.anyTouch
      case PointUp(id) =>
        && f'.m.count == (if f.m.count > 0 then f.m.count - 1 else 0) && f'.m.anyTouch == f.m.anyTouch
        && |f'.down| == |f.down| - (if id in f.down then 1 else 0)
      case _ => f'.m.count == f.m.count && f'.down == f.down && f'.m.anyTouch == f.m.anyTouch
  {
    match i {
      case PointDown(id) => PointsAfter(f.down, id);
      case PointUp(id) => PointsAfter(f.down, id);
      case _ =>
    }
  }

  /** The origin of a touch grab stays down over a step exactly when the step is not a stale request;
      ups that have no down do not matter. */
  lemma FeedKeepsOriginHeld(f: Fed, i: Input)
    requires NotOvercounted(f) && OriginHeld(f)
    ensures OriginHeld(Feed(f, i)) <==> !Stale(f, i)
  {
  }

  predicate MatchedRun(f: Fed, inputs: seq<Input>)
    decreases |inputs|
  {
    inputs == [] || (Matched(f, inputs[0]) && MatchedRun(Feed(f, inputs[0]), inputs[1..]))
  }

  predicate PromptRun(f: Fed, inputs: seq<Input>)
    decreases |inputs|
  {
    inputs == [] || (!Stale(f, inputs[0]) && PromptRun(Feed(f, inputs[0]), inputs[1..]))
  }

  function After(f: Fed, inputs: seq<Input>): Fed
    decreases |inputs|
  {
    if inputs == [] then f else After(Feed(f, inputs[0]), inputs[1..])
  }

  /** Over every run with matched touch ids a pointer grab implies the button is down and the counter
      is the points down; if moreover every request comes while the latest point is down, a touch
      grab lasts only while its origin is. */
  lemma {:induction false} GrabFollowsItsSource(f: Fed, inputs: seq<Input>)
    requires ButtonHeld(f.m) && Counted(f) && MatchedRun(f, inputs)
    ensures ButtonHeld(After(f, inputs).m) && Counted(After(f, inputs))
    ensures OriginHeld(f) && PromptRun(f, inputs) ==> OriginHeld(After(f, inputs))
    decreases |inputs|
  {
    if inputs == [] {
    } else {
      var i := inputs[0];
      StepKeepsButtonHeld(f.m, i);
      FeedKeepsCounted(f, i);
      assert NotOvercounted(f);
      if OriginHeld(f) {
        FeedKeepsOriginHeld(f, i);
      }
      hide Step;
      GrabFollowsItsSource(Feed(f, i), inputs[1..]);
    }
  }

  /** A stale request leaves a grab that no finger holds: point 1 down, point 2 down and up, then a
      request; when point 1 lifts too, the window is still grabbed with nothing down. */
  lemma StaleRequestStrandsTheGrab()
    ensures var f := After(Fed(FRESH, {}), [PointDown(1), PointDown(2), PointUp(2)]);
      && f.down == {1} && f.m.last == 2 && Stale(f, Request(Moving))
      && var g := Feed(Feed(f, Request(Moving)), PointUp(1));
         TouchDriven(g.m) && g.down == {} && g.m.count == 0
  {
  }

  // ---- what the seat is told ----

  /** process_pointer_button: the release that ends a grab is forwarded to the seat, other buttons
      are not while a grab is on. */
  predicate Forwards(m: Machine, pressed: bool) {
    Step(m, Button(pressed)).1 == EndGrab || m.mode == Idle
  }

  /** The button events of a run with whether each is forwarded. */
  function Forwarded(m: Machine, inputs: seq<Input>): seq<(bool, bool)>
    decreases |inputs|
  {
    if inputs == [] then []
    else
      (if inputs[0].Button? then [(inputs[0].pressed, Forwards(m, inputs[0].pressed))] else [])
      + Forwarded(Step(m, inputs[0]).0, inputs[1..])
  }

  /** One button, pressed and released in turn, and no touch. */
  predicate OneButton(m: Machine, inputs: seq<Input>)
    decreases |inputs|
  {
    || inputs == []
    || (&& (inputs[0].Button? ==> inputs[0].pressed == !m.pointerDown)
        && !inputs[0].PointDown? && !inputs[0].PointUp?
        && OneButton(Step(m, inputs[0]).0, inputs[1..]))
  }

  /** With one button and no touch the seat gets every press and every release, whatever windows ask
      for in between: its own implicit grab is always closed. */
  lemma {:induction false} OneButtonIsForwarded(m: Machine, inputs: seq<Input>)
    requires ButtonHeld(m) && m.count == 0 && !TouchDriven(m) && OneButton(m, inputs)
    ensures forall f :: f in Forwarded(m, inputs) ==> f.1
    decreases |inputs|
  {
    if inputs == [] {
    } else {
      StepKeepsButtonHeld(m, inputs[0]);
      OneButtonIsForwarded(Step(m, inputs[0]).0, inputs[1..]);
    }
  }

  /** Presses minus releases. */
  function Level(events: seq<(bool, bool)>, forwarded: bool): int
    decreases |events|
  {
    if events == [] then 0
    else
      (if forwarded && !events[0].1 then 0 else if events[0].0 then 1 else -1) + Level(events[1..], forwarded)
  }

  /** Buttons pressed while a grab is on. */
  function PressedInGrab(m: Machine, inputs: seq<Input>): nat
    decreases |inputs|
  {
    if inputs == [] then 0
    else
      (if inputs[0].Button? && inputs[0].pressed && m.mode != Idle then 1 else 0)
      + PressedInGrab(Step(m, inputs[0]).0, inputs[1..])
  }

  /** Buttons released while a touch point holds a grab. */
  function ReleasedInTouchGrab(m: Machine, inputs: seq<Input>): nat
    decreases |inputs|
  {
    if inputs == [] then 0
    else
      (if inputs[0].Button? && !inputs[0].pressed && TouchDriven(m) then 1 else 0)
      + ReleasedInTouchGrab(Step(m, inputs[0]).0, inputs[1..])
  }

  /** At the end of every run the seat takes as many buttons for down as are, less those pressed in a
      grab, plus those released in a touch grab; so with no button down it is balanced exactly if
      those two are equally many. */
  lemma {:induction false} SeatLevel(m: Machine, inputs: seq<Input>)
    ensures var events := Forwarded(m, inputs);
      && Level(events, true) == Level(events, false) - PressedInGrab(m, inputs) + ReleasedInTouchGrab(m, inputs)
      && (Level(events, false) == 0 ==>
            (Level(events, true) == 0 <==> PressedInGrab(m, inputs) == ReleasedInTouchGrab(m, inputs)))
    decreases |inputs|
  {
    if inputs == [] {
    } else {
      var next := Step(m, inputs[0]).0;
      var rest := Forwarded(next, inputs[1..]);
      SeatLevel(next, inputs[1..]);
      if inputs[0].Button? {
        var first := (inputs[0].pressed, Forwards(m, inputs[0].pressed));
        assert Forwarded(m, inputs) == [first] + rest && ([first] + rest)[1..] == rest;
      } else {
        assert Forwarded(m, inputs) == rest;
      }
    }
  }

  /** Two ways it fails. A touch grab that engages while a button is down swallows the release of a
      press that the seat has had; and of two buttons the one pressed during a grab is only released. */
  lemma SomeButtonsAreNotForwarded()
    ensures Forwarded(FRESH, [Button(true), PointDown(1), Request(Moving), Button(false)])
      == [(true, true), (false, false)]
    ensures Forwarded(FRESH, [Button(true), Request(Moving), Button(true), Button(false), Button(false)])
      == [(true, true), (true, false), (false, true), (false, true)]
  {
  }

  // ---- the grabbed window ----

  /** The shell: which toplevels exist and are mapped, the machine, and the toplevel it drags. */
  datatype Shell = Shell(toplevels: map<nat, bool>, m: Machine, grabbed: Option<nat>)

  datatype Event =
    | Input(i: Input)
    | Requested(t: nat, mode: Mode)
    | New(t: nat)
    | Map(t: nat)
    | Unmap(t: nat)
    | Destroy(t: nat)

  /** Requests name an existing toplevel; one that is destroyed has been unmapped. */
  predicate Can(s: Shell, e: Event) {
    match e
    case Input(i) => i.Button? || i.PointDown? || i.PointUp?
    case Requested(t, mode) => t in s.toplevels && mode != Idle
    case New(t) => t !in s.toplevels
    case Map(t) => t in s.toplevels && !s.toplevels[t]
    case Unmap(t) => t in s.toplevels && s.toplevels[t]
    case Destroy(t) => t in s.toplevels && !s.toplevels[t]
  }

  function Handle(s: Shell, e: Event): Shell
    requires Can(s, e)
  {
    match e
    case Input(i) =>
      var (m, r) := Step(s.m, i);
      s.(m := m, grabbed := if r == EndGrab then None else s.grabbed)
    case Requested(t, mode) =>
      var (m, r) := Step(s.m, Request(mode));
      s.(m := m, grabbed := if r == Engaged then Some(t) else s.grabbed)
    case New(t) => s.(toplevels := s.toplevels[t := false])
    case Map(t) => s.(toplevels := s.toplevels[t := true])
    case Unmap(t) =>
      var s1 := s.(toplevels := s.toplevels[t := false]);
      if s.grabbed == Some(t) then s1.(m := Step(s.m, TargetLost).0, grabbed := None) else s1
    case Destroy(t) => s.(toplevels := s.toplevels - {t})
  }

  /** A grab has a window and a window is grabbed by a grab: a motion that drags has something to drag. */
  predicate Paired(s: Shell) {
    s.m.mode != Idle <==> s.grabbed.Some?
  }

  /** The grabbed window is mapped. */
  predicate HoldsMapped(s: Shell) {
    s.grabbed.Some? ==> s.grabbed.value in s.toplevels && s.toplevels[s.grabbed.value]
  }

  lemma HandleKeepsPaired(s: Shell, e: Event)
    requires Paired(s) && Can(s, e)
    ensures Paired(Handle(s, e))
  {
  }

  /** The grabbed window stays a mapped one exactly when no request comes for a window that is not mapped
      while some input is down: the unmap handler is what lets go of it. */
  lemma HandleKeepsMapped(s: Shell, e: Event)
    requires Paired(s) && HoldsMapped(s) && Can(s, e)
    ensures HoldsMapped(Handle(s, e))
      <==> !(e.Requested? && !s.toplevels[e.t] && (s.m.pointerDown || (s.m.count > 0 && s.m.anyTouch)))
  {
  }

  predicate Possible(s: Shell, events: seq<Event>)
    decreases |events|
  {
    events == [] || (Can(s, events[0]) && Possible(Handle(s, events[0]), events[1..]))
  }

  function Played(s: Shell, events: seq<Event>): Shell
    requires Possible(s, events)
    decreases |events|
  {
    if events == [] then s else Played(Handle(s, events[0]), events[1..])
  }

  /** Requests come from mapped windows. */
  predicate MappedRequests(s: Shell, events: seq<Event>)
    requires Possible(s, events)
    decreases |events|
  {
    || events == []
    || ((events[0].Requested? ==> s.toplevels[events[0].t]) && MappedRequests(Handle(s, events[0]), events[1..]))
  }

  /** Over every run the machine grabs exactly while a window is recorded, and that window is alive as
      long as windows ask for a grab while they are mapped. */
  lemma {:induction false} GrabHasItsWindow(s: Shell, events: seq<Event>)
    requires Paired(s) && Possible(s, events)
    ensures Paired(Played(s, events))
    ensures HoldsMapped(s) && MappedRequests(s, events) ==> HoldsMapped(Played(s, events))
    decreases |events|
  {
    if events == [] {
    } else {
      HandleKeepsPaired(s, events[0]);
      if HoldsMapped(s) {
        HandleKeepsMapped(s, events[0]);
      }
      GrabHasItsWindow(Handle(s, events[0]), events[1..]);
    }
  }
}
