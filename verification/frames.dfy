/** The per-frame driver and the output protocol that keeps it going
    (packages/kernel/src/frame_driver.cpp, server.cpp, server_impl.hpp). */
module Frames {
  import opened Options
  import opened Sequences
  import opened Turns

  /** The state between two steps. `pending` is the set of outputs a frame is scheduled on;
      `base` is last_frame_time, negative when there is no dt base. */
  datatype Sched = Sched(outputs: seq<nat>, driver: Option<nat>, live: map<nat, nat>, next: nat,
                         pending: set<nat>, base: real)

  datatype Event =
    | NewOutput(o: nat, acts: seq<Action<nat>>)
    | FrameOn(o: nat, time: real, order: seq<nat>, bodies: seq<seq<Action<nat>>>)
    | DestroyOutput(o: nat, acts: seq<Action<nat>>)
    | Other(acts: seq<Action<nat>>)

  /** `schedule_driver_frame`. */
  function ScheduleDriver(s: Sched): Sched {
    var driver := if s.driver.None? && s.outputs != [] then Some(s.outputs[0]) else s.driver;
    s.(driver := driver, pending := if driver.Some? then s.pending + {driver.value} else s.pending)
  }

  function Act(s: Sched, a: Action<nat>): Sched {
    match a
    case Add(who) => ScheduleDriver(s.(live := s.live[s.next + 1 := who], next := s.next + 1))
    case Drop(token) => s.(live := s.live - {token})
  }

  /** The frame requests as a registry of turns. */
  const REQUESTS: Registry<Sched, nat> := Registry((s: Sched) => s.live.Keys, (s: Sched, a: Action<nat>) => Act(s, a))

  function ActAll(s: Sched, acts: seq<Action<nat>>): Sched {
    Do(REQUESTS, s, acts)
  }

  /** `drain`: look each token of the snapshot up again, call it if it is still there. */
  function Drain(s: Sched, order: seq<nat>, bodies: seq<seq<Action<nat>>>): (Sched, seq<nat>)
    requires |order| <= |bodies|
  {
    Serve(REQUESTS, s, order, bodies)
  }

  ghost predicate Can(s: Sched, e: Event) {
    match e
    case NewOutput(o, _) => o !in s.outputs
    case FrameOn(o, time, order, bodies) =>
      o in s.outputs && time >= 0.0 && Enumerates(order, s.live.Keys) && |order| <= |bodies|
    case DestroyOutput(o, _) => o in s.outputs
    case Other(_) => true
  }

  function RemoveOutput(outputs: seq<nat>, o: nat): (r: seq<nat>)
    ensures forall x :: x in r <==> x in outputs && x != o
    ensures Distinct(outputs) ==> Distinct(r)
  {
    if outputs == [] then []
    else if outputs[0] == o then RemoveOutput(outputs[1..], o)
    else
      var rest := RemoveOutput(outputs[1..], o);
      DistinctCons(outputs, rest);
      [outputs[0]] + rest
  }

  /** The output's frame handler; second component: the callbacks called, third: their dt. */
  function Frame(s: Sched, o: nat, time: real, order: seq<nat>, bodies: seq<seq<Action<nat>>>): (Sched, seq<nat>, real)
    requires |order| <= |bodies|
  {
    var s1 := s.(pending := s.pending - {o}, driver := if s.driver.None? then Some(o) else s.driver);
    if s1.driver == Some(o) && s1.live != map[] then
      var dt := if s1.base < 0.0 then 0.0 else time - s1.base;
      var (s2, fired) := Drain(s1.(base := time), order, bodies);
      (if s2.live != map[] then
         (if s2.driver.Some? then s2.(pending := s2.pending + {s2.driver.value}) else s2)
       else s2.(base := -1.0),
       fired, dt)
    else (s1, [], 0.0)
  }

  /** The output's destroy handler, after on_output_removed was emitted. */
  function Destroy(s: Sched, o: nat): Sched {
    var survivors := RemoveOutput(s.outputs, o);
    var s1 :=
      if s.driver != Some(o) then s
      else
        var driver := if survivors == [] then None else Some(survivors[0]);
        s.(driver := driver, base := -1.0,
           pending := if driver.Some? && s.live != map[] then s.pending + {driver.value} else s.pending);
    s1.(outputs := survivors, pending := s1.pending - {o})
  }

  function Step(s: Sched, e: Event): Sched
    requires Can(s, e)
  {
    match e
    case NewOutput(o, acts) => ActAll(s.(outputs := s.outputs + [o]), acts)
    case FrameOn(o, time, order, bodies) => Frame(s, o, time, order, bodies).0
    case DestroyOutput(o, acts) => Destroy(ActAll(s, acts), o)
    case Other(acts) => ActAll(s, acts)
  }

  /** A sequence of events that can happen, one after the other. */
  ghost predicate Possible(s: Sched, events: seq<Event>)
    decreases |events|
  {
    events == [] || (Can(s, events[0]) && Possible(Step(s, events[0]), events[1..]))
  }

  function After(s: Sched, events: seq<Event>): Sched
    requires Possible(s, events)
    decreases |events|
  {
    if events == [] then s else After(Step(s, events[0]), events[1..])
  }

  const START: Sched := Sched([], None, map[], 0, {}, -1.0)

  // ---- no stall ----

  /** The driver is no dead output, and if anyone wants frames, the driver's next one is coming. */
  predicate NoStall(s: Sched) {
    && (s.driver.Some? ==> s.driver.value in s.outputs)
    && (s.driver.Some? && s.live != map[] ==> s.driver.value in s.pending)
  }

  /** The rest of what every reachable state satisfies. */
  predicate Tidy(s: Sched) {
    && Distinct(s.outputs)
    && (forall o :: o in s.pending ==> o in s.outputs)
    && (forall t :: t in s.live ==> 0 < t <= s.next)
  }

  lemma {:induction false} ActAllKeeps(s: Sched, acts: seq<Action<nat>>)
    requires NoStall(s) && Tidy(s)
    ensures var s' := ActAll(s, acts);
      NoStall(s') && Tidy(s') && s'.outputs == s.outputs && s'.base == s.base && s.next <= s'.next
    decreases |acts|
  {
    if acts == [] {
    } else {
      ActAllKeeps(Act(s, acts[0]), acts[1..]);
    }
  }

  /** While a drain runs, the driver's frame is being delivered, so NoStall is suspended; the
      driver itself does not move. */
  lemma {:induction false} ActAllHolds(s: Sched, acts: seq<Action<nat>>)
    requires Tidy(s) && s.driver.Some? && s.driver.value in s.outputs
    ensures var s' := ActAll(s, acts);
      Tidy(s') && s'.driver == s.driver && s'.outputs == s.outputs && s'.base == s.base && s.next <= s'.next
    decreases |acts|
  {
    if acts == [] {
    } else {
      ActAllHolds(Act(s, acts[0]), acts[1..]);
    }
  }

  lemma {:induction false} DrainHolds(s: Sched, order: seq<nat>, bodies: seq<seq<Action<nat>>>)
    requires |order| <= |bodies| && Tidy(s) && s.driver.Some? && s.driver.value in s.outputs
    ensures var s' := Drain(s, order, bodies).0;
      Tidy(s') && s'.driver == s.driver && s'.outputs == s.outputs && s'.base == s.base && s.next <= s'.next
    decreases |order|
  {
    if order == [] {
    } else {
      if order[0] in s.live {
        ActAllHolds(s, bodies[0]);
        DrainHolds(ActAll(s, bodies[0]), order[1..], bodies[1..]);
      } else {
        DrainHolds(s, order[1..], bodies[1..]);
      }
    }
  }

  lemma FrameKeeps(s: Sched, o: nat, time: real, order: seq<nat>, bodies: seq<seq<Action<nat>>>)
    requires NoStall(s) && Tidy(s) && o in s.outputs && |order| <= |bodies|
    ensures NoStall(Frame(s, o, time, order, bodies).0) && Tidy(Frame(s, o, time, order, bodies).0)
  {
    var s1 := s.(pending := s.pending - {o}, driver := if s.driver.None? then Some(o) else s.driver);
    if s1.driver == Some(o) && s1.live != map[] {
      DrainHolds(s1.(base := time), order, bodies);
    }
  }

  lemma StepKeeps(s: Sched, e: Event)
    requires NoStall(s) && Tidy(s) && Can(s, e)
    ensures NoStall(Step(s, e)) && Tidy(Step(s, e))
  {
    match e
    case NewOutput(o, acts) => ActAllKeeps(s.(outputs := s.outputs + [o]), acts);
    case FrameOn(o, time, order, bodies) => FrameKeeps(s, o, time, order, bodies);
    case DestroyOutput(o, acts) => ActAllKeeps(s, acts);
    case Other(acts) => ActAllKeeps(s, acts);
  }

  /** NO STALL, over every run: outputs come and go, requests are made and dropped anywhere. */
  lemma {:induction false} NeverStalls(s: Sched, events: seq<Event>)
    requires NoStall(s) && Tidy(s) && Possible(s, events)
    ensures NoStall(After(s, events)) && Tidy(After(s, events))
    decreases |events|
  {
    if events == [] {
    } else {
      StepKeeps(s, events[0]);
      NeverStalls(Step(s, events[0]), events[1..]);
    }
  }

  // ---- the driver that is not set ----

  /** Someone wants frames and there is an output, but no driver: nothing is scheduled. */
  predicate Unscheduled(s: Sched) {
    s.live != map[] && s.outputs != [] && s.driver.None?
  }

  predicate Adds(acts: seq<Action<nat>>) {
    exists k :: 0 <= k < |acts| && acts[k].Add?
  }

  lemma AddsCons(acts: seq<Action<nat>>)
    requires acts != []
    ensures Adds(acts) <==> acts[0].Add? || Adds(acts[1..])
  {
    if Adds(acts[1..]) {
      var k :| 0 <= k < |acts| - 1 && acts[1..][k].Add?;
      assert acts[k + 1].Add?;
    }
    if Adds(acts) && !acts[0].Add? {
      var k :| 0 <= k < |acts| && acts[k].Add?;
      assert acts[1..][k - 1].Add?;
    }
  }

  /** The driver after some callback code: kept if set, else the first output once a request is made. */
  lemma {:induction false} ActAllDriver(s: Sched, acts: seq<Action<nat>>)
    ensures var s' := ActAll(s, acts);
      && s'.outputs == s.outputs
      && s'.driver == if s.driver.None? && s.outputs != [] && Adds(acts) then Some(s.outputs[0]) else s.driver
    decreases |acts|
  {
    if acts == [] {
    } else {
      AddsCons(acts);
      ActAllDriver(Act(s, acts[0]), acts[1..]);
    }
  }

  /** There is one way into that state: an output comes while requests are waiting and there is no
      driver, and its event's callbacks make no request and leave one of the waiting ones. */
  lemma UnscheduledExactly(s: Sched, e: Event)
    requires NoStall(s) && Tidy(s) && Can(s, e) && !Unscheduled(s)
    ensures Unscheduled(Step(s, e)) <==>
      e.NewOutput? && s.driver.None? && !Adds(e.acts) && exists t :: t in s.live && Drop(t) !in e.acts
  {
    match e {
      case NewOutput(o, acts) =>
        var s1 := s.(outputs := s.outputs + [o]);
        ActAllDriver(s1, acts);
        if !Adds(acts) {
          SomeLeft(s1, acts);
        }
      case FrameOn(o, time, order, bodies) =>
        var s1 := s.(pending := s.pending - {o}, driver := if s.driver.None? then Some(o) else s.driver);
        if s1.driver == Some(o) && s1.live != map[] {
          DrainHolds(s1.(base := time), order, bodies);
        }
      case DestroyOutput(o, acts) =>
        ActAllDriver(s, acts);
        ActAllKeeps(s, acts);
        NoneAppear(s, acts);
      case Other(acts) =>
        ActAllDriver(s, acts);
        NoneAppear(s, acts);
    }
  }

  lemma {:induction false} NoneAppear(s: Sched, acts: seq<Action<nat>>)
    ensures !Adds(acts) && s.live == map[] ==> ActAll(s, acts).live == map[]
    decreases |acts|
  {
    if acts == [] {
    } else {
      AddsCons(acts);
      NoneAppear(Act(s, acts[0]), acts[1..]);
    }
  }

  /** Without additions what is left are the requests that are not dropped. */
  lemma SomeLeft(s: Sched, acts: seq<Action<nat>>)
    requires Tidy(s) && !Adds(acts)
    ensures ActAll(s, acts).live != map[] <==> exists t :: t in s.live && Drop(t) !in acts
  {
    EmptiedExactly(s, acts);
  }

  // ---- the dt base that is not reset ----

  function AddsIn(acts: seq<Action<nat>>): nat
    decreases |acts|
  {
    if acts == [] then 0 else (if acts[0].Add? then 1 else 0) + AddsIn(acts[1..])
  }

  /** The token that the addition at place i of some callback code is given. */
  function TokenAt(issued: nat, acts: seq<Action<nat>>, i: nat): nat
    requires i < |acts|
  {
    issued + 1 + AddsIn(acts[..i])
  }

  /** Every request that is live is dropped, and every one that is made is dropped after it is made. */
  predicate Emptied(live: set<nat>, issued: nat, acts: seq<Action<nat>>) {
    (forall t :: t in live ==> Drop(t) in acts) && DroppedLater(issued, acts)
  }

  predicate DroppedLater(issued: nat, acts: seq<Action<nat>>) {
    forall i {:trigger TokenAt(issued, acts, i)} :: 0 <= i < |acts| && acts[i].Add? ==>
      Drop(TokenAt(issued, acts, i)) in acts[i + 1..]
  }

  lemma {:induction false} EmptiedExactly(s: Sched, acts: seq<Action<nat>>)
    requires forall t :: t in s.live ==> t <= s.next
    ensures ActAll(s, acts).live == map[] <==> Emptied(s.live.Keys, s.next, acts)
    decreases |acts|
  {
    if acts == [] {
      assert s.live == map[] <==> forall t :: t !in s.live;
    } else {
      var s1 := Act(s, acts[0]);
      EmptiedExactly(s1, acts[1..]);
      EmptiedCons(s.live.Keys, s.next, acts);
      assert acts[0].Add? ==> s1.live.Keys == s.live.Keys + {s.next + 1};
      assert acts[0].Drop? ==> s1.live.Keys == s.live.Keys - {acts[0].token};
    }
  }

  lemma EmptiedCons(live: set<nat>, issued: nat, acts: seq<Action<nat>>)
    requires acts != []
    ensures Emptied(live, issued, acts) <==>
      match acts[0]
      case Add(_) => Emptied(live + {issued + 1}, issued + 1, acts[1..])
      case Drop(token) => Emptied(live - {token}, issued, acts[1..])
  {
    var rest := acts[1..];
    var issued1 := issued + if acts[0].Add? then 1 else 0;
    assert forall t :: Drop(t) in acts <==> acts[0] == Drop(t) || Drop(t) in rest;
    assert TokenAt(issued, acts, 0) == issued + 1;
    TokensCons(issued, acts);
    assert DroppedLater(issued, acts) <==> DroppedLater(issued1, rest) && (acts[0].Add? ==> Drop(issued + 1) in rest);
    hide DroppedLater;
  }

  lemma TokensCons(issued: nat, acts: seq<Action<nat>>)
    requires acts != []
    ensures var rest, issued1 := acts[1..], issued + if acts[0].Add? then 1 else 0;
      DroppedLater(issued, acts) <==>
        DroppedLater(issued1, rest) && (acts[0].Add? ==> Drop(TokenAt(issued, acts, 0)) in rest)
  {
    var rest, issued1 := acts[1..], issued + if acts[0].Add? then 1 else 0;
    forall i | 0 <= i < |rest|
      ensures TokenAt(issued, acts, i + 1) == TokenAt(issued1, rest, i) && acts[i + 2..] == rest[i + 1..]
    {
      assert acts[..i + 1][1..] == rest[..i];
    }
    hide TokenAt;
    if DroppedLater(issued, acts) {
      forall i | 0 <= i < |rest| && rest[i].Add?
        ensures Drop(TokenAt(issued1, rest, i)) in rest[i + 1..]
      {
        assert acts[i + 1].Add? && Drop(TokenAt(issued, acts, i + 1)) in acts[i + 2..];
      }
    } else {
      var i :| 0 <= i < |acts| && acts[i].Add? && Drop(TokenAt(issued, acts, i)) !in acts[i + 1..];
      if i > 0 {
        assert rest[i - 1].Add? && Drop(TokenAt(issued1, rest, i - 1)) !in rest[i..];
      }
    }
  }

  /** No request is left but the base of the last animation is: the next dt would span the gap. */
  predicate StaleBase(s: Sched) {
    s.live == map[] && s.base >= 0.0
  }

  /** The base goes stale exactly when callback code outside a frame drops every request there is and
      every one it makes, unless the driver's output, or the one it becomes, is being destroyed. */
  lemma StaleBaseExactly(s: Sched, e: Event)
    requires NoStall(s) && Tidy(s) && Can(s, e) && !StaleBase(s)
    ensures StaleBase(Step(s, e)) <==>
      && s.base >= 0.0 && !e.FrameOn? && Emptied(s.live.Keys, s.next, e.acts)
      && !(e.DestroyOutput? && (s.driver == Some(e.o) || (s.driver.None? && Adds(e.acts) && s.outputs[0] == e.o)))
  {
    match e {
      case NewOutput(o, acts) =>
        ActAllKeeps(s.(outputs := s.outputs + [o]), acts);
        EmptiedExactly(s.(outputs := s.outputs + [o]), acts);
      case FrameOn(o, time, order, bodies) =>
        var s1 := s.(pending := s.pending - {o}, driver := if s.driver.None? then Some(o) else s.driver);
        if s1.driver == Some(o) && s1.live != map[] {
          DrainHolds(s1.(base := time), order, bodies);
        }
      case DestroyOutput(o, acts) =>
        ActAllKeeps(s, acts);
        ActAllDriver(s, acts);
        EmptiedExactly(s, acts);
      case Other(acts) =>
        ActAllKeeps(s, acts);
        EmptiedExactly(s, acts);
    }
  }

  // ---- who drives ----

  lemma {:induction false} RemovedAt(outputs: seq<nat>, i: nat)
    requires Distinct(outputs) && i < |outputs|
    ensures RemoveOutput(outputs, outputs[i]) == outputs[..i] + outputs[i + 1..]
  {
    if i == 0 {
      assert outputs[0] !in outputs[1..];
      RemovedNowhere(outputs[1..], outputs[0]);
    } else {
      assert outputs[1..][i - 1] == outputs[i] && outputs[0] != outputs[i];
      RemovedAt(outputs[1..], i - 1);
      assert outputs[..i] == [outputs[0]] + outputs[1..][..i - 1] && outputs[1..][i - 1 + 1..] == outputs[i + 1..];
    }
  }

  lemma {:induction false} RemovedNowhere(outputs: seq<nat>, o: nat)
    requires o !in outputs
    ensures RemoveOutput(outputs, o) == outputs
  {
    if outputs == [] {
    } else {
      RemovedNowhere(outputs[1..], o);
    }
  }

  /** Outputs are listed in the order in which they came, so the first is the oldest that is left. */
  lemma OutputsStayInOrder(s: Sched, e: Event)
    requires NoStall(s) && Tidy(s) && Can(s, e)
    ensures var outputs := Step(s, e).outputs;
      if e.NewOutput? then outputs == s.outputs + [e.o]
      else if e.DestroyOutput? then
        exists i :: 0 <= i < |s.outputs| && s.outputs[i] == e.o && outputs == s.outputs[..i] + s.outputs[i + 1..]
      else outputs == s.outputs
  {
    match e
    case NewOutput(o, acts) => ActAllKeeps(s.(outputs := s.outputs + [o]), acts);
    case FrameOn(o, time, order, bodies) =>
      var s1 := s.(pending := s.pending - {o}, driver := if s.driver.None? then Some(o) else s.driver, base := time);
      if s1.driver == Some(o) {
        DrainHolds(s1, order, bodies);
      }
    case DestroyOutput(o, acts) =>
      var i :| 0 <= i < |s.outputs| && s.outputs[i] == o;
      FirstSurvivorDrives(s, i, acts);
    case Other(acts) => ActAllKeeps(s, acts);
  }

  /** When the driver is destroyed the first of the other outputs drives, with a frame coming if any
      request is alive and the dt base reset; when another output is, the driver and the base stay. */
  lemma FirstSurvivorDrives(s: Sched, i: nat, acts: seq<Action<nat>>)
    requires NoStall(s) && Tidy(s) && i < |s.outputs|
    ensures var s1, s' := ActAll(s, acts), Step(s, DestroyOutput(s.outputs[i], acts));
      && s'.outputs == s.outputs[..i] + s.outputs[i + 1..] && s'.live == s1.live
      && (s1.driver == Some(s.outputs[i]) ==>
            && s'.driver == (if |s.outputs| == 1 then None else Some(s.outputs[if i == 0 then 1 else 0]))
            && (s'.driver.Some? && s'.live != map[] ==> s'.driver.value in s'.pending)
            && s'.base == -1.0)
      && (s1.driver != Some(s.outputs[i]) ==> s'.driver == s1.driver && s'.base == s.base)
  {
    ActAllKeeps(s, acts);
    RemovedAt(s.outputs, i);
  }

  // ---- one drain ----

  lemma RequestsNeverReuse()
    ensures NeverReuses(REQUESTS, (s: Sched) => s.next)
  {
  }

  /** ONE DRAIN calls each request that was live when it began exactly once, unless a callback that
      ran before its turn dropped it; it calls nothing else, so no request made while it runs. */
  lemma DrainCallsSnapshotOnce(s: Sched, order: seq<nat>, bodies: seq<seq<Action<nat>>>)
    requires Tidy(s) && Enumerates(order, s.live.Keys) && |order| <= |bodies|
    ensures var fired := Drain(s, order, bodies).1;
      && Distinct(fired)
      && (forall t :: t in fired ==> t in s.live)
      && (forall k :: 0 <= k < |order| ==> (order[k] in fired <==> !DroppedBefore(order, bodies, fired, k)))
  {
    RequestsNeverReuse();
    ServesSnapshotOnce(REQUESTS, (s: Sched) => s.next, s, order, bodies);
  }

  /** The two together: a live request is called on the frame that is coming, unless a callback
      before it drops it, and after that frame the next one is coming. */
  lemma NextFrameServes(s: Sched, t: nat, time: real, order: seq<nat>, bodies: seq<seq<Action<nat>>>, k: nat)
    requires NoStall(s) && Tidy(s) && s.driver.Some? && t in s.live
    requires Can(s, FrameOn(s.driver.value, time, order, bodies)) && k < |order| && order[k] == t
    ensures s.driver.value in s.pending
    ensures var (s', fired, dt) := Frame(s, s.driver.value, time, order, bodies);
      && (t in fired <==> !DroppedBefore(order, bodies, fired, k))
      && (s'.live != map[] ==> s'.driver == s.driver && s.driver.value in s'.pending)
      && (s'.base < 0.0 <==> s'.live == map[])
  {
    var s1 := s.(pending := s.pending - {s.driver.value}, base := time);
    DrainCallsSnapshotOnce(s1, order, bodies);
    DrainHolds(s1, order, bodies);
  }

  /** A frame of an output that is not the driver calls nothing and leaves the dt base alone. */
  lemma OtherOutputsAreQuiet(s: Sched, o: nat, time: real, order: seq<nat>, bodies: seq<seq<Action<nat>>>)
    requires |order| <= |bodies| && s.driver.Some? && s.driver != Some(o)
    ensures var (s', fired, dt) := Frame(s, o, time, order, bodies);
      fired == [] && s' == s.(pending := s.pending - {o})
  {
  }

  /** Requests are called in frames of the driver, or of the output that becomes it when there is none;
      their dt is 0 without a base, else the time since it, and the frame is the new base unless no
      request is left. */
  lemma OnlyTheDriverServes(s: Sched, o: nat, time: real, order: seq<nat>, bodies: seq<seq<Action<nat>>>)
    requires NoStall(s) && Tidy(s) && Can(s, FrameOn(o, time, order, bodies))
    ensures var (s', fired, dt) := Frame(s, o, time, order, bodies);
      && (fired != [] ==> s'.driver == Some(o) && (s.driver == Some(o) || s.driver == None))
      && (s.live != map[] && (s.driver == Some(o) || s.driver == None) ==>
            && dt == (if s.base < 0.0 then 0.0 else time - s.base)
            && s'.base == (if s'.live == map[] then -1.0 else time))
  {
    var s1 := s.(pending := s.pending - {o}, driver := if s.driver.None? then Some(o) else s.driver, base := time);
    if s1.driver == Some(o) {
      DrainHolds(s1, order, bodies);
    }
  }

  /** Neither a frame nor the end of output d. */
  predicate LeavesAlone(e: Event, d: nat) {
    !(e.FrameOn? && e.o == d) && !(e.DestroyOutput? && e.o == d)
  }

  lemma StepLeavesBase(s: Sched, e: Event, d: nat)
    requires NoStall(s) && Tidy(s) && Can(s, e) && s.driver == Some(d) && LeavesAlone(e, d)
    ensures Step(s, e).driver == Some(d) && Step(s, e).base == s.base
  {
    match e
    case NewOutput(o, acts) => ActAllHolds(s.(outputs := s.outputs + [o]), acts);
    case FrameOn(o, time, order, bodies) => OtherOutputsAreQuiet(s, o, time, order, bodies);
    case DestroyOutput(o, acts) => ActAllHolds(s, acts);
    case Other(acts) => ActAllHolds(s, acts);
  }

  lemma {:induction false} BaseStays(s: Sched, events: seq<Event>, d: nat)
    requires NoStall(s) && Tidy(s) && Possible(s, events) && s.driver == Some(d)
    requires forall e :: e in events ==> LeavesAlone(e, d)
    ensures After(s, events).driver == Some(d) && After(s, events).base == s.base
    ensures NoStall(After(s, events)) && Tidy(After(s, events))
    decreases |events|
  {
    if events == [] {
    } else {
      StepKeeps(s, events[0]);
      StepLeavesBase(s, events[0], d);
      hide Step;
      BaseStays(Step(s, events[0]), events[1..], d);
    }
  }

  /** ONE SHARED DT. Between one frame of the driver that leaves a request and its next, whatever the
      other outputs do and whoever asks or leaves, the time passes once: the dt of the second is the
      time from the first to it. */
  lemma DtSpansTheGap(s: Sched, first: Event, between: seq<Event>, second: Event)
    requires NoStall(s) && Tidy(s) && first.FrameOn? && second.FrameOn? && second.o == first.o && Can(s, first)
    requires s.live != map[] && s.driver == Some(first.o) && Step(s, first).live != map[]
    requires Possible(Step(s, first), between) && forall e :: e in between ==> LeavesAlone(e, first.o)
    requires var s' := After(Step(s, first), between); Can(s', second) && s'.live != map[]
    ensures var s' := After(Step(s, first), between);
      Frame(s', second.o, second.time, second.order, second.bodies).2 == second.time - first.time
  {
    OnlyTheDriverServes(s, first.o, first.time, first.order, first.bodies);
    StepKeeps(s, first);
    var s1 := Step(s, first);
    assert s1.driver == Some(first.o) by {
      DrainHolds(s.(pending := s.pending - {first.o}, base := first.time), first.order, first.bodies);
    }
    hide Step, Frame;
    BaseStays(s1, between, first.o);
    OnlyTheDriverServes(After(s1, between), second.o, second.time, second.order, second.bodies);
  }

  /** The driver must be set: a request made before the first output exists is not scheduled when
      that output comes, and waits for a frame event the backend sends on its own. */
  lemma EarlyRequestIsNotScheduled()
    ensures var s := After(START, [Other([Add(1)]), NewOutput(7, [])]);
      s.live != map[] && s.outputs == [7] && s.driver == None && s.pending == {}
  {
    var e1, e2 := Other([Add(1)]), NewOutput(7, []);
    ActOne(START, Add(1));
    var s1 := Act(START, Add(1));
    assert 1 in s1.live;
    assert [e1, e2][1..] == [e2] && [e2][1..] == [];
    assert Step(s1, e2) == s1.(outputs := [7]);
    assert Possible(Step(s1, e2), []) && Possible(s1, [e2]) && Possible(START, [e1, e2]);
    assert After(s1, [e2]) == Step(s1, e2);
  }

  /** dt is measured from a base that outlives its animation when the last request is dropped
      outside a drain: the first dt of the next animation is then the whole idle gap, not 0. */
  lemma IdleGapLeaksIntoDt()
    ensures var events := [NewOutput(7, [Add(1)]), FrameOn(7, 1.0, [1], [[]]), Other([Drop(1)])];
      Possible(START, events) && var s := After(START, events);
      s.live == map[] && s.driver == Some(7) && s.base == 1.0
      && Frame(Act(s, Add(1)), 7, 100.0, [2], [[]]).2 == 99.0
  {
    var e1, e2, e3 := NewOutput(7, [Add(1)]), FrameOn(7, 1.0, [1], [[]]), Other([Drop(1)]);
    var s1 := Sched([7], Some(7), map[1 := 1], 1, {7}, -1.0);
    ActOne(START.(outputs := [7]), Add(1));
    assert Step(START, e1) == s1 by {
      assert START.outputs + [7] == [7];
    }
    assert Enumerates([1], s1.live.Keys);
    DrainIdle(s1.(pending := {}, base := 1.0), 1);
    var s2 := s1.(base := 1.0);
    assert Step(s1, e2) == s2 by {
      assert s1.(pending := s1.pending - {7}) == s1.(pending := {});
    }
    var s3 := s2.(live := map[]);
    ActOne(s2, Drop(1));
    assert Step(s2, e3) == s3;
    RunThree(START, e1, e2, e3);
    assert Act(s3, Add(1)).live != map[] by {
      assert 2 in Act(s3, Add(1)).live;
    }
  }

  lemma DrainIdle(s: Sched, t: nat)
    requires t in s.live
    ensures Drain(s, [t], [[]]).0 == s && Drain(s, [t], [[]]).1 == [t]
  {
    var b: seq<Action<nat>> := [];
    assert [t][1..] == [] && [b][1..] == [];
    assert ActAll(s, []) == s && Drain(s, [], []) == (s, []);
  }

  lemma RunCons(s: Sched, e: Event, events: seq<Event>)
    requires Can(s, e) && Possible(Step(s, e), events)
    ensures Possible(s, [e] + events) && After(s, [e] + events) == After(Step(s, e), events)
  {
    assert ([e] + events)[1..] == events;
  }

  lemma RunThree(s: Sched, e1: Event, e2: Event, e3: Event)
    requires Can(s, e1) && Can(Step(s, e1), e2) && Can(Step(Step(s, e1), e2), e3)
    ensures Possible(s, [e1, e2, e3]) && After(s, [e1, e2, e3]) == Step(Step(Step(s, e1), e2), e3)
  {
    var s1, s2, s3 := Step(s, e1), Step(Step(s, e1), e2), Step(Step(Step(s, e1), e2), e3);
    assert Possible(s3, []) && After(s3, []) == s3;
    hide *;
    RunCons(s2, e3, []);
    RunCons(s1, e2, [e3]);
    RunCons(s, e1, [e2, e3]);
  }

  lemma ActOne(s: Sched, a: Action<nat>)
    ensures ActAll(s, [a]) == Act(s, a)
  {
    assert [a][1..] == [];
    assert Do(REQUESTS, Act(s, a), []) == Act(s, a);
  }
}
