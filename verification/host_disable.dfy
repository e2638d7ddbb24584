/** What disabling an extension takes from it, and what it leaves (packages/kernel/src/server.cpp,
    frame_driver.cpp, file_watcher.cpp): hooks are purged, frame requests and file watches are not. */
module HostDisable {
  import opened Options
  import opened Hooks
  import opened HooksReference
  import opened HooksRefinement
  import opened HooksIsolation
  import opened Sequences
  import opened Turns
  import Frames
  import Watcher

  datatype Host<V> = Host(bus: Machine<V>, frames: Frames.Sched, watches: Watcher.State)

  function Disabled<V>(h: Host<V>, who: nat): Host<V>
    requires Valid(h.bus)
  {
    h.(bus := Step(h.bus, Disable(who)).0)
  }

  /** What a frame callback does, and whether it ends in a throw. */
  datatype Body = Body(acts: seq<Action<nat>>, throws: bool)

  /** `drain` with callbacks that throw: the owner is read before the call and disabled after it. */
  function Drain<V>(h: Host<V>, order: seq<nat>, bodies: seq<Body>): (r: (Host<V>, seq<nat>))
    requires Valid(h.bus) && |order| <= |bodies|
    ensures Valid(r.0.bus)
    decreases |order|
  {
    if order == [] then (h, [])
    else if order[0] !in h.frames.live then Drain(h, order[1..], bodies[1..])
    else
      var who := h.frames.live[order[0]];
      var called := h.(frames := Frames.ActAll(h.frames, bodies[0].acts));
      StepKeepsValid(h.bus, Disable(who));
      var (h', fired) := Drain(if bodies[0].throws then Disabled(called, who) else called, order[1..], bodies[1..]);
      (h', [order[0]] + fired)
  }

  function Acts(bodies: seq<Body>): seq<seq<Action<nat>>> {
    seq(|bodies|, k requires 0 <= k < |bodies| => bodies[k].acts)
  }

  /** Throws cost nobody a frame callback, the thrower's own other requests included: the same ones
      are called, and the same requests are left, as if none had thrown. */
  lemma {:induction false} ThrowsCostNoFrame<V>(h: Host<V>, order: seq<nat>, bodies: seq<Body>)
    requires Valid(h.bus) && |order| <= |bodies|
    ensures var (h', fired) := Drain(h, order, bodies);
      (h'.frames, fired) == Frames.Drain(h.frames, order, Acts(bodies)) && h'.watches == h.watches
    decreases |order|
  {
    if order == [] {
    } else {
      assert Acts(bodies)[1..] == Acts(bodies[1..]) && Acts(bodies)[0] == bodies[0].acts;
      if order[0] in h.frames.live {
        var who := h.frames.live[order[0]];
        var called := h.(frames := Frames.ActAll(h.frames, bodies[0].acts));
        StepKeepsValid(h.bus, Disable(who));
        hide Step;
        ThrowsCostNoFrame(if bodies[0].throws then Disabled(called, who) else called, order[1..], bodies[1..]);
      } else {
        ThrowsCostNoFrame(h, order[1..], bodies[1..]);
      }
    }
  }

  // ---- what is left ----

  ghost predicate HoldsRequest<V>(h: Host<V>, who: nat) {
    exists t :: t in h.frames.live && h.frames.live[t] == who
  }

  ghost predicate HoldsWatch<V>(h: Host<V>, who: nat) {
    exists t :: t in h.watches.entries && h.watches.entries[t].who == who
  }

  ghost predicate HoldsOn<V>(h: Host<V>, who: nat, g: nat) {
    g < |h.bus.hooks| && exists s :: s in Live(h.bus.hooks[g].entries) && s.who == who
  }

  ghost predicate HoldsNothing<V>(h: Host<V>, who: nat) {
    !HoldsRequest(h, who) && !HoldsWatch(h, who) && forall g: nat :: !HoldsOn(h, who, g)
  }

  /** Disabling clears the registered hooks of the extension and no other. */
  lemma DisableClears<V>(h: Host<V>, who: nat, g: nat)
    requires Valid(h.bus)
    ensures HoldsOn(Disabled(h, who), who, g) <==> HoldsOn(h, who, g) && !h.bus.hooks[g].bound
  {
    var bus := Step(h.bus, Disable(who)).0;
    StepRefines(h.bus, Disable(who));
    BoundIsRefBound(h.bus.hooks);
    hide Step;
    assert AbsHooks(bus.hooks) == StrikeHooks(AbsHooks(h.bus.hooks), BoundHooks(h.bus.hooks), ByOwner(who));
    if g < |h.bus.hooks| {
      LiveStruck(h.bus.hooks, bus.hooks, BoundHooks(h.bus.hooks), ByOwner(who), g);
    } else {
      assert |AbsHooks(bus.hooks)| == |bus.hooks| == |h.bus.hooks|;
    }
    hide RefStep, StrikeHooks, Strike;
  }

  /** A disabled extension holds nothing any more exactly if it had no frame request, no file watch and
      no subscription on a hook that is not registered. */
  lemma DisableReleasesExactly<V>(h: Host<V>, who: nat)
    requires Valid(h.bus)
    ensures HoldsNothing(Disabled(h, who), who) <==>
      && !HoldsRequest(h, who) && !HoldsWatch(h, who)
      && forall g: nat :: HoldsOn(h, who, g) ==> h.bus.hooks[g].bound
  {
    forall g: nat
      ensures HoldsOn(Disabled(h, who), who, g) <==> HoldsOn(h, who, g) && !h.bus.hooks[g].bound
    {
      DisableClears(h, who, g);
    }
    hide HoldsOn;
    assert Disabled(h, who).frames == h.frames && Disabled(h, who).watches == h.watches;
    hide Disabled;
  }

  // ---- what a drain disables ----

  lemma FiredWithin<V>(h: Host<V>, order: seq<nat>, bodies: seq<Body>)
    requires Valid(h.bus) && |order| <= |bodies|
    ensures forall t :: t in Drain(h, order, bodies).1 ==> t in order
  {
    ThrowsCostNoFrame(h, order, bodies);
    ServedWithin(Frames.REQUESTS, h.frames, order, Acts(bodies));
    hide Drain;
  }

  /** Some called request of extension `who` has a callback that throws. */
  predicate Threw(live: map<nat, nat>, order: seq<nat>, bodies: seq<Body>, fired: seq<nat>, who: nat)
    requires |order| <= |bodies|
  {
    exists k :: 0 <= k < |order| && order[k] in fired && bodies[k].throws && order[k] in live && live[order[k]] == who
  }

  /** The requests of a snapshot: their owners, and no token still to come among them. */
  ghost predicate Snapshot(frames: Frames.Sched, owners: map<nat, nat>, order: seq<nat>) {
    forall t :: t in order ==> t in owners && t <= frames.next && (t in frames.live ==> frames.live[t] == owners[t])
  }

  lemma {:induction false} ActAllKeepsSnapshot(s: Frames.Sched, acts: seq<Action<nat>>, owners: map<nat, nat>,
                                               order: seq<nat>)
    requires Snapshot(s, owners, order)
    ensures Snapshot(Frames.ActAll(s, acts), owners, order)
    decreases |acts|
  {
    if acts == [] {
    } else {
      assert Snapshot(Frames.Act(s, acts[0]), owners, order);
      hide Frames.Act, Snapshot;
      ActAllKeepsSnapshot(Frames.Act(s, acts[0]), acts[1..], owners, order);
    }
  }

  /** Disabling an extension takes off its subscriptions on the registered hooks and nothing else. */
  lemma DisabledExactly<V>(h: Host<V>, who: nat, g: nat, s: Sub)
    requires Valid(h.bus) && g < |h.bus.hooks|
    ensures var bus := Disabled(h, who).bus;
      && Valid(bus) && g < |bus.hooks| && bus.hooks[g].bound == h.bus.hooks[g].bound
      && (s in Live(bus.hooks[g].entries) <==>
            s in Live(h.bus.hooks[g].entries) && !(h.bus.hooks[g].bound && s.who == who))
  {
    var bus := Step(h.bus, Disable(who)).0;
    StepRefines(h.bus, Disable(who));
    BoundIsRefBound(h.bus.hooks);
    assert AbsHooks(bus.hooks)[g].bound == bus.hooks[g].bound by { assert |AbsHooks(bus.hooks)| == |bus.hooks|; }
    hide Step, Live, Strike;
    assert AbsHooks(bus.hooks) == StrikeHooks(AbsHooks(h.bus.hooks), BoundHooks(h.bus.hooks), ByOwner(who));
    LiveStruck(h.bus.hooks, bus.hooks, BoundHooks(h.bus.hooks), ByOwner(who), g);
  }

  lemma ThrewCons(live: map<nat, nat>, order: seq<nat>, bodies: seq<Body>, fired: seq<nat>, who: nat)
    requires order != [] && |order| <= |bodies| && Distinct(order)
    ensures Threw(live, order, bodies, [order[0]] + fired, who) <==>
      || (bodies[0].throws && order[0] in live && live[order[0]] == who)
      || Threw(live, order[1..], bodies[1..], fired, who)
    ensures order[0] !in fired ==>
      (Threw(live, order, bodies, fired, who) <==> Threw(live, order[1..], bodies[1..], fired, who))
  {
    assert forall k :: 0 < k < |order| ==> order[k] == order[1..][k - 1] && bodies[k] == bodies[1..][k - 1];
    assert forall k :: 0 <= k < |order| - 1 ==> order[1..][k] == order[k + 1] && bodies[1..][k] == bodies[k + 1];
    assert order[0] in [order[0]] + fired;
  }

  /** After a drain of requests that were live when it began, a subscription is live exactly if it was and
      no callback that ran and threw belongs to its owner, its hook being registered. */
  lemma {:induction false} DrainDisablesExactly<V>(h: Host<V>, owners: map<nat, nat>, order: seq<nat>,
                                                   bodies: seq<Body>, g: nat, s: Sub)
    requires Valid(h.bus) && g < |h.bus.hooks| && |order| <= |bodies| && Distinct(order)
    requires Snapshot(h.frames, owners, order)
    ensures var (h', fired) := Drain(h, order, bodies);
      && g < |h'.bus.hooks|
      && (s in Live(h'.bus.hooks[g].entries) <==>
            s in Live(h.bus.hooks[g].entries)
            && !(h.bus.hooks[g].bound && Threw(owners, order, bodies, fired, s.who)))
    decreases |order|
  {
    if order == [] {
    } else {
      var rest := order[1..];
      var (h', fired) := Drain(h, order, bodies);
      assert order[0] !in rest && forall t :: t in rest ==> t in order;
      if order[0] in h.frames.live {
        var who := h.frames.live[order[0]];
        var called := h.(frames := Frames.ActAll(h.frames, bodies[0].acts));
        ActAllKeepsSnapshot(h.frames, bodies[0].acts, owners, rest);
        DisabledExactly(called, who, g, s);
        var next := if bodies[0].throws then Disabled(called, who) else called;
        var later := Drain(next, rest, bodies[1..]).1;
        assert fired == [order[0]] + later;
        ThrewCons(owners, order, bodies, later, s.who);
        hide Drain, Threw, Live, Disabled, Frames.ActAll;
        DrainDisablesExactly(next, owners, rest, bodies[1..], g, s);
      } else {
        FiredWithin(h, rest, bodies[1..]);
        ThrewCons(owners, order, bodies, fired, s.who);
        hide Drain, Threw, Live;
        DrainDisablesExactly(h, owners, rest, bodies[1..], g, s);
      }
    }
  }

  /** Extension 5 makes two frame requests when the first output comes. */
  lemma BothRequested()
    ensures var e := Frames.NewOutput(7, [Add(5), Add(5)]);
      && Frames.Possible(Frames.START, [e])
      && Frames.After(Frames.START, [e]) == Frames.Sched([7], Some(7), map[1 := 5, 2 := 5], 2, {7}, -1.0)
  {
    var s := Frames.START.(outputs := [7]);
    var s1 := Frames.Sched([7], Some(7), map[1 := 5], 1, {7}, -1.0);
    var s2 := Frames.Sched([7], Some(7), map[1 := 5, 2 := 5], 2, {7}, -1.0);
    assert Frames.Act(s, Add(5)) == s1 && Frames.Act(s1, Add(5)) == s2;
    hide Frames.Act;
    BothAdded(s, s1, s2);
    var e := Frames.NewOutput(7, [Add(5), Add(5)]);
    assert [] + [7] == [7] && Frames.Step(Frames.START, e) == s2;
    assert Frames.Possible(s2, []) && Frames.After(s2, []) == s2;
    assert Frames.Can(Frames.START, e);
    hide *;
    Frames.RunCons(Frames.START, e, []);
    assert [e] + [] == [e];
  }

  lemma BothAdded(s: Frames.Sched, s1: Frames.Sched, s2: Frames.Sched)
    requires Frames.Act(s, Add(5)) == s1 && Frames.Act(s1, Add(5)) == s2
    ensures Frames.ActAll(s, [Add(5), Add(5)]) == s2
  {
    hide Frames.Act;
    Frames.ActOne(s1, Add(5));
    assert [Add(5), Add(5)][1..] == [Add(5)];
    assert Frames.ActAll(s, [Add(5), Add(5)]) == Frames.ActAll(s1, [Add(5)]);
  }

  const LISTENED: Machine<int> := Machine([HookState([Entry(Sub(1, 5), false)], 1, 0, true, false)], [])

  /** It has subscribed on a registered hook. */
  lemma HasSubscribed()
    ensures Valid(LISTENED) && Live(LISTENED.hooks[0].entries) == [Sub(1, 5)]
    ensures MachineAfter(Machine([], []), [NewHook(false), Adopt(0), Subscribe(0, 5)]) == LISTENED
  {
    assert LISTENED.hooks[0].entries[1..] == [];
    var empty: Machine<int> := Machine([], []);
    var hook := HookState([], 0, 0, false, false);
    var bound := hook.(bound := true);
    var m1, m2: Machine<int> := Machine([hook], []), Machine([bound], []);
    assert [] + [hook] == [hook] && [hook][0 := bound] == [bound];
    assert Step(empty, NewHook(false)) == (m1, Quiet);
    assert Step(m1, Adopt(0)) == (m2, Quiet);
    assert Step(m2, Subscribe(0, 5)) == (LISTENED, Subscribed(1)) by {
      assert [bound][0 := LISTENED.hooks[0]] == LISTENED.hooks;
      assert [] + [Entry(Sub(1, 5), false)] == LISTENED.hooks[0].entries;
    }
    hide Step, Valid, Live;
    assert Run(LISTENED, []) == [] && MachineAfter(LISTENED, []) == LISTENED;
    RunOne(m2, Subscribe(0, 5), [], LISTENED, Subscribed(1));
    RunOne(m1, Adopt(0), [Subscribe(0, 5)], m2, Quiet);
    RunOne(empty, NewHook(false), [Adopt(0), Subscribe(0, 5)], m1, Quiet);
  }

  /** In the frame that follows, its first callback throws: it hears the hook no more, and its second
      callback is called. */
  lemma DisabledIsStillCalled()
    ensures var e := Frames.NewOutput(7, [Add(5), Add(5)]);
      && Frames.Possible(Frames.START, [e]) && Valid(LISTENED)
      && Sub(1, 5) in Live(LISTENED.hooks[0].entries)
      && var h := Host(LISTENED, Frames.After(Frames.START, [e]), Watcher.EMPTY);
         var (h', fired) := Drain(h, [1, 2], [Body([], true), Body([], false)]);
         && fired == [1, 2]
         && 0 < |h'.bus.hooks| && Sub(1, 5) !in Live(h'.bus.hooks[0].entries)
  {
    BothRequested();
    HasSubscribed();
    FirstThrowsSecondRuns(Frames.Sched([7], Some(7), map[1 := 5, 2 := 5], 2, {7}, -1.0));
    hide *;
  }

  lemma BothFire(frames: Frames.Sched)
    requires frames.live == map[1 := 5, 2 := 5]
    ensures Frames.Drain(frames, [1, 2], [[], []]).1 == [1, 2]
  {
  }

  lemma FirstThrowsSecondRuns(frames: Frames.Sched)
    requires frames.live == map[1 := 5, 2 := 5] && frames.next == 2
    requires Valid(LISTENED) && Live(LISTENED.hooks[0].entries) == [Sub(1, 5)]
    ensures var (h', fired) := Drain(Host(LISTENED, frames, Watcher.EMPTY), [1, 2], [Body([], true), Body([], false)]);
      fired == [1, 2] && 0 < |h'.bus.hooks| && Sub(1, 5) !in Live(h'.bus.hooks[0].entries)
  {
    var h, bodies := Host(LISTENED, frames, Watcher.EMPTY), [Body([], true), Body([], false)];
    assert Acts(bodies) == [[], []];
    BothFire(frames);
    assert Snapshot(frames, frames.live, [1, 2]);
    assert [1, 2][0] == 1 && bodies[0].throws && Threw(frames.live, [1, 2], bodies, [1, 2], 5);
    assert LISTENED.hooks[0].bound;
    hide Drain, Frames.Drain, Live, Valid, Threw, Snapshot;
    ThrowsCostNoFrame(h, [1, 2], bodies);
    DrainDisablesExactly(h, frames.live, [1, 2], bodies, 0, Sub(1, 5));
  }
}
