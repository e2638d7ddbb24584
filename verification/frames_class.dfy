/** The frame driver and the server's output handlers, updating their fields in place. */
module FramesClass {
  import opened Options
  import opened Frames
  import opened Turns

  class FrameDriver {
    var entries: map<nat, nat>
    var nextToken: nat

    constructor ()
      ensures entries == map[] && nextToken == 0
    {
      entries, nextToken := map[], 0;
    }

    method Add(who: nat) returns (token: nat)
      modifies this
      ensures token == nextToken == old(nextToken) + 1 && entries == old(entries)[token := who]
    {
      nextToken := nextToken + 1;
      token := nextToken;
      entries := entries[token := who];
    }

    method RemoveFrameRequest(token: nat)
      modifies this`entries
      ensures entries == old(entries) - {token}
    {
      entries := entries - {token};
    }
  }

  class Server {
    const frames: FrameDriver
    var outputs: seq<nat>
    var frameDriverOutput: Option<nat>
    var lastFrameTime: real
    var scheduled: set<nat>

    function State(): Sched
      reads this, frames
    {
      Sched(outputs, frameDriverOutput, frames.entries, frames.nextToken, scheduled, lastFrameTime)
    }

    constructor ()
      ensures State() == START && fresh(frames)
    {
      frames := new FrameDriver();
      outputs, frameDriverOutput, lastFrameTime, scheduled := [], None, -1.0, {};
    }

    method ScheduleDriverFrame()
      modifies this`frameDriverOutput, this`scheduled
      ensures State() == ScheduleDriver(old(State()))
    {
      if frameDriverOutput.None? && outputs != [] {
        frameDriverOutput := Some(outputs[0]);
      }
      if frameDriverOutput.Some? {
        scheduled := scheduled + {frameDriverOutput.value};
      }
    }

    method RegisterFrameRequest(who: nat) returns (token: nat)
      modifies this`frameDriverOutput, this`scheduled, frames
      ensures State() == Act(old(State()), Action.Add(who)) && token == old(frames.nextToken) + 1
    {
      token := frames.Add(who);
      ScheduleDriverFrame();
    }

    /** A callback of an extension runs. */
    method RunActions(acts: seq<Action<nat>>)
      modifies this`frameDriverOutput, this`scheduled, frames
      ensures State() == ActAll(old(State()), acts)
    {
      var i := 0;
      while i < |acts|
        invariant 0 <= i <= |acts|
        invariant ActAll(State(), acts[i..]) == ActAll(old(State()), acts)
      {
        match acts[i] {
          case Add(who) => var _ := RegisterFrameRequest(who);
          case Drop(token) => frames.RemoveFrameRequest(token);
        }
        assert acts[i..][0] == acts[i] && acts[i..][1..] == acts[i + 1..];
        i := i + 1;
      }
    }

    /** `FrameDriver::drain`: `order` is the snapshot of the tokens, bodies[k] what the callback of
        turn k does. */
    method Drain(order: seq<nat>, bodies: seq<seq<Action<nat>>>) returns (fired: seq<nat>)
      requires |order| <= |bodies|
      modifies this`frameDriverOutput, this`scheduled, frames
      ensures State() == Frames.Drain(old(State()), order, bodies).0
      ensures fired == Frames.Drain(old(State()), order, bodies).1
    {
      fired := [];
      var i := 0;
      while i < |order|
        invariant 0 <= i <= |order|
        invariant Frames.Drain(State(), order[i..], bodies[i..]).0 == Frames.Drain(old(State()), order, bodies).0
        invariant fired + Frames.Drain(State(), order[i..], bodies[i..]).1
          == Frames.Drain(old(State()), order, bodies).1
      {
        assert order[i..][0] == order[i] && order[i..][1..] == order[i + 1..];
        assert bodies[i..][0] == bodies[i] && bodies[i..][1..] == bodies[i + 1..];
        ghost var was, sofar := State(), fired;
        if order[i] in frames.entries {
          fired := fired + [order[i]];
          RunActions(bodies[i]);
        }
        i := i + 1;
        ghost var rest := Frames.Drain(State(), order[i..], bodies[i..]);
        assert sofar + Frames.Drain(was, order[i - 1..], bodies[i - 1..]).1 == fired + rest.1;
      }
    }

    method HandleNewOutput(o: nat, acts: seq<Action<nat>>)
      requires Can(State(), NewOutput(o, acts))
      modifies this, frames
      ensures State() == Step(old(State()), NewOutput(o, acts))
    {
      outputs := outputs + [o];
      RunActions(acts);
    }

    method OnFrame(o: nat, time: real, order: seq<nat>, bodies: seq<seq<Action<nat>>>)
      returns (fired: seq<nat>, dt: real)
      requires Can(State(), FrameOn(o, time, order, bodies))
      modifies this, frames
      ensures (State(), fired, dt) == Frame(old(State()), o, time, order, bodies)
    {
      fired, dt := [], 0.0;
      scheduled := scheduled - {o};
      if frameDriverOutput.None? {
        frameDriverOutput := Some(o);
      }
      if frameDriverOutput == Some(o) && frames.entries != map[] {
        dt := if lastFrameTime < 0.0 then 0.0 else time - lastFrameTime;
        lastFrameTime := time;
        fired := Drain(order, bodies);
        if frames.entries != map[] {
          if frameDriverOutput.Some? {
            scheduled := scheduled + {frameDriverOutput.value};
          }
        } else {
          lastFrameTime := -1.0;
        }
      }
    }

    method Survivors(o: nat) returns (survivors: seq<nat>)
      ensures survivors == RemoveOutput(outputs, o)
    {
      survivors := [];
      var i := 0;
      while i < |outputs|
        invariant 0 <= i <= |outputs|
        invariant survivors + RemoveOutput(outputs[i..], o) == RemoveOutput(outputs, o)
      {
        assert outputs[i..][1..] == outputs[i + 1..];
        if outputs[i] != o {
          survivors := survivors + [outputs[i]];
        }
        i := i + 1;
      }
    }

    method OnDestroy(o: nat, acts: seq<Action<nat>>)
      requires Can(State(), DestroyOutput(o, acts))
      modifies this, frames
      ensures State() == Step(old(State()), DestroyOutput(o, acts))
    {
      hide RemoveOutput, ActAll;
      RunActions(acts);
      var survivors := Survivors(o);
      if frameDriverOutput == Some(o) {
        frameDriverOutput := if survivors == [] then None else Some(survivors[0]);
        lastFrameTime := -1.0;
        if frameDriverOutput.Some? && frames.entries != map[] {
          scheduled := scheduled + {frameDriverOutput.value};
        }
      }
      outputs := survivors;
      scheduled := scheduled - {o};
    }
  }
}
