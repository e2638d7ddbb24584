/** The grab machine as an object (packages/ext-xdg-shell/src/policy.hpp, GrabMachine) and the part
    of the shell that pairs it with a window (packages/ext-xdg-shell/src/extension.cpp). */
module GrabMachineClass {
  import opened Options
  import opened GrabMachines

  class GrabMachine {
    var mode: Mode
    var source: Source
    var pointerDown: bool
    var touchDownCount: nat
    var anyTouchIdValid: bool
    var lastTouchId: int
    var originTouchId: int

    function Value(): Machine
      reads this
    {
      Machine(mode, source, pointerDown, touchDownCount, anyTouchIdValid, lastTouchId, originTouchId)
    }

    /** A pointer grab has its button down, the source is touch only in a grab, and the latest touch
        id is known while points are counted. */
    ghost predicate Valid()
      reads this
    {
      && ButtonHeld(Value())
      && (source == Touch ==> mode != Idle)
      && (touchDownCount > 0 ==> anyTouchIdValid)
    }

    constructor ()
      ensures Valid() && Value() == FRESH
    {
      mode, source, pointerDown := Idle, Pointer, false;
      touchDownCount, anyTouchIdValid, lastTouchId, originTouchId := 0, false, 0, 0;
    }

    /** With the button up no pointer drags; a touch grab is left alone. */
    method OnButton(pressed: bool) returns (r: Reaction)
      requires Valid()
      modifies this
      ensures Valid() && (Value(), r) == Step(old(Value()), Button(pressed))
      ensures !pressed ==> OnMotion(Value()) == Idle
      ensures r == EndGrab <==> !pressed && old(PointerDriven(Value()))
      ensures r != EndGrab ==> mode == old(mode) && source == old(source) && originTouchId == old(originTouchId)
    {
      pointerDown := pressed;
      if !pressed && mode != Idle && source == Pointer {
        r := Reset();
        return;
      }
      return Nothing;
    }

    /** A point that goes down steers nothing. */
    method OnTouchDown(id: int)
      requires Valid()
      modifies this
      ensures Valid() && Value() == Step(old(Value()), PointDown(id)).0
      ensures forall p :: OnTouchMotion(Value(), p) == old(OnTouchMotion(Value(), p))
      ensures OnMotion(Value()) == old(OnMotion(Value()))
    {
      touchDownCount := touchDownCount + 1;
      lastTouchId := id;
      anyTouchIdValid := true;
    }

    /** A point that lifts drags nothing any more; it ends the grab it drives and no other. */
    method TouchLifted(id: int) returns (r: Reaction)
      requires Valid()
      modifies this
      ensures Valid() && (Value(), r) == Step(old(Value()), PointUp(id))
      ensures OnTouchMotion(Value(), id) == Idle
      ensures r == EndGrab <==> old(OnTouchMotion(Value(), id)) != Idle
      ensures forall p :: p != id && r != EndGrab ==> OnTouchMotion(Value(), p) == old(OnTouchMotion(Value(), p))
      ensures OnMotion(Value()) == old(OnMotion(Value()))
    {
      if touchDownCount > 0 {
        touchDownCount := touchDownCount - 1;
      }
      if mode != Idle && source == Touch && id == originTouchId {
        r := Reset();
        return;
      }
      return Nothing;
    }

    /** A request is taken exactly while some input is down, and then one input drags: the latest
        touch point if any is counted, else the pointer. */
    method Engage(wanted: Mode) returns (r: Reaction)
      requires Valid() && wanted != Idle
      modifies this
      ensures Valid() && (Value(), r) == Step(old(Value()), Request(wanted))
      ensures r == Refused ==> Value() == old(Value())
      ensures r == Refused <==> touchDownCount == 0 && !pointerDown
      ensures r == Engaged && touchDownCount > 0 ==>
        OnTouchMotion(Value(), lastTouchId) == wanted && OnMotion(Value()) == Idle
      ensures r == Engaged && touchDownCount == 0 ==>
        OnMotion(Value()) == wanted && forall p :: OnTouchMotion(Value(), p) == Idle
    {
      if touchDownCount > 0 && anyTouchIdValid {
        source := Touch;
        originTouchId := lastTouchId;
      } else if pointerDown {
        source := Pointer;
      } else {
        return Refused;
      }
      mode := wanted;
      return Engaged;
    }

    /** Nothing drags any more, and what is down stays known. */
    method OnGrabTargetLost()
      requires Valid()
      modifies this
      ensures Valid() && Value() == Step(old(Value()), TargetLost).0
      ensures OnMotion(Value()) == Idle && forall p :: OnTouchMotion(Value(), p) == Idle
      ensures pointerDown == old(pointerDown)
      ensures touchDownCount == old(touchDownCount) && lastTouchId == old(lastTouchId)
    {
      mode, source := Idle, Pointer;
    }

    method Reset() returns (r: Reaction)
      modifies this
      ensures Value() == Stopped(old(Value())) && r == EndGrab
    {
      mode, source := Idle, Pointer;
      return EndGrab;
    }
  }

  /** The part of the shell that pairs the machine with the window it drags. */
  class ShellGrab {
    const machine: GrabMachine
    var toplevels: map<nat, bool>
    var grabbed: Option<nat>

    ghost function Value(): Shell
      reads this, machine
    {
      Shell(toplevels, machine.Value(), grabbed)
    }

    ghost predicate Valid()
      reads this, machine
    {
      machine.Valid() && Paired(Value())
    }

    constructor ()
      ensures fresh(machine) && Valid() && Value() == Shell(map[], FRESH, None)
    {
      machine := new GrabMachine();
      toplevels, grabbed := map[], None;
    }

    /** begin_move and begin_resize. */
    method Begin(t: nat, wanted: Mode)
      requires Valid() && Can(Value(), Requested(t, wanted))
      modifies this, machine
      ensures Valid() && Value() == Handle(old(Value()), Requested(t, wanted))
    {
      var r := machine.Engage(wanted);
      if r == Refused {
        return;
      }
      grabbed := Some(t);
    }

    /** Returns whether the button is forwarded to the seat. */
    method ProcessButton(pressed: bool) returns (forwarded: bool)
      requires Valid()
      modifies this, machine
      ensures Valid() && Value() == Handle(old(Value()), Input(Button(pressed)))
      ensures forwarded == Forwards(old(machine.Value()), pressed)
    {
      var wasGrabbing := machine.mode != Idle;
      var r := machine.OnButton(pressed);
      if r == EndGrab {
        grabbed := None;
        return true;
      }
      return !wasGrabbing;
    }

    method ProcessTouchDown(id: int)
      requires Valid()
      modifies machine
      ensures Valid() && Value() == Handle(old(Value()), Input(PointDown(id)))
    {
      machine.OnTouchDown(id);
    }

    method ProcessTouchUp(id: int)
      requires Valid()
      modifies this, machine
      ensures Valid() && Value() == Handle(old(Value()), Input(PointUp(id)))
    {
      var r := machine.TouchLifted(id);
      if r == EndGrab {
        grabbed := None;
      }
    }

    method OnUnmap(t: nat)
      requires Valid() && Can(Value(), Unmap(t))
      modifies this, machine
      ensures Valid() && Value() == Handle(old(Value()), Unmap(t))
    {
      if grabbed == Some(t) {
        machine.OnGrabTargetLost();
        grabbed := None;
      }
      toplevels := toplevels[t := false];
    }
  }
}
