/** The input half of the substrate as the object it is: each method does what the step function of
    Routing says. */
module RoutingClass {
  import opened Options
  import opened Routing

  /** ui_core.hpp, PointerButtonGrab. */
  class PointerButtonGrab {
    var downCount: nat
    var owner: Owner

    function Value(): Grab
      reads this
    {
      Grab(downCount, owner)
    }

    constructor ()
      ensures Value() == NO_GRAB
    {
      downCount, owner := 0, Nobody;
    }

    method OnPress(overSurface: bool) returns (who: Owner)
      modifies this
      ensures (Value(), who) == Press(old(Value()), overSurface)
    {
      if downCount == 0 {
        owner := if overSurface then Substrate else Bus;
      }
      downCount := downCount + 1;
      return owner;
    }

    method OnRelease() returns (who: Owner)
      modifies this
      ensures (Value(), who) == Release(old(Value()))
    {
      who := owner;
      if downCount > 0 {
        downCount := downCount - 1;
        if downCount == 0 {
          owner := Nobody;
        }
      }
    }
  }

  /** The fields of the substrate that routing uses. */
  class UiSubstrate {
    var surfaces: seq<Surface>
    var next: nat
    const pointerGrab: PointerButtonGrab
    var pointerGrabSurface: Option<nat>
    var touchCapture: map<int, nat>
    var pendingReloads: seq<nat>

    ghost function Value(): State
      reads this, pointerGrab
    {
      State(surfaces, next, pointerGrab.Value(), pointerGrabSurface, touchCapture, pendingReloads)
    }

    constructor ()
      ensures fresh(pointerGrab) && Value() == EMPTY
    {
      surfaces, next := [], 0;
      pointerGrab := new PointerButtonGrab();
      pointerGrabSurface, touchCapture, pendingReloads := None, map[], [];
    }

    /** The scan keeps going: later surfaces are on top. */
    method HitTest(lx: real, ly: real) returns (hit: Option<nat>)
      ensures hit == SurfaceAt(surfaces, lx, ly)
      ensures hit.None? ==> NoneShows(surfaces, lx, ly)
      ensures hit.Some? ==> exists k: nat :: Topmost(surfaces, lx, ly, k) && surfaces[k].id == hit.value
    {
      hit := None;
      for i := 0 to |surfaces|
        invariant hit == SurfaceAt(surfaces[..i], lx, ly)
      {
        assert surfaces[..i + 1][..i] == surfaces[..i];
        var s := surfaces[i];
        if s.visible && PointInRect(lx, ly, s.x, s.y, s.w, s.h) {
          hit := Some(s.id);
        }
      }
      assert surfaces[..|surfaces|] == surfaces;
      ghost var k := HitIsTopmost(surfaces, lx, ly);
    }

    method RouteButton(lx: real, ly: real, pressed: bool) returns (routed: Routed)
      modifies this, pointerGrab
      ensures (Value(), routed) == Step(old(Value()), Button(lx, ly, pressed))
    {
      if pressed {
        var hit := HitTest(lx, ly);
        var owner := pointerGrab.OnPress(hit.Some?);
        if owner != Substrate {
          return PASSED;
        }
        if pointerGrabSurface.None? {
          pointerGrabSurface := hit;
        }
        return Routed(true, Click(pointerGrabSurface, lx, ly, true));
      }
      var owner := pointerGrab.OnRelease();
      if owner != Substrate {
        return PASSED;
      }
      routed := Routed(true, Click(pointerGrabSurface, lx, ly, false));
      if !(pointerGrab.downCount > 0) {
        pointerGrabSurface := None;
      }
    }

    /** Every surface gets a move or a leave. */
    method RouteMotion(lx: real, ly: real) returns (routed: Routed)
      ensures (Value(), routed) == Step(old(Value()), Motion(lx, ly))
    {
      var target;
      if pointerGrab.owner == Substrate {
        target := pointerGrabSurface;
      } else {
        target := HitTest(lx, ly);
      }
      var deliveries := [];
      for i := 0 to |surfaces|
        invariant |deliveries| == i
        invariant forall k :: 0 <= k < i ==> deliveries[k] == Hover(surfaces, target, lx, ly)[k]
      {
        var u := surfaces[i].id;
        deliveries := deliveries + [if target == Some(u) then Move(u, lx, ly) else Leave(u)];
      }
      assert deliveries == Hover(surfaces, target, lx, ly);
      return Routed(false, deliveries);
    }

    method RouteTouchDown(id: int, lx: real, ly: real) returns (routed: Routed)
      modifies this
      ensures (Value(), routed) == Step(old(Value()), TouchDown(id, lx, ly))
    {
      var hit := HitTest(lx, ly);
      if hit.None? {
        return PASSED;
      }
      touchCapture := touchCapture[id := hit.value];
      return Routed(true, Click(hit, lx, ly, true));
    }

    method RouteTouchMotion(id: int, lx: real, ly: real) returns (routed: Routed)
      ensures (Value(), routed) == Step(old(Value()), TouchMotion(id, lx, ly))
    {
      if id !in touchCapture {
        return PASSED;
      }
      return Routed(true, [Move(touchCapture[id], lx, ly)]);
    }

    method RouteTouchUp(id: int, cancelled: bool) returns (routed: Routed)
      modifies this
      ensures (Value(), routed) == Step(old(Value()), TouchEnd(id, cancelled))
    {
      if id !in touchCapture {
        return PASSED;
      }
      routed := Routed(true, [Up(touchCapture[id])]);
      touchCapture := touchCapture - {id};
    }

    method CreateSurface(visible: bool, x: int, y: int, w: int, h: int)
      modifies this
      ensures Value() == Step(old(Value()), Create(visible, x, y, w, h)).0
    {
      surfaces := surfaces + [Surface(next, visible, x, y, w, h)];
      next := next + 1;
    }

    /** The asset watch of a surface: its reload is queued once. */
    method OnAssetChanged(u: nat)
      requires Live(surfaces, u)
      modifies this`pendingReloads
      ensures Value() == Step(old(Value()), AssetChanged(u)).0
    {
      if u !in pendingReloads {
        pendingReloads := pendingReloads + [u];
      }
    }

    method Unwatch(u: nat)
      modifies this`pendingReloads
      ensures pendingReloads == Others(old(pendingReloads), u)
    {
      var kept := [];
      ghost var was := pendingReloads;
      for i := 0 to |pendingReloads|
        invariant pendingReloads == was && kept + Others(was[i..], u) == Others(was, u)
      {
        if pendingReloads[i] != u {
          kept := kept + [pendingReloads[i]];
        }
      }
      pendingReloads := kept;
    }

    method DestroySurface(u: nat)
      modifies this
      ensures Value() == Step(old(Value()), Destroy(u)).0
    {
      Unwatch(u);
      if pointerGrabSurface == Some(u) {
        pointerGrabSurface := None;
      }
      touchCapture := map id | id in touchCapture && touchCapture[id] != u :: touchCapture[id];
      var kept := [];
      ghost var was := surfaces;
      for i := 0 to |surfaces|
        invariant surfaces == was && kept + Removed(was[i..], u) == Removed(was, u)
        invariant Value()
          == old(Value()).(grabSurface := pointerGrabSurface, capture := touchCapture, reloads := pendingReloads)
      {
        if surfaces[i].id != u {
          kept := kept + [surfaces[i]];
        }
      }
      surfaces := kept;
    }

    /** The reloads queued since the last tick, each of a surface that is still alive. */
    method TickAll() returns (routed: Routed)
      requires Valid(Value())
      modifies this`pendingReloads
      ensures (Value(), routed) == Step(old(Value()), Tick)
    {
      if surfaces == [] {
        return PASSED;
      }
      var due := pendingReloads;
      pendingReloads := [];
      var deliveries := [];
      for i := 0 to |due|
        invariant pendingReloads == []
        invariant |deliveries| == i && forall k :: 0 <= k < i ==> deliveries[k] == Reload(due[k])
      {
        assert due[i] in due;
        var live := IsAlive(due[i]);
        if live {
          deliveries := deliveries + [Reload(due[i])];
        }
      }
      assert deliveries == Reloads(due);
      return Routed(false, deliveries);
    }

    method IsAlive(u: nat) returns (live: bool)
      ensures live == Live(surfaces, u)
    {
      for i := 0 to |surfaces|
        invariant forall k :: 0 <= k < i ==> surfaces[k].id != u
      {
        if surfaces[i].id == u {
          return true;
        }
      }
      return false;
    }
  }
}
