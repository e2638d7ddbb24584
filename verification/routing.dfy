/** Who gets the input: the ui substrate or the bus (packages/kernel/src/ui_core.hpp,
    ui_substrate.cpp, input.cpp). The first press of a button stream fixes its owner, a touch point
    is captured by the surface it goes down on, and surfaces may be destroyed at any time. */
module Routing {
  import opened Options
  import opened Sequences

  // ---- PointerButtonGrab ----

  datatype Owner = Nobody | Substrate | Bus

  datatype Grab = Grab(down: nat, owner: Owner)

  const NO_GRAB: Grab := Grab(0, Nobody)

  /** The grab after a press and the owner the press goes to. */
  function Press(g: Grab, overSurface: bool): (Grab, Owner) {
    var owner := if g.down == 0 then if overSurface then Substrate else Bus else g.owner;
    (Grab(g.down + 1, owner), owner)
  }

  function Release(g: Grab): (Grab, Owner) {
    if g.down > 1 then (Grab(g.down - 1, g.owner), g.owner)
    else if g.down == 1 then (NO_GRAB, g.owner)
    else (g, g.owner)
  }

  // ---- surfaces ----

  datatype Surface = Surface(id: nat, visible: bool, x: int, y: int, w: int, h: int)

  /** Half-open on the far edges. */
  predicate PointInRect(lx: real, ly: real, x: int, y: int, w: int, h: int) {
    lx >= x as real && ly >= y as real && lx < x as real + w as real && ly < y as real + h as real
  }

  predicate Hits(s: Surface, lx: real, ly: real) {
    s.visible && PointInRect(lx, ly, s.x, s.y, s.w, s.h)
  }

  /** The last created visible surface under a point. */
  function SurfaceAt(surfaces: seq<Surface>, lx: real, ly: real): (hit: Option<nat>)
    ensures hit.Some? ==> Live(surfaces, hit.value)
  {
    if surfaces == [] then None
    else
      var top := surfaces[|surfaces| - 1];
      if Hits(top, lx, ly) then Some(top.id) else SurfaceAt(surfaces[..|surfaces| - 1], lx, ly)
  }

  predicate Live(surfaces: seq<Surface>, u: nat) {
    exists k :: 0 <= k < |surfaces| && surfaces[k].id == u
  }

  function Removed(surfaces: seq<Surface>, u: nat): (kept: seq<Surface>)
    ensures forall v: nat :: Live(kept, v) <==> Live(surfaces, v) && v != u
  {
    if surfaces == [] then []
    else
      var rest := Removed(surfaces[1..], u);
      var kept := if surfaces[0].id == u then rest else [surfaces[0]] + rest;
      assert forall v: nat :: Live(surfaces, v) <==> surfaces[0].id == v || Live(surfaces[1..], v) by {
        LiveCons(surfaces);
      }
      assert forall v: nat :: surfaces[0].id != u ==> (Live(kept, v) <==> surfaces[0].id == v || Live(rest, v)) by {
        if surfaces[0].id != u {
          LiveCons(kept);
          assert kept[1..] == rest;
        }
      }
      kept
  }

  lemma LiveCons(surfaces: seq<Surface>)
    requires surfaces != []
    ensures forall v: nat :: Live(surfaces, v) <==> surfaces[0].id == v || Live(surfaces[1..], v)
  {
  }

  // ---- the substrate ----

  /** `next` is the identity of the next surface: identities are not reused. */
  datatype State = State(surfaces: seq<Surface>, next: nat, grab: Grab, grabSurface: Option<nat>,
                         capture: map<int, nat>, reloads: seq<nat>)

  const EMPTY: State := State([], 0, NO_GRAB, None, map[], [])

  datatype Event =
    | Motion(x: real, y: real)
    | Button(x: real, y: real, pressed: bool)
    | TouchDown(id: int, x: real, y: real)
    | TouchMotion(id: int, x: real, y: real)
    | TouchEnd(id: int, cancelled: bool)
    | Create(visible: bool, ax: int, ay: int, w: int, h: int)
    | Change(i: nat, visible: bool, ax: int, ay: int, w: int, h: int)
    | Destroy(u: nat)
    | AssetChanged(u: nat)
    | Tick

  /** What reaches the document of surface u. */
  datatype Delivery = Move(u: nat, x: real, y: real) | Leave(u: nat) | Down(u: nat) | Up(u: nat) | Reload(u: nat)

  datatype Routed = Routed(consumed: bool, deliveries: seq<Delivery>)

  const PASSED: Routed := Routed(false, [])

  function Click(u: Option<nat>, x: real, y: real, pressed: bool): seq<Delivery> {
    if u.None? then [] else [Move(u.value, x, y), if pressed then Down(u.value) else Up(u.value)]
  }

  function Hover(surfaces: seq<Surface>, target: Option<nat>, x: real, y: real): seq<Delivery> {
    seq(|surfaces|, i requires 0 <= i < |surfaces| =>
      if target == Some(surfaces[i].id) then Move(surfaces[i].id, x, y) else Leave(surfaces[i].id))
  }

  function Reloads(due: seq<nat>): seq<Delivery> {
    seq(|due|, i requires 0 <= i < |due| => Reload(due[i]))
  }

  function Others(s: seq<nat>, u: nat): (r: seq<nat>)
    ensures forall v: nat :: v in r <==> v in s && v != u
    ensures Distinct(s) ==> Distinct(r)
  {
    if s == [] then []
    else
      assert Distinct(s) ==> Distinct(s[1..]) && s[0] !in s[1..];
      if s[0] == u then Others(s[1..], u) else [s[0]] + Others(s[1..], u)
  }

  function ButtonPressed(s: State, x: real, y: real): (State, Routed) {
    var hit := SurfaceAt(s.surfaces, x, y);
    var (grab, owner) := Press(s.grab, hit.Some?);
    if owner != Substrate then (s.(grab := grab), PASSED)
    else
      var target := if s.grabSurface.None? then hit else s.grabSurface;
      (s.(grab := grab, grabSurface := target), Routed(true, Click(target, x, y, true)))
  }

  function ButtonReleased(s: State, x: real, y: real): (State, Routed) {
    var (grab, owner) := Release(s.grab);
    if owner != Substrate then (s.(grab := grab), PASSED)
    else
      (s.(grab := grab, grabSurface := if grab.down > 0 then s.grabSurface else None),
       Routed(true, Click(s.grabSurface, x, y, false)))
  }

  function Destroyed(s: State, u: nat): State {
    s.(surfaces := Removed(s.surfaces, u),
       grabSurface := if s.grabSurface == Some(u) then None else s.grabSurface,
       capture := map id | id in s.capture && s.capture[id] != u :: s.capture[id],
       reloads := Others(s.reloads, u))
  }

  function Step(s: State, e: Event): (State, Routed) {
    match e
    case Motion(x, y) =>
      var target := if s.grab.owner == Substrate then s.grabSurface else SurfaceAt(s.surfaces, x, y);
      (s, Routed(false, Hover(s.surfaces, target, x, y)))
    case Button(x, y, pressed) => if pressed then ButtonPressed(s, x, y) else ButtonReleased(s, x, y)
    case TouchDown(id, x, y) =>
      var hit := SurfaceAt(s.surfaces, x, y);
      if hit.None? then (s, PASSED)
      else (s.(capture := s.capture[id := hit.value]), Routed(true, Click(hit, x, y, true)))
    case TouchMotion(id, x, y) =>
      if id !in s.capture then (s, PASSED) else (s, Routed(true, [Move(s.capture[id], x, y)]))
    case TouchEnd(id, _) =>
      if id !in s.capture then (s, PASSED)
      else (s.(capture := s.capture - {id}), Routed(true, [Up(s.capture[id])]))
    case Create(visible, x, y, w, h) =>
      (s.(surfaces := s.surfaces + [Surface(s.next, visible, x, y, w, h)], next := s.next + 1), PASSED)
    case Change(i, visible, x, y, w, h) =>
      if i >= |s.surfaces| then (s, PASSED)
      else (s.(surfaces := s.surfaces[i := Surface(s.surfaces[i].id, visible, x, y, w, h)]), PASSED)
    case Destroy(u) => (Destroyed(s, u), PASSED)
    case AssetChanged(u) =>
      if !Live(s.surfaces, u) || u in s.reloads then (s, PASSED) else (s.(reloads := s.reloads + [u]), PASSED)
    case Tick =>
      if s.surfaces == [] then (s, PASSED) else (s.(reloads := []), Routed(false, Reloads(s.reloads)))
  }

  function After(s: State, events: seq<Event>): State
    decreases |events|
  {
    if events == [] then s else After(Step(s, events[0]).0, events[1..])
  }

  /** All deliveries of a run. */
  function Log(s: State, events: seq<Event>): seq<Delivery>
    decreases |events|
  {
    if events == [] then [] else Step(s, events[0]).1.deliveries + Log(Step(s, events[0]).0, events[1..])
  }

  // ---- nothing dead is held ----

  /** Every surface that is held is live; only a substrate grab holds one. */
  ghost predicate Valid(s: State) {
    && (forall u: nat :: Live(s.surfaces, u) ==> u < s.next)
    && (s.grab.owner == Nobody <==> s.grab.down == 0)
    && (s.grabSurface.Some? ==> s.grab.owner == Substrate && Live(s.surfaces, s.grabSurface.value))
    && (forall id :: id in s.capture ==> Live(s.surfaces, s.capture[id]))
    && (forall u :: u in s.reloads ==> Live(s.surfaces, u))
    && Distinct(s.reloads)
  }

  lemma CreateKeepsLive(surfaces: seq<Surface>, s: Surface)
    ensures forall v: nat :: Live(surfaces + [s], v) <==> Live(surfaces, v) || v == s.id
  {
    forall v: nat
      ensures Live(surfaces + [s], v) <==> Live(surfaces, v) || v == s.id
    {
      if Live(surfaces, v) {
        var k :| 0 <= k < |surfaces| && surfaces[k].id == v;
        assert (surfaces + [s])[k].id == v;
      }
      if v == s.id {
        assert (surfaces + [s])[|surfaces|].id == v;
      }
    }
  }

  lemma ChangeKeepsLive(surfaces: seq<Surface>, i: nat, s: Surface)
    requires i < |surfaces| && surfaces[i].id == s.id
    ensures forall v: nat :: Live(surfaces[i := s], v) <==> Live(surfaces, v)
  {
    assert forall k :: 0 <= k < |surfaces| ==> surfaces[i := s][k].id == surfaces[k].id;
  }

  lemma StepKeepsValid(s: State, e: Event)
    requires Valid(s)
    ensures Valid(Step(s, e).0)
  {
    match e {
      case Create(visible, x, y, w, h) =>
        CreateKeepsLive(s.surfaces, Surface(s.next, visible, x, y, w, h));
        hide Live;
      case Change(i, visible, x, y, w, h) =>
        if i < |s.surfaces| {
          var changed := Surface(s.surfaces[i].id, visible, x, y, w, h);
          ChangeKeepsLive(s.surfaces, i, changed);
          var s' := Step(s, e).0;
          assert forall v: nat :: Live(s'.surfaces, v) <==> Live(s.surfaces, v);
          hide Live;
          assert Valid(s');
        } else {
          assert Step(s, e).0 == s;
        }
      case _ =>
        hide Live, SurfaceAt;
    }
  }

  /** In every reachable state what the substrate holds is live. */
  lemma {:induction false} RunsKeepValid(s: State, events: seq<Event>)
    requires Valid(s)
    ensures Valid(After(s, events))
    decreases |events|
  {
    if events == [] {
    } else {
      StepKeepsValid(s, events[0]);
      RunsKeepValid(Step(s, events[0]).0, events[1..]);
    }
  }

  /** So a document that is clicked, moved over or reloaded is live; and during a substrate grab
      moves go to the grabbed surface only. */
  lemma DeliveriesAreLive(s: State, e: Event, i: nat)
    requires Valid(s) && i < |Step(s, e).1.deliveries|
    ensures var d := Step(s, e).1.deliveries[i];
      && Live(s.surfaces, d.u)
      && (e.Motion? && d.Move? && s.grab.owner == Substrate ==> s.grabSurface == Some(d.u))
  {
  }

  // ---- which surface ----

  /** A surface is seen at a point: it is visible, and the point lies in its box, whose near edges belong
      to it and whose far edges do not. */
  predicate Shows(s: Surface, lx: real, ly: real) {
    && s.visible
    && s.x as real <= lx < (s.x + s.w) as real
    && s.y as real <= ly < (s.y + s.h) as real
  }

  /** Surface k is seen at a point and none created later is. */
  predicate Topmost(surfaces: seq<Surface>, lx: real, ly: real, k: nat) {
    k < |surfaces| && Shows(surfaces[k], lx, ly) && forall j :: k < j < |surfaces| ==> !Shows(surfaces[j], lx, ly)
  }

  predicate NoneShows(surfaces: seq<Surface>, lx: real, ly: real) {
    forall j :: 0 <= j < |surfaces| ==> !Shows(surfaces[j], lx, ly)
  }

  lemma {:induction false} HitIsTopmost(surfaces: seq<Surface>, lx: real, ly: real) returns (k: nat)
    ensures match SurfaceAt(surfaces, lx, ly)
      case None => NoneShows(surfaces, lx, ly)
      case Some(u) => Topmost(surfaces, lx, ly, k) && surfaces[k].id == u
    decreases |surfaces|
  {
    if surfaces == [] {
      k := 0;
    } else {
      k := |surfaces| - 1;
      HitsIsShows(surfaces[k], lx, ly);
      hide Shows, Hits;
      if !Shows(surfaces[k], lx, ly) {
        k := HitIsTopmost(surfaces[..k], lx, ly);
      }
    }
  }

  lemma HitsIsShows(s: Surface, lx: real, ly: real)
    ensures Hits(s, lx, ly) == Shows(s, lx, ly)
  {
  }

  lemma OneTopmost(surfaces: seq<Surface>, lx: real, ly: real, j: nat, k: nat)
    requires Topmost(surfaces, lx, ly, j) && Topmost(surfaces, lx, ly, k)
    ensures j == k
  {
    hide Shows;
  }

  /** THE HIT TEST finds the surface created last among those seen at the point, and none exactly if
      none is seen there. */
  lemma HitExactly(surfaces: seq<Surface>, lx: real, ly: real, u: nat)
    ensures SurfaceAt(surfaces, lx, ly) == Some(u)
      <==> exists k: nat :: Topmost(surfaces, lx, ly, k) && surfaces[k].id == u
    ensures SurfaceAt(surfaces, lx, ly) == None <==> NoneShows(surfaces, lx, ly)
  {
    var k := HitIsTopmost(surfaces, lx, ly);
    hide Shows, SurfaceAt;
    forall j: nat | Topmost(surfaces, lx, ly, j)
      ensures SurfaceAt(surfaces, lx, ly) == Some(surfaces[j].id)
    {
      assert Shows(surfaces[j], lx, ly) && !NoneShows(surfaces, lx, ly);
      OneTopmost(surfaces, lx, ly, j, k);
    }
  }

  lemma TopmostIsHit(surfaces: seq<Surface>, lx: real, ly: real, k: nat)
    requires Topmost(surfaces, lx, ly, k)
    ensures SurfaceAt(surfaces, lx, ly) == Some(surfaces[k].id)
  {
    HitExactly(surfaces, lx, ly, surfaces[k].id);
    hide SurfaceAt, Shows;
  }

  // ---- the order of the surfaces ----

  predicate Unrepeated(surfaces: seq<Surface>, next: nat) {
    && (forall i, j :: 0 <= i < j < |surfaces| ==> surfaces[i].id != surfaces[j].id)
    && (forall i :: 0 <= i < |surfaces| ==> surfaces[i].id < next)
  }

  predicate OwnIds(s: State) {
    Unrepeated(s.surfaces, s.next)
  }

  lemma RemovedHead(surfaces: seq<Surface>, u: nat)
    requires surfaces != []
    ensures Removed(surfaces, u) == (if surfaces[0].id == u then [] else [surfaces[0]]) + Removed(surfaces[1..], u)
  {
    hide Live;
  }

  lemma {:induction false} RemovedNowhere(surfaces: seq<Surface>, u: nat)
    requires forall i :: 0 <= i < |surfaces| ==> surfaces[i].id != u
    ensures Removed(surfaces, u) == surfaces
  {
    if surfaces == [] {
    } else {
      hide Removed, Live;
      RemovedHead(surfaces, u);
      assert forall i :: 0 <= i < |surfaces| - 1 ==> surfaces[1..][i].id == surfaces[i + 1].id;
      RemovedNowhere(surfaces[1..], u);
    }
  }

  lemma {:induction false} RemovedAt(surfaces: seq<Surface>, k: nat)
    requires k < |surfaces|
    requires forall i, j :: 0 <= i < j < |surfaces| ==> surfaces[i].id != surfaces[j].id
    ensures Removed(surfaces, surfaces[k].id) == surfaces[..k] + surfaces[k + 1..]
  {
    hide Live, Removed;
    var rest := surfaces[1..];
    assert forall i :: 0 <= i < |rest| ==> rest[i] == surfaces[i + 1];
    RemovedHead(surfaces, surfaces[k].id);
    if k == 0 {
      RemovedNowhere(rest, surfaces[0].id);
    } else {
      RemovedAt(rest, k - 1);
      assert surfaces[..k] == [surfaces[0]] + rest[..k - 1] && rest[k - 1 + 1..] == surfaces[k + 1..];
    }
  }

  lemma CreatedLast(surfaces: seq<Surface>, s: Surface, next: nat)
    requires Unrepeated(surfaces, next) && s.id == next
    ensures Unrepeated(surfaces + [s], next + 1)
  {
  }

  lemma ChangedInPlace(surfaces: seq<Surface>, i: nat, s: Surface, next: nat)
    requires Unrepeated(surfaces, next) && i < |surfaces| && s.id == surfaces[i].id
    ensures Unrepeated(surfaces[i := s], next)
  {
  }

  lemma RemovedInOrder(surfaces: seq<Surface>, u: nat, next: nat)
    requires Unrepeated(surfaces, next)
    ensures Unrepeated(Removed(surfaces, u), next)
    ensures forall k :: 0 <= k < |surfaces| && surfaces[k].id == u ==>
      Removed(surfaces, u) == surfaces[..k] + surfaces[k + 1..]
    ensures (forall k :: 0 <= k < |surfaces| ==> surfaces[k].id != u) ==> Removed(surfaces, u) == surfaces
  {
    hide Live, Removed;
    if k :| 0 <= k < |surfaces| && surfaces[k].id == u {
      RemovedAt(surfaces, k);
    } else {
      RemovedNowhere(surfaces, u);
    }
  }

  /** Surfaces have ids of their own and stay in the order of creation: a new one comes last, on top of
      the others, one that dies leaves its place, a change keeps it. */
  lemma SurfacesStayInOrder(s: State, e: Event)
    requires OwnIds(s)
    ensures OwnIds(Step(s, e).0)
    ensures var surfaces := Step(s, e).0.surfaces;
      match e
      case Create(visible, x, y, w, h) => surfaces == s.surfaces + [Surface(s.next, visible, x, y, w, h)]
      case Change(i, visible, x, y, w, h) =>
        && |surfaces| == |s.surfaces|
        && forall k :: 0 <= k < |surfaces| ==>
             surfaces[k] == if k == i then Surface(s.surfaces[k].id, visible, x, y, w, h) else s.surfaces[k]
      case Destroy(u) =>
        && (forall k :: 0 <= k < |s.surfaces| && s.surfaces[k].id == u ==>
              surfaces == s.surfaces[..k] + s.surfaces[k + 1..])
        && ((forall k :: 0 <= k < |s.surfaces| ==> s.surfaces[k].id != u) ==> surfaces == s.surfaces)
      case _ => surfaces == s.surfaces
  {
    match e {
      case Create(visible, x, y, w, h) => CreatedLast(s.surfaces, Surface(s.next, visible, x, y, w, h), s.next);
      case Destroy(u) => RemovedInOrder(s.surfaces, u, s.next);
      case Change(i, visible, x, y, w, h) =>
        if i < |s.surfaces| {
          ChangedInPlace(s.surfaces, i, Surface(s.surfaces[i].id, visible, x, y, w, h), s.next);
        }
      case _ =>
    }
    hide Live, SurfaceAt, Removed, Others, Unrepeated;
  }

  /** So a visible surface is hit where it lies from the moment it is created. */
  lemma CreatedIsOnTop(s: State, x: int, y: int, w: int, h: int, lx: real, ly: real)
    requires x as real <= lx < (x + w) as real && y as real <= ly < (y + h) as real
    ensures SurfaceAt(Step(s, Create(true, x, y, w, h)).0.surfaces, lx, ly) == Some(s.next)
  {
    var surfaces := Step(s, Create(true, x, y, w, h)).0.surfaces;
    TopmostIsHit(surfaces, lx, ly, |s.surfaces|);
  }

  // ---- where input goes ----

  /** With no button down and a surface seen at the pointer, a press is the topmost one's, a touch is
      captured by it, and a motion is its alone, the others seeing the pointer leave. */
  lemma InputGoesToTheTop(s: State, x: real, y: real, k: nat, id: int)
    requires Valid(s) && s.grab.down == 0 && Topmost(s.surfaces, x, y, k)
    ensures var u := s.surfaces[k].id;
      && Step(s, Button(x, y, true))
           == (s.(grab := Grab(1, Substrate), grabSurface := Some(u)), Routed(true, [Move(u, x, y), Down(u)]))
      && Step(s, TouchDown(id, x, y))
           == (s.(capture := s.capture[id := u]), Routed(true, [Move(u, x, y), Down(u)]))
      && var (s', r) := Step(s, Motion(x, y));
         s' == s && !r.consumed && |r.deliveries| == |s.surfaces|
         && forall i :: 0 <= i < |s.surfaces| ==>
              r.deliveries[i] == if s.surfaces[i].id == u then Move(u, x, y) else Leave(s.surfaces[i].id)
  {
    TopmostIsHit(s.surfaces, x, y, k);
    hide SurfaceAt, Shows, Topmost;
  }

  /** With none seen there, the press and the touch are passed on and nothing of them is delivered. */
  lemma InputPassesBetween(s: State, x: real, y: real, id: int)
    requires Valid(s) && s.grab.down == 0 && NoneShows(s.surfaces, x, y)
    ensures Step(s, Button(x, y, true)) == (s.(grab := Grab(1, Bus)), Routed(false, []))
    ensures Step(s, TouchDown(id, x, y)) == (s, Routed(false, []))
    ensures var (s', r) := Step(s, Motion(x, y));
      s' == s && !r.consumed && |r.deliveries| == |s.surfaces|
      && forall i :: 0 <= i < |s.surfaces| ==> r.deliveries[i] == Leave(s.surfaces[i].id)
  {
    HitExactly(s.surfaces, x, y, 0);
    hide SurfaceAt, Shows, NoneShows;
  }

  /** In a grab with a surface, buttons are that surface's wherever the pointer is, and it keeps the grab
      until the last button is up or it dies. */
  lemma GrabbedSurfaceGetsAll(s: State, e: Event, u: nat)
    requires Valid(s) && s.grab.owner == Substrate && s.grabSurface == Some(u)
    ensures e.Button? ==> Step(s, e).1 == Routed(true, [Move(u, e.x, e.y), if e.pressed then Down(u) else Up(u)])
    ensures e.Motion? ==> forall d :: d in Step(s, e).1.deliveries ==> d == Move(u, e.x, e.y) || (d.Leave? && d.u != u)
    ensures Step(s, e).0.grab.down == s.grab.down + (if e.Button? then if e.pressed then 1 else -1 else 0)
    ensures Step(s, e).0.grabSurface == (if Step(s, e).0.grab.down == 0 || e == Destroy(u) then None else Some(u))
  {
    hide SurfaceAt;
  }

  /** The point stays with the surface that captured it: it neither ends nor goes down again, and the
      surface does not die. */
  predicate KeepsCapture(e: Event, id: int, u: nat) {
    !(e.TouchEnd? && e.id == id) && !(e.TouchDown? && e.id == id) && e != Destroy(u)
  }

  /** A captured point is its surface's until it ends, whatever happens besides and wherever it moves:
      its motions and its end are consumed and delivered there. */
  lemma {:induction false} CapturedPointStays(s: State, events: seq<Event>, id: int, u: nat, x: real, y: real)
    requires id in s.capture && s.capture[id] == u && forall e :: e in events ==> KeepsCapture(e, id, u)
    ensures var s' := After(s, events);
      && id in s'.capture && s'.capture[id] == u
      && Step(s', TouchMotion(id, x, y)) == (s', Routed(true, [Move(u, x, y)]))
      && forall c :: Step(s', TouchEnd(id, c)) == (s'.(capture := s'.capture - {id}), Routed(true, [Up(u)]))
    decreases |events|
  {
    if events == [] {
    } else {
      StepKeepsCapture(s, events[0], id, u);
      CapturedPointStays(Step(s, events[0]).0, events[1..], id, u, x, y);
    }
  }

  lemma StepKeepsCapture(s: State, e: Event, id: int, u: nat)
    requires id in s.capture && s.capture[id] == u && KeepsCapture(e, id, u)
    ensures id in Step(s, e).0.capture && Step(s, e).0.capture[id] == u
  {
    hide SurfaceAt, Live;
  }

  // ---- reloads ----

  /** No reload is applied and surface u does not die. */
  predicate KeepsReload(e: Event, u: nat) {
    !e.Tick? && e != Destroy(u)
  }

  lemma StepKeepsReload(s: State, e: Event, u: nat)
    requires Valid(s) && u in s.reloads && KeepsReload(e, u)
    ensures u in Step(s, e).0.reloads
  {
    hide SurfaceAt, Live;
  }

  lemma {:induction false} ReloadsStay(s: State, events: seq<Event>, u: nat)
    requires Valid(s) && u in s.reloads && forall e :: e in events ==> KeepsReload(e, u)
    ensures u in After(s, events).reloads && Valid(After(s, events))
    decreases |events|
  {
    if events == [] {
    } else {
      StepKeepsValid(s, events[0]);
      StepKeepsReload(s, events[0], u);
      ReloadsStay(Step(s, events[0]).0, events[1..], u);
    }
  }

  /** A surface whose asset changes is reloaded at the next tick, and once however often it changes,
      unless it dies before; and a tick leaves nothing queued. */
  lemma ChangedAssetIsReloadedOnce(s: State, u: nat, events: seq<Event>)
    requires Valid(s) && Live(s.surfaces, u) && forall e :: e in events ==> KeepsReload(e, u)
    ensures var (s', r) := Step(After(Step(s, AssetChanged(u)).0, events), Tick);
      s'.reloads == [] && exists i :: OnlyAt(r.deliveries, Reload(u), i)
  {
    StepKeepsValid(s, AssetChanged(u));
    var queued := Step(s, AssetChanged(u)).0;
    assert u in queued.reloads by {
      assert u !in s.reloads ==> (s.reloads + [u])[|s.reloads|] == u;
    }
    ReloadsStay(queued, events, u);
    var before := After(queued, events);
    assert Live(before.surfaces, u);
    assert before.surfaces != [] by { assert exists k :: 0 <= k < |before.surfaces| && before.surfaces[k].id == u; }
    hide Step, Live, Valid;
    TickReloads(before, u);
  }

  predicate OnlyAt<T(==)>(s: seq<T>, x: T, i: nat) {
    i < |s| && forall j :: 0 <= j < |s| ==> (s[j] == x <==> j == i)
  }

  lemma TickReloads(s: State, u: nat)
    requires u in s.reloads && Distinct(s.reloads) && s.surfaces != []
    ensures var (s', r) := Step(s, Tick); s'.reloads == [] && exists i :: OnlyAt(r.deliveries, Reload(u), i)
  {
    var i :| 0 <= i < |s.reloads| && s.reloads[i] == u;
    assert OnlyAt(Step(s, Tick).1.deliveries, Reload(u), i);
  }
}
