/** What the two parties, and each surface, see of the input over a whole run of the substrate. */
module RoutingStreams {
  import opened Options
  import opened Routing

  // ---- one button stream, two owners ----

  /** A button event and whether the substrate consumed it. */
  datatype Mark = Mark(pressed: bool, consumed: bool)

  function Marks(s: State, events: seq<Event>): seq<Mark>
    decreases |events|
  {
    if events == [] then []
    else
      var (s', routed) := Step(s, events[0]);
      (if events[0].Button? then [Mark(events[0].pressed, routed.consumed)] else []) + Marks(s', events[1..])
  }

  /** The physical button stream: true is a press. */
  function Presses(events: seq<Event>): seq<bool>
    decreases |events|
  {
    if events == [] then []
    else (if events[0].Button? then [events[0].pressed] else []) + Presses(events[1..])
  }

  /** The part of the stream that one party sees. */
  function Part(marks: seq<Mark>, consumed: bool): seq<bool>
    decreases |marks|
  {
    if marks == [] then []
    else (if marks[0].consumed == consumed then [marks[0].pressed] else []) + Part(marks[1..], consumed)
  }

  /** From `level` buttons down, no release comes without its press. */
  predicate WellFormed(stream: seq<bool>, level: nat)
    decreases |stream|
  {
    || stream == []
    || (if stream[0] then WellFormed(stream[1..], level + 1) else level > 0 && WellFormed(stream[1..], level - 1))
  }

  function LevelAfter(stream: seq<bool>, level: nat): nat
    requires WellFormed(stream, level)
    decreases |stream|
  {
    if stream == [] then level
    else if stream[0] then LevelAfter(stream[1..], level + 1)
    else LevelAfter(stream[1..], level - 1)
  }

  function LevelOf(g: Grab, owner: Owner): nat {
    if g.owner == owner then g.down else 0
  }

  predicate Coherent(g: Grab) {
    g.owner == Nobody <==> g.down == 0
  }

  lemma StepMovesLevels(s: State, e: Event)
    requires Coherent(s.grab) && (e.Button? && !e.pressed ==> s.grab.down > 0)
    ensures var (s', r) := Step(s, e);
      && Coherent(s'.grab)
      && (!e.Button? ==> s'.grab == s.grab)
      && (e.Button? ==>
            var d := if e.pressed then 1 else -1;
            && s'.grab.down == s.grab.down + d
            && LevelOf(s'.grab, Substrate) == LevelOf(s.grab, Substrate) + (if r.consumed then d else 0)
            && LevelOf(s'.grab, Bus) == LevelOf(s.grab, Bus) + (if r.consumed then 0 else d)
            && (s.grab.down > 0 ==> r.consumed == (s.grab.owner == Substrate)))
  {
    hide SurfaceAt, Removed;
  }

  /** SPLIT: whatever else happens, surfaces being destroyed included, a well-formed button stream is
      divided into two well-formed streams, one for each party; whoever does not own the grab sees
      all its presses released, and with nothing down both do. */
  lemma {:induction false} SplitStream(s: State, events: seq<Event>)
    requires Coherent(s.grab) && WellFormed(Presses(events), s.grab.down)
    ensures var marks := Marks(s, events); var g := After(s, events).grab;
      && Coherent(g)
      && LevelAfter(Presses(events), s.grab.down) == g.down
      && WellFormed(Part(marks, true), LevelOf(s.grab, Substrate))
      && WellFormed(Part(marks, false), LevelOf(s.grab, Bus))
      && LevelAfter(Part(marks, true), LevelOf(s.grab, Substrate)) == LevelOf(g, Substrate)
      && LevelAfter(Part(marks, false), LevelOf(s.grab, Bus)) == LevelOf(g, Bus)
    decreases |events|
  {
    if events == [] {
    } else {
      var e := events[0];
      var (s', r) := Step(s, e);
      PressesCons(events);
      StepMovesLevels(s, e);
      hide Step;
      SplitStream(s', events[1..]);
      MarksCons(s, events, true);
      MarksCons(s, events, false);
      hide Marks, Part, Presses;
    }
  }

  lemma PressesCons(events: seq<Event>)
    requires events != []
    ensures var rest := Presses(events[1..]);
      if events[0].Button? then
        && Presses(events) != [] && Presses(events)[0] == events[0].pressed && Presses(events)[1..] == rest
      else Presses(events) == rest
  {
  }

  lemma MarksCons(s: State, events: seq<Event>, consumed: bool)
    requires events != []
    ensures var (s', r) := Step(s, events[0]); var rest := Part(Marks(s', events[1..]), consumed);
      var all := Part(Marks(s, events), consumed);
      if events[0].Button? && r.consumed == consumed then all != [] && all[0] == events[0].pressed && all[1..] == rest
      else all == rest
  {
    var (s', r) := Step(s, events[0]);
    var marks := Marks(s', events[1..]);
    hide Step;
    if events[0].Button? {
      var all := Marks(s, events);
      assert all == [Mark(events[0].pressed, r.consumed)] + marks;
      assert all[0] == Mark(events[0].pressed, r.consumed) && all[1..] == marks;
    } else {
      assert Marks(s, events) == [] + marks == marks;
    }
  }

  /** Every event of the stream comes while some button is down. */
  predicate WhileDown(stream: seq<bool>, level: nat)
    decreases |stream|
  {
    || stream == []
    || (level > 0 && WhileDown(stream[1..], if stream[0] then level + 1 else level - 1))
  }

  /** ONE OWNER: from a press until its last release, all button events go to the party that owns the
      grab. */
  lemma {:induction false} OneOwner(s: State, events: seq<Event>)
    requires Coherent(s.grab) && WhileDown(Presses(events), s.grab.down)
    ensures forall m :: m in Marks(s, events) ==> m.consumed == (s.grab.owner == Substrate)
    decreases |events|
  {
    if events == [] {
    } else {
      var e := events[0];
      var (s', r) := Step(s, e);
      PressesCons(events);
      StepMovesLevels(s, e);
      if s'.grab.down > 0 {
        OwnerStays(s, e);
        OneOwner(s', events[1..]);
      } else {
        NoMarks(s', events[1..]);
      }
      hide Step;
    }
  }

  lemma OwnerStays(s: State, e: Event)
    requires Coherent(s.grab) && s.grab.down > 0 && Step(s, e).0.grab.down > 0
    ensures Step(s, e).0.grab.owner == s.grab.owner
  {
  }

  lemma {:induction false} NoMarks(s: State, events: seq<Event>)
    requires WhileDown(Presses(events), 0)
    ensures Marks(s, events) == []
    decreases |events|
  {
    if events == [] {
    } else {
      PressesCons(events);
      NoMarks(Step(s, events[0]).0, events[1..]);
      hide Step;
    }
  }

  // ---- what each surface holds ----

  /** Presses minus releases delivered to a surface. */
  function Count(log: seq<Delivery>, u: nat): int
    decreases |log|
  {
    if log == [] then 0
    else
      (if log[0].Down? && log[0].u == u then 1 else if log[0].Up? && log[0].u == u then -1 else 0) + Count(log[1..], u)
  }

  lemma {:induction false} CountAppend(a: seq<Delivery>, b: seq<Delivery>, u: nat)
    ensures Count(a + b, u) == Count(a, u) + Count(b, u)
    decreases |a|
  {
    if a == [] {
      assert a + b == b;
    } else {
      assert (a + b)[1..] == a[1..] + b;
      CountAppend(a[1..], b, u);
    }
  }

  function CapturedBy(capture: map<int, nat>, u: nat): set<int> {
    set id | id in capture && capture[id] == u
  }

  /** The buttons and touch points that are down on a surface. */
  function Held(s: State, u: nat): int {
    (if s.grabSurface == Some(u) then s.grab.down else 0) + |CapturedBy(s.capture, u)|
  }

  /** A press joins a grab whose surface has been destroyed, and another surface adopts it. */
  predicate Adopts(s: State, e: Event) {
    && e.Button? && e.pressed
    && s.grab.owner == Substrate && s.grab.down > 0 && s.grabSurface.None?
    && SurfaceAt(s.surfaces, e.x, e.y).Some?
  }

  /** A touch point that is already captured goes down again on a surface. */
  predicate Recaptures(s: State, e: Event) {
    e.TouchDown? && e.id in s.capture && SurfaceAt(s.surfaces, e.x, e.y).Some?
  }

  /** A surface whose account matters after the step: a live one, or one not yet created. */
  predicate Counts(s: State, u: nat) {
    Live(s.surfaces, u) || u >= s.next
  }

  /** The step delivers to u what its holdings change by. */
  ghost predicate Accounts(s: State, e: Event, u: nat) {
    Count(Step(s, e).1.deliveries, u) == Held(Step(s, e).0, u) - Held(s, u)
  }

  lemma CapturedAfterDown(capture: map<int, nat>, id: int, h: nat, u: nat)
    requires id !in capture
    ensures |CapturedBy(capture[id := h], u)| == |CapturedBy(capture, u)| + if u == h then 1 else 0
  {
    if u == h {
      assert CapturedBy(capture[id := h], u) == CapturedBy(capture, u) + {id};
    } else {
      assert CapturedBy(capture[id := h], u) == CapturedBy(capture, u);
    }
  }

  lemma CapturedAfterUp(capture: map<int, nat>, id: int, u: nat)
    requires id in capture
    ensures |CapturedBy(capture - {id}, u)| == |CapturedBy(capture, u)| - if u == capture[id] then 1 else 0
  {
    if u == capture[id] {
      assert CapturedBy(capture, u) == CapturedBy(capture - {id}, u) + {id};
    } else {
      assert CapturedBy(capture - {id}, u) == CapturedBy(capture, u);
    }
  }

  lemma CapturedByNone(s: State, u: nat)
    requires Valid(s) && !Live(s.surfaces, u)
    ensures Held(s, u) == 0
  {
    hide Live;
    assert forall id :: id in s.capture ==> s.capture[id] != u;
    assert CapturedBy(s.capture, u) == {};
  }

  lemma {:induction false} NoClicks(log: seq<Delivery>, u: nat)
    requires forall d :: d in log ==> d.Move? || d.Leave? || d.Reload? || d.u != u
    ensures Count(log, u) == 0
    decreases |log|
  {
    if log == [] {
    } else {
      NoClicks(log[1..], u);
    }
  }

  lemma ClickCount(target: Option<nat>, x: real, y: real, pressed: bool, u: nat)
    ensures Count(Click(target, x, y, pressed), u) == if target == Some(u) then if pressed then 1 else -1 else 0
  {
    if target.Some? {
      var log := Click(target, x, y, pressed);
      assert log[1..] == [log[1]] && log[1..][1..] == [];
      assert Count(log[1..][1..], u) == 0;
    }
  }

  lemma ButtonAccounts(s: State, x: real, y: real, pressed: bool, u: nat)
    requires Valid(s) && !Adopts(s, Button(x, y, pressed))
    ensures Accounts(s, Button(x, y, pressed), u)
  {
    var hit := SurfaceAt(s.surfaces, x, y);
    ClickCount(if s.grabSurface.None? then hit else s.grabSurface, x, y, true, u);
    ClickCount(s.grabSurface, x, y, false, u);
    hide Click, SurfaceAt, Live;
  }

  lemma TouchAccounts(s: State, e: Event, u: nat)
    requires Valid(s) && (e.TouchDown? || e.TouchMotion? || e.TouchEnd?) && !Recaptures(s, e)
    ensures Accounts(s, e, u)
  {
    match e {
      case TouchDown(id, x, y) =>
        var hit := SurfaceAt(s.surfaces, x, y);
        if hit.Some? {
          ClickCount(hit, x, y, true, u);
          CapturedAfterDown(s.capture, id, hit.value, u);
        }
      case TouchMotion(id, x, y) =>
        if id in s.capture {
          NoClicks([Move(s.capture[id], x, y)], u);
        }
      case TouchEnd(id, _) =>
        if id in s.capture {
          CapturedAfterUp(s.capture, id, u);
          assert [Up(s.capture[id])][1..] == [];
        }
    }
  }

  lemma OtherAccounts(s: State, e: Event, u: nat)
    requires Valid(s) && !e.Button? && !e.TouchDown? && !e.TouchMotion? && !e.TouchEnd?
    requires Counts(Step(s, e).0, u)
    ensures Accounts(s, e, u)
  {
    match e {
      case Motion(x, y) =>
        NoClicks(Step(s, e).1.deliveries, u);
      case Tick =>
        NoClicks(Step(s, e).1.deliveries, u);
      case Destroy(v) =>
        assert u != v || !Live(s.surfaces, u);
        if u == v {
          CapturedByNone(s, u);
          StepKeepsValid(s, e);
          CapturedByNone(Destroyed(s, v), u);
        } else {
          assert CapturedBy(Destroyed(s, v).capture, u) == CapturedBy(s.capture, u);
        }
      case _ =>
    }
  }

  /** The account of every surface is right after a step, unless the step adopts or recaptures; and
      then it is wrong for some live surface. */
  lemma StepAccounts(s: State, e: Event)
    requires Valid(s)
    ensures (forall u: nat :: Counts(Step(s, e).0, u) ==> Accounts(s, e, u)) <==> !Adopts(s, e) && !Recaptures(s, e)
  {
    if Adopts(s, e) {
      var u := SurfaceAt(s.surfaces, e.x, e.y).value;
      ClickCount(Some(u), e.x, e.y, true, u);
      assert Counts(Step(s, e).0, u) && !Accounts(s, e, u);
    } else if Recaptures(s, e) {
      RecaptureBreaks(s, e);
    } else {
      forall u: nat | Counts(Step(s, e).0, u)
        ensures Accounts(s, e, u)
      {
        if e.Button? {
          ButtonAccounts(s, e.x, e.y, e.pressed, u);
        } else if e.TouchDown? || e.TouchMotion? || e.TouchEnd? {
          TouchAccounts(s, e, u);
        } else {
          OtherAccounts(s, e, u);
        }
      }
    }
  }

  lemma RecaptureBreaks(s: State, e: Event)
    requires Valid(s) && Recaptures(s, e)
    ensures exists u: nat :: Counts(Step(s, e).0, u) && !Accounts(s, e, u)
  {
    var h, v := SurfaceAt(s.surfaces, e.x, e.y).value, s.capture[e.id];
    var capture := s.capture[e.id := h];
    ClickCount(Some(h), e.x, e.y, true, v);
    if h == v {
      assert capture == s.capture;
    } else {
      assert CapturedBy(s.capture, v) == CapturedBy(capture, v) + {e.id};
    }
    assert Counts(Step(s, e).0, v) && !Accounts(s, e, v);
  }

  /** A run in which no surface adopts an orphaned grab and no captured touch id goes down again on a
      surface. */
  predicate RegularRun(s: State, events: seq<Event>)
    decreases |events|
  {
    || events == []
    || (!Adopts(s, events[0]) && !Recaptures(s, events[0]) && RegularRun(Step(s, events[0]).0, events[1..]))
  }

  /** BALANCE: in a regular run, surfaces being destroyed at will, the presses minus the releases that a
      live surface has had are the buttons and touch points that are down on it. */
  lemma {:induction false} DeliveriesBalance(s: State, events: seq<Event>, u: nat)
    requires Valid(s) && RegularRun(s, events) && Counts(After(s, events), u)
    ensures Count(Log(s, events), u) == Held(After(s, events), u) - Held(s, u)
    decreases |events|
  {
    if events == [] {
    } else {
      var e, rest := events[0], events[1..];
      var s' := Step(s, e).0;
      StepKeepsValid(s, e);
      StepAccounts(s, e);
      DeliveriesBalance(s', rest, u);
      CountsBack(s', rest, u);
      assert Accounts(s, e, u);
      CountAppend(Step(s, e).1.deliveries, Log(s', rest), u);
      hide Step, Held, Count;
    }
  }

  /** No surface is destroyed that holds the grab, and a touch id that is captured does not go down
      again. */
  predicate Gentle(s: State, e: Event) {
    && (e.Destroy? ==> s.grabSurface != Some(e.u))
    && (e.TouchDown? ==> e.id !in s.capture)
  }

  predicate GentleRun(s: State, events: seq<Event>)
    decreases |events|
  {
    events == [] || (Gentle(s, events[0]) && GentleRun(Step(s, events[0]).0, events[1..]))
  }

  /** A substrate grab has its surface. */
  predicate Anchored(s: State) {
    s.grab.owner == Substrate ==> s.grabSurface.Some?
  }

  lemma StepKeepsAnchored(s: State, e: Event)
    requires Valid(s) && Anchored(s) && Gentle(s, e)
    ensures Anchored(Step(s, e).0)
  {
    hide SurfaceAt, Live;
  }

  /** That is how a run becomes irregular: as long as no grab surface dies and touch ids are distinct,
      it is regular. */
  lemma {:induction false} GentleRunIsRegular(s: State, events: seq<Event>)
    requires Valid(s) && Anchored(s) && GentleRun(s, events)
    ensures RegularRun(s, events)
    decreases |events|
  {
    if events == [] {
    } else {
      StepKeepsValid(s, events[0]);
      StepKeepsAnchored(s, events[0]);
      GentleRunIsRegular(Step(s, events[0]).0, events[1..]);
    }
  }

  /** A surface that is live later, or not yet created then, is neither dead now. */
  lemma {:induction false} CountsBack(s: State, events: seq<Event>, u: nat)
    requires Valid(s) && Counts(After(s, events), u)
    ensures Counts(s, u)
    decreases |events|
  {
    if events == [] {
    } else {
      var e := events[0];
      StepKeepsValid(s, e);
      CountsBack(Step(s, e).0, events[1..], u);
      StepCountsBack(s, e, u);
    }
  }

  lemma StepCountsBack(s: State, e: Event, u: nat)
    requires Valid(s) && Counts(Step(s, e).0, u)
    ensures Counts(s, u)
  {
    match e {
      case Create(visible, x, y, w, h) =>
        CreateKeepsLive(s.surfaces, Surface(s.next, visible, x, y, w, h));
      case Change(i, visible, x, y, w, h) =>
        if i < |s.surfaces| {
          ChangeKeepsLive(s.surfaces, i, Surface(s.surfaces[i].id, visible, x, y, w, h));
        }
      case _ =>
    }
  }

  const LEFT_SURFACE: Surface := Surface(0, true, 0, 0, 10, 10)
  const RIGHT_SURFACE: Surface := Surface(1, true, 20, 0, 10, 10)

  lemma HitsInExample()
    ensures SurfaceAt([LEFT_SURFACE, RIGHT_SURFACE], 5.0, 5.0) == Some(0)
    ensures SurfaceAt([RIGHT_SURFACE], 25.0, 5.0) == Some(1)
    ensures Removed([LEFT_SURFACE, RIGHT_SURFACE], 0) == [RIGHT_SURFACE]
  {
    assert [LEFT_SURFACE, RIGHT_SURFACE][..1] == [LEFT_SURFACE] && [LEFT_SURFACE][..0] == [];
    assert [LEFT_SURFACE, RIGHT_SURFACE][1..] == [RIGHT_SURFACE] && [RIGHT_SURFACE][1..] == [];
    assert Removed([RIGHT_SURFACE], 0) == [RIGHT_SURFACE] + Removed([], 0) == [RIGHT_SURFACE];
  }

  lemma RunCons(s: State, e: Event, events: seq<Event>)
    ensures After(s, [e] + events) == After(Step(s, e).0, events)
    ensures Log(s, [e] + events) == Step(s, e).1.deliveries + Log(Step(s, e).0, events)
  {
    assert ([e] + events)[1..] == events;
  }

  /** Surface 0 dies with a button down on it. */
  const BEREAVED: State := State([RIGHT_SURFACE], 2, Grab(1, Substrate), None, map[], [])

  lemma SurfaceDiesInGrab()
    ensures var events := [Create(true, 0, 0, 10, 10), Create(true, 20, 0, 10, 10), Button(5.0, 5.0, true), Destroy(0)];
      After(EMPTY, events) == BEREAVED && Log(EMPTY, events) == [Move(0, 5.0, 5.0), Down(0)]
  {
    var s1 := EMPTY.(surfaces := [LEFT_SURFACE], next := 1);
    var s2 := EMPTY.(surfaces := [LEFT_SURFACE, RIGHT_SURFACE], next := 2);
    var s3 := s2.(grab := Grab(1, Substrate), grabSurface := Some(0));
    HitsInExample();
    assert Step(EMPTY, Create(true, 0, 0, 10, 10)) == (s1, PASSED) by {
      assert [] + [LEFT_SURFACE] == [LEFT_SURFACE];
    }
    assert Step(s1, Create(true, 20, 0, 10, 10)) == (s2, PASSED) by {
      assert [LEFT_SURFACE] + [RIGHT_SURFACE] == [LEFT_SURFACE, RIGHT_SURFACE];
    }
    assert Step(s2, Button(5.0, 5.0, true)) == (s3, Routed(true, [Move(0, 5.0, 5.0), Down(0)])) by {
      hide SurfaceAt;
    }
    assert Step(s3, Destroy(0)) == (BEREAVED, PASSED) by {
      hide Removed;
      assert Others([], 0) == [];
      assert Destroyed(s3, 0).capture == map[];
    }
    assert After(BEREAVED, []) == BEREAVED && Log(BEREAVED, []) == [];
    hide *;
    RunCons(s3, Destroy(0), []);
    RunCons(s2, Button(5.0, 5.0, true), [Destroy(0)]);
    RunCons(s1, Create(true, 20, 0, 10, 10), [Button(5.0, 5.0, true), Destroy(0)]);
    RunCons(EMPTY, Create(true, 0, 0, 10, 10), [Create(true, 20, 0, 10, 10), Button(5.0, 5.0, true), Destroy(0)]);
  }

  lemma NeighbourAdopts()
    ensures Adopts(BEREAVED, Button(25.0, 5.0, true))
    ensures var events := [Button(25.0, 5.0, true), Button(25.0, 5.0, false), Button(25.0, 5.0, false)];
      var m := Move(1, 25.0, 5.0);
      && After(BEREAVED, events) == EMPTY.(surfaces := [RIGHT_SURFACE], next := 2)
      && Log(BEREAVED, events) == [m, Down(1), m, Up(1), m, Up(1)]
  {
    var s1 := BEREAVED.(grab := Grab(2, Substrate), grabSurface := Some(1));
    var s2 := BEREAVED.(grab := Grab(1, Substrate), grabSurface := Some(1));
    var s3 := EMPTY.(surfaces := [RIGHT_SURFACE], next := 2);
    var press, release, m := Button(25.0, 5.0, true), Button(25.0, 5.0, false), Move(1, 25.0, 5.0);
    HitsInExample();
    hide SurfaceAt;
    assert Step(BEREAVED, press) == (s1, Routed(true, [m, Down(1)]));
    assert Step(s1, release) == (s2, Routed(true, [m, Up(1)]));
    assert Step(s2, release) == (s3, Routed(true, [m, Up(1)]));
    assert After(s3, []) == s3 && Log(s3, []) == [];
    hide *;
    RunCons(s2, release, []);
    RunCons(s1, release, [release]);
    RunCons(BEREAVED, press, [release, release]);
    assert [press] + [release, release] == [press, release, release];
    assert [m, Down(1)] + ([m, Up(1)] + ([m, Up(1)] + [])) == [m, Down(1), m, Up(1), m, Up(1)];
  }

  /** Destruction in a grab breaks the balance. From an empty substrate: surface 0 dies with a button
      down, a second button pressed on surface 1 is adopted by it, and it gets both releases, one more
      than presses; at the end it holds nothing. */
  lemma AdoptionUnbalances()
    ensures var s := After(EMPTY, [Create(true, 0, 0, 10, 10), Create(true, 20, 0, 10, 10),
                                   Button(5.0, 5.0, true), Destroy(0)]);
      var events := [Button(25.0, 5.0, true), Button(25.0, 5.0, false), Button(25.0, 5.0, false)];
      && Adopts(s, events[0])
      && Held(s, 1) == 0 && Held(After(s, events), 1) == 0
      && Count(Log(s, events), 1) == -1
  {
    var m := Move(1, 25.0, 5.0);
    assert Held(BEREAVED, 1) == 0 && Held(EMPTY.(surfaces := [RIGHT_SURFACE], next := 2), 1) == 0 by {
      assert CapturedBy(map[], 1) == {};
    }
    assert [m, Down(1), m, Up(1), m, Up(1)] == [m, Down(1)] + ([m, Up(1)] + [m, Up(1)]);
    assert Count([m, Up(1)], 1) == -1 && Count([m, Down(1)], 1) == 1 by {
      assert [m, Up(1)][1..] == [Up(1)] && [m, Down(1)][1..] == [Down(1)] && [Up(1)][1..] == [] && [Down(1)][1..] == [];
    }
    hide *;
    SurfaceDiesInGrab();
    NeighbourAdopts();
    CountAppend([m, Up(1)], [m, Up(1)], 1);
    CountAppend([m, Down(1)], [m, Up(1)] + [m, Up(1)], 1);
  }
}
