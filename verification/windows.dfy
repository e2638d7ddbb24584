/** Which windows exist, as three units keep it: the shell's mapped flags
    (packages/ext-xdg-shell/src/extension.cpp), the dock's mapped list, slots and focused pointer
    (packages/ext-stage-dock/src/extension.cpp), the ring of the key bindings
    (packages/ext-keybindings/src/extension.cpp). The shell's events drive the other two. */
module Windows {
  import opened Options
  import opened Sequences
  import opened FocusRings

  /** `seat` is the toplevel whose surface has the keyboard focus of the seat; other code may move
      that focus. `hidden` holds the windows whose scene node the dock has disabled. */
  datatype Session = Session(toplevels: map<Token, bool>, seat: Option<Token>, keyboard: bool, hidden: set<Token>,
                             mapped: seq<Token>, focused: Option<Token>, slots: seq<Token>, ring: Ring)

  const START: Session := Session(map[], None, true, {}, [], None, [], EMPTY)

  datatype Event =
    | New(t: Token)
    | Map(t: Token)
    | Unmap(t: Token)
    | Destroy(t: Token)
    | FocusRequest(t: Token)
    | Rotate(forward: bool)
    | Minimize
    | Restore(i: nat)
    | SeatFocus(focus: Option<Token>)
    | Keyboard(present: bool)

  /** What the protocol library may do next: a toplevel is created once, maps and unmaps in turn, and
      is not mapped when it is destroyed. */
  predicate Can(s: Session, e: Event) {
    match e
    case New(t) => t !in s.toplevels
    case Map(t) => t in s.toplevels && !s.toplevels[t]
    case Unmap(t) => t in s.toplevels && s.toplevels[t]
    case Destroy(t) => t in s.toplevels && !s.toplevels[t]
    case FocusRequest(t) => t in s.toplevels
    case _ => true
  }

  // ---- the shell's events, as the dock and the ring take them ----

  function OnFocused(s: Session, t: Token): Session {
    s.(focused := Some(t), ring := Note(s.ring, t))
  }

  function OnMapped(s: Session, t: Token): Session {
    s.(mapped := s.mapped + [t], focused := Some(t), ring := Note(Add(s.ring, t), t))
  }

  function OnUnmapped(s: Session, t: Token): Session {
    s.(slots := Without(s.slots, t), mapped := Without(s.mapped, t),
       focused := if s.focused == Some(t) then None else s.focused,
       ring := Remove(s.ring, t))
  }

  /** focus_toplevel: without a keyboard the event is emitted and the seat focus stays. */
  function FocusToplevel(s: Session, t: Token): Session {
    if t !in s.toplevels || !s.toplevels[t] || s.seat == Some(t) then s
    else OnFocused(s.(seat := if s.keyboard then Some(t) else s.seat), t)
  }

  // ---- the dock ----

  /** The first mapped window that is neither `t` nor in a slot. */
  function FirstOther(mapped: seq<Token>, t: Token, slots: seq<Token>): (other: Option<Token>)
    ensures other.Some? ==> other.value in mapped && other.value != t && other.value !in slots
    ensures other.None? ==> forall u :: u in mapped ==> u == t || u in slots
  {
    if mapped == [] then None
    else if mapped[0] == t || mapped[0] in slots then FirstOther(mapped[1..], t, slots)
    else Some(mapped[0])
  }

  function MinimizeFocused(s: Session): Session {
    if s.focused.None? then s
    else
      var t := s.focused.value;
      var s1 := s.(slots := s.slots + [t], hidden := s.hidden + {t});
      var other := FirstOther(s1.mapped, t, s1.slots);
      if other.Some? then FocusToplevel(s1, other.value) else s1.(focused := None)
  }

  function RestoreSlot(s: Session, i: nat): Session {
    if i >= |s.slots| then s
    else
      var t := s.slots[i];
      var s1 := s.(slots := s.slots[..i] + s.slots[i + 1..], hidden := s.hidden - {t});
      FocusToplevel(s1, t).(focused := Some(t))
  }

  // ---- rotation ----

  function RotateFocus(s: Session, forward: bool): Session {
    var to := if forward then NextOf(s.ring) else PrevOf(s.ring);
    if to.None? then s
    else
      var s1 := FocusToplevel(s, to.value);
      s1.(ring := Note(s1.ring, to.value))
  }

  function Next(s: Session, e: Event): Session
    requires Can(s, e)
  {
    match e
    case New(t) => s.(toplevels := s.toplevels[t := false])
    case Map(t) =>
      // the scene helper enables the node of a surface that maps
      OnMapped(FocusToplevel(s.(toplevels := s.toplevels[t := true], hidden := s.hidden - {t}), t), t)
    case Unmap(t) =>
      var s1 := OnUnmapped(s, t);
      s1.(toplevels := s1.toplevels[t := false])
    case Destroy(t) => s.(toplevels := s.toplevels - {t})
    case FocusRequest(t) => FocusToplevel(s, t)
    case Rotate(forward) => RotateFocus(s, forward)
    case Minimize => MinimizeFocused(s)
    case Restore(i) => RestoreSlot(s, i)
    case SeatFocus(focus) => s.(seat := focus)
    case Keyboard(present) => s.(keyboard := present)
  }

  // ---- runs ----

  predicate Possible(s: Session, events: seq<Event>)
    decreases |events|
  {
    events == [] || (Can(s, events[0]) && Possible(Next(s, events[0]), events[1..]))
  }

  function After(s: Session, events: seq<Event>): Session
    requires Possible(s, events)
    decreases |events|
  {
    if events == [] then s else After(Next(s, events[0]), events[1..])
  }

  /** The mapped windows in map order, from the map and unmap events alone. */
  function MapOrder(order: seq<Token>, events: seq<Event>): seq<Token>
    decreases |events|
  {
    if events == [] then order
    else
      match events[0]
      case Map(t) => MapOrder(order + [t], events[1..])
      case Unmap(t) => MapOrder(Without(order, t), events[1..])
      case _ => MapOrder(order, events[1..])
  }

  /** The three units agree, and hold no borrow of a window that is not mapped. A mapped window that
      the dock has hidden has a slot it can be brought back from. */
  ghost predicate Agree(s: Session) {
    && Good(s.ring)
    && s.ring.order == s.mapped
    && (forall t :: t in s.mapped <==> t in s.toplevels && s.toplevels[t])
    && (s.focused.Some? ==> s.focused.value in s.mapped)
    && (forall t :: t in s.slots ==> t in s.mapped)
    && (forall t :: t in s.hidden && t in s.mapped ==> t in s.slots)
  }

  lemma FocusKeepsAgree(s: Session, t: Token)
    requires Agree(s)
    ensures var s' := FocusToplevel(s, t);
      Agree(s') && s'.mapped == s.mapped && s'.slots == s.slots && s'.hidden == s.hidden && s'.toplevels == s.toplevels
  {
  }

  lemma MapKeepsAgree(s: Session, t: Token)
    requires Agree(s) && Can(s, Map(t))
    ensures Agree(Next(s, Map(t))) && Next(s, Map(t)).mapped == s.mapped + [t]
  {
    assert t !in s.mapped && t !in s.ring.order;
  }

  lemma UnmapKeepsAgree(s: Session, t: Token)
    requires Agree(s) && Can(s, Unmap(t))
    ensures Agree(Next(s, Unmap(t)))
  {
    WithoutIsDistinct(s.mapped, t);
  }

  lemma MinimizeKeepsAgree(s: Session)
    requires Agree(s)
    ensures Agree(MinimizeFocused(s)) && MinimizeFocused(s).mapped == s.mapped
  {
    if s.focused.Some? {
      var t := s.focused.value;
      var s1 := s.(slots := s.slots + [t], hidden := s.hidden + {t});
      assert Agree(s1);
      var other := FirstOther(s1.mapped, t, s1.slots);
      if other.Some? {
        FocusKeepsAgree(s1, other.value);
      }
    }
  }

  lemma RestoreKeepsAgree(s: Session, i: nat)
    requires Agree(s)
    ensures Agree(RestoreSlot(s, i)) && RestoreSlot(s, i).mapped == s.mapped
  {
  }

  lemma RotateKeepsAgree(s: Session, forward: bool)
    requires Agree(s)
    ensures Agree(RotateFocus(s, forward)) && RotateFocus(s, forward).mapped == s.mapped
  {
    var to := if forward then NextOf(s.ring) else PrevOf(s.ring);
    if to.Some? {
      hide NextOf, PrevOf;
      FocusKeepsAgree(s, to.value);
      hide FocusToplevel;
    }
  }

  lemma NextKeepsAgree(s: Session, e: Event)
    requires Agree(s) && Can(s, e)
    ensures Agree(Next(s, e)) && Next(s, e).mapped == MapOrder(s.mapped, [e])
  {
    assert MapOrder(s.mapped, [e]) == match e
      case Map(t) => s.mapped + [t]
      case Unmap(t) => Without(s.mapped, t)
      case _ => s.mapped
    by {
      assert [e][1..] == [];
    }
    hide MapOrder, FocusToplevel, RestoreSlot, MinimizeFocused;
    match e {
      case Map(t) => MapKeepsAgree(s, t);
      case Unmap(t) => UnmapKeepsAgree(s, t);
      case FocusRequest(t) => FocusKeepsAgree(s, t);
      case Minimize => MinimizeKeepsAgree(s);
      case Restore(i) => RestoreKeepsAgree(s, i);
      case Rotate(forward) => RotateKeepsAgree(s, forward);
      case _ =>
    }
  }

  /** Between events of any run: the ring, the dock's list and the shell's flags name the same
      windows, the first two in the order they were mapped. */
  lemma {:induction false} UnitsAlwaysAgree(s: Session, events: seq<Event>)
    requires Agree(s) && Possible(s, events)
    ensures var s' := After(s, events);
      && Agree(s')
      && s'.ring.order == s'.mapped == MapOrder(s.mapped, events)
    decreases |events|
  {
    if events == [] {
    } else {
      NextKeepsAgree(s, events[0]);
      assert [events[0]][1..] == [];
      UnitsAlwaysAgree(Next(s, events[0]), events[1..]);
    }
  }

  // ---- one slot per window ----

  /** Minimizing is the one step that can give a window a second slot, and does so exactly when the
      focused window already has one. */
  lemma SlotsStayDistinct(s: Session, e: Event)
    requires Agree(s) && Can(s, e) && Distinct(s.slots)
    ensures Distinct(Next(s, e).slots) <==> !(e.Minimize? && s.focused.Some? && s.focused.value in s.slots)
  {
    match e {
      case Unmap(t) => WithoutIsDistinct(s.slots, t);
      case Minimize =>
        if s.focused.Some? {
          MinimizedSlots(s);
          SnocDistinct(s.slots, s.focused.value);
        }
      case _ =>
    }
  }

  lemma MinimizedSlots(s: Session)
    requires s.focused.Some?
    ensures MinimizeFocused(s).slots == s.slots + [s.focused.value]
  {
  }

  lemma SnocDistinct(s: seq<Token>, t: Token)
    requires Distinct(s)
    ensures Distinct(s + [t]) <==> t !in s
  {
    if t in s {
      var i :| 0 <= i < |s| && s[i] == t;
      assert (s + [t])[i] == (s + [t])[|s|];
    }
  }

  lemma RunCons(s: Session, e: Event, events: seq<Event>)
    requires Can(s, e) && Possible(Next(s, e), events)
    ensures Possible(s, [e] + events) && After(s, [e] + events) == After(Next(s, e), events)
  {
    assert ([e] + events)[1..] == events;
  }

  /** One window mapped; both mapped; the second minimized; the second focused again by the ring. */
  const ONE_MAPPED: Session :=
    Session(map[1 := true, 2 := false], Some(1), true, {}, [1], Some(1), [], Ring([1], Some(1)))
  const BOTH_MAPPED: Session :=
    Session(map[1 := true, 2 := true], Some(2), true, {}, [1, 2], Some(2), [], Ring([1, 2], Some(2)))
  const MINIMIZED: Session :=
    Session(map[1 := true, 2 := true], Some(1), true, {2}, [1, 2], Some(1), [2], Ring([1, 2], Some(1)))
  const MINIMIZED_AND_FOCUSED: Session :=
    Session(map[1 := true, 2 := true], Some(2), true, {2}, [1, 2], Some(2), [2], Ring([1, 2], Some(2)))

  lemma FirstWindow(s: Session)
    requires s == START.(toplevels := map[1 := false, 2 := false])
    ensures Next(s, Map(1)) == ONE_MAPPED
  {
  }

  lemma SecondWindow()
    ensures Next(ONE_MAPPED, Map(2)) == BOTH_MAPPED
  {
  }

  lemma MinimizeOneOfTwo()
    ensures Next(BOTH_MAPPED, Minimize) == MINIMIZED
  {
    assert FirstOther([1, 2], 2, [2]) == Some(1);
  }

  lemma RotateToMinimized()
    ensures Next(MINIMIZED, Rotate(true)) == MINIMIZED_AND_FOCUSED
  {
    IndexIs([1, 2], 0);
  }

  lemma FromOneMapped()
    ensures var events := [Map(2), Minimize, Rotate(true)];
      Possible(ONE_MAPPED, events) && After(ONE_MAPPED, events) == MINIMIZED_AND_FOCUSED
  {
    SecondWindow();
    MinimizeOneOfTwo();
    RotateToMinimized();
    assert Can(ONE_MAPPED, Map(2)) && Can(BOTH_MAPPED, Minimize) && Can(MINIMIZED, Rotate(true));
    EndOfRun(MINIMIZED_AND_FOCUSED);
    hide *;
    RunCons(MINIMIZED, Rotate(true), []);
    RunCons(BOTH_MAPPED, Minimize, [Rotate(true)]);
    RunCons(ONE_MAPPED, Map(2), [Minimize, Rotate(true)]);
  }

  lemma AltTabFocusesMinimized()
    ensures var events := [New(1), New(2), Map(1), Map(2), Minimize, Rotate(true)];
      Possible(START, events) && After(START, events) == MINIMIZED_AND_FOCUSED
  {
    var s1 := Next(START, New(1));
    var s2 := Next(s1, New(2));
    FirstWindow(s2);
    FromOneMapped();
    assert Can(START, New(1)) && Can(s1, New(2)) && Can(s2, Map(1));
    hide *;
    RunCons(s2, Map(1), [Map(2), Minimize, Rotate(true)]);
    RunCons(s1, New(2), [Map(1), Map(2), Minimize, Rotate(true)]);
    RunCons(START, New(1), [New(2), Map(1), Map(2), Minimize, Rotate(true)]);
  }

  lemma EndOfRun(s: Session)
    ensures Possible(s, []) && After(s, []) == s
  {
  }

  /** Alt+Tab reaches such a state, and the next minimize gives the window its second slot. */
  lemma TwoSlotsForOneWindow()
    ensures Agree(MINIMIZED_AND_FOCUSED) && Distinct(MINIMIZED_AND_FOCUSED.slots)
    ensures Next(MINIMIZED_AND_FOCUSED, Minimize).slots == [2, 2]
  {
  }

  // ---- minimize and restore ----

  /** Restoring the slot that a minimize has just made undoes it: the same slots, hidden windows,
      mapped windows and focused window. */
  lemma RestoreUndoesMinimize(s: Session)
    requires Agree(s) && s.focused.Some? && s.focused.value !in s.slots
    ensures var s' := RestoreSlot(MinimizeFocused(s), |s.slots|);
      && s'.slots == s.slots && s'.hidden == s.hidden && s'.mapped == s.mapped && s'.focused == s.focused
      && s'.ring.order == s.ring.order && s'.toplevels == s.toplevels
  {
    var t := s.focused.value;
    MinimizedSlots(s);
    var s1 := MinimizeFocused(s);
    assert s1.hidden == s.hidden + {t} && t !in s.hidden;
    assert s1.slots[..|s.slots|] + s1.slots[|s.slots| + 1..] == s.slots;
  }

  /** Window u is another one than the focused, and not in the dock. */
  predicate Stands(s: Session, u: Token) {
    u !in s.slots && s.focused != Some(u)
  }

  /** k is the first place in map order of such a window, or the number of windows if there is none. */
  predicate FirstStands(s: Session, k: nat) {
    && k <= |s.mapped|
    && (forall j :: 0 <= j < k ==> !Stands(s, s.mapped[j]))
    && (k < |s.mapped| ==> Stands(s, s.mapped[k]))
  }

  /** The search stops at the first window that is neither `t` nor in a slot. */
  lemma {:induction false} FirstOtherAt(mapped: seq<Token>, t: Token, slots: seq<Token>, k: nat)
    requires k <= |mapped|
    requires forall j :: 0 <= j < k ==> mapped[j] == t || mapped[j] in slots
    requires k < |mapped| ==> mapped[k] != t && mapped[k] !in slots
    ensures FirstOther(mapped, t, slots) == if k < |mapped| then Some(mapped[k]) else None
  {
    if k == 0 {
    } else {
      FirstOtherAt(mapped[1..], t, slots, k - 1);
    }
  }

  lemma FindFirstStands(s: Session) returns (k: nat)
    ensures FirstStands(s, k)
  {
    k := 0;
    while k < |s.mapped| && !Stands(s, s.mapped[k])
      invariant 0 <= k <= |s.mapped|
      invariant forall j :: 0 <= j < k ==> !Stands(s, s.mapped[j])
    {
      k := k + 1;
    }
  }

  /** What minimizing leaves focused: the first other window that is not in the dock, in sight, and
      nothing if there is none; but the minimized window itself when the seat was already on that other
      one, for then no event comes. With a keyboard the seat ends on it. */
  lemma MinimizeHandsOnFocus(s: Session, k: nat)
    requires Agree(s) && s.focused.Some? && FirstStands(s, k)
    ensures var s' := Next(s, Minimize);
      && s'.focused ==
           (if k == |s.mapped| then None
            else if s.seat == Some(s.mapped[k]) then s.focused
            else Some(s.mapped[k]))
      && (k < |s.mapped| ==> s.mapped[k] !in s'.hidden && s.mapped[k] !in s'.slots)
      && (k < |s.mapped| && s.keyboard ==> s'.seat == Some(s.mapped[k]))
      && s'.slots == s.slots + [s.focused.value] && s'.hidden == s.hidden + {s.focused.value}
  {
    FirstOtherAt(s.mapped, s.focused.value, s.slots + [s.focused.value], k);
  }

  /** Restoring any slot brings its window back and focuses it, and removes that place of the dock. */
  lemma RestoreBringsBack(s: Session, i: nat)
    requires Agree(s) && i < |s.slots|
    ensures var s' := Next(s, Restore(i));
      && s'.focused == Some(s.slots[i])
      && (s.keyboard ==> s'.seat == Some(s.slots[i]))
      && (s.seat != Some(s.slots[i]) ==> s'.ring.cursor == Some(s.slots[i]))
      && s'.slots == s.slots[..i] + s.slots[i + 1..]
      && s'.hidden == s.hidden - {s.slots[i]} && s'.mapped == s.mapped
  {
    assert s.slots[i] in s.slots;
  }

  /** A window that maps becomes the focused one for all three, last in map order and in sight. */
  lemma MapFocuses(s: Session, t: Token)
    requires Agree(s) && Can(s, Map(t))
    ensures var s' := Next(s, Map(t));
      && s'.focused == Some(t) && s'.ring.cursor == Some(t) && (s.keyboard ==> s'.seat == Some(t))
      && s'.mapped == s.mapped + [t] && s'.ring.order == s.mapped + [t]
      && s'.slots == s.slots && t !in s'.hidden
  {
    assert t !in s.mapped;
  }

  /** A window that unmaps is forgotten at its one place and in the dock, and is focused no more. */
  lemma UnmapForgets(s: Session, i: nat)
    requires Agree(s) && i < |s.mapped| && Can(s, Unmap(s.mapped[i]))
    ensures var t := s.mapped[i]; var s' := Next(s, Unmap(t));
      && s'.mapped == s.mapped[..i] + s.mapped[i + 1..] && s'.ring.order == s'.mapped
      && t !in s'.slots && (forall u :: u != t ==> (u in s'.slots <==> u in s.slots))
      && s'.focused == (if s.focused == Some(t) then None else s.focused)
      && s'.ring.cursor == (if s.ring.cursor == Some(t) then None else s.ring.cursor)
  {
    IndexIs(s.mapped, i);
    WithoutIsErase(s.mapped, s.mapped[i]);
  }

  /** A request focuses a mapped window unless the seat is on it already, and no other. */
  lemma RequestFocuses(s: Session, t: Token)
    requires Agree(s) && Can(s, FocusRequest(t))
    ensures var s' := Next(s, FocusRequest(t));
      if t in s.mapped && s.seat != Some(t)
      then s'.focused == Some(t) && s'.ring.cursor == Some(t) && (s'.seat == if s.keyboard then Some(t) else s.seat)
      else s' == s
  {
  }

  // ---- rotating through the session ----

  /** The place `n` places on from place i, going round; one place back is size - 1 on. */
  function Reached(size: nat, i: nat, n: nat): (j: nat)
    requires i < size && n <= size
    ensures j < size
  {
    if i + n < size then i + n else i + n - size
  }

  lemma RotateTo(s: Session, forward: bool, to: Token)
    requires Agree(s) && to in s.mapped && Some(to) == if forward then NextOf(s.ring) else PrevOf(s.ring)
    ensures var s' := Next(s, Rotate(forward));
      && s' == s.(ring := Ring(s.mapped, Some(to)), seat := s'.seat, focused := s'.focused)
      && (s.keyboard ==> s'.seat == Some(to))
      && s'.focused == (if s.seat == Some(to) then s.focused else Some(to))
  {
    hide NextOf, PrevOf, Good;
  }

  /** focus-next and focus-prev go to the place after and before the cursor in map order, and round the
      ends; a seat with a keyboard follows, and so does the dock unless the seat was there already. */
  lemma RotateGoesRound(s: Session, i: nat, forward: bool)
    requires Agree(s) && i < |s.mapped| && s.ring.cursor == Some(s.mapped[i])
    ensures var n := |s.mapped|; var s' := Next(s, Rotate(forward));
      var to := s.mapped[if forward then (if i + 1 < n then i + 1 else 0) else if i > 0 then i - 1 else n - 1];
      && s' == s.(ring := Ring(s.mapped, Some(to)), seat := s'.seat, focused := s'.focused)
      && (s.keyboard ==> s'.seat == Some(to))
      && s'.focused == (if s.seat == Some(to) then s.focused else Some(to))
  {
    var n := |s.mapped|;
    var j := if forward then (if i + 1 < n then i + 1 else 0) else if i > 0 then i - 1 else n - 1;
    assert Good(s.ring) && s.ring.order == s.mapped;
    hide *;
    FocusRings.Turns(s.ring, i);
    assert s.mapped[j] in s.mapped;
    RotateTo(s, forward, s.mapped[j]);
  }

  /** The session after n focus-next steps. */
  function Rotated(s: Session, n: nat): Session
    decreases n
  {
    if n == 0 then s else Next(Rotated(s, n - 1), Rotate(true))
  }

  /** The cursor is at place i, and a seat with a keyboard is `there`. */
  ghost predicate At(s: Session, i: nat, there: bool) {
    && Agree(s) && i < |s.mapped| && s.ring.cursor == Some(s.mapped[i])
    && (there && s.keyboard ==> s.seat == s.ring.cursor)
  }

  lemma OneOn(s: Session, i: nat, there: bool)
    requires At(s, i, there)
    ensures var s' := Next(s, Rotate(true));
      s'.mapped == s.mapped && s'.keyboard == s.keyboard && At(s', Reached(|s.mapped|, i, 1), true)
  {
    assert Reached(|s.mapped|, i, 1) == if i + 1 < |s.mapped| then i + 1 else 0;
    hide Next, Agree;
    RotateGoesRound(s, i, true);
    NextKeepsAgree(s, Rotate(true));
  }

  lemma {:induction false} RotatedAt(s: Session, i: nat, n: nat)
    requires i < |s.mapped| && At(s, i, false) && n <= |s.mapped|
    ensures var s' := Rotated(s, n);
      s'.mapped == s.mapped && s'.keyboard == s.keyboard && At(s', Reached(|s.mapped|, i, n), n > 0)
    decreases n
  {
    hide At, Next;
    if n == 0 {
    } else {
      RotatedAt(s, i, n - 1);
      OneOn(Rotated(s, n - 1), Reached(|s.mapped|, i, n - 1), n - 1 > 0);
    }
  }

  /** The cursor is on a window, and so is a seat with a keyboard. */
  predicate OnWindow(s: Session, t: Token) {
    s.ring.cursor == Some(t) && (s.keyboard ==> s.seat == Some(t))
  }

  lemma AtIsOnWindow(s: Session, i: nat)
    requires At(s, i, true)
    ensures i < |s.mapped| && OnWindow(s, s.mapped[i])
  {
  }

  lemma PlaceInOrder(mapped: seq<Token>, i: nat, k: nat)
    requires i < |mapped| && k < |mapped|
    ensures (mapped[i + 1..] + mapped[..i + 1])[k] == mapped[Reached(|mapped|, i, k + 1)]
  {
  }

  /** ONE ROUND of the session: as many focus-next steps as there are windows focus each of them once,
      in map order from the one after the current, and come back to it; a seat with a keyboard goes
      with them. */
  lemma RoundVisitsAll(s: Session, i: nat)
    requires i < |s.mapped| && At(s, i, false)
    ensures var order := s.mapped[i + 1..] + s.mapped[..i + 1];
      forall k :: 0 <= k < |order| ==> OnWindow(Rotated(s, k + 1), order[k])
  {
    hide *;
    var order := s.mapped[i + 1..] + s.mapped[..i + 1];
    forall k | 0 <= k < |order|
      ensures OnWindow(Rotated(s, k + 1), order[k])
    {
      PlaceInOrder(s.mapped, i, k);
      RotatedAt(s, i, k + 1);
      AtIsOnWindow(Rotated(s, k + 1), Reached(|s.mapped|, i, k + 1));
    }
  }

  /** The seat is on no mapped window but the one the dock takes for focused, if any. */
  predicate SeatFollows(s: Session) {
    s.keyboard && (s.seat.Some? && s.seat.value in s.mapped && s.focused.Some? ==> s.seat == s.focused)
  }

  /** The keyboard stays, and others move the seat only off the windows: a layer surface takes the
      keyboard, or the seat loses a surface that dies. */
  predicate LayersOnly(e: Event) {
    && (e.SeatFocus? ==> e.focus.None?)
    && (e.Keyboard? ==> e.present)
  }

  lemma FocusMovesHere(s: Session, t: Token)
    requires Agree(s) && s.keyboard && t in s.mapped
    ensures FocusToplevel(s, t).seat == Some(t)
    ensures s.seat == Some(t) ==> FocusToplevel(s, t) == s
    ensures s.seat != Some(t) ==> FocusToplevel(s, t).focused == FocusToplevel(s, t).ring.cursor == Some(t)
  {
  }

  lemma FocusKeepsSeatFollows(s: Session, t: Token)
    requires Agree(s) && SeatFollows(s)
    ensures SeatFollows(FocusToplevel(s, t))
  {
  }

  lemma MinimizeKeepsSeatFollows(s: Session)
    requires Agree(s) && SeatFollows(s)
    ensures SeatFollows(MinimizeFocused(s))
  {
    if s.focused.Some? {
      var t := s.focused.value;
      var s1 := s.(slots := s.slots + [t], hidden := s.hidden + {t});
      var other := FirstOther(s1.mapped, t, s1.slots);
      if other.Some? {
        assert Agree(s1);
        FocusKeepsSeatFollows(s1, other.value);
      }
    }
  }

  lemma RestoreKeepsSeatFollows(s: Session, i: nat)
    requires Agree(s) && SeatFollows(s)
    ensures SeatFollows(RestoreSlot(s, i))
  {
    assert i < |s.slots| ==> s.slots[i] in s.slots;
  }

  lemma NextKeepsSeatFollows(s: Session, e: Event)
    requires Agree(s) && SeatFollows(s) && Can(s, e) && LayersOnly(e)
    ensures SeatFollows(Next(s, e))
  {
    match e {
      case FocusRequest(t) => FocusKeepsSeatFollows(s, t);
      case Minimize => MinimizeKeepsSeatFollows(s);
      case Restore(i) => RestoreKeepsSeatFollows(s, i);
      case Rotate(forward) =>
        var to := if forward then NextOf(s.ring) else PrevOf(s.ring);
        if to.Some? {
          FocusKeepsSeatFollows(s, to.value);
        }
      case _ =>
    }
  }

  /** With a keyboard, and whatever takes the keyboard away from the windows, a minimize hands the
      focus to a window in sight, or to none if all are in the dock. */
  lemma {:induction false} MinimizeHandsToOneInSight(s: Session, events: seq<Event>)
    requires Agree(s) && SeatFollows(s) && Possible(s, events) && (forall e :: e in events ==> LayersOnly(e))
    ensures var s' := After(s, events); var m := MinimizeFocused(s');
      s'.focused.Some? ==>
        if m.focused.Some? then m.focused.value !in m.slots && m.focused.value !in m.hidden
        else forall u :: u in m.mapped ==> u in m.slots
    decreases |events|
  {
    if events == [] {
      if s.focused.Some? {
        var k := FindFirstStands(s);
        MinimizeHandsOnFocus(s, k);
        MinimizeKeepsAgree(s);
      }
    } else {
      NextKeepsAgree(s, events[0]);
      NextKeepsSeatFollows(s, events[0]);
      MinimizeHandsToOneInSight(Next(s, events[0]), events[1..]);
    }
  }

  /** The seat is on the window the dock takes for focused, and the ring's cursor with it. */
  predicate OneFocus(s: Session) {
    && s.keyboard
    && (s.focused.Some? ==> s.seat == s.focused)
    && (s.seat.Some? && s.seat.value in s.mapped ==> s.ring.cursor == s.seat)
  }

  /** The keyboard stays, and nobody else moves the seat; it may only lose a window that is unmapped. */
  predicate Quiet(s: Session, e: Event) {
    && (e.SeatFocus? ==> e.focus.None? && (s.seat.Some? ==> s.seat.value !in s.mapped))
    && (e.Keyboard? ==> e.present)
  }

  predicate QuietRun(s: Session, events: seq<Event>)
    requires Possible(s, events)
    decreases |events|
  {
    events == [] || (Quiet(s, events[0]) && QuietRun(Next(s, events[0]), events[1..]))
  }

  lemma FocusKeepsOneFocus(s: Session, t: Token)
    requires Agree(s) && OneFocus(s)
    ensures OneFocus(FocusToplevel(s, t))
  {
  }

  lemma NextKeepsOneFocus(s: Session, e: Event)
    requires Agree(s) && OneFocus(s) && Can(s, e) && Quiet(s, e)
    ensures OneFocus(Next(s, e))
  {
    match e {
      case Map(t) => MapKeepsOneFocus(s, t);
      case FocusRequest(t) => FocusKeepsOneFocus(s, t);
      case Rotate(forward) =>
        var to := if forward then NextOf(s.ring) else PrevOf(s.ring);
        if to.Some? {
          FocusMovesHere(s, to.value);
        }
      case Minimize => MinimizeKeepsOneFocus(s);
      case Restore(i) => RestoreKeepsOneFocus(s, i);
      case _ =>
    }
  }

  lemma MapKeepsOneFocus(s: Session, t: Token)
    requires Agree(s) && OneFocus(s) && Can(s, Map(t))
    ensures OneFocus(Next(s, Map(t)))
  {
  }

  lemma MinimizeKeepsOneFocus(s: Session)
    requires Agree(s) && OneFocus(s)
    ensures OneFocus(MinimizeFocused(s))
  {
  }

  lemma RestoreKeepsOneFocus(s: Session, i: nat)
    requires Agree(s) && OneFocus(s)
    ensures OneFocus(RestoreSlot(s, i))
  {
  }

  /** As long as nobody takes the keyboard away from a mapped window, the seat, the dock and the ring
      have one focus. */
  lemma {:induction false} FocusStaysOne(s: Session, events: seq<Event>)
    requires Agree(s) && OneFocus(s) && Possible(s, events) && QuietRun(s, events)
    ensures var s' := After(s, events);
      OneFocus(s') && (s'.focused.Some? ==> s'.seat == s'.ring.cursor == s'.focused)
    decreases |events|
  {
    if events == [] {
    } else {
      NextKeepsAgree(s, events[0]);
      NextKeepsOneFocus(s, events[0]);
      FocusStaysOne(Next(s, events[0]), events[1..]);
    }
  }

  // ---- without a keyboard ----

  /** The second window mapped while there was no keyboard: the seat stayed on the first. */
  const MAPPED_UNSEEN: Session := BOTH_MAPPED.(seat := Some(1))

  lemma MapWithoutKeyboard()
    ensures var events := [Keyboard(false), Map(2), Keyboard(true)];
      Possible(ONE_MAPPED, events) && After(ONE_MAPPED, events) == MAPPED_UNSEEN
  {
    var s1 := Next(ONE_MAPPED, Keyboard(false));
    var s2 := Next(s1, Map(2));
    assert s2 == MAPPED_UNSEEN.(keyboard := false);
    assert Next(s2, Keyboard(true)) == MAPPED_UNSEEN;
    EndOfRun(MAPPED_UNSEEN);
    hide Next, Possible, After;
    RunCons(s2, Keyboard(true), []);
    RunCons(s1, Map(2), [Keyboard(true)]);
    RunCons(ONE_MAPPED, Keyboard(false), [Map(2), Keyboard(true)]);
  }

  lemma KeyboardComesLate()
    ensures var events := [New(1), New(2), Map(1), Keyboard(false), Map(2), Keyboard(true)];
      Possible(START, events) && After(START, events) == MAPPED_UNSEEN
  {
    var s1 := Next(START, New(1));
    var s2 := Next(s1, New(2));
    FirstWindow(s2);
    MapWithoutKeyboard();
    assert Can(START, New(1)) && Can(s1, New(2)) && Can(s2, Map(1));
    hide *;
    RunCons(s2, Map(1), [Keyboard(false), Map(2), Keyboard(true)]);
    RunCons(s1, New(2), [Map(1), Keyboard(false), Map(2), Keyboard(true)]);
    RunCons(START, New(1), [New(2), Map(1), Keyboard(false), Map(2), Keyboard(true)]);
  }

  /** So after a window has mapped while there was no keyboard, a minimize can leave the dock's focus
      on the window it has just hidden. */
  lemma MinimizedStaysFocused()
    ensures Agree(MAPPED_UNSEEN) && !SeatFollows(MAPPED_UNSEEN)
    ensures var s := Next(MAPPED_UNSEEN, Minimize); s.focused == Some(2) && 2 in s.hidden && s.slots == [2]
  {
    assert FirstOther([1, 2], 2, [2]) == Some(1);
  }
}
