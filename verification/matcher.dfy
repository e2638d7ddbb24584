/** The key matcher of the key bindings extension (packages/ext-keybindings/src/policy.hpp): which
    binding a key event fires, with the state machine of the bare-Super tap. */
module KeyMatcher {
  import opened Options
  import opened Combos

  const SUPER_L: bv32 := 0xffeb
  const SUPER_R: bv32 := 0xffec

  predicate IsSuper(keysym: bv32) {
    keysym == SUPER_L || keysym == SUPER_R
  }

  /** One key event of the filter. */
  datatype Key = Key(keysym: bv32, modifiers: bv32, pressed: bool)

  /** What an event fires: an index into the bindings, and whether the key is consumed. */
  datatype Outcome = Outcome(fired: Option<nat>, consume: bool)

  const NOTHING: Outcome := Outcome(None, false)

  datatype Tap = Tap(down: bool, used: bool)

  // ---- which binding ----

  predicate TapsSuper(c: Combo) {
    c.isTap && c.modifiers & LOGO != 0
  }

  predicate Matches(c: Combo, k: Key) {
    !c.isTap && c.keysym == k.keysym && c.modifiers & RELEVANT == k.modifiers & RELEVANT
  }

  /** `fired` is the first binding of the table that qualifies, if any does. */
  predicate IsFirst(bindings: seq<Combo>, qualifies: Combo -> bool, fired: Option<nat>) {
    match fired
    case None => forall i :: 0 <= i < |bindings| ==> !qualifies(bindings[i])
    case Some(n) => n < |bindings| && qualifies(bindings[n]) && forall i :: 0 <= i < n ==> !qualifies(bindings[i])
  }

  function First(bindings: seq<Combo>, qualifies: Combo -> bool): (fired: Option<nat>)
    ensures IsFirst(bindings, qualifies, fired)
  {
    if bindings == [] then None
    else if qualifies(bindings[0]) then Some(0)
    else
      match First(bindings[1..], qualifies)
      case None => None
      case Some(n) => Some(n + 1)
  }

  lemma FirstIsUnique(bindings: seq<Combo>, qualifies: Combo -> bool, a: Option<nat>, b: Option<nat>)
    requires IsFirst(bindings, qualifies, a) && IsFirst(bindings, qualifies, b)
    ensures a == b
  {
    assert a.Some? && b.Some? ==> !(a.value < b.value) && !(b.value < a.value);
  }

  function FirstTap(bindings: seq<Combo>): Option<nat> {
    First(bindings, TapsSuper)
  }

  function FirstChord(bindings: seq<Combo>, k: Key): Option<nat> {
    First(bindings, c => Matches(c, k))
  }

  // ---- the state machine ----

  function Next(t: Tap, k: Key): Tap {
    if IsSuper(k.keysym) then
      if !k.pressed then Tap(false, false) else if t.down then t else Tap(true, false)
    else if k.pressed then Tap(t.down, t.used || t.down || k.modifiers & LOGO != 0)
    else t
  }

  function Fires(bindings: seq<Combo>, t: Tap, k: Key): Outcome {
    if IsSuper(k.keysym) then
      if !k.pressed && t.down && !t.used then Outcome(FirstTap(bindings), false) else NOTHING
    else if k.pressed then
      var chord := FirstChord(bindings, k);
      Outcome(chord, chord.Some?)
    else NOTHING
  }

  function After(history: seq<Key>): Tap
    decreases |history|
  {
    if history == [] then Tap(false, false)
    else Next(After(history[..|history| - 1]), history[|history| - 1])
  }

  // ---- what the user did ----

  predicate SuperRelease(k: Key) {
    IsSuper(k.keysym) && !k.pressed
  }

  predicate SuperPress(k: Key) {
    IsSuper(k.keysym) && k.pressed
  }

  predicate OtherPress(k: Key) {
    !IsSuper(k.keysym) && k.pressed
  }

  /** Every Super press has been followed by a Super release. */
  predicate Released(history: seq<Key>) {
    forall i :: 0 <= i < |history| && SuperPress(history[i]) ==>
      exists j :: i < j < |history| && SuperRelease(history[j])
  }

  /** The first Super press since the last Super release is at p. */
  predicate HeldSince(history: seq<Key>, p: nat) {
    && p < |history|
    && SuperPress(history[p])
    && (forall i :: p < i < |history| ==> !SuperRelease(history[i]))
    && Released(history[..p])
  }

  predicate OtherAfter(history: seq<Key>, p: nat) {
    exists i :: p < i < |history| && OtherPress(history[i])
  }

  /** Super went down since it was last released, and no other key has been pressed after that. */
  ghost predicate CleanTap(history: seq<Key>) {
    exists p: nat :: HeldSince(history, p) && !OtherAfter(history, p)
  }

  /** There is one such press at most. */
  lemma HeldSinceOne(history: seq<Key>, p: nat, q: nat)
    requires HeldSince(history, p) && HeldSince(history, q)
    ensures p == q
  {
    NotHeldEarlier(history, p, q);
    NotHeldEarlier(history, q, p);
  }

  lemma NotHeldEarlier(history: seq<Key>, p: nat, q: nat)
    requires HeldSince(history, p) && HeldSince(history, q)
    ensures p >= q
  {
    var before := history[..q];
    assert forall i :: 0 <= i < q ==> before[i] == history[i];
  }

  /** What a state of the machine says of the history: whether Super is down, and if so whether
      another key was pressed since. */
  ghost predicate FlagsSay(t: Tap, history: seq<Key>) {
    if t.down then exists p: nat :: HeldSince(history, p) && (t.used <==> OtherAfter(history, p)) else Released(history)
  }

  /** The two flags, read off the history: Super counts as down from the first press after the last
      release, and the tap is used once another key is pressed in that time. */
  lemma {:induction false} FlagsSayWhatHappened(history: seq<Key>)
    ensures FlagsSay(After(history), history)
    decreases |history|
  {
    if history == [] {
    } else {
      var before, k := history[..|history| - 1], history[|history| - 1];
      FlagsSayWhatHappened(before);
      assert before + [k] == history;
      hide After;
      FlagsAfter(before, k, After(before));
    }
  }

  lemma FlagsAfter(history: seq<Key>, k: Key, t: Tap)
    requires FlagsSay(t, history)
    ensures FlagsSay(Next(t, k), history + [k])
  {
    var grown := history + [k];
    assert grown[|history|] == k;
    if SuperRelease(k) {
    } else if t.down {
      var p: nat :| HeldSince(history, p) && (t.used <==> OtherAfter(history, p));
      assert history[..p] == grown[..p];
      assert HeldSince(grown, p);
      OtherAfterGrows(history, k, p);
    } else if SuperPress(k) {
      assert grown[..|history|] == history;
      assert HeldSince(grown, |history|);
    } else {
      ReleasedGrows(history, k);
    }
  }

  lemma OtherAfterGrows(history: seq<Key>, k: Key, p: nat)
    requires p < |history|
    ensures OtherAfter(history + [k], p) <==> OtherAfter(history, p) || OtherPress(k)
  {
    var grown := history + [k];
    assert grown[|history|] == k;
    if OtherAfter(history, p) {
      var i :| p < i < |history| && OtherPress(history[i]);
      assert OtherPress(grown[i]);
    }
  }

  lemma ReleasedGrows(history: seq<Key>, k: Key)
    requires Released(history) && !SuperPress(k)
    ensures Released(history + [k])
  {
    var grown := history + [k];
    forall i | 0 <= i < |grown| && SuperPress(grown[i])
      ensures exists j :: i < j < |grown| && SuperRelease(grown[j])
    {
      assert SuperPress(history[i]);
      var j :| i < j < |history| && SuperRelease(history[j]);
      assert SuperRelease(grown[j]);
    }
  }

  lemma ReleasedHoldsNothing(history: seq<Key>)
    requires Released(history)
    ensures !CleanTap(history)
  {
    assert forall p: nat :: p < |history| && SuperPress(history[p]) ==> !HeldSince(history, p);
  }

  /** Over every history: a Super release fires a tap exactly when the tap was clean, and then the
      first Super tap of the table; a press of another key fires the first chord with its key and
      exactly its modifiers; nothing else fires, and chords alone are consumed. */
  lemma WhatFires(bindings: seq<Combo>, history: seq<Key>, k: Key)
    ensures var out := Fires(bindings, After(history), k);
      && (SuperRelease(k) ==> out == if CleanTap(history) then Outcome(FirstTap(bindings), false) else NOTHING)
      && (OtherPress(k) ==> out == Outcome(FirstChord(bindings, k), FirstChord(bindings, k).Some?))
      && (!SuperRelease(k) && !OtherPress(k) ==> out == NOTHING)
  {
    FlagsSayWhatHappened(history);
    var t := After(history);
    if t.down {
      var p: nat :| HeldSince(history, p) && (t.used <==> OtherAfter(history, p));
      if CleanTap(history) {
        var q: nat :| HeldSince(history, q) && !OtherAfter(history, q);
        HeldSinceOne(history, p, q);
      }
    } else {
      ReleasedHoldsNothing(history);
    }
  }

  // ---- which modifiers count ----

  /** Two masks have the same Shift, Ctrl, Alt and Super. */
  predicate SameModifiers(a: bv32, b: bv32) {
    a & 1 == b & 1 && a & 4 == b & 4 && a & 8 == b & 8 && a & 64 == b & 64
  }

  lemma OneBit(a: bv32)
    ensures a & 77 & 1 == a & 1 && a & 77 & 4 == a & 4 && a & 77 & 8 == a & 8 && a & 77 & 64 == a & 64
  {
  }

  lemma RelevantIsFourBits(a: bv32)
    ensures a & 77 == (a & 1) | (a & 4) | (a & 8) | (a & 64)
  {
    AndOr(a, 1, 4);
    AndOr(a, 5, 8);
    AndOr(a, 13, 64);
    assert 1 as bv32 | 4 == 5 && 5 as bv32 | 8 == 13 && 13 as bv32 | 64 == 77;
  }

  lemma RelevantIsSame(a: bv32, b: bv32)
    ensures a & RELEVANT == b & RELEVANT <==> SameModifiers(a, b)
  {
    OneBit(a);
    OneBit(b);
    RelevantIsFourBits(a);
    RelevantIsFourBits(b);
  }

  /** A chord for exactly this key and these modifiers: one that differs prevents it. */
  predicate ExactChord(c: Combo, k: Key) {
    !c.isTap && c.keysym == k.keysym && SameModifiers(c.modifiers, k.modifiers)
  }

  /** A press of a key other than Super fires the first binding of the table that is a chord with this key
      and exactly these of the four modifiers, and consumes the key if there is one. */
  lemma ChordsAreExact(bindings: seq<Combo>, t: Tap, k: Key)
    requires OtherPress(k)
    ensures var out := Fires(bindings, t, k);
      IsFirst(bindings, c => ExactChord(c, k), out.fired) && (out.consume <==> out.fired.Some?)
  {
    forall c
      ensures Matches(c, k) <==> ExactChord(c, k)
    {
      RelevantIsSame(c.modifiers, k.modifiers);
    }
    assert IsFirst(bindings, c => Matches(c, k), FirstChord(bindings, k));
    hide Matches, ExactChord, First;
  }

  /** A release of the left or right Super key after a clean tap fires the first tap of the table whose
      modifiers include Super, and never consumes the key. */
  lemma TapsAreExact(bindings: seq<Combo>, t: Tap, k: Key)
    requires (k.keysym == 0xffeb || k.keysym == 0xffec) && !k.pressed && t.down && !t.used
    ensures var out := Fires(bindings, t, k);
      IsFirst(bindings, (c: Combo) => c.isTap && c.modifiers & 64 != 0, out.fired) && !out.consume
  {
    assert IsFirst(bindings, TapsSuper, FirstTap(bindings));
    assert forall c :: TapsSuper(c) <==> c.isTap && c.modifiers & 64 != 0;
    hide TapsSuper, First;
  }

  /** The lock modifiers, and every other bit, never change what fires nor the state. */
  lemma LocksNeverMatter(bindings: seq<Combo>, t: Tap, k: Key, modifiers: bv32)
    requires SameModifiers(k.modifiers, modifiers)
    ensures Fires(bindings, t, k.(modifiers := modifiers)) == Fires(bindings, t, k)
    ensures Next(t, k.(modifiers := modifiers)) == Next(t, k)
  {
    var k' := k.(modifiers := modifiers);
    RelevantIsSame(k.modifiers, modifiers);
    if OtherPress(k) {
      assert forall c :: Matches(c, k) <==> Matches(c, k');
      FirstIsUnique(bindings, c => Matches(c, k), FirstChord(bindings, k), FirstChord(bindings, k'));
    }
  }

  // ---- the class ----

  /** The Matcher: its table, the cached "some binding taps Super", and the two flags. */
  class Matcher {
    const bindings: seq<Combo>
    const superTap: bool
    var superDown: bool
    var superUsed: bool

    ghost predicate Valid() {
      superTap <==> FirstTap(bindings).Some?
    }

    function State(): Tap
      reads this
    {
      Tap(superDown, superUsed)
    }

    constructor (bindings: seq<Combo>)
      ensures Valid() && this.bindings == bindings && State() == After([])
    {
      this.bindings := bindings;
      var found := false;
      for i := 0 to |bindings|
        invariant !found && forall j :: 0 <= j < i ==> !TapsSuper(bindings[j])
      {
        if bindings[i].isTap && bindings[i].modifiers & LOGO != 0 {
          found := true;
          break;
        }
      }
      superTap := found;
      superDown, superUsed := false, false;
    }

    method Feed(k: Key) returns (out: Outcome)
      requires Valid()
      modifies this
      ensures State() == Next(old(State()), k)
      ensures out == Fires(bindings, old(State()), k)
    {
      if IsSuper(k.keysym) {
        if k.pressed {
          if !superDown {
            superDown, superUsed := true, false;
          }
        } else {
          out := NOTHING;
          if superDown && !superUsed {
            var fired := FindSuperTap();
            out := Outcome(fired, false);
          }
          superDown, superUsed := false, false;
          return;
        }
        return NOTHING;
      }
      if k.pressed && superDown {
        superUsed := true;
      }
      if k.pressed && k.modifiers & LOGO != 0 {
        superUsed := true;
      }
      if k.pressed {
        for i := 0 to |bindings|
          invariant forall j :: 0 <= j < i ==> !Matches(bindings[j], k)
        {
          if !bindings[i].isTap {
            if bindings[i].keysym == k.keysym && bindings[i].modifiers & RELEVANT == k.modifiers & RELEVANT {
              FirstIsUnique(bindings, c => Matches(c, k), Some(i), FirstChord(bindings, k));
              return Outcome(Some(i), true);
            }
          }
        }
        FirstIsUnique(bindings, c => Matches(c, k), None, FirstChord(bindings, k));
      }
      return NOTHING;
    }

    method FindSuperTap() returns (fired: Option<nat>)
      requires Valid()
      ensures fired == FirstTap(bindings)
    {
      if !superTap {
        return None;
      }
      for i := 0 to |bindings|
        invariant forall j :: 0 <= j < i ==> !TapsSuper(bindings[j])
      {
        if bindings[i].isTap && bindings[i].modifiers & LOGO != 0 {
          FirstIsUnique(bindings, TapsSuper, Some(i), FirstTap(bindings));
          return Some(i);
        }
      }
      return None;
    }
  }
}
