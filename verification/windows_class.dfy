/** The shell, the dock and the ring as objects: each handler does what the step function of Windows
    says. */
module WindowsClass {
  import opened Options
  import opened FocusRings
  import opened Windows

  /** The window lists of the dock. */
  class Dock {
    var mapped: seq<Token>
    var focused: Option<Token>
    var slots: seq<Token>

    constructor ()
      ensures mapped == [] && focused == None && slots == []
    {
      mapped, focused, slots := [], None, [];
    }

    /** The `erase` of the standard library, in place on one list. */
    static method Erased(s: seq<Token>, t: Token) returns (kept: seq<Token>)
      ensures kept == Without(s, t)
    {
      kept := [];
      for i := 0 to |s|
        invariant kept == Without(s[..i], t)
      {
        assert s[..i + 1] == s[..i] + [s[i]];
        WithoutSnoc(s[..i], s[i], t);
        if s[i] != t {
          kept := kept + [s[i]];
        }
      }
      assert s[..|s|] == s;
    }

    method Unmapped(t: Token)
      modifies this
      ensures slots == Without(old(slots), t) && mapped == Without(old(mapped), t)
      ensures focused == if old(focused) == Some(t) then None else old(focused)
    {
      slots := Erased(slots, t);
      mapped := Erased(mapped, t);
      if focused == Some(t) {
        focused := None;
      }
    }

    method IsMinimized(t: Token) returns (yes: bool)
      ensures yes == (t in slots)
    {
      for i := 0 to |slots|
        invariant t !in slots[..i]
      {
        if slots[i] == t {
          return true;
        }
      }
      return false;
    }

    method FirstNonMinimizedOther(except: Token) returns (other: Option<Token>)
      ensures other == FirstOther(mapped, except, slots)
      ensures other.Some? ==>
        exists k :: 0 <= k < |mapped| && mapped[k] == other.value && other.value != except && other.value !in slots
          && forall j :: 0 <= j < k ==> mapped[j] == except || mapped[j] in slots
      ensures other.None? ==> forall j :: 0 <= j < |mapped| ==> mapped[j] == except || mapped[j] in slots
    {
      for i := 0 to |mapped|
        invariant FirstOther(mapped, except, slots) == FirstOther(mapped[i..], except, slots)
        invariant forall j :: 0 <= j < i ==> mapped[j] == except || mapped[j] in slots
      {
        var minimized := IsMinimized(mapped[i]);
        if mapped[i] != except && !minimized {
          return Some(mapped[i]);
        }
      }
      return None;
    }
  }

  lemma {:induction false} WithoutSnoc(s: seq<Token>, u: Token, t: Token)
    ensures Without(s + [u], t) == Without(s, t) + if u == t then [] else [u]
  {
    if s == [] {
      assert [] + [u] == [u];
    } else {
      assert (s + [u])[1..] == s[1..] + [u];
      WithoutSnoc(s[1..], u, t);
    }
  }

  /** One compositor session: the shell's toplevels, the seat, and the two units that listen. */
  class Compositor {
    var toplevels: map<Token, bool>
    var seat: Option<Token>
    var keyboard: bool
    var hidden: set<Token>
    const dock: Dock
    const ring: FocusRing

    ghost function State(): Session
      reads this, dock, ring
    {
      Session(toplevels, seat, keyboard, hidden, dock.mapped, dock.focused, dock.slots, ring.State())
    }

    constructor ()
      ensures fresh(dock) && fresh(ring) && State() == START
    {
      toplevels, seat, keyboard, hidden := map[], None, true, {};
      dock := new Dock();
      ring := new FocusRing();
    }

    method NewToplevel(t: Token)
      requires Can(State(), New(t))
      modifies this
      ensures State() == Next(old(State()), New(t))
    {
      toplevels := toplevels[t := false];
    }

    method DestroyToplevel(t: Token)
      requires Can(State(), Destroy(t))
      modifies this
      ensures State() == Next(old(State()), Destroy(t))
    {
      toplevels := toplevels - {t};
    }

    method Focus(t: Token)
      modifies this, dock, ring
      ensures State() == FocusToplevel(old(State()), t)
    {
      if t !in toplevels || !toplevels[t] {
        return;
      }
      if seat == Some(t) {
        return;
      }
      if keyboard {
        seat := Some(t);
      }
      EmitFocused(t);
    }

    method EmitFocused(t: Token)
      modifies dock, ring
      ensures State() == OnFocused(old(State()), t)
    {
      dock.focused := Some(t);
      ring.NoteFocused(t);
    }

    method MapToplevel(t: Token)
      requires Can(State(), Map(t))
      modifies this, dock, ring
      ensures State() == Next(old(State()), Map(t))
    {
      hidden := hidden - {t};
      toplevels := toplevels[t := true];
      Focus(t);
      dock.mapped := dock.mapped + [t];
      dock.focused := Some(t);
      ring.Insert(t);
      ring.NoteFocused(t);
    }

    method UnmapToplevel(t: Token)
      requires Can(State(), Unmap(t)) && Good(State().ring)
      modifies this, dock, ring
      ensures State() == Next(old(State()), Unmap(t))
    {
      dock.Unmapped(t);
      ring.Erase(t);
      toplevels := toplevels[t := false];
    }

    method MinimizeWindow()
      modifies this, dock, ring
      ensures State() == Next(old(State()), Minimize)
    {
      if dock.focused.None? {
        return;
      }
      var t := dock.focused.value;
      dock.slots := dock.slots + [t];
      hidden := hidden + {t};
      var other := dock.FirstNonMinimizedOther(t);
      if other.Some? {
        Focus(other.value);
      } else {
        dock.focused := None;
      }
    }

    method RestoreWindow(i: nat)
      modifies this, dock, ring
      ensures State() == Next(old(State()), Restore(i))
    {
      if i >= |dock.slots| {
        return;
      }
      var t := dock.slots[i];
      dock.slots := dock.slots[..i] + dock.slots[i + 1..];
      hidden := hidden - {t};
      Focus(t);
      dock.focused := Some(t);
    }

    method RotateWindows(forward: bool)
      modifies this, dock, ring
      ensures State() == Next(old(State()), Rotate(forward))
    {
      var to;
      if forward {
        to := ring.NextToken();
      } else {
        to := ring.PrevToken();
      }
      if to.None? {
        return;
      }
      Focus(to.value);
      ring.NoteFocused(to.value);
    }
  }
}
