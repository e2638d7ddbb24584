/** The bus as the C++ objects run it: a Hook updates its slots in place; a Bus is the set of hooks
    the isolation sink knows, with the C++ call stack of dispatches made explicit. */
module HooksClass {
  import opened Hooks
  import R = HooksRefinement

  /** Event<Args...> and Filter<T>. */
  class Hook {
    const threads: bool
    var entries: seq<Entry>
    var nextToken: nat
    var depth: nat
    var bound: bool

    function State(): HookState
      reads this
    {
      HookState(entries, nextToken, depth, bound, threads)
    }

    ghost predicate Valid()
      reads this
    {
      Sorted(State())
    }

    constructor (threads: bool)
      ensures Valid() && State() == HookState([], 0, 0, false, threads)
    {
      this.threads := threads;
      entries, nextToken, depth, bound := [], 0, 0, false;
    }

    method SetSink()
      requires Valid()
      modifies this
      ensures Valid() && State() == old(State()).(bound := true)
    {
      bound := true;
    }

    method Subscribe(who: nat) returns (token: nat)
      requires Valid()
      modifies this
      ensures Valid() && State() == Append(old(State()), who)
      ensures token == nextToken && forall k :: 0 <= k < |old(entries)| ==> old(entries)[k].sub.token != token
    {
      nextToken := nextToken + 1;
      token := nextToken;
      entries := entries + [Entry(Sub(token, who), false)];
    }

    method CompactIfIdle()
      modifies this
      ensures State() == Settle(old(State()))
    {
      if depth != 0 {
        return;
      }
      entries := Alive(entries);
    }

    /** erase_if: what is not dead, in order. */
    static method Alive(es: seq<Entry>) returns (kept: seq<Entry>)
      ensures kept == Compact(es)
    {
      kept := [];
      var i := 0;
      assert Compact([]) == [];
      hide Compact;
      while i < |es|
        invariant 0 <= i <= |es|
        invariant kept + Compact(es[i..]) == Compact(es)
      {
        CompactFrom(es, i);
        if !es[i].dead {
          assert kept + ([es[i]] + Compact(es[i + 1..])) == kept + [es[i]] + Compact(es[i + 1..]);
          kept := kept + [es[i]];
        }
        i := i + 1;
      }
      assert es[i..] == [];
    }

    static lemma CompactFrom(es: seq<Entry>, i: nat)
      requires i < |es|
      ensures Compact(es[i..]) == if es[i].dead then Compact(es[i + 1..]) else [es[i]] + Compact(es[i + 1..])
    {
      assert es[i..][1..] == es[i + 1..];
    }

    method Purge(who: nat)
      requires Valid()
      modifies this
      ensures Valid() && State() == Remove(old(State()), ByOwner(who))
    {
      hide Sorted;
      hide Settle;
      R.RemoveSorted(State(), ByOwner(who));
      var i := 0;
      while i < |entries|
        invariant 0 <= i <= |entries| == |old(entries)|
        invariant forall k :: 0 <= k < i ==> entries[k] == Kill(old(entries), ByOwner(who))[k]
        invariant forall k :: i <= k < |entries| ==> entries[k] == old(entries)[k]
        invariant State() == old(State()).(entries := entries)
      {
        if entries[i].sub.who == who {
          entries := entries[i := entries[i].(dead := true)];
        }
        i := i + 1;
      }
      assert entries == Kill(old(entries), ByOwner(who));
      CompactIfIdle();
    }

    method Unsubscribe(token: nat)
      requires Valid()
      modifies this
      ensures Valid() && State() == Remove(old(State()), ByToken(token))
    {
      hide Settle;
      R.RemoveSorted(State(), ByToken(token));
      var i := 0;
      while i < |entries| && entries[i].sub.token != token
        invariant 0 <= i <= |entries|
        invariant forall k :: 0 <= k < i ==> entries[k].sub.token != token
        invariant unchanged(this)
      {
        i := i + 1;
      }
      if i < |entries| {
        assert forall k :: i < k < |entries| ==> entries[k].sub.token != token;
        entries := entries[i := entries[i].(dead := true)];
      }
      assert entries == Kill(old(entries), ByToken(token));
      CompactIfIdle();
    }

    /** The head of the dispatch loop: skip tombstones. */
    method Scan(start: nat, n: nat) returns (i: nat)
      requires start <= n <= |entries|
      ensures i == NextLive(entries, start, n)
    {
      i := start;
      while i < n && entries[i].dead
        invariant start <= i <= n
        invariant NextLive(entries, i, n) == NextLive(entries, start, n)
      {
        i := i + 1;
      }
    }

    method Enter() returns (n: nat)
      requires Valid()
      modifies this
      ensures Valid() && State() == old(State()).(depth := old(depth) + 1) && n == |entries|
    {
      depth := depth + 1;
      n := |entries|;
    }

    method Exit()
      requires Valid() && depth > 0
      modifies this
      ensures Valid() && State() == Settle(old(State()).(depth := old(depth) - 1))
    {
      R.DepthIrrelevant(State(), depth - 1);
      R.SettleSorted(State().(depth := depth - 1));
      depth := depth - 1;
      CompactIfIdle();
    }
  }

  class Bus<V> {
    var hooks: seq<Hook>
    var stack: seq<Frame<V>>

    function State(): Machine<V>
      reads this, hooks
    {
      Machine(seq(|hooks|, k requires 0 <= k < |hooks| reads this, hooks => hooks[k].State()), stack)
    }

    ghost predicate Owned()
      reads this, hooks
    {
      && (forall i, j :: 0 <= i < j < |hooks| ==> hooks[i] != hooks[j])
      && (forall i :: 0 <= i < |hooks| ==> hooks[i].Valid())
    }

    ghost predicate Valid()
      reads this, hooks
    {
      Owned() && Hooks.Valid(State())
    }

    constructor ()
      ensures Valid() && State() == Machine([], []) && hooks == []
    {
      hooks, stack := [], [];
    }

    method NewHook(threads: bool) returns (h: Hook)
      requires Valid()
      modifies this`hooks
      ensures Valid() && fresh(h) && State() == Step(old(State()), Input.NewHook(threads)).0
    {
      ghost var was := State();
      R.StepKeepsValid(was, Input.NewHook(threads));
      hide Hooks.Valid;
      h := new Hook(threads);
      hooks := hooks + [h];
      assert State().hooks == was.hooks + [h.State()];
    }

    method Adopt(h: nat)
      requires Valid() && h < |hooks|
      modifies hooks
      ensures Valid() && State() == Step(old(State()), Input.Adopt(h)).0
    {
      hide Sorted;
      ghost var was := State();
      R.StepKeepsValid(was, Input.Adopt(h));
      hide Hooks.Valid;
      hooks[h].SetSink();
      assert State().hooks == was.hooks[h := was.hooks[h].(bound := true)];
    }

    method Subscribe(h: nat, who: nat) returns (token: nat)
      requires Valid() && h < |hooks|
      modifies hooks
      ensures Valid() && (State(), Subscribed(token)) == Step(old(State()), Input.Subscribe(h, who))
    {
      hide Sorted;
      ghost var was := State();
      R.StepKeepsValid(was, Input.Subscribe(h, who));
      hide Hooks.Valid;
      token := hooks[h].Subscribe(who);
      assert State().hooks == was.hooks[h := Append(was.hooks[h], who)];
    }

    method Unsubscribe(h: nat, token: nat)
      requires Valid() && h < |hooks|
      modifies hooks
      ensures Valid() && State() == Step(old(State()), Input.Unsubscribe(h, token)).0
    {
      hide Sorted;
      ghost var was := State();
      R.StepKeepsValid(was, Input.Unsubscribe(h, token));
      RemoveOnOne(was.hooks, h, ByToken(token));
      hide Remove, RemoveOn;
      hide Hooks.Valid;
      hooks[h].Unsubscribe(token);
      assert State().hooks == was.hooks[h := Remove(was.hooks[h], ByToken(token))];
    }

    static lemma RemoveOnOne(hs: seq<HookState>, h: nat, sel: Selector)
      requires h < |hs|
      ensures RemoveOn(hs, {h}, sel) == hs[h := Remove(hs[h], sel)]
    {
      hide Remove;
    }

    /** `Impl::disable`: purge `who` from every hook of the registry. */
    method PurgeEverywhere(who: nat)
      requires Owned()
      modifies hooks
      ensures Owned()
      ensures var m := old(State()); State() == m.(hooks := RemoveOn(m.hooks, BoundHooks(m.hooks), ByOwner(who)))
    {
      hide Sorted;
      hide Remove;
      ghost var was := State().hooks;
      var i := 0;
      while i < |hooks|
        invariant 0 <= i <= |hooks|
        invariant Owned()
        invariant forall k :: 0 <= k < i ==>
          hooks[k].State() == if was[k].bound then Remove(was[k], ByOwner(who)) else was[k]
        invariant forall k :: i <= k < |hooks| ==> hooks[k].State() == was[k]
      {
        if hooks[i].bound {
          hooks[i].Purge(who);
        }
        i := i + 1;
      }
      assert State().hooks == RemoveOn(was, BoundHooks(was), ByOwner(who));
    }

    /** Go on with the dispatch of frame f, which is not on the stack. */
    method Dispatch(f: Frame<V>) returns (out: Output<V>)
      requires Owned() && CanResume(State().hooks, f)
      modifies this`stack, hooks
      ensures Owned() && hooks == old(hooks)
      ensures (State(), out) == Resume(old(State()).hooks, old(stack), f)
    {
      hide Sorted;
      hide Settle;
      ghost var was := State().hooks;
      var h := hooks[f.hook];
      assert was[f.hook] == h.State();
      var j := h.Scan(f.i, f.n);
      if j < f.n {
        stack := stack + [f.(i := j)];
        out := Fire(f.hook, h.entries[j].sub.token, f.value);
        assert State().hooks == was;
      } else {
        h.Exit();
        out := Done(f.hook, f.value);
        assert State().hooks == was[f.hook := Settle(was[f.hook].(depth := was[f.hook].depth - 1))];
      }
    }

    method Emit(h: nat, value: V) returns (out: Output<V>)
      requires Valid()
      modifies this`stack, hooks
      ensures Valid() && (State(), out) == Step(old(State()), Input.Emit(h, value))
    {
      hide Sorted;
      hide Resume;
      ghost var was := State();
      R.StepKeepsValid(was, Input.Emit(h, value));
      if h >= |hooks| {
        return Quiet;
      }
      var n := hooks[h].Enter();
      assert State().hooks == was.hooks[h := was.hooks[h].(depth := was.hooks[h].depth + 1)];
      out := Dispatch(Frame(h, 0, n, value));
    }

    method CallbackReturns(value: V) returns (out: Output<V>)
      requires Valid()
      modifies this`stack, hooks
      ensures Valid() && (State(), out) == Step(old(State()), Return(value))
    {
      hide Sorted;
      hide Resume;
      ghost var was := State();
      hide Hooks.Valid;
      R.StepKeepsValid(was, Return(value));
      if stack == [] {
        return Quiet;
      }
      TopCanLeave(was);
      var f := stack[|stack| - 1];
      stack := stack[..|stack| - 1];
      assert State().hooks == was.hooks;
      out := Dispatch(f.(i := f.i + 1, value := if hooks[f.hook].threads then value else f.value));
    }

    method CallbackThrows() returns (out: Output<V>)
      requires Valid()
      modifies this`stack, hooks
      ensures Valid() && (State(), out) == Step(old(State()), Throw)
    {
      hide Sorted;
      hide Resume;
      hide RemoveOn;
      hide Remove;
      hide Hooks.Valid;
      ghost var was := State();
      R.StepKeepsValid(was, Throw);
      if stack == [] {
        return Quiet;
      }
      TopCanLeave(was);
      var f := stack[|stack| - 1];
      assert was.hooks[f.hook] == hooks[f.hook].State();
      DisableOwner(f.hook, hooks[f.hook].entries[f.i].sub.who);
      assert State() == Thrown(was);
      stack := stack[..|stack| - 1];
      assert State() == Machine(Thrown(was).hooks, Below(was));
      out := Dispatch(f.(i := f.i + 1));
    }

    /** `disable_owner`, as hook h runs it. */
    method DisableOwner(h: nat, who: nat)
      requires Owned() && h < |hooks|
      modifies hooks
      ensures Owned()
      ensures var was := old(State());
        State() == was.(hooks := RemoveOn(was.hooks, ThrowScope(was.hooks, h, who), ByOwner(who)))
    {
      hide Sorted;
      hide Remove;
      ghost var was := State();
      if hooks[h].bound && who != KERNEL {
        PurgeEverywhere(who);
      } else {
        hooks[h].Purge(who);
        assert State().hooks == RemoveOn(was.hooks, {h}, ByOwner(who));
      }
    }
  }
}
