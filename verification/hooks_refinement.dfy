/** The tombstoning bus refines the reference bus, for every program that drives it. */
module HooksRefinement {
  import opened Hooks
  import opened HooksReference

  function Live(es: seq<Entry>): seq<Sub> {
    if es == [] then [] else (if es[0].dead then [] else [es[0].sub]) + Live(es[1..])
  }

  function AbsHook(h: HookState): RefHook {
    RefHook(Live(h.entries), h.next, h.bound, h.threads)
  }

  function AbsFrame<V>(hooks: seq<HookState>, f: Frame<V>): RefFrame<V>
    requires FrameOk(hooks, f)
  {
    RefFrame(f.hook, Running(hooks, f), Live(hooks[f.hook].entries[f.i + 1..f.n]), f.value)
  }

  function AbsHooks(hooks: seq<HookState>): (r: seq<RefHook>)
    ensures |r| == |hooks|
  {
    seq(|hooks|, k requires 0 <= k < |hooks| => AbsHook(hooks[k]))
  }

  function AbsStack<V>(hooks: seq<HookState>, stack: seq<Frame<V>>): (r: seq<RefFrame<V>>)
    requires forall k :: 0 <= k < |stack| ==> FrameOk(hooks, stack[k])
    ensures |r| == |stack|
  {
    seq(|stack|, k requires 0 <= k < |stack| => AbsFrame(hooks, stack[k]))
  }

  function Abs<V>(m: Machine<V>): RefMachine<V>
    requires Valid(m)
  {
    RefMachine(AbsHooks(m.hooks), AbsStack(m.hooks, m.stack))
  }

  // ---- lists of slots ----

  lemma {:induction false} LiveConcat(a: seq<Entry>, b: seq<Entry>)
    ensures Live(a + b) == Live(a) + Live(b)
  {
    if a == [] {
      assert a + b == b;
    } else {
      assert (a + b)[1..] == a[1..] + b;
      LiveConcat(a[1..], b);
    }
  }

  lemma {:induction false} LiveOfDead(es: seq<Entry>)
    requires forall k :: 0 <= k < |es| ==> es[k].dead
    ensures Live(es) == []
  {
    if es == [] {
    } else {
      LiveOfDead(es[1..]);
    }
  }

  lemma {:induction false} LiveKill(es: seq<Entry>, sel: Selector)
    ensures Live(Kill(es, sel)) == Strike(Live(es), sel)
  {
    if es == [] {
    } else {
      assert Kill(es, sel)[1..] == Kill(es[1..], sel);
      LiveKill(es[1..], sel);
      var head := if es[0].dead then [] else [es[0].sub];
      StrikeConcat(head, Live(es[1..]), sel);
    }
  }

  lemma KillSlice(es: seq<Entry>, sel: Selector, a: nat, b: nat)
    requires a <= b <= |es|
    ensures Kill(es, sel)[a..b] == Kill(es[a..b], sel)
  {
  }

  lemma {:induction false} StrikeConcat(a: seq<Sub>, b: seq<Sub>, sel: Selector)
    ensures Strike(a + b, sel) == Strike(a, sel) + Strike(b, sel)
  {
    if a == [] {
      assert a + b == b;
    } else {
      assert (a + b)[1..] == a[1..] + b;
      StrikeConcat(a[1..], b, sel);
    }
  }

  lemma {:induction false} LiveCompact(es: seq<Entry>)
    ensures Live(Compact(es)) == Live(es)
    ensures forall k :: 0 <= k < |Compact(es)| ==> Compact(es)[k] in es && !Compact(es)[k].dead
  {
    if es == [] {
    } else {
      LiveCompact(es[1..]);
      LiveConcat(if es[0].dead then [] else [es[0]], Compact(es[1..]));
    }
  }

  /** Erasing tombstones changes nothing a user can see. */
  lemma SettleKeeps(h: HookState)
    ensures Settle(h).depth == 0 ==> NoTombstone(Settle(h).entries)
    ensures AbsHook(Settle(h)) == AbsHook(h)
  {
    LiveCompact(h.entries);
  }

  lemma RemoveKeeps(h: HookState, sel: Selector)
    ensures Remove(h, sel).depth == 0 ==> NoTombstone(Remove(h, sel).entries)
    ensures AbsHook(Remove(h, sel)) == AbsHook(h).(live := Strike(Live(h.entries), sel))
  {
    LiveKill(h.entries, sel);
    SettleKeeps(h.(entries := Kill(h.entries, sel)));
  }

  /** Scanning for the next live slot is popping the pending list. */
  lemma NextLiveIsHead(es: seq<Entry>, i: nat, n: nat)
    requires i <= n <= |es|
    ensures var j := NextLive(es, i, n);
      Live(es[i..n]) == if j == n then [] else [es[j].sub] + Live(es[j + 1..n])
  {
    var j := NextLive(es, i, n);
    assert es[i..n] == es[i..j] + es[j..n];
    LiveConcat(es[i..j], es[j..n]);
    LiveOfDead(es[i..j]);
  }

  // ---- the steps ----

  /** A hook no dispatch is using may change; nothing any frame refers to moves. */
  lemma {:induction false} NoFrames<V>(stack: seq<Frame<V>>, h: nat, k: nat)
    requires FramesOn(stack, h) == 0 && k < |stack|
    ensures stack[k].hook != h
  {
    if stack[k].hook == h {
      FramesOnPositive(stack, k);
    }
  }

  lemma FramesOnPush<V>(stack: seq<Frame<V>>, f: Frame<V>)
    ensures forall h :: FramesOn(stack + [f], h) == FramesOn(stack, h) + (if f.hook == h then 1 else 0)
  {
    assert (stack + [f])[..|stack|] == stack;
  }

  /** The state of a dispatch between two callbacks: `f` is not on the stack, but its hook counts it. */
  ghost predicate Between<V>(hooks: seq<HookState>, below: seq<Frame<V>>, f: Frame<V>) {
    && CanResume(hooks, f)
    && (forall h :: 0 <= h < |hooks| ==> hooks[h].depth == FramesOn(below + [f], h))
    && (forall h :: 0 <= h < |hooks| && hooks[h].depth == 0 ==> NoTombstone(hooks[h].entries))
    && (forall k :: 0 <= k < |below| ==> FrameOk(hooks, below[k]))
  }

  lemma StopRefines<V>(hooks: seq<HookState>, below: seq<Frame<V>>, f: Frame<V>)
    requires Between(hooks, below, f) && NextLive(hooks[f.hook].entries, f.i, f.n) < f.n
    ensures var j := NextLive(hooks[f.hook].entries, f.i, f.n);
      var m := Machine(hooks, below + [f.(i := j)]);
      && Valid(m)
      && Abs(m).hooks == AbsHooks(hooks)
      && Abs(m).stack == AbsStack(hooks, below) + [AbsFrame(hooks, f.(i := j))]
  {
    hide Live;
    var j := NextLive(hooks[f.hook].entries, f.i, f.n);
    FramesOnPush(below, f);
    FramesOnPush(below, f.(i := j));
  }

  lemma UnwindRefines<V>(hooks: seq<HookState>, below: seq<Frame<V>>, f: Frame<V>)
    requires Between(hooks, below, f)
    ensures var h := hooks[f.hook];
      var m := Machine(hooks[f.hook := Settle(h.(depth := h.depth - 1))], below);
      Valid(m) && Abs(m).hooks == AbsHooks(hooks) && Abs(m).stack == AbsStack(hooks, below)
  {
    hide Live;
    FramesOnPush(below, f);
    var h' := hooks[f.hook].(depth := hooks[f.hook].depth - 1);
    SettleKeeps(h');
    var m := Machine(hooks[f.hook := Settle(h')], below);
    forall k | 0 <= k < |below|
      ensures FrameOk(m.hooks, below[k]) && AbsFrame(m.hooks, below[k]) == AbsFrame(hooks, below[k])
    {
      if h'.depth == 0 {
        NoFrames(below, f.hook, k);
      }
    }
  }

  lemma ResumeRefines<V>(hooks: seq<HookState>, below: seq<Frame<V>>, f: Frame<V>, cur: Sub)
    requires Between(hooks, below, f)
    ensures Valid(Resume(hooks, below, f).0)
    ensures (Abs(Resume(hooks, below, f).0), Resume(hooks, below, f).1)
         == RefResume(AbsHooks(hooks), AbsStack(hooks, below),
              RefFrame(f.hook, cur, Live(hooks[f.hook].entries[f.i..f.n]), f.value))
  {
    hide Live;
    var es := hooks[f.hook].entries;
    var j := NextLive(es, f.i, f.n);
    NextLiveIsHead(es, f.i, f.n);
    if j < f.n {
      StopRefines(hooks, below, f);
      assert AbsFrame(hooks, f.(i := j)) == RefFrame(f.hook, es[j].sub, Live(es[j + 1..f.n]), f.value);
    } else {
      UnwindRefines(hooks, below, f);
    }
  }

  /** Nothing is erased while a dispatch is in flight. */
  lemma RemoveOnBusy(hooks: seq<HookState>, hs: set<nat>, sel: Selector, h: nat)
    requires h < |hooks| && hooks[h].depth > 0
    ensures RemoveOn(hooks, hs, sel)[h].entries == if h in hs then Kill(hooks[h].entries, sel) else hooks[h].entries
  {
    hide Kill, Compact;
  }

  lemma LiveKillSlice(es: seq<Entry>, sel: Selector, a: nat, b: nat)
    requires a <= b <= |es|
    ensures |Kill(es, sel)| == |es| && Live(Kill(es, sel)[a..b]) == Strike(Live(es[a..b]), sel)
  {
    KillSlice(es, sel, a, b);
    hide Kill, Live, Strike;
    LiveKill(es[a..b], sel);
  }

  lemma KillKeepsSub(es: seq<Entry>, sel: Selector, k: nat)
    requires k < |es|
    ensures Kill(es, sel)[k].sub == es[k].sub
  {
  }

  lemma RemoveOnKeepsFrame<V>(hooks: seq<HookState>, hs: set<nat>, sel: Selector, f: Frame<V>)
    requires FrameOk(hooks, f) && hooks[f.hook].depth > 0
    ensures var hooks' := RemoveOn(hooks, hs, sel);
      && FrameOk(hooks', f)
      && |hooks'[f.hook].entries| == |hooks[f.hook].entries|
      && AbsFrame(hooks', f) == (if f.hook in hs
           then AbsFrame(hooks, f).(pending := Strike(AbsFrame(hooks, f).pending, sel)) else AbsFrame(hooks, f))
  {
    hide Kill, Live, Strike, RemoveOn, Picks;
    RemoveOnBusy(hooks, hs, sel, f.hook);
    var es := hooks[f.hook].entries;
    LiveKillSlice(es, sel, f.i + 1, f.n);
    KillKeepsSub(es, sel, f.i);
  }

  /** Tombstoning now and erasing later is striking now. */
  lemma RemoveOnRefines<V>(m: Machine<V>, hs: set<nat>, sel: Selector)
    requires Valid(m)
    ensures var m' := m.(hooks := RemoveOn(m.hooks, hs, sel));
      Valid(m') && Abs(m') == StrikeOn(Abs(m), hs, sel)
  {
    hide Live;
    var m' := m.(hooks := RemoveOn(m.hooks, hs, sel));
    forall h | 0 <= h < |m.hooks|
      ensures m'.hooks[h].depth == m.hooks[h].depth
      ensures m'.hooks[h].depth == 0 ==> NoTombstone(m'.hooks[h].entries)
      ensures AbsHook(m'.hooks[h]) == StrikeHooks(AbsHooks(m.hooks), hs, sel)[h]
    {
      RemoveKeeps(m.hooks[h], sel);
    }
    forall k | 0 <= k < |m.stack|
      ensures FrameOk(m'.hooks, m.stack[k])
      ensures AbsFrame(m'.hooks, m.stack[k]) == StrikeStack(AbsStack(m.hooks, m.stack), hs, sel)[k]
    {
      DepthPositive(m, k);
      RemoveOnKeepsFrame(m.hooks, hs, sel, m.stack[k]);
    }
    assert Abs(m').hooks == StrikeOn(Abs(m), hs, sel).hooks;
    assert Abs(m').stack == StrikeOn(Abs(m), hs, sel).stack;
  }

  /** Leaving the running callback of the top frame. */
  lemma LeaveRefines<V>(m: Machine<V>, value: V)
    requires Valid(m) && m.stack != []
    ensures CanLeave(m)
    ensures Valid(Leave(m, value).0)
    ensures (Abs(Leave(m, value).0), Leave(m, value).1) == RefReturn(Abs(m), value)
  {
    var top := Top(m);
    var f := Finished(m.hooks, top, value);
    DepthPositive(m, |m.stack| - 1);
    assert m.stack == Below(m) + [top];
    FramesOnPush(Below(m), top);
    FramesOnPush(Below(m), f);
    ResumeRefines(m.hooks, Below(m), f, RefTop(Abs(m)).cur);
    assert RefBelow(Abs(m)) == AbsStack(m.hooks, Below(m));
  }

  lemma AppendKeepsFrame<V>(hooks: seq<HookState>, h: nat, who: nat, f: Frame<V>)
    requires h < |hooks| && FrameOk(hooks, f)
    ensures var hooks' := hooks[h := Append(hooks[h], who)];
      FrameOk(hooks', f) && AbsFrame(hooks', f) == AbsFrame(hooks, f)
  {
    var hooks' := hooks[h := Append(hooks[h], who)];
    assert hooks'[f.hook].entries[f.i + 1..f.n] == hooks[f.hook].entries[f.i + 1..f.n];
  }

  lemma SubscribeRefines<V>(m: Machine<V>, h: nat, who: nat)
    requires Valid(m) && h < |m.hooks|
    ensures Valid(Step(m, Subscribe(h, who)).0)
    ensures (Abs(Step(m, Subscribe(h, who)).0), Step(m, Subscribe(h, who)).1) == RefStep(Abs(m), Subscribe(h, who))
  {
    var m' := Step(m, Subscribe(h, who)).0;
    var e := Entry(Sub(m.hooks[h].next + 1, who), false);
    LiveConcat(m.hooks[h].entries, [e]);
    assert Live([e]) == [e.sub];
    hide Live;
    forall k | 0 <= k < |m.stack|
      ensures FrameOk(m'.hooks, m.stack[k]) && AbsFrame(m'.hooks, m.stack[k]) == AbsFrame(m.hooks, m.stack[k])
    {
      AppendKeepsFrame(m.hooks, h, who, m.stack[k]);
    }
    assert Abs(m').stack == Abs(m).stack;
    assert Abs(m').hooks == RefStep(Abs(m), Subscribe(h, who)).0.hooks;
  }

  /** Entering a dispatch raises the depth and shows nobody anything else. */
  lemma EnterRefines<V>(m: Machine<V>, h: nat, value: V)
    requires Valid(m) && h < |m.hooks|
    ensures var hs := m.hooks[h := m.hooks[h].(depth := m.hooks[h].depth + 1)];
      && Between(hs, m.stack, Frame(h, 0, |hs[h].entries|, value))
      && AbsHooks(hs) == AbsHooks(m.hooks)
      && AbsStack(hs, m.stack) == AbsStack(m.hooks, m.stack)
  {
    hide Live;
    var hs := m.hooks[h := m.hooks[h].(depth := m.hooks[h].depth + 1)];
    FramesOnPush(m.stack, Frame(h, 0, |hs[h].entries|, value));
  }

  lemma EmitRefines<V>(m: Machine<V>, h: nat, value: V)
    requires Valid(m) && h < |m.hooks|
    ensures Valid(Step(m, Emit(h, value)).0)
    ensures (Abs(Step(m, Emit(h, value)).0), Step(m, Emit(h, value)).1) == RefStep(Abs(m), Emit(h, value))
  {
    hide Live;
    hide Resume;
    var hs := m.hooks[h := m.hooks[h].(depth := m.hooks[h].depth + 1)];
    var f := Frame(h, 0, |hs[h].entries|, value);
    EnterRefines(m, h, value);
    ResumeRefines(hs, m.stack, f, Sub(0, 0));
    assert hs[h].entries[0..f.n] == m.hooks[h].entries;
    assert Step(m, Emit(h, value)) == Resume(hs, m.stack, f);
  }

  lemma NewHookRefines<V>(m: Machine<V>, threads: bool)
    requires Valid(m)
    ensures Valid(Step(m, NewHook(threads)).0)
    ensures (Abs(Step(m, NewHook(threads)).0), Step(m, NewHook(threads)).1) == RefStep(Abs(m), NewHook(threads))
  {
    var m' := Step(m, NewHook(threads)).0;
    UnusedFrames(m.stack, |m.hooks|);
    assert Live([]) == [];
    assert Abs(m').stack == Abs(m).stack;
    assert Abs(m').hooks == RefStep(Abs(m), NewHook(threads)).0.hooks;
  }

  lemma AdoptRefines<V>(m: Machine<V>, h: nat)
    requires Valid(m) && h < |m.hooks|
    ensures Valid(Step(m, Adopt(h)).0)
    ensures (Abs(Step(m, Adopt(h)).0), Step(m, Adopt(h)).1) == RefStep(Abs(m), Adopt(h))
  {
    hide Live;
    var m' := Step(m, Adopt(h)).0;
    assert Abs(m').stack == Abs(m).stack;
    assert Abs(m').hooks == RefStep(Abs(m), Adopt(h)).0.hooks;
  }

  lemma ThrownRefines<V>(m: Machine<V>)
    requires Valid(m) && m.stack != [] && CanLeave(m)
    ensures Valid(Thrown(m)) && Thrown(m).stack == m.stack
    ensures Abs(Thrown(m)) == RefThrown(Abs(m)) && RefTop(Abs(m)).value == Top(m).value
  {
    var f := Top(m);
    var who := Running(m.hooks, f).who;
    BoundIsRefBound(m.hooks);
    assert RefTop(Abs(m)) == AbsFrame(m.hooks, f);
    assert RefThrowScope(Abs(m).hooks, f.hook, who) == ThrowScope(m.hooks, f.hook, who);
    hide Live, Valid, RefThrowScope, ThrowScope, AbsStack, AbsHooks, RemoveOn, StrikeOn;
    RemoveOnRefines(m, ThrowScope(m.hooks, f.hook, who), ByOwner(who));
  }

  lemma ThrowUnfolds<V>(m: Machine<V>)
    requires Valid(m) && m.stack != []
    ensures CanLeave(m) && Step(m, Throw) == Leave(Thrown(m), Top(m).value)
  {
    hide Valid, CanLeave, FrameOk, FramesOn, Thrown, Leave, Top;
    TopCanLeave(m);
  }

  lemma ThrowRefines<V>(m: Machine<V>)
    requires Valid(m) && m.stack != []
    ensures Valid(Step(m, Throw).0)
    ensures (Abs(Step(m, Throw).0), Step(m, Throw).1) == RefStep(Abs(m), Throw)
  {
    hide Live, Valid, Step, Thrown, Leave, Abs, RefReturn, RefThrown, FrameOk, CanLeave, Top, RefTop;
    ThrowUnfolds(m);
    ThrownRefines(m);
    LeaveRefines(Thrown(m), Top(m).value);
    assert Abs(m).stack != [] by {
      AbsStackSize(m);
    }
  }

  lemma AbsStackSize<V>(m: Machine<V>)
    requires Valid(m)
    ensures |Abs(m).stack| == |m.stack| && Abs(m).hooks == AbsHooks(m.hooks)
  {
  }

  /** After a throw the hooks are those of before with the thrower struck from the hooks in reach. */
  lemma ThrowStrikes<V>(m: Machine<V>)
    requires Valid(m) && m.stack != []
    ensures var who := Running(m.hooks, Top(m)).who;
      AbsHooks(Step(m, Throw).0.hooks)
        == StrikeHooks(AbsHooks(m.hooks), ThrowScope(m.hooks, Top(m).hook, who), ByOwner(who))
  {
    BoundIsRefBound(m.hooks);
    TopIsAbs(m);
    hide Live, Valid, Step, AbsHooks, AbsStack, StrikeHooks, StrikeStack, Top, RefTop;
    ThrowRefines(m);
    AbsStackSize(m);
    AbsStackSize(Step(m, Throw).0);
  }

  lemma BoundIsRefBound(hooks: seq<HookState>)
    ensures BoundHooks(hooks) == RefBoundHooks(AbsHooks(hooks))
  {
  }

  lemma RemovalRefines<V>(m: Machine<V>, input: Input<V>)
    requires Valid(m) && (input.Unsubscribe? || input.Purge? || input.Disable?)
    ensures Valid(Step(m, input).0)
    ensures (Abs(Step(m, input).0), Step(m, input).1) == RefStep(Abs(m), input)
  {
    var (hs, sel) :=
      match input
      case Unsubscribe(h, token) => ({h}, ByToken(token))
      case Purge(h, who) => ({h}, ByOwner(who))
      case Disable(who) => (BoundHooks(m.hooks), ByOwner(who))
      case _ => ({}, ByOwner(KERNEL));
    RemovalSteps(m, input, hs, sel);
    hide *;
    RemoveOnRefines(m, hs, sel);
  }

  lemma RemovalSteps<V>(m: Machine<V>, input: Input<V>, hs: set<nat>, sel: Selector)
    requires Valid(m)
    requires match input
      case Unsubscribe(h, token) => hs == {h} && sel == ByToken(token)
      case Purge(h, who) => hs == {h} && sel == ByOwner(who)
      case Disable(who) => hs == BoundHooks(m.hooks) && sel == ByOwner(who)
      case _ => false
    ensures Step(m, input) == (m.(hooks := RemoveOn(m.hooks, hs, sel)), Quiet)
    ensures RefStep(Abs(m), input) == (StrikeOn(Abs(m), hs, sel), Quiet)
  {
    AbsStackSize(m);
    BoundIsRefBound(m.hooks);
    hide Valid, Abs, AbsHooks, RemoveOn, StrikeOn, RefBoundHooks, BoundHooks;
  }

  lemma ReturnRefines<V>(m: Machine<V>, value: V)
    requires Valid(m) && m.stack != []
    ensures Valid(Step(m, Return(value)).0)
    ensures (Abs(Step(m, Return(value)).0), Step(m, Return(value)).1) == RefStep(Abs(m), Return(value))
  {
    TopIsAbs(m);
    AbsStackSize(m);
    hide Live, Valid, Leave, RefReturn, Abs, AbsHooks, AbsStack, CanLeave, FrameOk, FramesOn, Top, RefTop;
    LeaveRefines(m, if m.hooks[Top(m).hook].threads then value else Top(m).value);
  }

  lemma TopIsAbs<V>(m: Machine<V>)
    requires Valid(m) && m.stack != []
    ensures var f, g := Top(m), RefTop(Abs(m));
      && f.hook < |m.hooks| && g.hook == f.hook && g.value == f.value && g.cur == Running(m.hooks, f)
      && |Abs(m).hooks| == |m.hooks| && Abs(m).hooks[f.hook].threads == m.hooks[f.hook].threads
  {
    hide Live, FramesOn;
    assert RefTop(Abs(m)) == AbsFrame(m.hooks, Top(m));
  }

  /** An input that names no hook, or comes with no dispatch in flight, does nothing. */
  lemma IdleRefines<V>(m: Machine<V>, input: Input<V>)
    requires Valid(m)
    requires match input
      case Adopt(h) => h >= |m.hooks|
      case Subscribe(h, _) => h >= |m.hooks|
      case Emit(h, _) => h >= |m.hooks|
      case Return(_) => m.stack == []
      case Throw => m.stack == []
      case _ => false
    ensures Valid(Step(m, input).0)
    ensures (Abs(Step(m, input).0), Step(m, input).1) == RefStep(Abs(m), input)
  {
    assert |Abs(m).hooks| == |m.hooks| && |Abs(m).stack| == |m.stack|;
    hide Valid, Abs, AbsHooks, AbsStack;
  }

  /** One step of the tombstoning bus is the same step of the reference bus, with the same output. */
  lemma StepRefines<V>(m: Machine<V>, input: Input<V>)
    requires Valid(m)
    ensures Valid(Step(m, input).0)
    ensures (Abs(Step(m, input).0), Step(m, input).1) == RefStep(Abs(m), input)
  {
    hide *;
    match input {
      case NewHook(threads) => NewHookRefines(m, threads);
      case Adopt(h) => if h < |m.hooks| { AdoptRefines(m, h); } else { IdleRefines(m, input); }
      case Subscribe(h, who) => if h < |m.hooks| { SubscribeRefines(m, h, who); } else { IdleRefines(m, input); }
      case Emit(h, value) => if h < |m.hooks| { EmitRefines(m, h, value); } else { IdleRefines(m, input); }
      case Return(value) => if m.stack != [] { ReturnRefines(m, value); } else { IdleRefines(m, input); }
      case Throw => if m.stack != [] { ThrowRefines(m); } else { IdleRefines(m, input); }
      case _ => RemovalRefines(m, input);
    }
  }

  lemma {:induction false} UnusedFrames<V>(stack: seq<Frame<V>>, h: nat)
    requires forall k :: 0 <= k < |stack| ==> stack[k].hook != h
    ensures FramesOn(stack, h) == 0
  {
    if stack == [] {
    } else {
      UnusedFrames(stack[..|stack| - 1], h);
    }
  }

  lemma StepKeepsValid<V>(m: Machine<V>, input: Input<V>)
    requires Valid(m)
    ensures Valid(Step(m, input).0)
  {
    StepRefines(m, input);
  }

  function Run<V>(m: Machine<V>, inputs: seq<Input<V>>): (outs: seq<Output<V>>)
    requires Valid(m)
    ensures |outs| == |inputs|
    decreases |inputs|
  {
    if inputs == [] then []
    else
      StepRefines(m, inputs[0]);
      var (m', out) := Step(m, inputs[0]);
      [out] + Run(m', inputs[1..])
  }

  function MachineAfter<V>(m: Machine<V>, inputs: seq<Input<V>>): (m': Machine<V>)
    requires Valid(m)
    ensures Valid(m')
    decreases |inputs|
  {
    if inputs == [] then m
    else
      StepRefines(m, inputs[0]);
      MachineAfter(Step(m, inputs[0]).0, inputs[1..])
  }

  lemma RunOne<V>(m: Machine<V>, input: Input<V>, inputs: seq<Input<V>>, m': Machine<V>, out: Output<V>)
    requires Valid(m) && Step(m, input) == (m', out)
    ensures Valid(m') && Run(m, [input] + inputs) == [out] + Run(m', inputs)
    ensures MachineAfter(m, [input] + inputs) == MachineAfter(m', inputs)
  {
    StepRefines(m, input);
    assert ([input] + inputs)[1..] == inputs;
    hide Step, Valid;
  }

  /** THE REFINEMENT. Whatever the surrounding program and the callbacks do, the tombstoning bus
      calls the same callbacks, in the same order, with the same values, as the reference bus. */
  lemma {:induction false} BusRefinesReference<V>(m: Machine<V>, inputs: seq<Input<V>>)
    requires Valid(m)
    ensures Run(m, inputs) == RefRun(Abs(m), inputs)
    decreases |inputs|
  {
    if inputs == [] {
    } else {
      StepRefines(m, inputs[0]);
      BusRefinesReference(Step(m, inputs[0]).0, inputs[1..]);
    }
  }

  /** Slots may be added and tombstoned, but none moves. */
  predicate Grows(es: seq<Entry>, es': seq<Entry>) {
    |es| <= |es'| && forall k :: 0 <= k < |es| ==> es'[k].sub == es[k].sub && (es[k].dead ==> es'[k].dead)
  }

  lemma ResumeGrows<V>(hooks: seq<HookState>, below: seq<Frame<V>>, f: Frame<V>, h: nat)
    requires CanResume(hooks, f) && h < |hooks|
    ensures var m' := Resume(hooks, below, f).0;
      |m'.hooks| == |hooks| && (m'.hooks[h].depth > 0 ==> Grows(hooks[h].entries, m'.hooks[h].entries))
  {
  }

  lemma LeaveGrows<V>(m: Machine<V>, value: V, h: nat)
    requires CanLeave(m) && h < |m.hooks|
    ensures var m' := Leave(m, value).0;
      |m'.hooks| == |m.hooks| && (m'.hooks[h].depth > 0 ==> Grows(m.hooks[h].entries, m'.hooks[h].entries))
  {
    ResumeGrows(m.hooks, Below(m), Finished(m.hooks, Top(m), value), h);
  }

  lemma ThrownGrows<V>(m: Machine<V>, h: nat)
    requires CanLeave(m) && h < |m.hooks| && m.hooks[h].depth > 0
    ensures Thrown(m).hooks[h].depth == m.hooks[h].depth && |Thrown(m).hooks| == |m.hooks|
    ensures Grows(m.hooks[h].entries, Thrown(m).hooks[h].entries)
  {
  }

  lemma EmitGrows<V>(m: Machine<V>, g: nat, value: V, h: nat)
    requires Valid(m) && g < |m.hooks| && h < |m.hooks| && m.hooks[h].depth > 0
    ensures var m' := Step(m, Emit(g, value)).0;
      |m'.hooks| == |m.hooks| && (m'.hooks[h].depth > 0 ==> Grows(m.hooks[h].entries, m'.hooks[h].entries))
  {
    var hs := m.hooks[g := m.hooks[g].(depth := m.hooks[g].depth + 1)];
    ResumeGrows(hs, m.stack, Frame(g, 0, |hs[g].entries|, value), h);
  }

  /** No index moves while a dispatch is in flight on a hook: every slot keeps its place and its
      subscription, slots are only added at the end, and a tombstone stays one. */
  lemma SlotsStayPut<V>(m: Machine<V>, input: Input<V>, h: nat)
    requires Valid(m) && h < |m.hooks| && m.hooks[h].depth > 0
    ensures var m' := Step(m, input).0;
      |m.hooks| <= |m'.hooks| && (m'.hooks[h].depth > 0 ==> Grows(m.hooks[h].entries, m'.hooks[h].entries))
  {
    match input {
    case Emit(g, value) => if g < |m.hooks| { EmitGrows(m, g, value, h); }
    case Return(value) =>
      if m.stack != [] {
        DepthPositive(m, |m.stack| - 1);
        LeaveGrows(m, if m.hooks[Top(m).hook].threads then value else Top(m).value, h);
      }
    case Throw =>
      if m.stack != [] {
        DepthPositive(m, |m.stack| - 1);
        ThrownGrows(m, h);
        LeaveGrows(Thrown(m), Top(m).value, h);
      }
    case _ => QuietGrows(m, input, h);
    }
    hide Grows, Leave, Resume, Thrown, Valid;
  }

  lemma QuietGrows<V>(m: Machine<V>, input: Input<V>, h: nat)
    requires Valid(m) && h < |m.hooks| && m.hooks[h].depth > 0 && !input.Emit? && !input.Return? && !input.Throw?
    ensures var m' := Step(m, input).0;
      |m.hooks| <= |m'.hooks| && Grows(m.hooks[h].entries, m'.hooks[h].entries)
  {
    hide Valid;
  }

  /** At rest, every slot of every hook is a live subscription: no tombstone outlives its dispatch. */
  lemma NoTombstoneAtRest<V>(m: Machine<V>, h: nat)
    requires Valid(m) && m.stack == [] && h < |m.hooks|
    ensures |Live(m.hooks[h].entries)| == |m.hooks[h].entries|
    ensures forall k :: 0 <= k < |m.hooks[h].entries| ==> Live(m.hooks[h].entries)[k] == m.hooks[h].entries[k].sub
  {
    LiveOfLive(m.hooks[h].entries);
  }

  lemma {:induction false} LiveOfLive(es: seq<Entry>)
    requires forall k :: 0 <= k < |es| ==> !es[k].dead
    ensures |Live(es)| == |es| && forall k :: 0 <= k < |es| ==> Live(es)[k] == es[k].sub
  {
    if es == [] {
    } else {
      LiveOfLive(es[1..]);
    }
  }

  // ---- tokens ----

  ghost predicate Ordered<V>(m: Machine<V>) {
    forall h :: 0 <= h < |m.hooks| ==> Sorted(m.hooks[h])
  }

  lemma {:induction false} CompactSorted(es: seq<Entry>)
    requires forall k, l :: 0 <= k < l < |es| ==> es[k].sub.token < es[l].sub.token
    ensures var c := Compact(es); forall k, l :: 0 <= k < l < |c| ==> c[k].sub.token < c[l].sub.token
  {
    if es == [] {
    } else {
      CompactSorted(es[1..]);
      LiveCompact(es[1..]);
    }
  }

  lemma SettleSorted(h: HookState)
    requires Sorted(h)
    ensures Sorted(Settle(h))
  {
    LiveCompact(h.entries);
    CompactSorted(h.entries);
  }

  lemma RemoveSorted(h: HookState, sel: Selector)
    requires Sorted(h)
    ensures Sorted(Remove(h, sel))
  {
    SettleSorted(h.(entries := Kill(h.entries, sel)));
  }

  lemma ResumeOrdered<V>(hooks: seq<HookState>, below: seq<Frame<V>>, f: Frame<V>)
    requires CanResume(hooks, f) && Ordered(Machine(hooks, below))
    ensures Ordered(Resume(hooks, below, f).0)
  {
    hide Sorted;
    var h := hooks[f.hook];
    assert Sorted(h.(depth := h.depth - 1)) by { assert Sorted(h); DepthIrrelevant(h, h.depth - 1); }
    SettleSorted(h.(depth := h.depth - 1));
  }

  lemma DepthIrrelevant(h: HookState, d: nat)
    requires Sorted(h)
    ensures Sorted(h.(depth := d))
  {
  }

  lemma RemoveOnOrdered<V>(m: Machine<V>, hs: set<nat>, sel: Selector)
    requires Ordered(m)
    ensures Ordered(m.(hooks := RemoveOn(m.hooks, hs, sel)))
  {
    hide Sorted;
    forall h | 0 <= h < |m.hooks| ensures Sorted(RemoveOn(m.hooks, hs, sel)[h]) {
      RemoveSorted(m.hooks[h], sel);
    }
  }

  lemma LeaveOrdered<V>(m: Machine<V>, value: V)
    requires CanLeave(m) && Ordered(m)
    ensures Ordered(Leave(m, value).0)
  {
    ResumeOrdered(m.hooks, Below(m), Finished(m.hooks, Top(m), value));
  }

  lemma AppendSorted(h: HookState, who: nat)
    requires Sorted(h)
    ensures Sorted(Append(h, who))
  {
  }

  lemma OrderedUpdate<V>(m: Machine<V>, g: nat, h: HookState)
    requires Ordered(m) && g < |m.hooks| && Sorted(h)
    ensures Ordered(m.(hooks := m.hooks[g := h]))
  {
    hide Sorted;
  }

  /** Tokens are issued in increasing order and never reused. */
  lemma StepKeepsOrdered<V>(m: Machine<V>, input: Input<V>)
    requires Valid(m) && Ordered(m)
    ensures Ordered(Step(m, input).0)
  {
    match input {
      case Unsubscribe(g, token) => RemoveOnOrdered(m, {g}, ByToken(token));
      case Purge(g, who) => RemoveOnOrdered(m, {g}, ByOwner(who));
      case Disable(who) => RemoveOnOrdered(m, BoundHooks(m.hooks), ByOwner(who));
      case Emit(g, value) => if g < |m.hooks| { EmitOrdered(m, g, value); }
      case Return(value) =>
        if m.stack != [] {
          DepthPositive(m, |m.stack| - 1);
          LeaveOrdered(m, if m.hooks[Top(m).hook].threads then value else Top(m).value);
        }
      case Throw => if m.stack != [] { ThrowOrdered(m); }
      case _ => QuietOrdered(m, input);
    }
    hide Valid, Ordered, Leave, Resume, RemoveOn, Thrown, BoundHooks;
  }

  lemma QuietOrdered<V>(m: Machine<V>, input: Input<V>)
    requires Valid(m) && Ordered(m) && (input.NewHook? || input.Adopt? || input.Subscribe?)
    ensures Ordered(Step(m, input).0)
  {
    hide Valid;
    if input.Subscribe? && input.h < |m.hooks| {
      AppendSorted(m.hooks[input.h], input.who);
      OrderedUpdate(m, input.h, Append(m.hooks[input.h], input.who));
    }
  }

  lemma EmitOrdered<V>(m: Machine<V>, g: nat, value: V)
    requires Valid(m) && Ordered(m) && g < |m.hooks|
    ensures Ordered(Step(m, Emit(g, value)).0)
  {
    var h := m.hooks[g].(depth := m.hooks[g].depth + 1);
    DepthIrrelevant(m.hooks[g], h.depth);
    OrderedUpdate(m, g, h);
    hide Resume, Valid, Sorted, Ordered;
    ResumeOrdered(m.hooks[g := h], m.stack, Frame(g, 0, |h.entries|, value));
  }

  lemma ThrowOrdered<V>(m: Machine<V>)
    requires Valid(m) && Ordered(m) && m.stack != []
    ensures Ordered(Step(m, Throw).0)
  {
    ThrowUnfolds(m);
    hide Step, Valid, Ordered, Leave, RemoveOn;
    var who := Running(m.hooks, Top(m)).who;
    RemoveOnOrdered(m, ThrowScope(m.hooks, Top(m).hook, who), ByOwner(who));
    LeaveOrdered(Thrown(m), Top(m).value);
  }
}
