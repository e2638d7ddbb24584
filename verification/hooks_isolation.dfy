/** Error isolation on the bus: what a throwing callback costs its owner, and that it costs nobody
    else anything. */
module HooksIsolation {
  import opened Hooks
  import opened HooksReference
  import opened HooksRefinement

  // ---- the thrower falls silent ----

  /** Token t of hook h has been issued and is gone. */
  ghost predicate Silent<V>(m: Machine<V>, h: nat, t: nat) {
    && h < |m.hooks| && t <= m.hooks[h].next
    && forall k :: 0 <= k < |m.hooks[h].entries| && m.hooks[h].entries[k].sub.token == t ==> m.hooks[h].entries[k].dead
  }

  predicate Fires<V>(out: Output<V>, h: nat, t: nat) {
    out.Fire? && out.h == h && out.token == t
  }

  lemma SettleKeepsGone(h: HookState, t: nat)
    requires forall k :: 0 <= k < |h.entries| && h.entries[k].sub.token == t ==> h.entries[k].dead
    ensures var es := Settle(h).entries; forall k :: 0 <= k < |es| && es[k].sub.token == t ==> es[k].dead
  {
    LiveCompact(h.entries);
  }

  lemma RemoveOnKeepsSilent<V>(m: Machine<V>, hs: set<nat>, sel: Selector, h: nat, t: nat)
    requires Silent(m, h, t)
    ensures Silent(m.(hooks := RemoveOn(m.hooks, hs, sel)), h, t)
  {
    if h in hs {
      SettleKeepsGone(m.hooks[h].(entries := Kill(m.hooks[h].entries, sel)), t);
    }
  }

  lemma ResumeKeepsSilent<V>(hooks: seq<HookState>, below: seq<Frame<V>>, f: Frame<V>, h: nat, t: nat)
    requires CanResume(hooks, f) && Silent(Machine(hooks, below), h, t)
    ensures Silent(Resume(hooks, below, f).0, h, t)
    ensures !Fires(Resume(hooks, below, f).1, h, t)
  {
    if f.hook == h {
      SettleKeepsGone(hooks[h].(depth := hooks[h].depth - 1), t);
    }
  }

  lemma LeaveKeepsSilent<V>(m: Machine<V>, value: V, h: nat, t: nat)
    requires CanLeave(m) && Silent(m, h, t)
    ensures Silent(Leave(m, value).0, h, t) && !Fires(Leave(m, value).1, h, t)
  {
    ResumeKeepsSilent(m.hooks, Below(m), Finished(m.hooks, Top(m), value), h, t);
  }

  lemma StepKeepsSilent<V>(m: Machine<V>, input: Input<V>, h: nat, t: nat)
    requires Valid(m) && Silent(m, h, t)
    ensures Silent(Step(m, input).0, h, t) && !Fires(Step(m, input).1, h, t)
  {
    match input {
      case Unsubscribe(g, token) => RemoveOnKeepsSilent(m, {g}, ByToken(token), h, t);
      case Purge(g, who) => RemoveOnKeepsSilent(m, {g}, ByOwner(who), h, t);
      case Disable(who) => RemoveOnKeepsSilent(m, BoundHooks(m.hooks), ByOwner(who), h, t);
      case Emit(g, value) => if g < |m.hooks| { EmitKeepsSilent(m, g, value, h, t); }
      case Return(value) =>
        if m.stack != [] {
          DepthPositive(m, |m.stack| - 1);
          LeaveKeepsSilent(m, if m.hooks[Top(m).hook].threads then value else Top(m).value, h, t);
        }
      case Throw =>
        if m.stack != [] {
          DepthPositive(m, |m.stack| - 1);
          ThrownKeepsSilent(m, h, t);
          LeaveKeepsSilent(Thrown(m), Top(m).value, h, t);
        }
      case _ => QuietKeepsSilent(m, input, h, t);
    }
    hide Silent, RemoveOn, Resume, Leave, Thrown, Valid, BoundHooks;
  }

  lemma EmitKeepsSilent<V>(m: Machine<V>, g: nat, value: V, h: nat, t: nat)
    requires Valid(m) && Silent(m, h, t) && g < |m.hooks|
    ensures Silent(Step(m, Emit(g, value)).0, h, t) && !Fires(Step(m, Emit(g, value)).1, h, t)
  {
    var hs := m.hooks[g := m.hooks[g].(depth := m.hooks[g].depth + 1)];
    assert Silent(Machine(hs, m.stack), h, t);
    hide Resume, Silent;
    ResumeKeepsSilent(hs, m.stack, Frame(g, 0, |hs[g].entries|, value), h, t);
  }

  lemma QuietKeepsSilent<V>(m: Machine<V>, input: Input<V>, h: nat, t: nat)
    requires Valid(m) && Silent(m, h, t) && (input.NewHook? || input.Adopt? || input.Subscribe?)
    ensures Silent(Step(m, input).0, h, t) && !Fires(Step(m, input).1, h, t)
  {
    hide Valid;
  }

  lemma ThrownKeepsSilent<V>(m: Machine<V>, h: nat, t: nat)
    requires CanLeave(m) && Silent(m, h, t)
    ensures Silent(Thrown(m), h, t)
  {
    var who := Running(m.hooks, Top(m)).who;
    RemoveOnKeepsSilent(m, ThrowScope(m.hooks, Top(m).hook, who), ByOwner(who), h, t);
  }

  /** A removed subscription never fires again, in whatever dispatch, however the program goes on. */
  lemma {:induction false} RemovedStaysSilent<V>(m: Machine<V>, inputs: seq<Input<V>>, h: nat, t: nat)
    requires Valid(m) && Silent(m, h, t)
    ensures forall k :: 0 <= k < |Run(m, inputs)| ==> !Fires(Run(m, inputs)[k], h, t)
    decreases |inputs|
  {
    if inputs == [] {
    } else {
      StepRefines(m, inputs[0]);
      StepKeepsSilent(m, inputs[0], h, t);
      RemovedStaysSilent(Step(m, inputs[0]).0, inputs[1..], h, t);
    }
  }

  /** Where a throw of the running callback of `who` costs it its subscriptions: on every registered hook
      if the hook it runs on is registered and it is not the kernel's, else on that hook alone. */
  predicate Reaches<V>(m: Machine<V>, who: nat, g: nat)
    requires m.stack != [] && Top(m).hook < |m.hooks|
  {
    && g < |m.hooks|
    && if m.hooks[Top(m).hook].bound && who != 0 then m.hooks[g].bound else g == Top(m).hook
  }

  lemma ScopeIsReach<V>(m: Machine<V>, who: nat, g: nat)
    requires m.stack != [] && Top(m).hook < |m.hooks|
    ensures g in ThrowScope(m.hooks, Top(m).hook, who) <==> Reaches(m, who, g)
  {
  }

  /** When a callback throws, no subscription its owner has within reach fires again: not in this
      dispatch, not in the dispatches below it, not later. */
  lemma ThrowSilencesOwner<V>(m: Machine<V>, inputs: seq<Input<V>>, h: nat, k: nat)
    requires Valid(m) && Ordered(m) && m.stack != []
    requires var who := Running(m.hooks, Top(m)).who;
      Reaches(m, who, h) && k < |m.hooks[h].entries| && m.hooks[h].entries[k].sub.who == who
    ensures var outs := Run(m, [Throw] + inputs);
      forall j :: 0 <= j < |outs| ==> !Fires(outs[j], h, m.hooks[h].entries[k].sub.token)
  {
    hide Resume, RemoveOn;
    var t := m.hooks[h].entries[k].sub.token;
    DepthPositive(m, |m.stack| - 1);
    ScopeIsReach(m, Running(m.hooks, Top(m)).who, h);
    ThrownIsSilent(m, h, k);
    LeaveKeepsSilent(Thrown(m), Top(m).value, h, t);
    assert Step(m, Throw) == Leave(Thrown(m), Top(m).value);
    hide Valid, Silent, Leave, Step, Ordered, ThrowScope;
    StepKeepsValid(m, Throw);
    RemovedStaysSilent(Step(m, Throw).0, inputs, h, t);
    assert ([Throw] + inputs)[1..] == inputs;
  }

  lemma ThrownIsSilent<V>(m: Machine<V>, h: nat, k: nat)
    requires CanLeave(m) && Ordered(m)
    requires var who := Running(m.hooks, Top(m)).who;
      && h in ThrowScope(m.hooks, Top(m).hook, who)
      && h < |m.hooks| && k < |m.hooks[h].entries| && m.hooks[h].entries[k].sub.who == who
    ensures Silent(Thrown(m), h, m.hooks[h].entries[k].sub.token)
  {
    var es := m.hooks[h].entries;
    var sel := ByOwner(Running(m.hooks, Top(m)).who);
    assert Sorted(m.hooks[h]);
    SettleKeepsGone(m.hooks[h].(entries := Kill(es, sel)), es[k].sub.token);
  }

  /** A throw takes a subscription off a hook exactly if the thrower owns it and the hook is in reach. */
  lemma ThrowRemovesExactly<V>(m: Machine<V>, g: nat, s: Sub)
    requires Valid(m) && m.stack != [] && g < |m.hooks| && s in Live(m.hooks[g].entries)
    ensures var who := Running(m.hooks, Top(m)).who; var hooks := Step(m, Throw).0.hooks;
      g < |hooks| && (s !in Live(hooks[g].entries) <==> s.who == who && Reaches(m, who, g))
  {
    var who, f := Running(m.hooks, Top(m)).who, Top(m);
    ScopeIsReach(m, who, g);
    hide Step, Valid, StrikeHooks, Strike, ThrowScope, Reaches, AbsHooks, Live;
    ThrowStrikes(m);
    LiveStruck(m.hooks, Step(m, Throw).0.hooks, ThrowScope(m.hooks, f.hook, who), ByOwner(who), g);
  }

  /** What is live after a strike is what was and is not picked. */
  lemma LiveStruck(before: seq<HookState>, after: seq<HookState>, hs: set<nat>, sel: Selector, g: nat)
    requires AbsHooks(after) == StrikeHooks(AbsHooks(before), hs, sel) && g < |before|
    ensures g < |after|
    ensures Live(after[g].entries) == if g in hs then Strike(Live(before[g].entries), sel) else Live(before[g].entries)
    ensures forall s :: s in Live(after[g].entries) <==> s in Live(before[g].entries) && !(g in hs && Picks(sel, s))
  {
    assert |AbsHooks(after)| == |after| == |before|;
    assert AbsHooks(before)[g].live == Live(before[g].entries) && AbsHooks(after)[g].live == Live(after[g].entries);
  }

  // ---- silent, the kernel too, until it subscribes again ----

  const BARE: RefMachine<int> := RefMachine([], [])
  const HOOKED: RefMachine<int> := RefMachine([RefHook([], 0, false, false)], [])
  const BOUND: RefMachine<int> := RefMachine([RefHook([], 0, true, false)], [])
  const PURGED: RefMachine<int> := RefMachine([RefHook([], 1, true, false)], [])

  /** One subscription of `who` on a registered hook, under a token. */
  function Listening(who: nat, token: nat): RefMachine<int> {
    RefMachine([RefHook([Sub(token, who)], token, true, false)], [])
  }

  function Calling(who: nat, token: nat, value: int): RefMachine<int> {
    Listening(who, token).(stack := [RefFrame(0, Sub(token, who), [], value)])
  }

  lemma Subscribes(who: nat)
    ensures RefStep(BARE, NewHook(false)) == (HOOKED, Quiet) && RefStep(HOOKED, Adopt(0)) == (BOUND, Quiet)
    ensures RefStep(BOUND, Subscribe(0, who)) == (Listening(who, 1), Subscribed(1))
    ensures RefStep(PURGED, Subscribe(0, who)) == (Listening(who, 2), Subscribed(2))
  {
    assert BARE.hooks + HOOKED.hooks == HOOKED.hooks && HOOKED.hooks[0 := BOUND.hooks[0]] == BOUND.hooks;
    assert [] + [Sub(1, who)] == [Sub(1, who)] && [] + [Sub(2, who)] == [Sub(2, who)];
    assert BOUND.hooks[0 := Listening(who, 1).hooks[0]] == Listening(who, 1).hooks;
    assert PURGED.hooks[0 := Listening(who, 2).hooks[0]] == Listening(who, 2).hooks;
  }

  lemma IsCalled(who: nat, token: nat, value: int)
    ensures RefStep(Listening(who, token), Emit(0, value)) == (Calling(who, token, value), Fire(0, token, value))
    ensures RefStep(PURGED, Emit(0, value)) == (PURGED, Done(0, value))
  {
    assert [Sub(token, who)][1..] == [] && Listening(who, token).stack + Calling(who, token, value).stack
      == Calling(who, token, value).stack;
  }

  lemma Throws(who: nat)
    ensures RefStep(Calling(who, 1, 7), Throw) == (PURGED, Done(0, 7))
  {
    var r := Calling(who, 1, 7);
    assert RefThrowScope(r.hooks, 0, who) == {0};
    hide RefThrowScope;
    assert Strike([], ByOwner(who)) == [] && [Sub(1, who)][1..] == [];
    assert Strike([Sub(1, who)], ByOwner(who)) == [];
    hide Strike;
    var struck := StrikeOn(r, {0}, ByOwner(who));
    assert struck.hooks == PURGED.hooks && struck.stack == r.stack;
    hide StrikeOn;
  }

  lemma UntilTheThrow(who: nat, rest: seq<Input<int>>)
    ensures RefRun(BARE, [NewHook(false), Adopt(0), Subscribe(0, who), Emit(0, 7), Throw] + rest)
      == [Quiet, Quiet, Subscribed(1), Fire(0, 1, 7), Done(0, 7)] + RefRun(PURGED, rest)
  {
    Subscribes(who);
    IsCalled(who, 1, 7);
    Throws(who);
    hide *;
    var first: Input<int>, second: Input<int>, third, fourth := NewHook(false), Adopt(0), Subscribe(0, who), Emit(0, 7);
    var afterFourth := [Throw] + rest;
    var afterThird := [fourth] + afterFourth;
    var afterSecond := [third] + afterThird;
    var afterFirst := [second] + afterSecond;
    RefRunCons(Calling(who, 1, 7), Throw, rest, PURGED, Done(0, 7));
    RefRunCons(Listening(who, 1), fourth, afterFourth, Calling(who, 1, 7), Fire(0, 1, 7));
    RefRunCons(BOUND, third, afterThird, Listening(who, 1), Subscribed(1));
    RefRunCons(HOOKED, second, afterSecond, BOUND, Quiet);
    RefRunCons(BARE, first, afterFirst, HOOKED, Quiet);
    FiveAndMore(first, second, third, fourth, Throw, rest);
    FiveAndMore(Quiet, Quiet, Subscribed(1), Fire(0, 1, 7), Done(0, 7), RefRun(PURGED, rest));
  }

  lemma FiveAndMore<T>(a: T, b: T, c: T, d: T, e: T, rest: seq<T>)
    ensures [a] + ([b] + ([c] + ([d] + ([e] + rest)))) == [a, b, c, d, e] + rest
  {
  }

  lemma AfterTheThrow(who: nat)
    ensures RefRun(PURGED, [Emit(0, 8), Subscribe(0, who), Emit(0, 9)]) == [Done(0, 8), Subscribed(2), Fire(0, 2, 9)]
  {
    Subscribes(who);
    IsCalled(who, 1, 8);
    IsCalled(who, 2, 9);
    assert RefRun(Calling(who, 2, 9), []) == [];
    hide *;
    RefRunCons(Listening(who, 2), Emit(0, 9), [], Calling(who, 2, 9), Fire(0, 2, 9));
    RefRunCons(PURGED, Subscribe(0, who), [Emit(0, 9)], Listening(who, 2), Subscribed(2));
    RefRunCons(PURGED, Emit(0, 8), [Subscribe(0, who), Emit(0, 9)], PURGED, Done(0, 8));
  }

  /** A callback throws on a registered hook and is not called again, be its owner the kernel or an
      extension; but what the owner subscribes afterwards is called. */
  lemma SilentUntilItSubscribes(who: nat)
    ensures var inputs := [NewHook(false), Adopt(0), Subscribe(0, who), Emit(0, 7), Throw]
                          + [Emit(0, 8), Subscribe(0, who), Emit(0, 9)];
      Run(Machine([], []), inputs) == [Quiet, Quiet, Subscribed(1), Fire(0, 1, 7), Done(0, 7)]
                                      + [Done(0, 8), Subscribed(2), Fire(0, 2, 9)]
  {
    var m: Machine<int> := Machine([], []);
    assert Valid(m) && Abs(m) == BARE;
    hide *;
    var rest := [Emit(0, 8), Subscribe(0, who), Emit(0, 9)];
    UntilTheThrow(who, rest);
    AfterTheThrow(who);
    BusRefinesReference(m, [NewHook(false), Adopt(0), Subscribe(0, who), Emit(0, 7), Throw] + rest);
  }

  /** An input takes subscription s off hook g. */
  predicate Removes<V>(r: RefMachine<V>, input: Input<V>, g: nat, s: Sub)
    requires g < |r.hooks|
  {
    match input
    case Unsubscribe(h, token) => h == g && s.token == token
    case Purge(h, who) => h == g && s.who == who
    case Disable(who) => r.hooks[g].bound && s.who == who
    case Throw =>
      && r.stack != []
      && s.who == RefTop(r).cur.who
      && var h := RefTop(r).hook;
         if h < |r.hooks| && r.hooks[h].bound && s.who != 0 then r.hooks[g].bound else g == h
    case _ => false
  }

  predicate LiveAfter<V>(r: RefMachine<V>, input: Input<V>, g: nat, s: Sub)
    requires g < |r.hooks|
  {
    || (s in r.hooks[g].live && !Removes(r, input, g, s))
    || (input.Subscribe? && input.h == g && s == Sub(r.hooks[g].next + 1, input.who))
  }

  lemma RefLiveExactly<V>(r: RefMachine<V>, input: Input<V>, g: nat, s: Sub)
    requires g < |r.hooks|
    ensures var hooks := RefStep(r, input).0.hooks;
      g < |hooks| && (s in hooks[g].live <==> LiveAfter(r, input, g, s))
  {
    hide Strike, StrikeStack;
  }

  /** What is live on a hook after a step is what was and is not taken off, and what is subscribed. That
      its owner has been disabled makes no difference. */
  lemma LiveExactly<V>(m: Machine<V>, input: Input<V>, g: nat, s: Sub)
    requires Valid(m) && g < |m.hooks|
    ensures var hooks := Step(m, input).0.hooks;
      g < |hooks| && (s in Live(hooks[g].entries) <==> LiveAfter(Abs(m), input, g, s))
  {
    AbsStackSize(m);
    StepRefines(m, input);
    AbsStackSize(Step(m, input).0);
    AbsHooksLive(Step(m, input).0.hooks);
    hide *;
    RefLiveExactly(Abs(m), input, g, s);
  }

  lemma AbsHooksLive(hooks: seq<HookState>)
    ensures forall g :: 0 <= g < |hooks| ==> AbsHooks(hooks)[g].live == Live(hooks[g].entries)
  {
  }

  // ---- nobody else notices ----

  /** Subscriptions that `who` has on some hooks: on hook h, those with a token up to upTo[h]. */
  datatype Holding = Holding(who: nat, upTo: map<nat, nat>) {
    function On(h: nat): Selector
      requires h in upTo
    {
      Until(who, upTo[h])
    }
  }

  function CutHooks(hooks: seq<RefHook>, d: Holding): (r: seq<RefHook>)
    ensures |r| == |hooks|
  {
    seq(|hooks|, k requires 0 <= k < |hooks| =>
      if k in d.upTo then hooks[k].(live := Strike(hooks[k].live, d.On(k))) else hooks[k])
  }

  function CutFrame<V>(f: RefFrame<V>, d: Holding): RefFrame<V> {
    if f.hook in d.upTo then f.(pending := Strike(f.pending, d.On(f.hook))) else f
  }

  function CutStack<V>(stack: seq<RefFrame<V>>, d: Holding): (r: seq<RefFrame<V>>)
    ensures |r| == |stack|
  {
    seq(|stack|, k requires 0 <= k < |stack| => CutFrame(stack[k], d))
  }

  /** The machine with the subscriptions of d struck. */
  function Without<V>(r: RefMachine<V>, d: Holding): RefMachine<V> {
    RefMachine(CutHooks(r.hooks, d), CutStack(r.stack, d))
  }

  /** The tokens of d have been issued: no subscription to come is among those of d. */
  predicate Issued<V>(r: RefMachine<V>, d: Holding) {
    forall h :: h in d.upTo ==> h < |r.hooks| && d.upTo[h] <= r.hooks[h].next
  }

  predicate IsMute<V>(r: RefMachine<V>, out: Output<V>, d: Holding) {
    out.Fire? && out.h in d.upTo && r.stack != [] && Picks(d.On(out.h), RefTop(r).cur)
  }

  /** Play the part of d, when its callbacks do nothing: as long as one of them is the one that runs,
      it returns at once, leaving the value alone. */
  function PlayMute<V>(r: RefMachine<V>, out: Output<V>, d: Holding): (RefMachine<V>, Output<V>)
    decreases if IsMute(r, out, d) then 1 + |RefTop(r).pending| else 0
  {
    if IsMute(r, out, d) then
      var (r', out') := RefReturn(r, RefTop(r).value);
      PlayMute(r', out', d)
    else (r, out)
  }

  function MuteStep<V>(r: RefMachine<V>, input: Input<V>, d: Holding): (RefMachine<V>, Output<V>) {
    var (r', out) := RefStep(r, input);
    PlayMute(r', out, d)
  }

  function MuteRun<V>(r: RefMachine<V>, inputs: seq<Input<V>>, d: Holding): seq<Output<V>>
    decreases |inputs|
  {
    if inputs == [] then []
    else
      var (r', out) := MuteStep(r, inputs[0], d);
      [out] + MuteRun(r', inputs[1..], d)
  }

  lemma {:induction false} StrikeTwice(subs: seq<Sub>, a: Selector, b: Selector)
    ensures Strike(Strike(subs, a), b) == Strike(Strike(subs, b), a)
  {
    if subs == [] {
    } else {
      var s, rest := subs[0], subs[1..];
      StrikeTwice(rest, a, b);
      StrikeCons(s, Strike(rest, a), b);
      StrikeCons(s, Strike(rest, b), a);
      assert Picks(a, s) ==> Strike(subs, a) == Strike(rest, a);
      assert Picks(b, s) ==> Strike(subs, b) == Strike(rest, b);
    }
  }

  lemma StrikeCons(s: Sub, rest: seq<Sub>, sel: Selector)
    ensures Strike([s] + rest, sel) == (if Picks(sel, s) then [] else [s]) + Strike(rest, sel)
  {
    assert ([s] + rest)[1..] == rest;
  }

  lemma StrikeWithout<V>(r: RefMachine<V>, hs: set<nat>, a: Selector, d: Holding)
    ensures Without(StrikeOn(r, hs, a), d) == StrikeOn(Without(r, d), hs, a)
  {
    var x, y := Without(StrikeOn(r, hs, a), d), StrikeOn(Without(r, d), hs, a);
    forall k | 0 <= k < |r.hooks| ensures x.hooks[k] == y.hooks[k] {
      if k in d.upTo {
        StrikeTwice(r.hooks[k].live, a, d.On(k));
      }
    }
    forall k | 0 <= k < |r.stack| ensures x.stack[k] == y.stack[k] {
      if r.stack[k].hook in d.upTo {
        StrikeTwice(r.stack[k].pending, a, d.On(r.stack[k].hook));
      }
    }
    assert x.hooks == y.hooks && x.stack == y.stack;
  }

  lemma CurIrrelevant<V>(hooks: seq<RefHook>, below: seq<RefFrame<V>>, f: RefFrame<V>, cur: Sub)
    ensures RefResume(hooks, below, f.(cur := cur)) == RefResume(hooks, below, f)
  {
  }

  /** Going on with a dispatch: skipping mute callbacks is not having them. */
  lemma {:induction false} ResumeMute<V>(hooks: seq<RefHook>, below: seq<RefFrame<V>>, f: RefFrame<V>, d: Holding)
    ensures var (r, out) := RefResume(hooks, below, f);
      var (r1, out1) := PlayMute(r, out, d);
      (Without(r1, d), out1) == RefResume(CutHooks(hooks, d), CutStack(below, d), CutFrame(f, d))
    decreases |f.pending|
  {
    if f.pending == [] {
    } else {
      var (r, out) := RefResume(hooks, below, f);
      var f' := f.(cur := f.pending[0], pending := f.pending[1..]);
      assert RefTop(r) == f' && RefBelow(r) == below;
      if f.hook in d.upTo && Picks(d.On(f.hook), f.pending[0]) {
        var sel := d.On(f.hook);
        ResumeMute(hooks, below, f', d);
        var (r', out') := RefResume(hooks, below, f');
        assert RefReturn(r, f'.value) == (r', out');
        assert PlayMute(r, out, d) == PlayMute(r', out', d);
        assert Strike(f.pending, sel) == Strike(f'.pending, sel);
        CurIrrelevant(CutHooks(hooks, d), CutStack(below, d), f.(pending := Strike(f'.pending, sel)), f'.cur);
        assert CutFrame(f', d) == CutFrame(f, d).(cur := f'.cur);
      } else {
        assert CutStack(below + [f'], d) == CutStack(below, d) + [CutFrame(f', d)];
        assert f.hook in d.upTo ==>
          Strike(f.pending, d.On(f.hook)) == [f.pending[0]] + Strike(f.pending[1..], d.On(f.hook));
      }
    }
  }

  lemma ReturnMute<V>(r: RefMachine<V>, value: V, d: Holding)
    requires r.stack != []
    ensures var (r', out) := RefReturn(r, value);
      var (r1, out1) := PlayMute(r', out, d);
      (Without(r1, d), out1) == RefReturn(Without(r, d), value)
  {
    var f := RefTop(r);
    hide Strike;
    ResumeMute(r.hooks, RefBelow(r), f.(value := value), d);
    assert RefBelow(Without(r, d)) == CutStack(RefBelow(r), d);
    assert RefTop(Without(r, d)) == CutFrame(f, d);
    assert CutFrame(f.(value := value), d) == CutFrame(f, d).(value := value);
  }

  /** A subscription made later is none of d's: its token comes after. */
  lemma StrikeAppend(subs: seq<Sub>, s: Sub, sel: Selector)
    requires !Picks(sel, s)
    ensures Strike(subs + [s], sel) == Strike(subs, sel) + [s]
  {
    StrikeConcat(subs, [s], sel);
    StrikeCons(s, [], sel);
    assert [s] + [] == [s];
  }

  lemma SubscribeMute<V>(r: RefMachine<V>, h: nat, who: nat, d: Holding)
    requires Issued(r, d) && h < |r.hooks|
    ensures Without(RefStep(r, Subscribe(h, who)).0, d) == RefStep(Without(r, d), Subscribe(h, who)).0
  {
    hide Strike;
    if h in d.upTo {
      StrikeAppend(r.hooks[h].live, Sub(r.hooks[h].next + 1, who), d.On(h));
    }
    var x, y := Without(RefStep(r, Subscribe(h, who)).0, d), RefStep(Without(r, d), Subscribe(h, who)).0;
    forall k | 0 <= k < |r.hooks| ensures x.hooks[k] == y.hooks[k] {
    }
    assert x.hooks == y.hooks;
  }

  lemma BoundWithout<V>(r: RefMachine<V>, d: Holding)
    ensures RefBoundHooks(Without(r, d).hooks) == RefBoundHooks(r.hooks)
  {
  }

  lemma TopWithout<V>(r: RefMachine<V>, d: Holding)
    requires r.stack != []
    ensures Without(r, d).stack != []
    ensures var f, g := RefTop(r), RefTop(Without(r, d)); g.hook == f.hook && g.cur == f.cur && g.value == f.value
  {
    hide Strike;
  }

  lemma ScopeWithout<V>(r: RefMachine<V>, d: Holding, h: nat, who: nat)
    ensures RefThrowScope(Without(r, d).hooks, h, who) == RefThrowScope(r.hooks, h, who)
  {
    BoundWithout(r, d);
    assert |Without(r, d).hooks| == |r.hooks| && (h < |r.hooks| ==> Without(r, d).hooks[h].bound == r.hooks[h].bound);
    hide Without, RefBoundHooks;
  }

  lemma ThrownTop<V>(r: RefMachine<V>)
    requires r.stack != []
    ensures RefTop(RefThrown(r)).value == RefTop(r).value
  {
    hide Strike, StrikeHooks, RefThrowScope;
  }

  lemma ThrownWithout<V>(r: RefMachine<V>, d: Holding)
    requires r.stack != []
    ensures var muted := Without(r, d);
      && muted.stack != [] && RefThrown(muted) == Without(RefThrown(r), d)
      && RefTop(muted).value == RefTop(r).value && RefTop(RefThrown(r)).value == RefTop(r).value
  {
    var f := RefTop(r);
    ThrownTop(r);
    hide StrikeOn, Without, RefThrowScope, RefTop;
    TopWithout(r, d);
    ScopeWithout(r, d, f.hook, f.cur.who);
    StrikeWithout(r, RefThrowScope(r.hooks, f.hook, f.cur.who), ByOwner(f.cur.who), d);
  }

  /** Taking a step with d struck is taking it with d mute. */
  ghost predicate Unnoticed<V>(r: RefMachine<V>, input: Input<V>, d: Holding) {
    var (r', out) := MuteStep(r, input, d);
    (Without(r', d), out) == RefStep(Without(r, d), input)
  }

  lemma ThrowMute<V>(r: RefMachine<V>, d: Holding)
    requires r.stack != []
    ensures Unnoticed(r, Throw, d)
  {
    hide Without, RefThrown, RefReturn, PlayMute, RefTop;
    ThrownWithout(r, d);
    ReturnMute(RefThrown(r), RefTop(r).value, d);
  }

  lemma NewHookMute<V>(r: RefMachine<V>, threads: bool, d: Holding)
    requires Issued(r, d)
    ensures Without(RefStep(r, NewHook(threads)).0, d) == RefStep(Without(r, d), NewHook(threads)).0
  {
    assert |r.hooks| !in d.upTo;
    assert Without(RefStep(r, NewHook(threads)).0, d).hooks == RefStep(Without(r, d), NewHook(threads)).0.hooks;
  }

  lemma AdoptMute<V>(r: RefMachine<V>, h: nat, d: Holding)
    ensures Without(RefStep(r, Adopt(h)).0, d) == RefStep(Without(r, d), Adopt(h)).0
  {
    hide Strike;
    assert Without(RefStep(r, Adopt(h)).0, d).hooks == RefStep(Without(r, d), Adopt(h)).0.hooks;
  }

  lemma RemovalMute<V>(r: RefMachine<V>, input: Input<V>, d: Holding)
    requires input.Unsubscribe? || input.Purge? || input.Disable?
    ensures Unnoticed(r, input, d)
  {
    BoundWithout(r, d);
    hide StrikeOn, RefBoundHooks;
    match input {
      case Unsubscribe(h, token) => StrikeWithout(r, {h}, ByToken(token), d);
      case Purge(h, who) => StrikeWithout(r, {h}, ByOwner(who), d);
      case Disable(who) => StrikeWithout(r, RefBoundHooks(r.hooks), ByOwner(who), d);
    }
  }

  lemma QuietMute<V>(r: RefMachine<V>, input: Input<V>, d: Holding)
    requires Issued(r, d) && (input.NewHook? || input.Adopt? || input.Subscribe?)
    ensures Unnoticed(r, input, d)
  {
    match input {
      case NewHook(threads) => NewHookMute(r, threads, d);
      case Adopt(h) => AdoptMute(r, h, d);
      case Subscribe(h, who) => if h < |r.hooks| { SubscribeMute(r, h, who, d); }
    }
    assert |Without(r, d).hooks| == |r.hooks|;
    assert input.Subscribe? && input.h < |r.hooks| ==> Without(r, d).hooks[input.h].next == r.hooks[input.h].next;
    hide Without;
  }

  lemma EmitMute<V>(r: RefMachine<V>, h: nat, value: V, d: Holding)
    requires h < |r.hooks|
    ensures Unnoticed(r, Emit(h, value), d)
  {
    var f := RefFrame(h, Sub(0, 0), r.hooks[h].live, value);
    ResumeMute(r.hooks, r.stack, f, d);
    assert Without(r, d).hooks[h].live == CutFrame(f, d).pending;
    hide Strike, RefResume, PlayMute;
  }

  lemma DispatchMute<V>(r: RefMachine<V>, input: Input<V>, d: Holding)
    requires input.Emit? || input.Return? || input.Throw?
    ensures Unnoticed(r, input, d)
  {
    if input.Emit? && input.h < |r.hooks| {
      EmitMute(r, input.h, input.value, d);
    } else if input.Return? && r.stack != [] {
      var f, g := RefTop(r), RefTop(Without(r, d));
      var v := if f.hook < |r.hooks| && r.hooks[f.hook].threads then input.value else f.value;
      assert g.hook == f.hook && g.value == f.value && |Without(r, d).hooks| == |r.hooks|;
      assert f.hook < |r.hooks| ==> Without(r, d).hooks[f.hook].threads == r.hooks[f.hook].threads;
      hide Without, RefReturn, PlayMute;
      ReturnMute(r, v, d);
    } else if input.Throw? && r.stack != [] {
      ThrowMute(r, d);
    } else {
      assert |Without(r, d).hooks| == |r.hooks| && |Without(r, d).stack| == |r.stack|;
      hide Without;
    }
  }

  lemma StepMute<V>(r: RefMachine<V>, input: Input<V>, d: Holding)
    requires Issued(r, d)
    ensures Unnoticed(r, input, d)
  {
    hide *;
    match input {
      case NewHook(_) => QuietMute(r, input, d);
      case Adopt(_) => QuietMute(r, input, d);
      case Subscribe(_, _) => QuietMute(r, input, d);
      case Emit(_, _) => DispatchMute(r, input, d);
      case Return(_) => DispatchMute(r, input, d);
      case Throw => DispatchMute(r, input, d);
      case _ => RemovalMute(r, input, d);
    }
  }

  lemma {:induction false} PlayMuteKeepsHooks<V>(r: RefMachine<V>, out: Output<V>, d: Holding)
    ensures PlayMute(r, out, d).0.hooks == r.hooks
    decreases if IsMute(r, out, d) then 1 + |RefTop(r).pending| else 0
  {
    if IsMute(r, out, d) {
      var (r', out') := RefReturn(r, RefTop(r).value);
      PlayMuteKeepsHooks(r', out', d);
    } else {
    }
  }

  /** Hooks are never removed and tokens never taken back. */
  lemma NextGrows<V>(r: RefMachine<V>, input: Input<V>)
    ensures var r' := RefStep(r, input).0;
      |r.hooks| <= |r'.hooks| && forall h :: 0 <= h < |r.hooks| ==> r.hooks[h].next <= r'.hooks[h].next
  {
    hide Strike;
  }

  lemma StepKeepsIssued<V>(r: RefMachine<V>, input: Input<V>, d: Holding)
    requires Issued(r, d)
    ensures Issued(MuteStep(r, input, d).0, d)
  {
    var (r', out) := RefStep(r, input);
    NextGrows(r, input);
    PlayMuteKeepsHooks(r', out, d);
    hide RefStep, PlayMute;
  }

  /** NON-INTERFERENCE. Striking the subscriptions an extension has had so far on some hooks changes
      nothing for anyone else, nor for those it makes later: the run is the one in which they stay and
      their callbacks do nothing, minus their own calls. */
  lemma {:induction false} RemovalIsInvisible<V>(r: RefMachine<V>, inputs: seq<Input<V>>, d: Holding)
    requires Issued(r, d)
    ensures MuteRun(r, inputs, d) == RefRun(Without(r, d), inputs)
    decreases |inputs|
  {
    if inputs == [] {
    } else {
      StepMute(r, inputs[0], d);
      StepKeepsIssued(r, inputs[0], d);
      RemovalIsInvisible(MuteStep(r, inputs[0], d).0, inputs[1..], d);
    }
  }

  // ---- the throw ----

  /** What `who` holds on the hooks of hs. */
  function Held<V>(r: RefMachine<V>, hs: set<nat>, who: nat): Holding {
    Holding(who, map h | h in hs && h < |r.hooks| :: r.hooks[h].next)
  }

  /** Every subscription there is, listed or still to be called, has a token that was issued. */
  ghost predicate AllIssued<V>(r: RefMachine<V>) {
    && (forall h, s :: 0 <= h < |r.hooks| && s in r.hooks[h].live ==> s.token <= r.hooks[h].next)
    && (forall k :: 0 <= k < |r.stack| ==> FrameIssued(r.hooks, r.stack[k]))
  }

  ghost predicate FrameIssued<V>(hooks: seq<RefHook>, f: RefFrame<V>) {
    f.hook < |hooks| && forall s :: s in f.pending ==> s.token <= hooks[f.hook].next
  }

  lemma {:induction false} StrikeAlike(subs: seq<Sub>, who: nat, upTo: nat)
    requires forall s :: s in subs ==> s.token <= upTo
    ensures Strike(subs, Until(who, upTo)) == Strike(subs, ByOwner(who))
  {
    if subs == [] {
    } else {
      StrikeAlike(subs[1..], who, upTo);
    }
  }

  lemma {:induction false} LiveAreSubs(es: seq<Entry>)
    ensures forall s :: s in Live(es) ==> exists k :: 0 <= k < |es| && es[k].sub == s
  {
    if es == [] {
    } else {
      LiveAreSubs(es[1..]);
      forall s | s in Live(es)
        ensures exists k :: 0 <= k < |es| && es[k].sub == s
      {
        if s in Live(es[1..]) {
          var k :| 0 <= k < |es| - 1 && es[1..][k].sub == s;
          assert es[k + 1].sub == s;
        } else {
          assert es[0].sub == s;
        }
      }
    }
  }

  lemma LiveIssued(h: HookState, a: nat, b: nat)
    requires Sorted(h) && a <= b <= |h.entries|
    ensures forall s :: s in Live(h.entries[a..b]) ==> s.token <= h.next
  {
    LiveAreSubs(h.entries[a..b]);
  }

  lemma AbsIssued<V>(m: Machine<V>)
    requires Valid(m) && Ordered(m)
    ensures AllIssued(Abs(m))
  {
    var r := Abs(m);
    hide Live, FramesOn, Sorted;
    forall h, s | 0 <= h < |r.hooks| && s in r.hooks[h].live
      ensures s.token <= r.hooks[h].next
    {
      var es := m.hooks[h].entries;
      assert es[0..|es|] == es;
      LiveIssued(m.hooks[h], 0, |es|);
    }
    forall k | 0 <= k < |r.stack|
      ensures FrameIssued(r.hooks, r.stack[k])
    {
      var f := m.stack[k];
      assert FrameOk(m.hooks, f);
      LiveIssued(m.hooks[f.hook], f.i + 1, f.n);
    }
  }

  /** At the moment of a strike, an owner's subscriptions are those it has had so far. */
  lemma StrikeIsWithout<V>(r: RefMachine<V>, hs: set<nat>, who: nat)
    requires AllIssued(r) && forall h :: h in hs ==> h < |r.hooks|
    ensures StrikeOn(r, hs, ByOwner(who)) == Without(r, Held(r, hs, who)) && Issued(r, Held(r, hs, who))
  {
    var x, y := StrikeOn(r, hs, ByOwner(who)), Without(r, Held(r, hs, who));
    hide Strike;
    forall k | 0 <= k < |r.hooks|
      ensures x.hooks[k] == y.hooks[k]
    {
      StrikeAlike(r.hooks[k].live, who, r.hooks[k].next);
    }
    forall k | 0 <= k < |r.stack|
      ensures x.stack[k] == y.stack[k]
    {
      assert FrameIssued(r.hooks, r.stack[k]);
      StrikeAlike(r.stack[k].pending, who, r.hooks[r.stack[k].hook].next);
    }
    assert x.hooks == y.hooks && x.stack == y.stack;
  }

  lemma ReturnKeepsIssued<V>(r: RefMachine<V>, value: V, d: Holding)
    requires r.stack != [] && Issued(r, d)
    ensures var (r', out) := RefReturn(r, value); Issued(PlayMute(r', out, d).0, d)
  {
    var (r', out) := RefReturn(r, value);
    PlayMuteKeepsHooks(r', out, d);
    hide PlayMute;
  }

  /** What the owner of the running callback holds on the hooks within reach of its throw. */
  function AtStake<V>(r: RefMachine<V>): Holding
    requires r.stack != []
  {
    var f := RefTop(r);
    Held(r, RefThrowScope(r.hooks, f.hook, f.cur.who), f.cur.who)
  }

  lemma ThrowIsCut<V>(r: RefMachine<V>)
    requires AllIssued(r) && r.stack != []
    ensures Issued(r, AtStake(r)) && RefThrown(r) == Without(r, AtStake(r)) && Without(r, AtStake(r)).stack != []
  {
    var f := RefTop(r);
    assert FrameIssued(r.hooks, f);
    hide StrikeOn, Without;
    StrikeIsWithout(r, RefThrowScope(r.hooks, f.hook, f.cur.who), f.cur.who);
  }

  lemma ThrowSteps<V>(r: RefMachine<V>)
    requires r.stack != []
    ensures RefStep(r, Throw) == RefReturn(RefThrown(r), RefTop(r).value)
  {
    hide RefReturn, RefThrown, RefTop;
  }

  lemma RefThrowIsInvisible<V>(r: RefMachine<V>, inputs: seq<Input<V>>)
    requires AllIssued(r) && r.stack != []
    ensures var (returned, out) := RefReturn(r, RefTop(r).value);
      var (r1, out1) := PlayMute(returned, out, AtStake(r));
      RefRun(r, [Throw] + inputs) == [out1] + MuteRun(r1, inputs, AtStake(r))
  {
    hide *;
    var d, value := AtStake(r), RefTop(r).value;
    ThrowIsCut(r);
    ThrowSteps(r);
    ReturnKeepsIssued(r, value, d);
    ReturnMute(r, value, d);
    var (returned, out) := RefReturn(r, value);
    var (r1, out1) := PlayMute(returned, out, d);
    RemovalIsInvisible(r1, inputs, d);
    RefRunCons(r, Throw, inputs, Without(r1, d), out1);
  }

  /** The run that follows a throw, whatever happens in it, is the run in which the callback returned
      without touching the value and the subscriptions its owner had within reach are still there but
      mute: nobody else notices, nor do the subscriptions the owner makes later. */
  lemma ThrowIsInvisible<V>(m: Machine<V>, inputs: seq<Input<V>>)
    requires Valid(m) && Ordered(m) && m.stack != []
    ensures var r := Abs(m);
      && r.stack != []
      && var (returned, out) := RefReturn(r, RefTop(r).value);
         var (r1, out1) := PlayMute(returned, out, AtStake(r));
         Run(m, [Throw] + inputs) == [out1] + MuteRun(r1, inputs, AtStake(r))
  {
    hide *;
    AbsStackSize(m);
    AbsIssued(m);
    RefThrowIsInvisible(Abs(m), inputs);
    BusRefinesReference(m, [Throw] + inputs);
  }
}
