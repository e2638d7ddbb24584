/** What one dispatch calls, from its beginning to its end, whatever its callbacks do meanwhile: in order
    of subscription, what was subscribed when it began, and all of it that is still subscribed at its
    end. */
module HooksDispatch {
  import opened Hooks
  import opened HooksReference
  import opened HooksRefinement
  import opened HooksIsolation

  predicate Increasing(s: seq<nat>) {
    forall i, j :: 0 <= i < j < |s| ==> s[i] < s[j]
  }

  predicate HasToken(subs: seq<Sub>, t: nat) {
    exists s :: s in subs && s.token == t
  }

  /** The tokens that the dispatch at depth d calls, until it ends. */
  function Called<V>(m: Machine<V>, inputs: seq<Input<V>>, d: nat): seq<nat>
    requires Valid(m)
    decreases |inputs|
  {
    if inputs == [] || |m.stack| <= d then []
    else
      StepKeepsValid(m, inputs[0]);
      var (m', out) := Step(m, inputs[0]);
      (if out.Fire? && |m'.stack| == d + 1 then [out.token] else []) + Called(m', inputs[1..], d)
  }

  /** The dispatch at depth d ends with the last of the inputs. */
  predicate Ends<V>(m: Machine<V>, inputs: seq<Input<V>>, d: nat)
    requires Valid(m)
    decreases |inputs|
  {
    if |m.stack| <= d then inputs == []
    else
      && inputs != []
      && (StepKeepsValid(m, inputs[0]); Ends(Step(m, inputs[0]).0, inputs[1..], d))
  }

  // ---- one step, on the reference bus ----

  /** What a step leaves a dispatch to call: what it had, less what the step takes off. */
  function LeftToCall<V>(r: RefMachine<V>, input: Input<V>, d: nat): seq<Sub>
    requires d < |r.stack|
  {
    var f := r.stack[d];
    match input
    case Unsubscribe(h, token) => if f.hook == h then Strike(f.pending, ByToken(token)) else f.pending
    case Purge(h, who) => if f.hook == h then Strike(f.pending, ByOwner(who)) else f.pending
    case Disable(who) => if f.hook in RefBoundHooks(r.hooks) then Strike(f.pending, ByOwner(who)) else f.pending
    case Throw =>
      var top := RefTop(r);
      if f.hook in RefThrowScope(r.hooks, top.hook, top.cur.who) then Strike(f.pending, ByOwner(top.cur.who))
      else f.pending
    case _ => f.pending
  }

  /** The dispatch at depth d over a step: it goes on with the next of what is left to call, ends when
      there is none, or is not concerned. */
  lemma StepOfDispatch<V>(r: RefMachine<V>, input: Input<V>, d: nat)
    requires d < |r.stack|
    ensures var (r', out) := RefStep(r, input); var f, left := r.stack[d], LeftToCall(r, input, d);
      if (input.Return? || input.Throw?) && |r.stack| == d + 1 then
        if left == [] then |r'.stack| == d && !out.Fire?
        else
          && |r'.stack| == d + 1 && out.Fire? && out.token == left[0].token
          && r'.stack[d].hook == f.hook && r'.stack[d].cur == left[0] && r'.stack[d].pending == left[1..]
      else
        && |r'.stack| > d && !(out.Fire? && |r'.stack| == d + 1)
        && r'.stack[d].hook == f.hook && r'.stack[d].cur == f.cur && r'.stack[d].pending == left
  {
    hide Strike, RefBoundHooks, RefThrowScope;
  }

  /** What is left are subscriptions the dispatch had, and what has gone is not live either. */
  lemma LeftAreHad<V>(r: RefMachine<V>, input: Input<V>, d: nat, s: Sub)
    requires d < |r.stack| && r.stack[d].hook < |r.hooks| && s in r.stack[d].pending
    ensures s !in LeftToCall(r, input, d) ==>
      r.stack[d].hook < |RefStep(r, input).0.hooks| && s !in RefStep(r, input).0.hooks[r.stack[d].hook].live
  {
    hide StrikeStack;
  }

  lemma LeftWithin<V>(r: RefMachine<V>, input: Input<V>, d: nat)
    requires d < |r.stack|
    ensures forall s :: s in LeftToCall(r, input, d) ==> s in r.stack[d].pending
  {
  }

  // ---- what the bus guarantees at every moment ----

  lemma {:induction false} LiveIncreasing(es: seq<Entry>)
    requires forall k, l :: 0 <= k < l < |es| ==> es[k].sub.token < es[l].sub.token
    ensures forall i, j :: 0 <= i < j < |Live(es)| ==> Live(es)[i].token < Live(es)[j].token
  {
    if es == [] {
    } else {
      LiveIncreasing(es[1..]);
      LiveAreSubs(es[1..]);
      forall j | 0 <= j < |Live(es[1..])|
        ensures es[0].sub.token < Live(es[1..])[j].token
      {
        assert Live(es[1..])[j] in Live(es[1..]);
      }
    }
  }

  /** A dispatch stands at a subscription that comes before all it has still to call, in order. */
  ghost predicate FrameInOrder<V>(f: RefFrame<V>) {
    && (forall i, j :: 0 <= i < j < |f.pending| ==> f.pending[i].token < f.pending[j].token)
    && (forall s :: s in f.pending ==> f.cur.token < s.token)
  }

  lemma FramesAreInOrder<V>(m: Machine<V>, d: nat)
    requires Valid(m) && Ordered(m) && d < |m.stack|
    ensures d < |Abs(m).stack| && Abs(m).stack[d].hook < |m.hooks| && FrameInOrder(Abs(m).stack[d])
  {
    var f := m.stack[d];
    assert FrameOk(m.hooks, f) && Sorted(m.hooks[f.hook]);
    var es := m.hooks[f.hook].entries;
    hide Live, FramesOn;
    LiveIncreasing(es[f.i + 1..f.n]);
    LiveAreSubs(es[f.i + 1..f.n]);
  }

  lemma CalledCons<V>(m: Machine<V>, inputs: seq<Input<V>>, d: nat)
    requires Valid(m) && inputs != [] && |m.stack| > d
    ensures Valid(Step(m, inputs[0]).0)
    ensures var (m', out) := Step(m, inputs[0]);
      && Called(m, inputs, d)
           == (if out.Fire? && |m'.stack| == d + 1 then [out.token] else []) + Called(m', inputs[1..], d)
      && (Ends(m, inputs, d) ==> Ends(m', inputs[1..], d))
      && MachineAfter(m, inputs) == MachineAfter(m', inputs[1..])
  {
    StepKeepsValid(m, inputs[0]);
    hide Step, Valid;
  }

  lemma CalledNothing<V>(m: Machine<V>, inputs: seq<Input<V>>, d: nat)
    requires Valid(m) && (inputs == [] || |m.stack| <= d)
    ensures Called(m, inputs, d) == []
    ensures inputs == [] ==> MachineAfter(m, inputs) == m
    ensures Ends(m, inputs, d) ==> |m.stack| <= d && inputs == []
  {
    hide Step, Valid;
  }

  /** The step of a dispatch, on the bus itself. */
  lemma Advance<V>(m: Machine<V>, input: Input<V>, d: nat)
    requires Valid(m) && Ordered(m) && d < |m.stack|
    ensures d < |Abs(m).stack| && Abs(m).stack[d].hook < |Abs(m).hooks|
    ensures Valid(Step(m, input).0) && Ordered(Step(m, input).0)
    ensures var (m', out) := Step(m, input); var f, left := Abs(m).stack[d], LeftToCall(Abs(m), input, d);
      && |Abs(m').stack| == |m'.stack|
      && (forall s :: s in left ==> s in f.pending)
      && FrameInOrder(f)
      && (if out.Fire? && |m'.stack| == d + 1 then
            && left != [] && out.token == left[0].token
            && Abs(m').stack[d].hook == f.hook && Abs(m').stack[d].cur == left[0]
            && Abs(m').stack[d].pending == left[1..] && FrameInOrder(Abs(m').stack[d])
          else if |m'.stack| <= d then left == []
          else
            Abs(m').stack[d].hook == f.hook && Abs(m').stack[d].cur == f.cur && Abs(m').stack[d].pending == left
            && FrameInOrder(Abs(m').stack[d]))
  {
    hide *;
    var m' := Step(m, input).0;
    StepRefines(m, input);
    StepKeepsOrdered(m, input);
    AbsStackSize(m);
    AbsStackSize(m');
    FramesAreInOrder(m, d);
    StepOfDispatch(Abs(m), input, d);
    LeftWithin(Abs(m), input, d);
    if |m'.stack| > d {
      FramesAreInOrder(m', d);
    }
  }

  /** In order: the calls still to come are among what was pending, with increasing tokens. */
  lemma {:induction false} CalledInOrder<V>(m: Machine<V>, inputs: seq<Input<V>>, d: nat)
    requires Valid(m) && Ordered(m) && d < |m.stack|
    ensures d < |Abs(m).stack| && Increasing(Called(m, inputs, d))
    ensures forall t :: t in Called(m, inputs, d) ==> HasToken(Abs(m).stack[d].pending, t)
    decreases |inputs|
  {
    AbsStackSize(m);
    if inputs == [] {
      CalledNothing(m, inputs, d);
    } else {
      var (m', out) := Step(m, inputs[0]);
      Advance(m, inputs[0], d);
      CalledCons(m, inputs, d);
      hide Valid, Ordered, Abs, Step, Called, LeftToCall;
      if |m'.stack| <= d {
        CalledNothing(m', inputs[1..], d);
      } else {
        CalledInOrder(m', inputs[1..], d);
        var f, later := Abs(m').stack[d], Called(m', inputs[1..], d);
        if out.Fire? && |m'.stack| == d + 1 {
          HeadFirst(f, later);
        }
        PendingWithin(Abs(m).stack[d], f, LeftToCall(Abs(m), inputs[0], d), later);
      }
    }
  }

  lemma HeadFirst<V>(f: RefFrame<V>, later: seq<nat>)
    requires FrameInOrder(f) && Increasing(later) && forall t :: t in later ==> HasToken(f.pending, t)
    ensures Increasing([f.cur.token] + later)
  {
    var all := [f.cur.token] + later;
    forall j | 0 < j < |all|
      ensures f.cur.token < all[j]
    {
      assert all[j] == later[j - 1] && later[j - 1] in later;
    }
  }

  lemma PendingWithin<V>(f: RefFrame<V>, f': RefFrame<V>, left: seq<Sub>, later: seq<nat>)
    requires forall s :: s in left ==> s in f.pending
    requires f'.pending == left || (left != [] && f'.cur == left[0] && f'.pending == left[1..])
    requires forall t :: t in later ==> HasToken(f'.pending, t)
    ensures forall t :: t in later ==> HasToken(f.pending, t)
    ensures left != [] ==> HasToken(f.pending, left[0].token)
  {
    assert left != [] ==> left[0] in left;
    forall t | t in later
      ensures HasToken(f.pending, t)
    {
      var s :| s in f'.pending && s.token == t;
      assert s in left;
    }
  }

  // ---- nothing that stays is left out ----

  /** Subscription s has been on hook g and is not any more. */
  predicate Gone<V>(m: Machine<V>, g: nat, s: Sub) {
    g < |m.hooks| && s.token <= m.hooks[g].next && s !in Live(m.hooks[g].entries)
  }

  lemma StepKeepsGone<V>(m: Machine<V>, input: Input<V>, g: nat, s: Sub)
    requires Valid(m) && Gone(m, g, s)
    ensures Valid(Step(m, input).0) && Gone(Step(m, input).0, g, s)
  {
    var m' := Step(m, input).0;
    AbsHooksAre(m, g);
    StepRefines(m, input);
    LiveExactly(m, input, g, s);
    NextGrows(Abs(m), input);
    AbsHooksAre(m', g);
    hide Valid, Abs, Step, RefStep, Live, Removes;
  }

  lemma AbsHooksAre<V>(m: Machine<V>, g: nat)
    requires Valid(m)
    ensures |Abs(m).hooks| == |m.hooks|
    ensures g < |m.hooks| ==>
      Abs(m).hooks[g].live == Live(m.hooks[g].entries) && Abs(m).hooks[g].next == m.hooks[g].next
  {
    AbsHooksLive(m.hooks);
    hide FramesOn, Live;
  }

  lemma {:induction false} GoneStays<V>(m: Machine<V>, inputs: seq<Input<V>>, g: nat, s: Sub)
    requires Valid(m) && Gone(m, g, s)
    ensures Gone(MachineAfter(m, inputs), g, s)
    decreases |inputs|
  {
    if inputs == [] {
    } else {
      StepKeepsGone(m, inputs[0], g, s);
      hide Gone, Step, Valid;
      GoneStays(Step(m, inputs[0]).0, inputs[1..], g, s);
    }
  }

  /** A step takes off what it takes from the dispatch. */
  lemma LeftOrGone<V>(m: Machine<V>, input: Input<V>, d: nat, s: Sub)
    requires Valid(m) && Ordered(m) && d < |Abs(m).stack| && Abs(m).stack[d].hook < |m.hooks|
    requires s in Abs(m).stack[d].pending && s !in LeftToCall(Abs(m), input, d)
    ensures Valid(Step(m, input).0) && Gone(Step(m, input).0, Abs(m).stack[d].hook, s)
  {
    var m', g := Step(m, input).0, Abs(m).stack[d].hook;
    AbsHooksAre(m, g);
    AbsIssued(m);
    assert FrameIssued(Abs(m).hooks, Abs(m).stack[d]);
    StepRefines(m, input);
    LeftAreHad(Abs(m), input, d, s);
    NextGrows(Abs(m), input);
    AbsHooksAre(m', g);
    hide Valid, Abs, Step, RefStep, Live, LeftToCall, AllIssued;
  }

  lemma {:induction false} CalledOrGone<V>(m: Machine<V>, inputs: seq<Input<V>>, d: nat, s: Sub)
    requires Valid(m) && Ordered(m) && d < |m.stack| && d < |Abs(m).stack| && Ends(m, inputs, d)
    requires s in Abs(m).stack[d].pending
    ensures s.token in Called(m, inputs, d) || Gone(MachineAfter(m, inputs), Abs(m).stack[d].hook, s)
    decreases |inputs|
  {
    hide *;
    if inputs == [] {
      CalledNothing(m, inputs, d);
    } else {
      var (m', out) := Step(m, inputs[0]);
      var f, left := Abs(m).stack[d], LeftToCall(Abs(m), inputs[0], d);
      Advance(m, inputs[0], d);
      AbsStackSize(m);
      AbsHooksAre(m, f.hook);
      CalledCons(m, inputs, d);
      if s !in left {
        LeftOrGone(m, inputs[0], d, s);
        GoneStays(m', inputs[1..], f.hook, s);
      } else if !(out.Fire? && |m'.stack| == d + 1 && s == left[0]) {
        CalledOrGone(m', inputs[1..], d, s);
      }
    }
  }

  // ---- the whole dispatch ----

  /** The tokens that a dispatch of hook h calls, from its beginning. */
  function DispatchCalls<V>(m: Machine<V>, h: nat, value: V, inputs: seq<Input<V>>): seq<nat>
    requires Valid(m)
  {
    StepKeepsValid(m, Emit(h, value));
    var (m1, out) := Step(m, Emit(h, value));
    (if out.Fire? then [out.token] else []) + Called(m1, inputs, |m.stack|)
  }

  lemma Begins<V>(m: Machine<V>, h: nat, value: V)
    requires Valid(m) && Ordered(m) && h < |m.hooks|
    ensures var (m1, out) := Step(m, Emit(h, value)); var d, start := |m.stack|, Live(m.hooks[h].entries);
      && Valid(m1) && Ordered(m1)
      && (if start == [] then |m1.stack| == d && !out.Fire?
          else
            && |m1.stack| == d + 1 && d < |Abs(m1).stack| && out.Fire? && out.token == start[0].token
            && Abs(m1).stack[d].hook == h && Abs(m1).stack[d].cur == start[0]
            && Abs(m1).stack[d].pending == start[1..] && FrameInOrder(Abs(m1).stack[d]))
  {
    var m1 := Step(m, Emit(h, value)).0;
    StepRefines(m, Emit(h, value));
    StepKeepsOrdered(m, Emit(h, value));
    AbsHooksAre(m, h);
    AbsStackSize(m);
    AbsStackSize(m1);
    if |m1.stack| > |m.stack| {
      FramesAreInOrder(m1, |m.stack|);
    }
    hide Valid, Ordered, Abs, Step, Live, FrameInOrder;
  }

  /** ONE DISPATCH, from any moment and whatever its callbacks do: it calls, each once and in order of
      subscription, subscriptions that were live when it began, and when it ends none of those is still
      live that it has not called. */
  lemma DispatchCallsExactly<V>(m: Machine<V>, h: nat, value: V, inputs: seq<Input<V>>)
    requires Valid(m) && Ordered(m) && h < |m.hooks|
    ensures Increasing(DispatchCalls(m, h, value, inputs))
    ensures forall t :: t in DispatchCalls(m, h, value, inputs) ==> HasToken(Live(m.hooks[h].entries), t)
    ensures var m1 := Step(m, Emit(h, value)).0;
      && Valid(m1)
      && (Ends(m1, inputs, |m.stack|) ==>
            forall s :: s in Live(m.hooks[h].entries) ==>
              s.token in DispatchCalls(m, h, value, inputs) || Gone(MachineAfter(m1, inputs), h, s))
  {
    var (m1, out) := Step(m, Emit(h, value));
    var d, start := |m.stack|, Live(m.hooks[h].entries);
    Begins(m, h, value);
    hide Valid, Ordered, Abs, Step, Called, Ends, Live, Gone, FrameInOrder, Increasing;
    if start == [] {
      CalledNothing(m1, inputs, d);
      OneIncreasing([]);
    } else {
      var later := Called(m1, inputs, d);
      CalledInOrder(m1, inputs, d);
      HeadFirst(Abs(m1).stack[d], later);
      assert start[0] in start;
      forall t | t in later
        ensures HasToken(start, t)
      {
        var s :| s in start[1..] && s.token == t;
        assert s in start;
      }
      if Ends(m1, inputs, d) {
        forall s | s in start && s.token !in [out.token] + later
          ensures Gone(MachineAfter(m1, inputs), h, s)
        {
          assert s in start[1..];
          CalledOrGone(m1, inputs, d, s);
        }
      }
    }
  }

  lemma OneIncreasing(s: seq<nat>)
    requires |s| <= 1
    ensures Increasing(s)
  {
  }
}
