/** What a Filter computes, and what an Event hands out, under re-entrant dispatch. */
module HooksFilter {
  import opened Hooks
  import opened HooksReference
  import opened HooksRefinement

  /** How a callback ended. */
  datatype Outcome<+V> = Returns(value: V) | Throws

  /** One call of a dispatch: whose it was, what it was given, how it ended. */
  datatype Call<V> = Call(token: nat, given: V, outcome: Outcome<V>)

  /** The history of one dispatch: the value it began with, the calls that are over, in order, and the
      token and the argument of the running one. */
  datatype Trail<V> = Trail(hook: nat, seed: V, ran: seq<Call<V>>, cur: nat, given: V)

  /** What a filter makes of the seed: the value of the last link that returned, a link that throws
      leaving the value as it was. */
  function Fold<V>(ran: seq<Call<V>>, seed: V): V {
    if ran == [] then seed
    else
      match ran[|ran| - 1].outcome
      case Returns(v) => v
      case Throws => Fold(ran[..|ran| - 1], seed)
  }

  /** The value a dispatch carries: the fold for a filter, the unchanged arguments for an event. */
  function Carried<V>(threads: bool, ran: seq<Call<V>>, seed: V): V {
    if threads then Fold(ran, seed) else seed
  }

  /** Every call was given what the dispatch carried at that point. */
  ghost predicate Threaded<V>(threads: bool, ran: seq<Call<V>>, seed: V) {
    forall k :: 0 <= k < |ran| ==> ran[k].given == Carried(threads, ran[..k], seed)
  }

  /** The trail of the dispatch that goes on with this input, once the running callback is over. */
  function Resumed<V>(trails: seq<Trail<V>>, input: Input<V>): Trail<V>
    requires input.Emit? || trails != []
  {
    if input.Emit? then Trail(input.h, input.value, [], 0, input.value)
    else
      var t := trails[|trails| - 1];
      t.(ran := t.ran + [Call(t.cur, t.given, if input.Return? then Returns(input.value) else Throws)])
  }

  /** The trails of the dispatches in flight, read off inputs and outputs alone. */
  function Note<V>(trails: seq<Trail<V>>, input: Input<V>, out: Output<V>): seq<Trail<V>> {
    if out.Quiet? || out.Subscribed? || (!input.Emit? && trails == []) then trails
    else
      var rest := if input.Emit? then trails else trails[..|trails| - 1];
      if out.Fire? then rest + [Resumed(trails, input).(cur := out.token, given := out.value)] else rest
  }

  function TrailsAfter<V>(trails: seq<Trail<V>>, inputs: seq<Input<V>>, outs: seq<Output<V>>): seq<Trail<V>>
    requires |inputs| == |outs|
    decreases |inputs|
  {
    if inputs == [] then trails else TrailsAfter(Note(trails, inputs[0], outs[0]), inputs[1..], outs[1..])
  }

  ghost predicate Tracked<V>(r: RefMachine<V>, trails: seq<Trail<V>>) {
    && |trails| == |r.stack|
    && forall k :: 0 <= k < |trails| ==> TracksFrame(r.hooks, r.stack[k], trails[k])
  }

  ghost predicate TracksFrame<V>(hooks: seq<RefHook>, f: RefFrame<V>, t: Trail<V>) {
    && t.hook == f.hook < |hooks|
    && t.cur == f.cur.token
    && f.value == t.given == Carried(hooks[f.hook].threads, t.ran, t.seed)
    && Threaded(hooks[f.hook].threads, t.ran, t.seed)
  }

  /** A finished dispatch reports what its trail says it carries, and so was every call in it given. */
  ghost predicate Reports<V>(hooks: seq<RefHook>, t: Trail<V>, out: Output<V>) {
    out.Done? ==>
      && out.h == t.hook < |hooks|
      && out.value == Carried(hooks[t.hook].threads, t.ran, t.seed)
      && Threaded(hooks[t.hook].threads, t.ran, t.seed)
  }

  lemma ResumeTracks<V>(hooks: seq<RefHook>, below: seq<RefFrame<V>>, f: RefFrame<V>, trails: seq<Trail<V>>,
                        t: Trail<V>)
    requires Tracked(RefMachine(hooks, below), trails)
    requires t.hook == f.hook < |hooks| && f.value == Carried(hooks[f.hook].threads, t.ran, t.seed)
    requires Threaded(hooks[f.hook].threads, t.ran, t.seed)
    ensures var (r, out) := RefResume(hooks, below, f);
      && Tracked(r, if out.Fire? then trails + [t.(cur := out.token, given := out.value)] else trails)
      && Reports(r.hooks, t, out)
  {
    hide Carried, Threaded;
  }

  lemma ReturnTracks<V>(r: RefMachine<V>, value: V, trails: seq<Trail<V>>, input: Input<V>)
    requires Tracked(r, trails) && r.stack != [] && !input.Emit?
    requires var t := Resumed(trails, input);
      && value == Carried(r.hooks[t.hook].threads, t.ran, t.seed)
      && Threaded(r.hooks[t.hook].threads, t.ran, t.seed)
    ensures var (r', out) := RefReturn(r, value);
      && Tracked(r', Note(trails, input, out))
      && Reports(r'.hooks, Resumed(trails, input), out)
  {
    hide Carried, Threaded;
    assert Tracked(r.(stack := RefBelow(r)), trails[..|trails| - 1]);
    ResumeTracks(r.hooks, RefBelow(r), RefTop(r).(value := value), trails[..|trails| - 1], Resumed(trails, input));
    hide Tracked, RefResume;
  }

  /** One more call, given what was carried: a filter carries its value on if it returned. */
  lemma CarriedOn<V>(threads: bool, ran: seq<Call<V>>, seed: V, call: Call<V>)
    requires Threaded(threads, ran, seed) && call.given == Carried(threads, ran, seed)
    ensures Threaded(threads, ran + [call], seed)
    ensures Carried(threads, ran + [call], seed)
      == if threads && call.outcome.Returns? then call.outcome.value else call.given
  {
    var more := ran + [call];
    assert more[..|ran|] == ran;
    forall k | 0 <= k < |more|
      ensures more[k].given == Carried(threads, more[..k], seed)
    {
      assert k < |ran| ==> more[..k] == ran[..k];
    }
  }

  lemma StrikeTracks<V>(r: RefMachine<V>, hs: set<nat>, sel: Selector, trails: seq<Trail<V>>)
    requires Tracked(r, trails)
    ensures Tracked(StrikeOn(r, hs, sel), trails)
  {
    hide Carried, Threaded, Strike;
  }

  /** The step kept the trails, and reported truly if a dispatch ended. */
  ghost predicate StepOk<V>(r: RefMachine<V>, trails: seq<Trail<V>>, input: Input<V>) {
    var (r', out) := RefStep(r, input);
    && Tracked(r', Note(trails, input, out))
    && (out.Done? ==> (input.Emit? || trails != []) && Reports(r'.hooks, Resumed(trails, input), out))
  }

  lemma EmitTracks<V>(r: RefMachine<V>, trails: seq<Trail<V>>, h: nat, value: V)
    requires Tracked(r, trails) && h < |r.hooks|
    ensures StepOk(r, trails, Emit(h, value))
  {
    ResumeTracks(r.hooks, r.stack, RefFrame(h, Sub(0, 0), r.hooks[h].live, value), trails,
                 Resumed(trails, Emit(h, value)));
    hide Tracked, RefResume, Reports;
  }

  lemma TopTracks<V>(r: RefMachine<V>, trails: seq<Trail<V>>)
    requires Tracked(r, trails) && r.stack != []
    ensures trails != [] && TracksFrame(r.hooks, RefTop(r), trails[|trails| - 1])
  {
    hide TracksFrame;
  }

  lemma ReturnedTracks<V>(r: RefMachine<V>, trails: seq<Trail<V>>, value: V)
    requires Tracked(r, trails) && r.stack != []
    ensures StepOk(r, trails, Return(value))
  {
    TopTracks(r, trails);
    var t, f := trails[|trails| - 1], RefTop(r);
    var threads := r.hooks[t.hook].threads;
    var v := if threads then value else f.value;
    var call := Call(t.cur, t.given, Returns(value));
    assert Resumed(trails, Return(value)) == t.(ran := t.ran + [call]);
    assert RefStep(r, Return(value)) == RefReturn(r, v);
    assert f.value == t.given;
    CarriedOn(threads, t.ran, t.seed, call);
    hide Tracked, TracksFrame, Carried, Threaded, Reports, RefStep, RefReturn, Note, Resumed;
    ReturnTracks(r, v, trails, Return(value));
  }

  lemma ThrownTracks<V>(r: RefMachine<V>, trails: seq<Trail<V>>)
    requires Tracked(r, trails) && r.stack != []
    ensures StepOk(r, trails, Throw)
  {
    TopTracks(r, trails);
    var t, f := trails[|trails| - 1], RefTop(r);
    var threads := r.hooks[t.hook].threads;
    var call := Call(t.cur, t.given, Throws);
    assert Resumed(trails, Throw) == t.(ran := t.ran + [call]);
    assert RefStep(r, Throw) == RefReturn(RefThrown(r), f.value);
    assert f.value == t.given;
    CarriedOn(threads, t.ran, t.seed, call);
    StrikeTracks(r, RefThrowScope(r.hooks, f.hook, f.cur.who), ByOwner(f.cur.who), trails);
    assert RefThrown(r).hooks[t.hook].threads == threads && |RefThrown(r).hooks| == |r.hooks|;
    hide Tracked, TracksFrame, Carried, Threaded, Reports, RefStep, RefReturn, Note, Resumed, StrikeOn, RefThrowScope;
    ReturnTracks(RefThrown(r), f.value, trails, Throw);
  }

  /** One step extends the record of a dispatch by the call that ended, and reports what it carries. */
  lemma StepTracks<V>(r: RefMachine<V>, trails: seq<Trail<V>>, input: Input<V>)
    requires Tracked(r, trails)
    ensures StepOk(r, trails, input)
  {
    match input {
      case Unsubscribe(h, token) => StrikeTracks(r, {h}, ByToken(token), trails);
      case Purge(h, who) => StrikeTracks(r, {h}, ByOwner(who), trails);
      case Disable(who) => StrikeTracks(r, RefBoundHooks(r.hooks), ByOwner(who), trails);
      case Emit(h, value) => if h < |r.hooks| { EmitTracks(r, trails, h, value); }
      case Return(value) => if r.stack != [] { ReturnedTracks(r, trails, value); }
      case Throw => if r.stack != [] { ThrownTracks(r, trails); }
      case _ => QuietTracks(r, trails, input);
    }
    hide Tracked, RefReturn, RefResume, StrikeOn, Reports;
  }

  lemma QuietTracks<V>(r: RefMachine<V>, trails: seq<Trail<V>>, input: Input<V>)
    requires Tracked(r, trails) && (input.NewHook? || input.Adopt? || input.Subscribe?)
    ensures StepOk(r, trails, input)
  {
    hide Carried, Threaded;
  }

  lemma RunUnfolds<V>(r: RefMachine<V>, trails: seq<Trail<V>>, inputs: seq<Input<V>>, k: nat)
    requires k < |inputs|
    ensures var (r', out) := RefStep(r, inputs[0]); var outs, outs' := RefRun(r, inputs), RefRun(r', inputs[1..]);
      && outs == [out] + outs'
      && RefAfter(r, inputs[..k + 1]) == RefAfter(r', inputs[1..][..k])
      && TrailsAfter(trails, inputs[..0], outs[..0]) == trails
      && (k == 0 ==> RefAfter(r', inputs[1..][..k]) == r')
      && (k > 0 ==>
            TrailsAfter(trails, inputs[..k], outs[..k])
              == TrailsAfter(Note(trails, inputs[0], out), inputs[1..][..k - 1], outs'[..k - 1]))
  {
    hide RefStep, Note;
    var outs := RefRun(r, inputs);
    assert inputs[..k + 1][0] == inputs[0] && inputs[..k + 1][1..] == inputs[1..][..k];
    if k > 0 {
      assert inputs[..k][1..] == inputs[1..][..k - 1] && outs[..k][1..] == outs[1..][..k - 1];
      assert inputs[..k][0] == inputs[0] && outs[..k][0] == outs[0];
    }
  }

  lemma {:induction false} RunTracks<V>(r: RefMachine<V>, trails: seq<Trail<V>>, inputs: seq<Input<V>>, k: nat)
    requires Tracked(r, trails) && k < |inputs|
    requires RefRun(r, inputs)[k].Done?
    ensures var outs := RefRun(r, inputs);
      var before := TrailsAfter(trails, inputs[..k], outs[..k]);
      && (inputs[k].Emit? || before != [])
      && Reports(RefAfter(r, inputs[..k + 1]).hooks, Resumed(before, inputs[k]), outs[k])
    decreases |inputs|
  {
    hide RefStep, RefRun, RefAfter, TrailsAfter, Tracked, Reports, Note, Resumed;
    var (r', out) := RefStep(r, inputs[0]);
    RunUnfolds(r, trails, inputs, k);
    StepTracks(r, trails, inputs[0]);
    if k == 0 {
      assert inputs[..0] == [];
    } else {
      RunTracks(r', Note(trails, inputs[0], out), inputs[1..], k - 1);
      assert inputs[1..][..k - 1 + 1] == inputs[1..][..k];
    }
  }

  /** From a bus at rest, whatever the callbacks do and return: every dispatch of a filter returns the
      fold of the calls it made over the value it was given, throwing links skipped, each link having
      been given the fold of those before it; and every dispatch of an event hands its arguments to
      each listener unchanged. However the dispatches nest. */
  lemma DispatchCarriesFold<V>(m: Machine<V>, inputs: seq<Input<V>>, k: nat)
    requires Valid(m) && m.stack == [] && k < |inputs|
    requires Run(m, inputs)[k].Done?
    ensures var outs := Run(m, inputs);
      var before := TrailsAfter([], inputs[..k], outs[..k]);
      && (inputs[k].Emit? || before != [])
      && Reports(RefAfter(Abs(m), inputs[..k + 1]).hooks, Resumed(before, inputs[k]), outs[k])
  {
    BusRefinesReference(m, inputs);
    RunTracks(Abs(m), [], inputs, k);
  }

  // ---- links that are functions ----

  /** The links in order, each applied to what the one before made of the seed. */
  function Compose<V>(links: seq<V -> Outcome<V>>, seed: V): V {
    if links == [] then seed
    else
      var before := Compose(links[..|links| - 1], seed);
      match links[|links| - 1](before)
      case Returns(v) => v
      case Throws => before
  }

  /** When each call computed a function of what it was given, a filter's fold is their composition. */
  lemma {:induction false} FoldComposes<V>(ran: seq<Call<V>>, seed: V, links: seq<V -> Outcome<V>>)
    requires Threaded(true, ran, seed) && |links| == |ran|
    requires forall k :: 0 <= k < |ran| ==> ran[k].outcome == links[k](ran[k].given)
    ensures Fold(ran, seed) == Compose(links, seed)
  {
    if ran == [] {
    } else {
      var n := |ran| - 1;
      assert forall k :: 0 <= k <= n ==> ran[..n][..k] == ran[..k];
      FoldComposes(ran[..n], seed, links[..n]);
    }
  }

  // ---- one hook of each kind ----

  const NO_HOOK: RefMachine<int> := RefMachine([], [])

  function Made(threads: bool): RefMachine<int> {
    RefMachine([RefHook([], 0, false, threads)], [])
  }

  function Heard(threads: bool): RefMachine<int> {
    RefMachine([RefHook([Sub(1, 5)], 1, false, threads)], [])
  }

  function Calling(threads: bool): RefMachine<int> {
    Heard(threads).(stack := [RefFrame(0, Sub(1, 5), [], 7)])
  }

  lemma StepsOfOneCall(threads: bool, value: int)
    ensures RefStep(NO_HOOK, NewHook(threads)) == (Made(threads), Quiet)
    ensures RefStep(Made(threads), Subscribe(0, 5)) == (Heard(threads), Subscribed(1))
    ensures RefStep(Heard(threads), Emit(0, 7)) == (Calling(threads), Fire(0, 1, 7))
    ensures RefStep(Calling(threads), Return(value)) == (Heard(threads), Done(0, if threads then value else 7))
  {
    assert NO_HOOK.hooks + Made(threads).hooks == Made(threads).hooks && [] + [Sub(1, 5)] == [Sub(1, 5)];
    assert Made(threads).hooks[0 := Heard(threads).hooks[0]] == Heard(threads).hooks;
    assert [Sub(1, 5)][1..] == [] && Heard(threads).stack + Calling(threads).stack == Calling(threads).stack;
  }

  /** A hook made to thread values takes what its callback returns; one that is not keeps its arguments. */
  lemma FilterTakesEventKeeps(threads: bool, value: int)
    ensures Run(Machine([], []), [NewHook(threads), Subscribe(0, 5), Emit(0, 7), Return(value)])
      == [Quiet, Subscribed(1), Fire(0, 1, 7), Done(0, if threads then value else 7)]
  {
    var m: Machine<int> := Machine([], []);
    assert Valid(m) && Abs(m) == NO_HOOK;
    StepsOfOneCall(threads, value);
    assert RefRun(Heard(threads), []) == [];
    hide *;
    RefRunCons(Calling(threads), Return(value), [], Heard(threads), Done(0, if threads then value else 7));
    RefRunCons(Heard(threads), Emit(0, 7), [Return(value)], Calling(threads), Fire(0, 1, 7));
    RefRunCons(Made(threads), Subscribe(0, 5), [Emit(0, 7), Return(value)], Heard(threads), Subscribed(1));
    RefRunCons(NO_HOOK, NewHook(threads), [Subscribe(0, 5), Emit(0, 7), Return(value)], Made(threads), Quiet);
    BusRefinesReference(m, [NewHook(threads), Subscribe(0, 5), Emit(0, 7), Return(value)]);
  }
}
