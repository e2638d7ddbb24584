/** The bus as its users should think of it: removal is immediate. A hook is the list of its
    subscriptions; a dispatch in flight is the list of subscriptions it still has to call, and
    removing a subscription strikes it from every list at once. No tombstone, no index, no depth. */
module HooksReference {
  import opened Hooks

  datatype RefHook = RefHook(live: seq<Sub>, next: nat, bound: bool, threads: bool)

  datatype RefFrame<V> = RefFrame(hook: nat, cur: Sub, pending: seq<Sub>, value: V)

  datatype RefMachine<V> = RefMachine(hooks: seq<RefHook>, stack: seq<RefFrame<V>>)

  function Strike(subs: seq<Sub>, sel: Selector): (r: seq<Sub>)
    ensures forall s :: s in r <==> s in subs && !Picks(sel, s)
  {
    if subs == [] then [] else (if Picks(sel, subs[0]) then [] else [subs[0]]) + Strike(subs[1..], sel)
  }

  function StrikeHooks(hooks: seq<RefHook>, hs: set<nat>, sel: Selector): (r: seq<RefHook>)
    ensures |r| == |hooks|
  {
    seq(|hooks|, k requires 0 <= k < |hooks| =>
      if k in hs then hooks[k].(live := Strike(hooks[k].live, sel)) else hooks[k])
  }

  function StrikeStack<V>(stack: seq<RefFrame<V>>, hs: set<nat>, sel: Selector): (r: seq<RefFrame<V>>)
    ensures |r| == |stack|
  {
    seq(|stack|, k requires 0 <= k < |stack| =>
      if stack[k].hook in hs then stack[k].(pending := Strike(stack[k].pending, sel)) else stack[k])
  }

  function StrikeOn<V>(r: RefMachine<V>, hs: set<nat>, sel: Selector): RefMachine<V> {
    RefMachine(StrikeHooks(r.hooks, hs, sel), StrikeStack(r.stack, hs, sel))
  }

  function RefBoundHooks(hooks: seq<RefHook>): set<nat> {
    set k: nat | k < |hooks| && hooks[k].bound
  }

  function RefThrowScope(hooks: seq<RefHook>, h: nat, who: nat): set<nat> {
    if h < |hooks| && hooks[h].bound && who != KERNEL then RefBoundHooks(hooks) else {h}
  }

  /** Call the next pending subscription of the dispatch `f`, or finish the dispatch. */
  function RefResume<V>(hooks: seq<RefHook>, below: seq<RefFrame<V>>, f: RefFrame<V>): (RefMachine<V>, Output<V>) {
    if f.pending == [] then (RefMachine(hooks, below), Done(f.hook, f.value))
    else
      (RefMachine(hooks, below + [f.(cur := f.pending[0], pending := f.pending[1..])]),
       Fire(f.hook, f.pending[0].token, f.value))
  }

  function RefTop<V>(r: RefMachine<V>): RefFrame<V>
    requires r.stack != []
  {
    r.stack[|r.stack| - 1]
  }

  function RefBelow<V>(r: RefMachine<V>): seq<RefFrame<V>>
    requires r.stack != []
  {
    r.stack[..|r.stack| - 1]
  }

  function RefReturn<V>(r: RefMachine<V>, value: V): (RefMachine<V>, Output<V>)
    requires r.stack != []
  {
    var f := RefTop(r);
    RefResume(r.hooks, RefBelow(r), f.(value := value))
  }

  /** What a throw does first: the owner of the running callback loses its subscriptions. */
  function RefThrown<V>(r: RefMachine<V>): (r': RefMachine<V>)
    requires r.stack != []
    ensures r'.stack != []
  {
    var f := RefTop(r);
    StrikeOn(r, RefThrowScope(r.hooks, f.hook, f.cur.who), ByOwner(f.cur.who))
  }

  function RefStep<V>(r: RefMachine<V>, input: Input<V>): (RefMachine<V>, Output<V>) {
    match input
    case NewHook(threads) => (r.(hooks := r.hooks + [RefHook([], 0, false, threads)]), Quiet)
    case Adopt(h) =>
      if h >= |r.hooks| then (r, Quiet) else (r.(hooks := r.hooks[h := r.hooks[h].(bound := true)]), Quiet)
    case Subscribe(h, who) =>
      if h >= |r.hooks| then (r, Quiet)
      else
        var hook := r.hooks[h];
        var hook' := hook.(live := hook.live + [Sub(hook.next + 1, who)], next := hook.next + 1);
        (r.(hooks := r.hooks[h := hook']), Subscribed(hook.next + 1))
    case Unsubscribe(h, token) => (StrikeOn(r, {h}, ByToken(token)), Quiet)
    case Purge(h, who) => (StrikeOn(r, {h}, ByOwner(who)), Quiet)
    case Disable(who) => (StrikeOn(r, RefBoundHooks(r.hooks), ByOwner(who)), Quiet)
    case Emit(h, value) =>
      if h >= |r.hooks| then (r, Quiet)
      else RefResume(r.hooks, r.stack, RefFrame(h, Sub(0, 0), r.hooks[h].live, value))
    case Return(value) =>
      if r.stack == [] then (r, Quiet)
      else
        var f := RefTop(r);
        RefReturn(r, if f.hook < |r.hooks| && r.hooks[f.hook].threads then value else f.value)
    case Throw =>
      if r.stack == [] then (r, Quiet) else RefReturn(RefThrown(r), RefTop(r).value)
  }

  /** The outputs of a whole run. */
  function RefRun<V>(r: RefMachine<V>, inputs: seq<Input<V>>): (outs: seq<Output<V>>)
    ensures |outs| == |inputs|
    decreases |inputs|
  {
    if inputs == [] then []
    else
      var (r', out) := RefStep(r, inputs[0]);
      [out] + RefRun(r', inputs[1..])
  }

  lemma RefRunCons<V>(r: RefMachine<V>, input: Input<V>, inputs: seq<Input<V>>, r': RefMachine<V>, out: Output<V>)
    requires RefStep(r, input) == (r', out)
    ensures RefRun(r, [input] + inputs) == [out] + RefRun(r', inputs)
  {
    assert ([input] + inputs)[1..] == inputs;
  }

  function RefAfter<V>(r: RefMachine<V>, inputs: seq<Input<V>>): RefMachine<V>
    decreases |inputs|
  {
    if inputs == [] then r else RefAfter(RefStep(r, inputs[0]).0, inputs[1..])
  }
}
