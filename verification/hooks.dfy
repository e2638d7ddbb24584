/** The typed bus of packages/kernel/include/unbox/kernel/hooks.hpp as a small-step machine.

    A dispatch (Event::emit or Filter::apply) hands control to arbitrary callbacks, which may
    emit, subscribe, unsubscribe, purge or throw before they return. So the machine keeps the
    C++ call stack explicitly: one Frame per dispatch in flight, stopped at the entry whose
    callback is running. Everything the surrounding program does is an Input; what the bus does
    in answer is an Output. */
module Hooks {

  /** A subscription: its token and the extension that owns it. Owner 0 is the kernel. */
  datatype Sub = Sub(token: nat, who: nat)

  const KERNEL: nat := 0

  /** A slot of `entries_`; a dead slot is a tombstone. */
  datatype Entry = Entry(sub: Sub, dead: bool)

  /** One Event (threads == false) or Filter (threads == true). `bound` says that the hook was
      given the isolation sink and is on the list of hooks `disable` walks. */
  datatype HookState = HookState(entries: seq<Entry>, next: nat, depth: nat, bound: bool, threads: bool)

  /** What a removal aims at: one token, or every subscription of an owner. No removal aims at `Until`,
      those an owner has had up to some token; it is there to speak of them. */
  datatype Selector = ByToken(token: nat) | ByOwner(who: nat) | Until(who: nat, upTo: nat)

  predicate Picks(sel: Selector, s: Sub) {
    match sel
    case ByToken(t) => s.token == t
    case ByOwner(w) => s.who == w
    case Until(w, t) => s.who == w && s.token <= t
  }

  function Kill(es: seq<Entry>, sel: Selector): seq<Entry> {
    seq(|es|, k requires 0 <= k < |es| => if Picks(sel, es[k].sub) then es[k].(dead := true) else es[k])
  }

  function Compact(es: seq<Entry>): seq<Entry> {
    if es == [] then [] else (if es[0].dead then [] else [es[0]]) + Compact(es[1..])
  }

  /** `compact_if_idle`. */
  function Settle(h: HookState): HookState {
    if h.depth != 0 then h else h.(entries := Compact(h.entries))
  }

  /** `purge` and `unsubscribe`. */
  function Remove(h: HookState, sel: Selector): HookState {
    Settle(h.(entries := Kill(h.entries, sel)))
  }

  function Append(h: HookState, who: nat): HookState {
    h.(entries := h.entries + [Entry(Sub(h.next + 1, who), false)], next := h.next + 1)
  }

  /** The index the dispatch loop stops at: the first live slot in [i, n), or n. */
  function NextLive(es: seq<Entry>, i: nat, n: nat): (j: nat)
    requires i <= n <= |es|
    ensures i <= j <= n
    ensures j < n ==> !es[j].dead
    ensures forall k :: i <= k < j ==> es[k].dead
    decreases n - i
  {
    if i == n || !es[i].dead then i else NextLive(es, i + 1, n)
  }

  /** A dispatch in flight: its hook, the index of the running entry and the size snapshot, and
      the value (the event's arguments, or the value a filter threads). */
  datatype Frame<V> = Frame(hook: nat, i: nat, n: nat, value: V)

  datatype Machine<V> = Machine(hooks: seq<HookState>, stack: seq<Frame<V>>)

  datatype Input<V> =
    | NewHook(threads: bool)
    | Adopt(h: nat)
    | Subscribe(h: nat, who: nat)
    | Unsubscribe(h: nat, token: nat)
    | Purge(h: nat, who: nat)
    | Disable(who: nat)
    | Emit(h: nat, value: V)
    | Return(value: V)
    | Throw

  datatype Output<V> =
    | Quiet
    | Subscribed(token: nat)
    | Fire(h: nat, token: nat, value: V)
    | Done(h: nat, value: V)

  /** Remove on several hooks, as `disable` does; `hs` picks the hooks. */
  function RemoveOn(hooks: seq<HookState>, hs: set<nat>, sel: Selector): (r: seq<HookState>)
    ensures |r| == |hooks|
  {
    seq(|hooks|, k requires 0 <= k < |hooks| => if k in hs then Remove(hooks[k], sel) else hooks[k])
  }

  function BoundHooks(hooks: seq<HookState>): set<nat> {
    set k: nat | k < |hooks| && hooks[k].bound
  }

  /** The hooks a throw on hook h by `who` purges (`disable_owner`). */
  function ThrowScope(hooks: seq<HookState>, h: nat, who: nat): set<nat>
    requires h < |hooks|
  {
    if hooks[h].bound && who != KERNEL then BoundHooks(hooks) else {h}
  }

  predicate CanResume<V>(hooks: seq<HookState>, f: Frame<V>) {
    f.hook < |hooks| && f.i <= f.n <= |hooks[f.hook].entries| && hooks[f.hook].depth > 0
  }

  /** Run the dispatch loop of `f` on from index f.i: stop at the next live entry, or unwind. */
  function Resume<V>(hooks: seq<HookState>, below: seq<Frame<V>>, f: Frame<V>): (Machine<V>, Output<V>)
    requires CanResume(hooks, f)
  {
    var h := hooks[f.hook];
    var j := NextLive(h.entries, f.i, f.n);
    if j < f.n then
      (Machine(hooks, below + [f.(i := j)]), Fire(f.hook, h.entries[j].sub.token, f.value))
    else
      (Machine(hooks[f.hook := Settle(h.(depth := h.depth - 1))], below), Done(f.hook, f.value))
  }

  function Top<V>(m: Machine<V>): Frame<V>
    requires m.stack != []
  {
    m.stack[|m.stack| - 1]
  }

  function Below<V>(m: Machine<V>): seq<Frame<V>>
    requires m.stack != []
  {
    m.stack[..|m.stack| - 1]
  }

  /** The subscription whose callback runs in a frame. */
  function Running<V>(hooks: seq<HookState>, f: Frame<V>): Sub
    requires f.hook < |hooks| && f.i < |hooks[f.hook].entries|
  {
    hooks[f.hook].entries[f.i].sub
  }

  /** The frame once its running callback is over. */
  function Finished<V>(hooks: seq<HookState>, f: Frame<V>, value: V): Frame<V>
    requires f.hook < |hooks| && f.i < |hooks[f.hook].entries|
  {
    f.(i := f.i + 1, value := value)
  }

  predicate CanLeave<V>(m: Machine<V>) {
    m.stack != [] && FrameOk(m.hooks, Top(m)) && m.hooks[Top(m).hook].depth > 0
  }

  /** The running callback is over: the dispatch goes on with `value`. */
  function Leave<V>(m: Machine<V>, value: V): (Machine<V>, Output<V>)
    requires CanLeave(m)
  {
    Resume(m.hooks, Below(m), Finished(m.hooks, Top(m), value))
  }

  /** What a throw does first: the owner of the running callback loses its subscriptions. */
  function Thrown<V>(m: Machine<V>): (m': Machine<V>)
    requires CanLeave(m)
    ensures CanLeave(m')
  {
    var f := Top(m);
    var who := Running(m.hooks, f).who;
    m.(hooks := RemoveOn(m.hooks, ThrowScope(m.hooks, f.hook, who), ByOwner(who)))
  }

  function FramesOn<V>(stack: seq<Frame<V>>, h: nat): nat {
    if stack == [] then 0
    else FramesOn(stack[..|stack| - 1], h) + (if stack[|stack| - 1].hook == h then 1 else 0)
  }

  predicate NoTombstone(es: seq<Entry>) {
    forall k :: 0 <= k < |es| ==> !es[k].dead
  }

  /** Tokens are handed out in increasing order, so the slots stay sorted by token. */
  predicate Sorted(h: HookState) {
    && (forall k, l :: 0 <= k < l < |h.entries| ==> h.entries[k].sub.token < h.entries[l].sub.token)
    && (forall k :: 0 <= k < |h.entries| ==> 0 < h.entries[k].sub.token <= h.next)
  }

  predicate FrameOk<V>(hooks: seq<HookState>, f: Frame<V>) {
    f.hook < |hooks| && f.i < f.n <= |hooks[f.hook].entries|
  }

  /** The invariant of every reachable state: a hook's depth counts its dispatches in flight, an
      idle hook holds no tombstone, and every frame is stopped at one of its slots. */
  predicate Valid<V>(m: Machine<V>) {
    && (forall h :: 0 <= h < |m.hooks| ==> m.hooks[h].depth == FramesOn(m.stack, h))
    && (forall h :: 0 <= h < |m.hooks| && m.hooks[h].depth == 0 ==> NoTombstone(m.hooks[h].entries))
    && (forall k :: 0 <= k < |m.stack| ==> FrameOk(m.hooks, m.stack[k]))
  }

  function Step<V>(m: Machine<V>, input: Input<V>): (Machine<V>, Output<V>)
    requires Valid(m)
  {
    match input
    case NewHook(threads) => (m.(hooks := m.hooks + [HookState([], 0, 0, false, threads)]), Quiet)
    case Adopt(h) =>
      if h >= |m.hooks| then (m, Quiet) else (m.(hooks := m.hooks[h := m.hooks[h].(bound := true)]), Quiet)
    case Subscribe(h, who) =>
      if h >= |m.hooks| then (m, Quiet)
      else (m.(hooks := m.hooks[h := Append(m.hooks[h], who)]), Subscribed(m.hooks[h].next + 1))
    case Unsubscribe(h, token) => (m.(hooks := RemoveOn(m.hooks, {h}, ByToken(token))), Quiet)
    case Purge(h, who) => (m.(hooks := RemoveOn(m.hooks, {h}, ByOwner(who))), Quiet)
    case Disable(who) => (m.(hooks := RemoveOn(m.hooks, BoundHooks(m.hooks), ByOwner(who))), Quiet)
    case Emit(h, value) =>
      if h >= |m.hooks| then (m, Quiet)
      else
        var hs := m.hooks[h := m.hooks[h].(depth := m.hooks[h].depth + 1)];
        Resume(hs, m.stack, Frame(h, 0, |hs[h].entries|, value))
    case Return(value) =>
      if m.stack == [] then (m, Quiet)
      else
        DepthPositive(m, |m.stack| - 1);
        Leave(m, if m.hooks[Top(m).hook].threads then value else Top(m).value)
    case Throw =>
      if m.stack == [] then (m, Quiet)
      else
        DepthPositive(m, |m.stack| - 1);
        Leave(Thrown(m), Top(m).value)
  }

  lemma {:induction false} FramesOnPositive<V>(stack: seq<Frame<V>>, k: nat)
    requires k < |stack|
    ensures FramesOn(stack, stack[k].hook) > 0
  {
    if k == |stack| - 1 {
    } else {
      FramesOnPositive(stack[..|stack| - 1], k);
    }
  }

  lemma DepthPositive<V>(m: Machine<V>, k: nat)
    requires Valid(m) && k < |m.stack|
    ensures m.hooks[m.stack[k].hook].depth > 0
  {
    FramesOnPositive(m.stack, k);
  }

  lemma TopCanLeave<V>(m: Machine<V>)
    requires Valid(m) && m.stack != []
    ensures CanLeave(m)
  {
    DepthPositive(m, |m.stack| - 1);
  }
}
