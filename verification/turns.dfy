/** The loop shared by FrameDriver::drain and FileWatcher::on_readable: snapshot the tokens, then
    look each one up again before calling it, because callbacks add and remove registrations. */
module Turns {
  import opened Sequences

  /** What callback code does to a registry: register something, drop a handle. */
  datatype Action<P> = Add(payload: P) | Drop(token: nat)

  /** A registry with states S: the tokens that are live in a state, and what an action does to it. */
  datatype Registry<!S, !P> = Registry(live: S -> set<nat>, act: (S, Action<P>) -> S)

  function Do<S, P>(r: Registry<S, P>, s: S, acts: seq<Action<P>>): S
    decreases |acts|
  {
    if acts == [] then s else Do(r, r.act(s, acts[0]), acts[1..])
  }

  /** The turns from one on; bodies[k] is what the callback of turn k does if it is called, up to its
      return or throw. */
  function Serve<S, P>(r: Registry<S, P>, s: S, order: seq<nat>, bodies: seq<seq<Action<P>>>): (S, seq<nat>)
    requires |order| <= |bodies|
    decreases |order|
  {
    if order == [] then (s, [])
    else if order[0] !in r.live(s) then Serve(r, s, order[1..], bodies[1..])
    else
      var (s', fired) := Serve(r, Do(r, s, bodies[0]), order[1..], bodies[1..]);
      (s', [order[0]] + fired)
  }

  /** One action: a token already issued is live afterwards exactly if it was and is not the one
      dropped; so a token is never reused. `issued` is the last token issued. */
  ghost predicate NeverReuses<S(!new), P(!new)>(r: Registry<S, P>, issued: S -> nat) {
    forall s, a ::
      && issued(s) <= issued(r.act(s, a))
      && forall t: nat :: t <= issued(s) ==> (t in r.live(r.act(s, a)) <==> t in r.live(s) && a != Drop(t))
  }

  /** An iteration order of the live registrations; the container promises no particular one. */
  ghost predicate Enumerates(order: seq<nat>, live: set<nat>) {
    Distinct(order) && forall t :: t in order <==> t in live
  }

  /** A callback that was called before turn k dropped the token of turn k. */
  predicate DroppedBefore<P(==)>(order: seq<nat>, bodies: seq<seq<Action<P>>>, fired: seq<nat>, k: nat)
    requires k < |order| <= |bodies|
  {
    exists j :: 0 <= j < k && order[j] in fired && Drop(order[k]) in bodies[j]
  }

  /** Whatever a callback does, an old token is live afterwards exactly if it was and was not dropped. */
  lemma {:induction false} DoAllLive<S(!new), P(!new)>(r: Registry<S, P>, issued: S -> nat, s: S,
                                                       acts: seq<Action<P>>, t: nat)
    requires NeverReuses(r, issued) && t <= issued(s)
    ensures t in r.live(Do(r, s, acts)) <==> t in r.live(s) && Drop(t) !in acts
    ensures issued(s) <= issued(Do(r, s, acts))
    decreases |acts|
  {
    if acts == [] {
    } else {
      assert Drop(t) in acts <==> acts[0] == Drop(t) || Drop(t) in acts[1..];
      DoAllLive(r, issued, r.act(s, acts[0]), acts[1..], t);
    }
  }

  lemma {:induction false} ServedWithin<S, P>(r: Registry<S, P>, s: S, order: seq<nat>, bodies: seq<seq<Action<P>>>)
    requires |order| <= |bodies|
    ensures forall t :: t in Serve(r, s, order, bodies).1 ==> t in order
    ensures Distinct(order) ==> Distinct(Serve(r, s, order, bodies).1)
    decreases |order|
  {
    if order == [] {
    } else {
      var s1 := if order[0] in r.live(s) then Do(r, s, bodies[0]) else s;
      ServedWithin(r, s1, order[1..], bodies[1..]);
      DistinctCons(order, Serve(r, s1, order[1..], bodies[1..]).1);
    }
  }

  lemma {:induction false} ServedExactly<S(!new), P(!new)>(r: Registry<S, P>, issued: S -> nat, s: S, order: seq<nat>,
                                                           bodies: seq<seq<Action<P>>>, k: nat)
    requires NeverReuses(r, issued)
    requires |order| <= |bodies| && Distinct(order) && (forall t :: t in order ==> t <= issued(s)) && k < |order|
    ensures var fired := Serve(r, s, order, bodies).1;
      order[k] in fired <==> order[k] in r.live(s) && !DroppedBefore(order, bodies, fired, k)
    decreases |order|
  {
    var s1 := if order[0] in r.live(s) then Do(r, s, bodies[0]) else s;
    var rest, bodies' := order[1..], bodies[1..];
    var fired, fired' := Serve(r, s, order, bodies).1, Serve(r, s1, rest, bodies').1;
    assert order[k] in order && forall t :: t in rest ==> t in order;
    DoAllLive(r, issued, s, bodies[0], order[k]);
    ServedWithin(r, s1, rest, bodies');
    if k == 0 {
    } else {
      hide NeverReuses;
      ServedExactly(r, issued, s1, rest, bodies', k - 1);
      assert rest[k - 1] == order[k];
      assert forall j :: 0 < j < k ==> order[j] == rest[j - 1] && bodies[j] == bodies'[j - 1];
      assert forall j :: 0 <= j < k - 1 ==> rest[j] == order[j + 1] && bodies'[j] == bodies[j + 1];
    }
  }

  /** For a snapshot of live registrations: each is called exactly once, unless a callback that ran
      before its turn dropped it, and nothing else is called. */
  lemma ServesSnapshotOnce<S(!new), P(!new)>(r: Registry<S, P>, issued: S -> nat, s: S, order: seq<nat>,
                                             bodies: seq<seq<Action<P>>>)
    requires NeverReuses(r, issued) && |order| <= |bodies| && Distinct(order)
    requires forall t :: t in order ==> t in r.live(s) && t <= issued(s)
    ensures var fired := Serve(r, s, order, bodies).1;
      && Distinct(fired)
      && (forall t :: t in fired ==> t in order)
      && (forall k :: 0 <= k < |order| ==> (order[k] in fired <==> !DroppedBefore(order, bodies, fired, k)))
  {
    hide NeverReuses;
    ServedWithin(r, s, order, bodies);
    forall k | 0 <= k < |order|
      ensures order[k] in Serve(r, s, order, bodies).1
        <==> !DroppedBefore(order, bodies, Serve(r, s, order, bodies).1, k)
    {
      ServedExactly(r, issued, s, order, bodies, k);
    }
  }
}
