/** The surface registry (packages/kernel/include/unbox/kernel/surface_registry.hpp): a keyed store
    behind move-only handles, defended by tokens. Keys and values are opaque identities. */
module Registry {
  import opened Options

  datatype Slot = Slot(value: nat, token: nat)

  /** PointerAssoc. */
  datatype Store = Store(slots: map<nat, Slot>, next: nat)

  /** SurfaceRegistration. */
  datatype Handle = Inert | Holds(key: nat, token: nat)

  function Put(s: Store, key: nat, value: nat): Store {
    Store(s.slots[key := Slot(value, s.next + 1)], s.next + 1)
  }

  function Erase(s: Store, key: nat, token: nat): Store {
    if key in s.slots && s.slots[key].token == token then s.(slots := s.slots - {key}) else s
  }

  function Lookup(s: Store, key: nat): Option<nat> {
    if key in s.slots then Some(s.slots[key].value) else None
  }

  /** Resetting a handle. */
  function Release(s: Store, h: Handle): Store {
    if h.Inert? then s else Erase(s, h.key, h.token)
  }

  // ---- whole programs over a store and its handles ----

  datatype World = World(store: Store, handles: map<nat, Handle>)

  /** What code does with handles: host a surface into handle h, move one handle into another
      (a fresh target is a move construction), reset or destroy one. */
  datatype Op = Register(h: nat, key: nat, value: nat) | Move(from: nat, to: nat) | Reset(h: nat)

  function At(handles: map<nat, Handle>, h: nat): Handle {
    if h in handles then handles[h] else Inert
  }

  function Step(w: World, op: Op): World {
    match op
    case Register(h, key, value) =>
      var s := Put(w.store, key, value);
      World(Release(s, At(w.handles, h)), w.handles[h := Holds(key, s.next)])
    case Move(from, to) =>
      if from == to then w
      else World(Release(w.store, At(w.handles, to)), w.handles[to := At(w.handles, from)][from := Inert])
    case Reset(h) => World(Release(w.store, At(w.handles, h)), w.handles[h := Inert])
  }

  function Run(w: World, ops: seq<Op>): World {
    if ops == [] then w else Step(Run(w, ops[..|ops| - 1]), ops[|ops| - 1])
  }

  const EMPTY: World := World(Store(map[], 0), map[])

  // ---- the history, without tokens ----

  /** What happened: the registrations (key, value) in order, which one each handle stands for, and
      which one was the last of its key. */
  datatype History = History(regs: seq<(nat, nat)>, standsFor: map<nat, nat>, latest: map<nat, nat>)

  function Record(past: History, op: Op): History {
    match op
    case Register(h, key, value) =>
      History(past.regs + [(key, value)], past.standsFor[h := |past.regs|], past.latest[key := |past.regs|])
    case Move(from, to) =>
      if from == to then past
      else if from in past.standsFor then past.(standsFor := past.standsFor[to := past.standsFor[from]] - {from})
      else past.(standsFor := past.standsFor - {to})
    case Reset(h) => past.(standsFor := past.standsFor - {h})
  }

  function Past(ops: seq<Op>): History {
    if ops == [] then History([], map[], map[]) else Record(Past(ops[..|ops| - 1]), ops[|ops| - 1])
  }

  /** `latest` really is the most recent registration of each key. */
  lemma {:induction false} LatestIsLatest(ops: seq<Op>, key: nat)
    ensures var past := Past(ops);
      && (key in past.latest ==> past.latest[key] < |past.regs| && past.regs[past.latest[key]].0 == key)
      && (forall q :: 0 <= q < |past.regs| && past.regs[q].0 == key ==> key in past.latest && q <= past.latest[key])
  {
    if ops == [] {
    } else {
      LatestIsLatest(ops[..|ops| - 1], key);
    }
  }

  /** Some handle still stands for registration r. */
  predicate Held(standsFor: map<nat, nat>, r: nat) {
    exists h :: h in standsFor && standsFor[h] == r
  }

  predicate HistoryOk(past: History) {
    && (forall h :: h in past.standsFor ==> past.standsFor[h] < |past.regs|)
    && (forall h, g :: h in past.standsFor && g in past.standsFor && past.standsFor[h] == past.standsFor[g] ==> h == g)
    && (forall key :: key in past.latest ==> past.latest[key] < |past.regs| && past.regs[past.latest[key]].0 == key)
  }

  ghost predicate HandlesAgree(w: World, past: History)
    requires HistoryOk(past)
  {
    forall h: nat :: At(w.handles, h) ==
      if h in past.standsFor then Holds(past.regs[past.standsFor[h]].0, past.standsFor[h] + 1) else Inert
  }

  /** The entry of one key: there exactly if a handle stands for its latest registration. */
  predicate EntryAgrees(s: Store, past: History, key: nat)
    requires HistoryOk(past)
  {
    if key in past.latest && Held(past.standsFor, past.latest[key]) then
      key in s.slots && s.slots[key] == Slot(past.regs[past.latest[key]].1, past.latest[key] + 1)
    else key !in s.slots
  }

  ghost predicate Agrees(w: World, past: History) {
    && w.store.next == |past.regs|
    && HistoryOk(past)
    && HandlesAgree(w, past)
    && forall key: nat :: EntryAgrees(w.store, past, key)
  }

  lemma HeldAfterDrop(standsFor: map<nat, nat>, h: nat, r: nat)
    requires forall a, b :: a in standsFor && b in standsFor && standsFor[a] == standsFor[b] ==> a == b
    ensures Held(standsFor - {h}, r) <==> Held(standsFor, r) && !(h in standsFor && standsFor[h] == r)
  {
    if Held(standsFor, r) && !(h in standsFor && standsFor[h] == r) {
      var g :| g in standsFor && standsFor[g] == r;
      assert g in standsFor - {h};
    }
  }

  lemma HeldAfterSet(standsFor: map<nat, nat>, h: nat, n: nat, r: nat)
    requires h !in standsFor
    ensures Held(standsFor[h := n], r) <==> r == n || Held(standsFor, r)
  {
    var after := standsFor[h := n];
    if r == n {
      assert h in after && after[h] == r;
    } else if Held(standsFor, r) {
      var g :| g in standsFor && standsFor[g] == r;
      assert g in after && after[g] == r;
    }
  }

  lemma HeldAfterHandOver(standsFor: map<nat, nat>, from: nat, to: nat, r: nat)
    requires from in standsFor && to !in standsFor
    ensures Held(standsFor[to := standsFor[from]] - {from}, r) <==> Held(standsFor, r)
  {
    var after := standsFor[to := standsFor[from]] - {from};
    if Held(standsFor, r) {
      var g :| g in standsFor && standsFor[g] == r;
      var g' := if g == from then to else g;
      assert g' in after && after[g'] == r;
    }
    if Held(after, r) {
      var g :| g in after && after[g] == r;
      var g' := if g == to then from else g;
      assert g' in standsFor && standsFor[g'] == r;
    }
  }

  /** Dropping what handle h stands for drops its key from the store exactly if it was the latest. */
  lemma ReleaseAgrees(w: World, past: History, h: nat)
    requires Agrees(w, past)
    ensures Agrees(World(Release(w.store, At(w.handles, h)), w.handles[h := Inert]),
                   past.(standsFor := past.standsFor - {h}))
  {
    var past' := past.(standsFor := past.standsFor - {h});
    var s := Release(w.store, At(w.handles, h));
    ReleaseHandles(w, past, h, s);
    assert At(w.handles, h)
      == if h in past.standsFor then Holds(past.regs[past.standsFor[h]].0, past.standsFor[h] + 1) else Inert;
    hide HandlesAgree;
    forall key: nat
      ensures EntryAgrees(s, past', key)
    {
      assert EntryAgrees(w.store, past, key);
      if key in past.latest {
        HeldAfterDrop(past.standsFor, h, past.latest[key]);
      }
    }
    hide EntryAgrees, HistoryOk;
  }

  lemma ReleaseHandles(w: World, past: History, h: nat, s: Store)
    requires HistoryOk(past) && HandlesAgree(w, past)
    ensures var past' := past.(standsFor := past.standsFor - {h});
      HistoryOk(past') && HandlesAgree(World(s, w.handles[h := Inert]), past')
  {
  }

  /** Giving an inert handle a fresh registration. */
  lemma FreshAgrees(w: World, past: History, h: nat, key: nat, value: nat)
    requires Agrees(w, past) && h !in past.standsFor
    ensures Agrees(World(Put(w.store, key, value), w.handles[h := Holds(key, w.store.next + 1)]),
                   Record(past, Register(h, key, value)))
  {
    var past' := Record(past, Register(h, key, value));
    var w' := World(Put(w.store, key, value), w.handles[h := Holds(key, w.store.next + 1)]);
    FreshHandles(w, past, h, key, value);
    hide HandlesAgree;
    forall k: nat
      ensures EntryAgrees(w'.store, past', k)
    {
      assert EntryAgrees(w.store, past, k);
      if k in past'.latest {
        HeldAfterSet(past.standsFor, h, |past.regs|, past'.latest[k]);
        NotHeldYet(past, |past.regs|);
      }
    }
    hide EntryAgrees, HistoryOk;
  }

  lemma NotHeldYet(past: History, r: nat)
    requires HistoryOk(past) && r >= |past.regs|
    ensures !Held(past.standsFor, r)
  {
  }

  lemma FreshHandles(w: World, past: History, h: nat, key: nat, value: nat)
    requires HistoryOk(past) && HandlesAgree(w, past) && w.store.next == |past.regs| && h !in past.standsFor
    ensures var past' := Record(past, Register(h, key, value));
      && HistoryOk(past')
      && HandlesAgree(World(Put(w.store, key, value), w.handles[h := Holds(key, w.store.next + 1)]), past')
  {
  }

  lemma RegisterAgrees(w: World, past: History, h: nat, key: nat, value: nat)
    requires Agrees(w, past)
    ensures Agrees(Step(w, Register(h, key, value)), Record(past, Register(h, key, value)))
  {
    hide Agrees;
    var w1 := World(Release(w.store, At(w.handles, h)), w.handles[h := Inert]);
    var past1 := past.(standsFor := past.standsFor - {h});
    ReleaseAgrees(w, past, h);
    FreshAgrees(w1, past1, h, key, value);
    assert Record(past1, Register(h, key, value)) == Record(past, Register(h, key, value));
    assert w1.handles[h := Holds(key, w.store.next + 1)] == w.handles[h := Holds(key, w.store.next + 1)];
    ReleaseThenPut(w, past, h, key, value);
  }

  /** The new registration is made before the handle lets go of its old one; the order is immaterial. */
  lemma ReleaseThenPut(w: World, past: History, h: nat, key: nat, value: nat)
    requires Agrees(w, past)
    ensures Release(Put(w.store, key, value), At(w.handles, h)) == Put(Release(w.store, At(w.handles, h)), key, value)
  {
    hide Held;
    hide EntryAgrees;
  }

  /** Handing what `from` stands for over to an inert `to`. */
  lemma HandOverAgrees(w: World, past: History, from: nat, to: nat)
    requires Agrees(w, past) && from != to && to !in past.standsFor
    ensures Agrees(World(w.store, w.handles[to := At(w.handles, from)][from := Inert]), Record(past, Move(from, to)))
  {
    var past' := Record(past, Move(from, to));
    var w' := World(w.store, w.handles[to := At(w.handles, from)][from := Inert]);
    HandOverHandles(w, past, from, to);
    hide Held, HandlesAgree, At;
    forall key: nat
      ensures EntryAgrees(w.store, past', key)
    {
      assert EntryAgrees(w.store, past, key);
      if key in past.latest && from in past.standsFor {
        HeldAfterHandOver(past.standsFor, from, to, past.latest[key]);
      } else if key in past.latest {
        assert past.standsFor - {to} == past.standsFor;
      }
    }
    hide EntryAgrees, Record, HistoryOk;
    assert Agrees(w', past');
  }

  lemma HandOverHandles(w: World, past: History, from: nat, to: nat)
    requires HistoryOk(past) && HandlesAgree(w, past) && from != to && to !in past.standsFor
    ensures var past' := Record(past, Move(from, to));
      && HistoryOk(past') && past'.regs == past.regs && past'.latest == past.latest
      && HandlesAgree(World(w.store, w.handles[to := At(w.handles, from)][from := Inert]), past')
  {
  }

  lemma MoveAgrees(w: World, past: History, from: nat, to: nat)
    requires Agrees(w, past) && from != to
    ensures Agrees(Step(w, Move(from, to)), Record(past, Move(from, to)))
  {
    hide Agrees;
    var w1 := World(Release(w.store, At(w.handles, to)), w.handles[to := Inert]);
    var past1 := past.(standsFor := past.standsFor - {to});
    ReleaseAgrees(w, past, to);
    HandOverAgrees(w1, past1, from, to);
    assert Record(past1, Move(from, to)) == Record(past, Move(from, to)) by {
      if from in past.standsFor {
        assert past1.standsFor[to := past.standsFor[from]] - {from}
          == past.standsFor[to := past.standsFor[from]] - {from};
      } else {
        assert past1.standsFor - {to} == past.standsFor - {to};
      }
    }
    assert w1.handles[to := At(w1.handles, from)][from := Inert] == w.handles[to := At(w.handles, from)][from := Inert];
  }

  lemma {:induction false} RunAgrees(ops: seq<Op>)
    ensures Agrees(Run(EMPTY, ops), Past(ops))
  {
    if ops == [] {
    } else {
      var before, op := ops[..|ops| - 1], ops[|ops| - 1];
      RunAgrees(before);
      match op
      case Register(h, key, value) => RegisterAgrees(Run(EMPTY, before), Past(before), h, key, value);
      case Move(from, to) => if from != to { MoveAgrees(Run(EMPTY, before), Past(before), from, to); }
      case Reset(h) => ReleaseAgrees(Run(EMPTY, before), Past(before), h);
    }
  }

  /** LOOKUP, after any interleaving of registrations, moves and resets: the value of the most
      recent registration of the key as long as a handle stands for it, and nothing otherwise. */
  lemma LookupIsLatestHeld(ops: seq<Op>, key: nat)
    ensures var past := Past(ops);
      && (key in past.latest ==> past.latest[key] < |past.regs|)
      && Lookup(Run(EMPTY, ops).store, key) ==
           if key in past.latest && Held(past.standsFor, past.latest[key])
         then Some(past.regs[past.latest[key]].1) else None
  {
    RunAgrees(ops);
    assert EntryAgrees(Run(EMPTY, ops).store, Past(ops), key);
  }

  /** A handle whose registration has been superseded never changes what anyone can look up. */
  lemma SupersededHandleIsHarmless(ops: seq<Op>, h: nat)
    requires var past := Past(ops);
      h in past.standsFor && !(exists key :: key in past.latest && past.latest[key] == past.standsFor[h])
    ensures Run(EMPTY, ops + [Reset(h)]).store == Run(EMPTY, ops).store
  {
    RunAgrees(ops);
    assert (ops + [Reset(h)])[..|ops|] == ops;
    var past := Past(ops);
    assert EntryAgrees(Run(EMPTY, ops).store, past, past.regs[past.standsFor[h]].0);
  }

  // ---- the classes ----

  class PointerAssoc {
    var slots: map<nat, Slot>
    var nextToken: nat

    function Abs(): Store
      reads this
    {
      Store(slots, nextToken)
    }

    constructor ()
      ensures Abs() == Store(map[], 0)
    {
      slots, nextToken := map[], 0;
    }

    method Set(key: nat, value: nat) returns (token: nat)
      modifies this
      ensures Abs() == Put(old(Abs()), key, value) && token == nextToken
    {
      nextToken := nextToken + 1;
      token := nextToken;
      slots := slots[key := Slot(value, token)];
    }

    method Clear(key: nat, token: nat)
      modifies this`slots
      ensures Abs() == Erase(old(Abs()), key, token)
    {
      if key in slots && slots[key].token == token {
        slots := slots - {key};
      }
    }

    method Get(key: nat) returns (value: Option<nat>)
      ensures value == Lookup(Abs(), key)
    {
      value := if key in slots then Some(slots[key].value) else None;
    }
  }

  class SurfaceRegistration {
    var store: PointerAssoc?
    var key: nat
    var token: nat

    function Abs(): Handle
      reads this
    {
      if store == null then Inert else Holds(key, token)
    }

    constructor Default()
      ensures Abs() == Inert && store == null
    {
      store, key, token := null, 0, 0;
    }

    constructor (store: PointerAssoc, key: nat, token: nat)
      ensures Abs() == Holds(key, token) && this.store == store
    {
      this.store, this.key, this.token := store, key, token;
    }

    /** `reset` and the destructor. */
    method Reset()
      modifies this, if store == null then {} else {store}
      ensures Abs() == Inert && store == null
      ensures old(store) != null ==> old(store).Abs() == Release(old(store.Abs()), old(Abs()))
    {
      if store != null {
        store.Clear(key, token);
        store, key, token := null, 0, 0;
      }
    }

    method MoveAssign(other: SurfaceRegistration)
      modifies this, other, if store == null then {} else {store}
      ensures this != other ==> Abs() == old(other.Abs()) && store == old(other.store) && other.Abs() == Inert
      ensures this != other && old(store) != null ==> old(store).Abs() == Release(old(store.Abs()), old(Abs()))
      ensures this == other ==> Abs() == old(Abs()) && (old(store) != null ==> old(store).Abs() == old(store.Abs()))
    {
      if this != other {
        Reset();
        store, key, token := other.store, other.key, other.token;
        other.store, other.key, other.token := null, 0, 0;
      }
    }
  }
}
