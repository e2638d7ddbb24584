/** The extension host: `install` and `activate_extensions`. */
module ActivationClass {
  import opened Activation

  datatype InstallResult = Accepted(id: nat) | TooLate | DuplicateId

  class ExtensionHost {
    var extensions: seq<Manifest>
    var activated: bool

    ghost predicate Valid()
      reads this
    {
      UniqueIds(extensions)
    }

    constructor ()
      ensures Valid() && extensions == [] && !activated
    {
      extensions, activated := [], false;
    }

    method Install(m: Manifest) returns (r: InstallResult)
      requires Valid()
      modifies this`extensions
      ensures Valid()
      ensures r.TooLate? <==> activated
      ensures r.DuplicateId? <==> !activated && Installed(old(extensions), m.id)
      ensures r.Accepted? ==> extensions == old(extensions) + [m] && r.id == |extensions|
      ensures !r.Accepted? ==> extensions == old(extensions)
    {
      if activated {
        return TooLate;
      }
      var i := 0;
      while i < |extensions|
        invariant 0 <= i <= |extensions|
        invariant forall k :: 0 <= k < i ==> extensions[k].id != m.id
      {
        if extensions[i].id == m.id {
          return DuplicateId;
        }
        i := i + 1;
      }
      extensions := extensions + [m];
      r := Accepted(|extensions|);
    }

    /** Activation runs once: the flag is set before the order is computed, so a call after a
        failed one does nothing. */
    method ActivateExtensions() returns (r: Result)
      requires Valid()
      modifies this`activated
      ensures activated
      ensures old(activated) ==> r == Ordered([])
      ensures !old(activated) ==> Correct(extensions, r)
    {
      if activated {
        return Ordered([]);
      }
      activated := true;
      r := ActivationOrder(extensions);
    }
  }

  /** Activation reports the first unresolved dependency if there is one, else a cycle exactly when
      the dependencies have one, else the least of all activation orders. */
  ghost predicate Correct(exts: seq<Manifest>, r: Result) {
    match r
    case Missing(id, dep) =>
      exists i: nat, k: nat :: FirstUnresolved(exts, i, k) && exts[i].id == id && exts[i].dependsOn[k] == dep
    case Cyclic => (forall i: nat, k: nat :: !Unresolved(exts, i, k)) && exists c :: IsCycle(exts, c)
    case Ordered(order) =>
      && (forall i: nat, k: nat :: !Unresolved(exts, i, k))
      && (forall c :: !IsCycle(exts, c))
      && IsLeastOrder(exts, order)
  }

  method IndexById(exts: seq<Manifest>) returns (byId: map<string, nat>)
    requires UniqueIds(exts)
    ensures forall id :: id in byId <==> Installed(exts, id)
    ensures forall id :: id in byId ==> byId[id] < |exts| && exts[byId[id]].id == id
  {
    byId := map[];
    var i := 0;
    while i < |exts|
      invariant 0 <= i <= |exts|
      invariant forall id :: id in byId <==> Installed(exts[..i], id)
      invariant forall id :: id in byId ==> byId[id] < i && exts[byId[id]].id == id
    {
      byId := byId[exts[i].id := i];
      i := i + 1;
    }
    assert exts[..i] == exts;
  }

  /** How often i is listed as a dependent of d. */
  ghost predicate Listed(exts: seq<Manifest>, dependents: seq<seq<nat>>, i: nat, d: nat, names: seq<string>)
    requires |dependents| == |exts| && d < |exts|
  {
    multiset(dependents[d])[i] == multiset(names)[exts[d].id]
  }

  /** The edges into extension i: one entry in `dependents` and one count per mention. Stops at the
      first name that is not installed. */
  method AddEdges(exts: seq<Manifest>, byId: map<string, nat>, i: nat, dependents: seq<seq<nat>>)
      returns (after: seq<seq<nat>>, count: nat, ok: bool)
    requires i < |exts| == |dependents|
    requires forall id :: id in byId <==> Installed(exts, id)
    requires forall id :: id in byId ==> byId[id] < |exts| && exts[byId[id]].id == id
    requires UniqueIds(exts)
    requires forall d :: 0 <= d < |exts| ==> multiset(dependents[d])[i] == 0 && Within(dependents[d], |exts|)
    ensures |after| == |dependents|
    ensures forall d :: 0 <= d < |exts| ==> Within(after[d], |exts|)
    ensures forall x: nat, d :: x != i && 0 <= d < |exts| ==> multiset(after[d])[x] == multiset(dependents[d])[x]
    ensures forall k :: 0 <= k < count ==> 0 <= k < |exts[i].dependsOn| && !Unresolved(exts, i, k)
    ensures ok ==> count == |exts[i].dependsOn|
    ensures ok ==> forall d :: 0 <= d < |exts| ==> Listed(exts, after, i, d, exts[i].dependsOn)
    ensures !ok ==> Unresolved(exts, i, count)
  {
    var names := exts[i].dependsOn;
    after, count, ok := dependents, 0, true;
    while count < |names|
      invariant 0 <= count <= |names| && |after| == |dependents| && ok
      invariant forall k :: 0 <= k < count ==> !Unresolved(exts, i, k)
      invariant forall d :: 0 <= d < |exts| ==> Within(after[d], |exts|)
      invariant forall d :: 0 <= d < |exts| ==> Listed(exts, after, i, d, names[..count])
      invariant forall x: nat, d :: x != i && 0 <= d < |exts| ==> multiset(after[d])[x] == multiset(dependents[d])[x]
    {
      if names[count] !in byId {
        ok := false;
        return;
      }
      var d := byId[names[count]];
      ghost var was, seen, next := after, names[..count], names[..count + 1];
      after := after[d := after[d] + [i]];
      assert next == seen + [names[count]];
      forall d' | 0 <= d' < |exts| ensures Listed(exts, after, i, d', next) {
        assert Listed(exts, was, i, d', seen);
      }
      count := count + 1;
    }
    assert names[..count] == names;
  }

  /** Kahn's algorithm with the (tier, installation index) tie-break. */
  method ActivationOrder(exts: seq<Manifest>) returns (r: Result)
    requires UniqueIds(exts)
    ensures Correct(exts, r)
  {
    var n := |exts|;
    var byId := IndexById(exts);
    var dependents: seq<seq<nat>> := seq(n, _ => []);
    var indegree: array<int> := new int[n](_ => 0);
    var i := 0;
    while i < n
      invariant 0 <= i <= n && |dependents| == n
      invariant forall i': nat, k': nat :: i' < i ==> !Unresolved(exts, i', k')
      invariant forall d :: 0 <= d < n ==> Within(dependents[d], n)
      invariant forall x, d :: 0 <= x < i && 0 <= d < n ==> Listed(exts, dependents, x, d, exts[x].dependsOn)
      invariant forall x: nat, d :: i <= x && 0 <= d < n ==> multiset(dependents[d])[x] == 0
      invariant forall x :: 0 <= x < i ==> indegree[x] == |exts[x].dependsOn|
    {
      ghost var was := dependents;
      var count: nat, ok: bool;
      dependents, count, ok := AddEdges(exts, byId, i, dependents);
      if !ok {
        assert FirstUnresolved(exts, i, count);
        return Missing(exts[i].id, exts[i].dependsOn[count]);
      }
      forall x, d | 0 <= x < i && 0 <= d < n ensures Listed(exts, dependents, x, d, exts[x].dependsOn) {
        assert Listed(exts, was, x, d, exts[x].dependsOn);
      }
      indegree[i] := count;
      i := i + 1;
    }
    r := Kahn(exts, dependents, indegree);
  }

  method Kahn(exts: seq<Manifest>, dependents: seq<seq<nat>>, indegree: array<int>) returns (r: Result)
    requires UniqueIds(exts) && |dependents| == |exts| == indegree.Length
    requires forall i: nat, k: nat :: !Unresolved(exts, i, k)
    requires forall x, d :: 0 <= x < |exts| && 0 <= d < |exts| ==> Listed(exts, dependents, x, d, exts[x].dependsOn)
    requires forall x :: 0 <= x < |exts| ==> indegree[x] == |exts[x].dependsOn|
    requires forall d :: 0 <= d < |exts| ==> Within(dependents[d], |exts|)
    modifies indegree
    ensures Correct(exts, r)
  {
    var n := |exts|;
    var done: array<bool> := new bool[n](_ => false);
    var order: seq<nat> := [];
    assert IdsOf(exts, order) == {};
    forall x | 0 <= x < n ensures indegree[x] == Open(exts[x].dependsOn, {}) { OpenNone(exts[x].dependsOn); }
    while |order| < n
      invariant |order| <= n && Greedy(exts, order) && Within(order, n)
      invariant forall x :: 0 <= x < n ==> (done[x] <==> x in order)
      invariant forall x :: 0 <= x < n ==> indegree[x] == Open(exts[x].dependsOn, IdsOf(exts, order))
      decreases n - |order|
    {
      GreedyIsOrder(exts, order);
      var pick := Pick(exts, order, done, indegree);
      if pick == n {
        var c := StuckMeansCycle(exts, order);
        return Cyclic;
      }
      done[pick] := true;
      LowerIndegrees(exts, dependents, indegree, order, pick);
      GreedySnoc(exts, order, pick);
      order := order + [pick];
    }
    GreedyIsLeast(exts, order);
    forall c ensures !IsCycle(exts, c) { CycleLeavesNoOrder(exts, order, c); }
    r := Ordered(order);
  }

  lemma GreedySnoc(exts: seq<Manifest>, order: seq<nat>, pick: nat)
    requires Greedy(exts, order) && IsPick(exts, order, pick) && Within(order, |exts|)
    ensures Greedy(exts, order + [pick]) && Within(order + [pick], |exts|) && pick !in order
  {
    var longer := order + [pick];
    forall a | 0 <= a < |longer|
      ensures IsPick(exts, longer[..a], longer[a])
    {
      assert longer[..a] == order[..a];
    }
    GreedyIsOrder(exts, longer);
  }

  /** The scan for the ready extension of least (tier, index); |exts| when none is ready. */
  method Pick(exts: seq<Manifest>, ghost order: seq<nat>, done: array<bool>, indegree: array<int>) returns (pick: nat)
    requires UniqueIds(exts) && done.Length == indegree.Length == |exts| && Within(order, |exts|)
    requires forall i: nat, k: nat :: !Unresolved(exts, i, k)
    requires forall x :: 0 <= x < |exts| ==> (done[x] <==> x in order)
    requires forall x :: 0 <= x < |exts| ==> indegree[x] == Open(exts[x].dependsOn, IdsOf(exts, order))
    ensures pick <= |exts|
    ensures pick < |exts| ==> IsPick(exts, order, pick)
    ensures pick == |exts| ==> Stuck(exts, order)
  {
    pick := |exts|;
    var i := 0;
    while i < |exts|
      invariant 0 <= i <= |exts|
      invariant pick == |exts| || pick < i
      invariant pick == |exts| ==> forall x: nat {:trigger Ready(exts, order, x)} :: x < i ==> !Ready(exts, order, x)
      invariant pick < |exts| ==> Ready(exts, order, pick)
      invariant pick < |exts| ==>
        forall x :: 0 <= x < i && Ready(exts, order, x) && x != pick ==> Before(exts, pick, x)
    {
      if !done[i] {
        forall k | 0 <= k < |exts[i].dependsOn| ensures Installed(exts, exts[i].dependsOn[k]) {
          assert !Unresolved(exts, i, k);
        }
        ReadyIsIndegreeZero(exts, order, i);
      }
      if !done[i] && indegree[i] == 0 {
        if pick == |exts| || Before(exts, i, pick) {
          pick := i;
        }
      }
      i := i + 1;
    }
  }

  /** One decrement per edge out of the extension just picked. */
  method LowerIndegrees(exts: seq<Manifest>, dependents: seq<seq<nat>>, indegree: array<int>,
                        ghost order: seq<nat>, pick: nat)
    requires UniqueIds(exts) && |dependents| == |exts| == indegree.Length && Within(order, |exts|)
    requires pick < |exts| && pick !in order && Within(dependents[pick], |exts|)
    requires forall x :: 0 <= x < |exts| ==> Listed(exts, dependents, x, pick, exts[x].dependsOn)
    requires forall x :: 0 <= x < |exts| ==> indegree[x] == Open(exts[x].dependsOn, IdsOf(exts, order))
    modifies indegree
    ensures forall x :: 0 <= x < |exts| ==> indegree[x] == Open(exts[x].dependsOn, IdsOf(exts, order + [pick]))
  {
    hide UniqueIds, Listed;
    var out := dependents[pick];
    var k := 0;
    while k < |out|
      invariant 0 <= k <= |out|
      invariant forall x :: 0 <= x < |exts| ==> indegree[x] == old(indegree[x]) - multiset(out[..k])[x]
    {
      assert out[..k + 1] == out[..k] + [out[k]];
      indegree[out[k]] := indegree[out[k]] - 1;
      k := k + 1;
    }
    assert out[..k] == out;
    forall x | 0 <= x < |exts|
      ensures indegree[x] == Open(exts[x].dependsOn, IdsOf(exts, order + [pick]))
    {
      OpenLowered(exts, dependents, order, pick, x);
    }
  }

  lemma OpenLowered(exts: seq<Manifest>, dependents: seq<seq<nat>>, order: seq<nat>, pick: nat, x: nat)
    requires UniqueIds(exts) && |dependents| == |exts| && Within(order, |exts|)
    requires pick < |exts| && pick !in order && x < |exts| && Listed(exts, dependents, x, pick, exts[x].dependsOn)
    ensures Open(exts[x].dependsOn, IdsOf(exts, order + [pick]))
      == Open(exts[x].dependsOn, IdsOf(exts, order)) - multiset(dependents[pick])[x]
  {
    IdsOfSnoc(exts, order, pick);
    OpenAfter(exts[x].dependsOn, IdsOf(exts, order), exts[pick].id);
  }
}
