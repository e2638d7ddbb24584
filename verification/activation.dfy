/** Installing and activating extensions (packages/kernel/src/server.cpp). */
module Activation {
  import opened Sequences

  datatype Tier = Core | Standard

  datatype Manifest = Manifest(id: string, tier: Tier, dependsOn: seq<string>)

  datatype Result = Ordered(order: seq<nat>) | Missing(id: string, dep: string) | Cyclic

  // ---- what activation promises ----

  predicate UniqueIds(exts: seq<Manifest>) {
    forall i, j :: 0 <= i < j < |exts| ==> exts[i].id != exts[j].id
  }

  predicate Installed(exts: seq<Manifest>, id: string) {
    exists i :: 0 <= i < |exts| && exts[i].id == id
  }

  /** Extension i names extension j among its dependencies. */
  predicate DependsOn(exts: seq<Manifest>, i: nat, j: nat) {
    i < |exts| && j < |exts| && exts[j].id in exts[i].dependsOn
  }

  predicate Unresolved(exts: seq<Manifest>, i: nat, k: nat) {
    i < |exts| && k < |exts[i].dependsOn| && !Installed(exts, exts[i].dependsOn[k])
  }

  /** (i, k) is the first dependency, in installation order, that names nothing installed. */
  ghost predicate FirstUnresolved(exts: seq<Manifest>, i: nat, k: nat) {
    && Unresolved(exts, i, k)
    && (forall i', k' :: Unresolved(exts, i', k') ==> i < i' || (i == i' && k <= k'))
  }

  /** Every dependency of a member of p comes before it. */
  predicate DependenciesFirst(exts: seq<Manifest>, p: seq<nat>) {
    forall a, j :: 0 <= a < |p| && 0 <= j < |exts| && DependsOn(exts, p[a], j) ==> j in p[..a]
  }

  predicate Within(p: seq<nat>, n: nat) {
    forall a :: 0 <= a < |p| ==> p[a] < n
  }

  /** An activation order: all extensions, each once, each after its dependencies. */
  predicate IsOrder(exts: seq<Manifest>, p: seq<nat>) {
    |p| == |exts| && Within(p, |exts|) && Distinct(p) && DependenciesFirst(exts, p)
  }

  /** Lower tier first, then earlier installation. */
  predicate Before(exts: seq<Manifest>, i: nat, j: nat)
    requires i < |exts| && j < |exts|
  {
    (exts[i].tier.Core? && exts[j].tier.Standard?) || (exts[i].tier == exts[j].tier && i < j)
  }

  /** p is smaller than q in the lexicographic order induced by Before. */
  ghost predicate LexLess(exts: seq<Manifest>, p: seq<nat>, q: seq<nat>)
    requires Within(p, |exts|) && Within(q, |exts|)
  {
    exists k :: 0 <= k < |p| && k < |q| && p[..k] == q[..k] && Before(exts, p[k], q[k])
  }

  /** The least of all activation orders. */
  ghost predicate IsLeastOrder(exts: seq<Manifest>, p: seq<nat>) {
    IsOrder(exts, p) && forall q :: IsOrder(exts, q) && q != p ==> LexLess(exts, p, q)
  }

  predicate IsCycle(exts: seq<Manifest>, c: seq<nat>) {
    |c| >= 2 && c[0] == c[|c| - 1] && forall k :: 0 <= k < |c| - 1 ==> DependsOn(exts, c[k], c[k + 1])
  }

  lemma LexAsymmetric(exts: seq<Manifest>, p: seq<nat>, q: seq<nat>)
    requires Within(p, |exts|) && Within(q, |exts|) && LexLess(exts, p, q)
    ensures !LexLess(exts, q, p)
  {
  }

  /** Activation is deterministic: at most one order is least. */
  lemma LeastOrderIsUnique(exts: seq<Manifest>, p: seq<nat>, q: seq<nat>)
    requires IsLeastOrder(exts, p) && IsLeastOrder(exts, q)
    ensures p == q
  {
    hide LexLess;
    if p != q {
      LexAsymmetric(exts, p, q);
      assert false;
    }
  }

  // ---- a cycle leaves no order, and only a cycle does ----

  lemma {:induction false} PathGoesBack(exts: seq<Manifest>, p: seq<nat>, c: seq<nat>, a: nat) returns (b: nat)
    requires IsOrder(exts, p) && |c| > 0 && a < |p| && p[a] == c[0]
    requires forall k :: 0 <= k < |c| - 1 ==> DependsOn(exts, c[k], c[k + 1])
    ensures b < |p| && p[b] == c[|c| - 1] && b <= a && (|c| > 1 ==> b < a)
    decreases |c|
  {
    if |c| == 1 {
      b := a;
    } else {
      assert c[1] in p[..a];
      var a' :| 0 <= a' < a && p[a'] == c[1];
      b := PathGoesBack(exts, p, c[1..], a');
    }
  }

  lemma CycleLeavesNoOrder(exts: seq<Manifest>, p: seq<nat>, c: seq<nat>)
    requires IsOrder(exts, p)
    ensures !IsCycle(exts, c)
  {
    if IsCycle(exts, c) {
      assert DependsOn(exts, c[0], c[1]);
      EveryoneIsIn(p, |exts|, c[0]);
      var a :| 0 <= a < |p| && p[a] == c[0];
      var b := PathGoesBack(exts, p, c, a);
      assert false;
    }
  }

  function Upto(n: nat): (r: set<nat>)
    ensures forall x: nat :: x in r <==> x < n
    ensures |r| == n
  {
    if n == 0 then {} else Upto(n - 1) + {n - 1}
  }

  function Elements(p: seq<nat>): set<nat> {
    set x | x in p
  }

  lemma {:induction false} DistinctCount(p: seq<nat>)
    requires Distinct(p)
    ensures |Elements(p)| == |p|
  {
    if p == [] {
    } else {
      var q := p[..|p| - 1];
      DistinctCount(q);
      assert Elements(p) == Elements(q) + {p[|p| - 1]};
    }
  }

  lemma SubsetCount(a: set<nat>, b: set<nat>)
    requires a <= b
    ensures |a| <= |b| && (|a| == |b| ==> a == b)
  {
    assert b == a + (b - a);
  }

  lemma EveryoneIsIn(p: seq<nat>, n: nat, x: nat)
    requires Distinct(p) && Within(p, n) && |p| == n && x < n
    ensures x in p
  {
    DistinctCount(p);
    SubsetCount(Elements(p), Upto(n));
    assert x in Upto(n);
  }

  lemma Pigeonhole(p: seq<nat>, n: nat) returns (a: nat, b: nat)
    requires Within(p, n) && |p| > n
    ensures a < b < |p| && p[a] == p[b]
  {
    if Distinct(p) {
      DistinctCount(p);
      SubsetCount(Elements(p), Upto(n));
      assert false;
    }
    a, b :| 0 <= a < b < |p| && p[a] == p[b];
  }

  /** x waits for nothing once p is active. */
  predicate Ready(exts: seq<Manifest>, p: seq<nat>, x: nat) {
    x < |exts| && x !in p && forall j :: 0 <= j < |exts| && DependsOn(exts, x, j) ==> j in p
  }

  /** Nothing outside p is ready: each such extension waits for another one outside p. */
  ghost predicate Stuck(exts: seq<Manifest>, p: seq<nat>) {
    forall x: nat {:trigger Ready(exts, p, x)} :: x < |exts| && x !in p ==> !Ready(exts, p, x)
  }

  lemma {:induction false} WalkOn(exts: seq<Manifest>, p: seq<nat>, x: nat, n: nat) returns (w: seq<nat>)
    requires Stuck(exts, p) && x < |exts| && x !in p
    ensures |w| == n + 1 && w[0] == x && Within(w, |exts|)
    ensures forall k :: 0 <= k < n ==> DependsOn(exts, w[k], w[k + 1])
    decreases n
  {
    if n == 0 {
      w := [x];
    } else {
      assert !Ready(exts, p, x);
      var j :| 0 <= j < |exts| && DependsOn(exts, x, j) && j !in p;
      var rest := WalkOn(exts, p, j, n - 1);
      w := [x] + rest;
    }
  }

  lemma StuckMeansCycle(exts: seq<Manifest>, p: seq<nat>) returns (c: seq<nat>)
    requires Stuck(exts, p) && Within(p, |exts|) && Distinct(p) && |p| < |exts|
    ensures IsCycle(exts, c)
  {
    if forall y: nat :: y < |exts| ==> y in p {
      DistinctCount(p);
      SubsetCount(Upto(|exts|), Elements(p));
      assert false;
    }
    var x: nat :| x < |exts| && x !in p;
    var w := WalkOn(exts, p, x, |exts|);
    var a, b := Pigeonhole(w, |exts|);
    c := w[a..b + 1];
    forall k | 0 <= k < |c| - 1 ensures DependsOn(exts, c[k], c[k + 1]) {
      assert DependsOn(exts, w[a + k], w[a + k + 1]);
    }
  }

  // ---- greedy choice is lexicographically least ----

  /** y is the first ready extension once p is active. */
  predicate IsPick(exts: seq<Manifest>, p: seq<nat>, y: nat) {
    Ready(exts, p, y) && forall x :: 0 <= x < |exts| && Ready(exts, p, x) && x != y ==> Before(exts, y, x)
  }

  predicate Greedy(exts: seq<Manifest>, p: seq<nat>) {
    forall a :: 0 <= a < |p| ==> IsPick(exts, p[..a], p[a])
  }

  lemma GreedyIsOrder(exts: seq<Manifest>, p: seq<nat>)
    requires Greedy(exts, p)
    ensures Within(p, |exts|) && Distinct(p) && DependenciesFirst(exts, p)
  {
  }

  lemma GreedyIsLeast(exts: seq<Manifest>, p: seq<nat>)
    requires Greedy(exts, p) && |p| == |exts|
    ensures IsLeastOrder(exts, p)
  {
    GreedyIsOrder(exts, p);
    forall q | IsOrder(exts, q) && q != p ensures LexLess(exts, p, q) {
      var k := FirstDifference(p, q, 0);
      assert IsPick(exts, p[..k], p[k]);
      assert Ready(exts, q[..k], q[k]);
    }
  }

  function FirstDifference(p: seq<nat>, q: seq<nat>, i: nat): (k: nat)
    requires |p| == |q| && p != q && i <= |p| && p[..i] == q[..i]
    ensures k < |p| && p[..k] == q[..k] && p[k] != q[k]
    decreases |p| - i
  {
    assert i < |p|;
    if p[i] != q[i] then i else FirstDifference(p, q, i + 1)
  }

  // ---- what the least order means for two extensions ----

  /** The order with the extension at b moved to a, before it. */
  function Moved(p: seq<nat>, a: nat, b: nat): (q: seq<nat>)
    requires a < b < |p|
    ensures |q| == |p|
    ensures forall c :: 0 <= c < |p| ==> q[c] == p[if c == a then b else if a < c <= b then c - 1 else c]
  {
    p[..a] + [p[b]] + p[a..b] + p[b + 1..]
  }

  lemma MovedIsDistinct(p: seq<nat>, a: nat, b: nat)
    requires a < b < |p| && Distinct(p)
    ensures Distinct(Moved(p, a, b))
  {
  }

  lemma MovedComesNoEarlier(p: seq<nat>, a: nat, b: nat, c: nat, j: nat)
    requires a < b < |p| && c < |p| && c != a
    requires j in p[..if a < c <= b then c - 1 else c]
    ensures j in Moved(p, a, b)[..c]
  {
    var q, from := Moved(p, a, b), if a < c <= b then c - 1 else c;
    var e :| 0 <= e < from && p[e] == j;
    var to := if e == b then a else if a <= e < b then e + 1 else e;
    assert q[to] == j && to < c;
    assert q[..c][to] == j;
  }

  lemma MovedIsOrder(exts: seq<Manifest>, p: seq<nat>, a: nat, b: nat)
    requires IsOrder(exts, p) && a < b < |p|
    requires forall j :: 0 <= j < |exts| && DependsOn(exts, p[b], j) ==> j in p[..a]
    ensures IsOrder(exts, Moved(p, a, b))
  {
    var q := Moved(p, a, b);
    MovedIsDistinct(p, a, b);
    assert q[..a] == p[..a];
    forall c, j | 0 <= c < |q| && 0 <= j < |exts| && DependsOn(exts, q[c], j)
      ensures j in q[..c]
    {
      if c != a {
        MovedComesNoEarlier(p, a, b, c, j);
      }
    }
  }

  /** NO REASON TO WAIT. An extension that another one precedes in the activation order, though all its
      dependencies were active before that, is not of a lower tier, nor of the same tier and installed
      earlier. */
  lemma NoReasonToWait(exts: seq<Manifest>, p: seq<nat>, a: nat, b: nat)
    requires IsLeastOrder(exts, p) && a < b < |p|
    requires forall j :: 0 <= j < |exts| && DependsOn(exts, p[b], j) ==> j in p[..a]
    ensures !(exts[p[b]].tier == Core && exts[p[a]].tier == Standard)
    ensures exts[p[b]].tier == exts[p[a]].tier ==> p[a] < p[b]
  {
    var q := Moved(p, a, b);
    MovedIsOrder(exts, p, a, b);
    assert p[a] != p[b] && q[a] == p[b];
    assert LexLess(exts, p, q);
    var k :| 0 <= k < |p| && p[..k] == q[..k] && Before(exts, p[k], q[k]);
    assert forall c :: 0 <= c < k ==> p[c] == p[..k][c] == q[..k][c] == q[c];
  }

  // ---- indegrees ----

  /** How many entries of `names` are not in `done`: the indegree Kahn's algorithm keeps. */
  function Open(names: seq<string>, done: set<string>): nat {
    if names == [] then 0 else (if names[0] in done then 0 else 1) + Open(names[1..], done)
  }

  lemma {:induction false} OpenZero(names: seq<string>, done: set<string>)
    ensures Open(names, done) == 0 <==> forall k :: 0 <= k < |names| ==> names[k] in done
  {
    if names == [] {
    } else {
      OpenZero(names[1..], done);
      assert forall k :: 0 < k < |names| ==> names[k] == names[1..][k - 1];
    }
  }

  lemma {:induction false} OpenNone(names: seq<string>)
    ensures Open(names, {}) == |names|
  {
    if names == [] {
    } else {
      OpenNone(names[1..]);
    }
  }

  /** Finishing x lowers the count once per mention, repeated mentions included. */
  lemma {:induction false} OpenAfter(names: seq<string>, done: set<string>, x: string)
    requires x !in done
    ensures Open(names, done + {x}) == Open(names, done) - multiset(names)[x]
  {
    if names == [] {
    } else {
      OpenAfter(names[1..], done, x);
      assert names == [names[0]] + names[1..];
      assert multiset(names) == multiset{names[0]} + multiset(names[1..]);
    }
  }

  function IdsOf(exts: seq<Manifest>, p: seq<nat>): set<string>
    requires Within(p, |exts|)
  {
    set a | 0 <= a < |p| :: exts[p[a]].id
  }

  lemma IdsOfSnoc(exts: seq<Manifest>, p: seq<nat>, x: nat)
    requires Within(p, |exts|) && x < |exts|
    ensures IdsOf(exts, p + [x]) == IdsOf(exts, p) + {exts[x].id}
  {
    var q := p + [x];
    assert forall a :: 0 <= a < |p| ==> q[a] == p[a];
    assert q[|p|] == x;
  }

  lemma ReadyIsIndegreeZero(exts: seq<Manifest>, p: seq<nat>, x: nat)
    requires UniqueIds(exts) && Within(p, |exts|) && x < |exts| && x !in p
    requires forall k :: 0 <= k < |exts[x].dependsOn| ==> Installed(exts, exts[x].dependsOn[k])
    ensures Ready(exts, p, x) <==> Open(exts[x].dependsOn, IdsOf(exts, p)) == 0
  {
    var names := exts[x].dependsOn;
    OpenZero(names, IdsOf(exts, p));
    if Ready(exts, p, x) {
      forall k | 0 <= k < |names| ensures names[k] in IdsOf(exts, p) {
        var j :| 0 <= j < |exts| && exts[j].id == names[k];
        assert DependsOn(exts, x, j);
      }
    }
    if Open(names, IdsOf(exts, p)) == 0 {
      forall j | 0 <= j < |exts| && DependsOn(exts, x, j) ensures j in p {
        assert exts[j].id in IdsOf(exts, p);
      }
    }
  }
}
