/** The focus ring (packages/ext-keybindings/src/focus_ring.hpp): windows in the order they were
    mapped, with a cursor that focus moves and that never reorders them. */
module FocusRings {
  import opened Options
  import opened Sequences

  type Token = nat

  datatype Ring = Ring(order: seq<Token>, cursor: Option<Token>)

  const EMPTY: Ring := Ring([], None)

  predicate Good(r: Ring) {
    Distinct(r.order) && (r.cursor.Some? ==> r.cursor.value in r.order)
  }

  /** Where a token is; tokens of a good ring are in one place only. */
  function IndexOf(s: seq<Token>, t: Token): (i: nat)
    requires t in s
    ensures i < |s| && s[i] == t
  {
    if s[0] == t then 0 else 1 + IndexOf(s[1..], t)
  }

  /** It is the first place. */
  lemma {:induction false} FirstPlace(s: seq<Token>, i: nat)
    requires i < |s| && forall k :: 0 <= k < i ==> s[k] != s[i]
    ensures IndexOf(s, s[i]) == i
  {
    if i == 0 {
    } else {
      FirstPlace(s[1..], i - 1);
    }
  }

  /** A list without the places that hold one token. */
  function Without(s: seq<Token>, t: Token): (r: seq<Token>)
    ensures forall u :: u in r <==> u in s && u != t
    ensures |r| <= |s| && (t !in s ==> r == s)
  {
    if s == [] then []
    else if s[0] == t then Without(s[1..], t)
    else [s[0]] + Without(s[1..], t)
  }

  lemma {:induction false} WithoutIsDistinct(s: seq<Token>, t: Token)
    requires Distinct(s)
    ensures Distinct(Without(s, t))
  {
    if s == [] {
    } else {
      WithoutIsDistinct(s[1..], t);
      assert s[0] !in s[1..];
    }
  }

  /** In a list of distinct tokens, erasing the one place is the same. */
  lemma {:induction false} WithoutIsErase(s: seq<Token>, t: Token)
    requires Distinct(s) && t in s
    ensures Without(s, t) == s[..IndexOf(s, t)] + s[IndexOf(s, t) + 1..]
  {
    assert s[0] !in s[1..];
    if s[0] == t {
      assert Without(s, t) == s[1..];
    } else {
      WithoutIsErase(s[1..], t);
      var i := IndexOf(s, t);
      assert s[..i] == [s[0]] + s[1..][..i - 1];
      assert s[i + 1..] == s[1..][i..];
    }
  }

  function Add(r: Ring, t: Token): Ring {
    if t in r.order then r else r.(order := r.order + [t])
  }

  function Remove(r: Ring, t: Token): Ring {
    if t !in r.order then r
    else Ring(Without(r.order, t), if r.cursor == Some(t) then None else r.cursor)
  }

  function Note(r: Ring, t: Token): Ring {
    if t in r.order then r.(cursor := Some(t)) else r
  }

  /** The places before and after, going round. */
  function Succ(size: nat, i: nat): (j: nat)
    requires i < size
    ensures j < size
  {
    if i + 1 < size then i + 1 else 0
  }

  function Pred(size: nat, i: nat): (j: nat)
    requires i < size
    ensures j < size
  {
    if i > 0 then i - 1 else size - 1
  }

  function NextOf(r: Ring): Option<Token> {
    if r.order == [] then None
    else if r.cursor.None? || r.cursor.value !in r.order then Some(r.order[0])
    else Some(r.order[Succ(|r.order|, IndexOf(r.order, r.cursor.value))])
  }

  function PrevOf(r: Ring): Option<Token> {
    if r.order == [] then None
    else if r.cursor.None? || r.cursor.value !in r.order then Some(r.order[|r.order| - 1])
    else Some(r.order[Pred(|r.order|, IndexOf(r.order, r.cursor.value))])
  }

  // ---- histories ----

  datatype Op = DoAdd(t: Token) | DoRemove(t: Token) | DoNote(t: Token)

  function Apply(r: Ring, op: Op): Ring {
    match op
    case DoAdd(t) => Add(r, t)
    case DoRemove(t) => Remove(r, t)
    case DoNote(t) => Note(r, t)
  }

  function After(r: Ring, ops: seq<Op>): Ring
    decreases |ops|
  {
    if ops == [] then r else After(Apply(r, ops[0]), ops[1..])
  }

  lemma ApplyKeepsGood(r: Ring, op: Op)
    requires Good(r)
    ensures Good(Apply(r, op))
  {
    if op.DoRemove? {
      WithoutIsDistinct(r.order, op.t);
    }
  }

  /** After any history the tokens are distinct and the cursor is one of them. */
  lemma {:induction false} HistoriesKeepGood(r: Ring, ops: seq<Op>)
    requires Good(r)
    ensures Good(After(r, ops))
    decreases |ops|
  {
    if ops == [] {
    } else {
      ApplyKeepsGood(r, ops[0]);
      HistoriesKeepGood(Apply(r, ops[0]), ops[1..]);
    }
  }

  // ---- rotating ----

  /** focus-next: take the next token and make it current. */
  function Forward(r: Ring): Ring {
    if NextOf(r).None? then r else Note(r, NextOf(r).value)
  }

  function Backward(r: Ring): Ring {
    if PrevOf(r).None? then r else Note(r, PrevOf(r).value)
  }

  lemma IndexIs(s: seq<Token>, i: nat)
    requires Distinct(s) && i < |s|
    ensures IndexOf(s, s[i]) == i
  {
    FirstPlace(s, i);
  }

  /** The remainders that the ring computes. */
  lemma RoundTheEnd(size: nat, i: nat)
    requires i < size
    ensures (i + 1) % size == Succ(size, i) && (i + size - 1) % size == Pred(size, i)
  {
    Remainder(size, i + 1);
    Remainder(size, i + size - 1);
  }

  lemma Remainder(n: nat, k: nat)
    requires k < 2 * n
    ensures k % n == if k < n then k else k - n
  {
    var q, m := k / n, k % n;
    assert k == q * n + m;
    assert q >= 2 ==> (q - 2) * n >= 0;
    assert q <= 0 ==> q * n <= 0;
    assert k >= n ==> q == 1;
  }

  lemma Turns(r: Ring, i: nat)
    requires Good(r) && i < |r.order| && r.cursor == Some(r.order[i])
    ensures NextOf(r) == Some(r.order[if i + 1 < |r.order| then i + 1 else 0]) && Forward(r) == r.(cursor := NextOf(r))
    ensures PrevOf(r) == Some(r.order[if i > 0 then i - 1 else |r.order| - 1]) && Backward(r) == r.(cursor := PrevOf(r))
    ensures Good(Forward(r)) && Good(Backward(r))
  {
    IndexIs(r.order, i);
  }

  /** From a set cursor, back and forth are inverse. */
  lemma {:induction false} BackwardUndoesForward(r: Ring)
    requires Good(r) && r.cursor.Some?
    ensures Backward(Forward(r)) == r && Forward(Backward(r)) == r
  {
  }

  /** When the current window is removed, focus-next goes to the first of the others in map order and
      focus-prev to the last. */
  lemma AfterRemovalFromTheEnds(r: Ring, i: nat)
    requires Good(r) && i < |r.order| && |r.order| > 1 && r.cursor == Some(r.order[i])
    ensures var n := |r.order|; var r' := Remove(r, r.order[i]);
      && r'.cursor == None && r'.order == r.order[..i] + r.order[i + 1..]
      && NextOf(r') == Some(r.order[if i == 0 then 1 else 0])
      && PrevOf(r') == Some(r.order[if i == n - 1 then n - 2 else n - 1])
  {
    IndexIs(r.order, i);
    WithoutIsErase(r.order, r.order[i]);
  }

  /** The tokens that `n` focus-next steps visit. */
  function Visited(r: Ring, n: nat): (v: seq<Token>)
    requires r.order != []
    ensures |v| == n
    decreases n
  {
    if n == 0 then [] else [NextOf(r).value] + Visited(Forward(r), n - 1)
  }

  function Steps(r: Ring, n: nat): Ring
    decreases n
  {
    if n == 0 then r else Steps(Forward(r), n - 1)
  }

  /** Short of the end, the steps visit the following windows in order. */
  lemma {:induction false} VisitsInOrder(r: Ring, i: nat, n: nat)
    requires Good(r) && i + n < |r.order| && r.cursor == Some(r.order[i])
    ensures Visited(r, n) == r.order[i + 1..i + 1 + n]
    ensures Steps(r, n) == r.(cursor := Some(r.order[i + n]))
    decreases n
  {
    hide Forward, NextOf, Note, Good, Distinct, IndexOf;
    if n == 0 {
    } else {
      Turns(r, i);
      VisitsInOrder(Forward(r), i + 1, n - 1);
    }
  }

  lemma {:induction false} VisitedSplits(r: Ring, a: nat, b: nat)
    requires r.order != []
    ensures Steps(r, a).order == r.order
    ensures Visited(r, a + b) == Visited(r, a) + Visited(Steps(r, a), b)
    ensures Steps(r, a + b) == Steps(Steps(r, a), b)
    decreases a
  {
    assert Forward(r).order == r.order;
    hide Forward, NextOf, Note, IndexOf;
    if a == 0 {
    } else {
      VisitedSplits(Forward(r), a - 1, b);
    }
  }

  /** From the last window the next one is the first. */
  lemma {:induction false} VisitsFromLast(r: Ring, k: nat)
    requires Good(r) && k < |r.order| && r.cursor == Some(r.order[|r.order| - 1])
    ensures Visited(r, k + 1) == r.order[..k + 1]
    ensures Steps(r, k + 1) == r.(cursor := Some(r.order[k]))
  {
    hide Forward, NextOf, Note, Good, Distinct, IndexOf;
    Turns(r, |r.order| - 1);
    assert Visited(r, k + 1) == [r.order[0]] + Visited(Forward(r), k) && Steps(r, k + 1) == Steps(Forward(r), k);
    hide *;
    VisitsInOrder(Forward(r), 0, k);
  }

  lemma CursorAnywhere(r: Ring, i: nat)
    requires Good(r) && i < |r.order|
    ensures Good(r.(cursor := Some(r.order[i])))
  {
  }

  lemma {:induction false} VisitsToLast(r: Ring, i: nat)
    requires Good(r) && i < |r.order| && r.cursor == Some(r.order[i])
    ensures Visited(r, |r.order| - 1 - i) == r.order[i + 1..]
    ensures Steps(r, |r.order| - 1 - i) == r.(cursor := Some(r.order[|r.order| - 1]))
  {
    hide *;
    VisitsInOrder(r, i, |r.order| - 1 - i);
  }

  lemma {:induction false} TwoLegs(r: Ring, mid: Ring, a: nat, b: nat)
    requires r.order != [] && Steps(r, a) == mid && mid.order != []
    ensures Visited(r, a + b) == Visited(r, a) + Visited(mid, b) && Steps(r, a + b) == Steps(mid, b)
  {
    hide *;
    VisitedSplits(r, a, b);
  }

  lemma {:induction false} OneRoundFrom(r: Ring, i: nat, rest: nat)
    requires Good(r) && i + 1 + rest == |r.order| && r.cursor == Some(r.order[i])
    ensures Visited(r, rest + (i + 1)) == r.order[i + 1..] + r.order[..i + 1]
    ensures Steps(r, rest + (i + 1)) == r
  {
    hide *;
    var last := r.(cursor := Some(r.order[i + rest]));
    CursorAnywhere(r, i + rest);
    VisitsToLast(r, i);
    VisitsFromLast(last, i);
    TwoLegs(r, last, rest, i + 1);
  }

  /** One round: as many focus-next steps as there are windows visit them all, each once, in map
      order from the one after the cursor, and come back to it. */
  lemma {:induction false} OneRoundVisitsAll(r: Ring)
    requires Good(r) && r.cursor.Some?
    ensures var i := IndexOf(r.order, r.cursor.value);
      && Visited(r, |r.order|) == r.order[i + 1..] + r.order[..i + 1]
      && Steps(r, |r.order|) == r
  {
    var i := IndexOf(r.order, r.cursor.value);
    hide *;
    var rest := |r.order| - 1 - i;
    assert rest + (i + 1) == |r.order|;
    OneRoundFrom(r, i, rest);
  }

  // ---- the class ----

  class FocusRing {
    var order: seq<Token>
    var current: Token
    var hasCurrent: bool

    function State(): Ring
      reads this
    {
      Ring(order, if hasCurrent then Some(current) else None)
    }

    constructor ()
      ensures State() == EMPTY
    {
      order, current, hasCurrent := [], 0, false;
    }

    method Find(t: Token) returns (at: Option<nat>)
      ensures at == if t in order then Some(IndexOf(order, t)) else None
    {
      for i := 0 to |order|
        invariant forall k :: 0 <= k < i ==> order[k] != t
      {
        if order[i] == t {
          FirstPlace(order, i);
          return Some(i);
        }
      }
      return None;
    }

    method Insert(t: Token)
      modifies this
      ensures State() == Add(old(State()), t)
    {
      var at := Find(t);
      if at.None? {
        order := order + [t];
      }
    }

    method Erase(t: Token)
      requires Good(State())
      modifies this
      ensures State() == Remove(old(State()), t)
    {
      var at := Find(t);
      if at.None? {
        return;
      }
      WithoutIsErase(order, t);
      order := order[..at.value] + order[at.value + 1..];
      if hasCurrent && current == t {
        hasCurrent := false;
      }
    }

    method NoteFocused(t: Token)
      modifies this
      ensures State() == Note(old(State()), t)
    {
      var at := Find(t);
      if at.Some? {
        current, hasCurrent := t, true;
      }
    }

    method NextToken() returns (t: Option<Token>)
      ensures t == NextOf(State())
    {
      if order == [] {
        return None;
      }
      var at := CurrentIndex();
      if at.None? {
        return Some(order[0]);
      }
      RoundTheEnd(|order|, at.value);
      return Some(order[(at.value + 1) % |order|]);
    }

    method PrevToken() returns (t: Option<Token>)
      ensures t == PrevOf(State())
    {
      if order == [] {
        return None;
      }
      var at := CurrentIndex();
      if at.None? {
        return Some(order[|order| - 1]);
      }
      RoundTheEnd(|order|, at.value);
      return Some(order[(at.value + |order| - 1) % |order|]);
    }

    method CurrentIndex() returns (at: Option<nat>)
      ensures at == if hasCurrent && current in order then Some(IndexOf(order, current)) else None
    {
      if hasCurrent {
        at := Find(current);
      } else {
        at := None;
      }
    }
  }
}
