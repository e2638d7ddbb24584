/** Layer-shell arrangement
    (packages/ext-layer-shell/include/unbox/ext-layer-shell/arrangement.hpp). Pixels are unbounded
    integers: 32-bit overflow is not modelled. */
module Arrangement {

  datatype Box = Box(x: int, y: int, width: int, height: int)

  const TOP: bv32 := 1
  const BOTTOM: bv32 := 2
  const LEFT: bv32 := 4
  const RIGHT: bv32 := 8

  datatype Edge = NoEdge | Top | Bottom | Left | Right

  datatype SurfaceState = SurfaceState(anchor: bv32, exclusiveZone: int, marginTop: int, marginRight: int,
                                       marginBottom: int, marginLeft: int, exclusiveEdge: Edge)

  function ExclusiveEdge(s: SurfaceState): Edge {
    if s.exclusiveZone <= 0 then NoEdge
    else
      var t := s.anchor & TOP != 0;
      var b := s.anchor & BOTTOM != 0;
      var l := s.anchor & LEFT != 0;
      var r := s.anchor & RIGHT != 0;
      var deduced :=
        if t && !b && l == r then Top
        else if b && !t && l == r then Bottom
        else if l && !r && t == b then Left
        else if r && !l && t == b then Right
        else NoEdge;
      if s.exclusiveEdge != NoEdge then
        var anchored :=
          (s.exclusiveEdge == Top && t) || (s.exclusiveEdge == Bottom && b) ||
          (s.exclusiveEdge == Left && l) || (s.exclusiveEdge == Right && r);
        if anchored then s.exclusiveEdge else NoEdge
      else deduced
  }

  function ApplyExclusive(usable: Box, s: SurfaceState): Box {
    var moved :=
      match ExclusiveEdge(s)
      case NoEdge => usable
      case Top =>
        var d := s.exclusiveZone + s.marginTop;
        usable.(y := usable.y + d, height := usable.height - d)
      case Bottom => usable.(height := usable.height - (s.exclusiveZone + s.marginBottom))
      case Left =>
        var d := s.exclusiveZone + s.marginLeft;
        usable.(x := usable.x + d, width := usable.width - d)
      case Right => usable.(width := usable.width - (s.exclusiveZone + s.marginRight));
    if ExclusiveEdge(s) == NoEdge then usable
    else
      moved.(width := if moved.width < 0 then 0 else moved.width,
             height := if moved.height < 0 then 0 else moved.height)
  }

  /** One arrangement pass. */
  function Arrange(usable: Box, surfaces: seq<SurfaceState>): Box
    decreases |surfaces|
  {
    if surfaces == [] then usable else Arrange(ApplyExclusive(usable, surfaces[0]), surfaces[1..])
  }

  // ---- which edge ----

  predicate Anchored(s: SurfaceState, e: Edge) {
    match e
    case NoEdge => false
    case Top => s.anchor & TOP != 0
    case Bottom => s.anchor & BOTTOM != 0
    case Left => s.anchor & LEFT != 0
    case Right => s.anchor & RIGHT != 0
  }

  function Opposite(e: Edge): Edge {
    match e case NoEdge => NoEdge case Top => Bottom case Bottom => Top case Left => Right case Right => Left
  }

  /** An edge next to e; its opposite is the other one. */
  function Beside(e: Edge): Edge {
    match e case NoEdge => NoEdge case Top => Left case Bottom => Left case Left => Top case Right => Top
  }

  /** The protocol's rule: a positive zone is applied to an anchored edge that is named explicitly,
      or else to the one edge of a strip, anchored on both or neither of the perpendicular edges. */
  lemma EdgeRule(s: SurfaceState, e: Edge)
    requires e != NoEdge
    ensures ExclusiveEdge(s) == e <==>
      && s.exclusiveZone > 0 && Anchored(s, e)
      && (s.exclusiveEdge == e ||
          (s.exclusiveEdge == NoEdge && !Anchored(s, Opposite(e)) &&
           (Anchored(s, Beside(e)) <==> Anchored(s, Opposite(Beside(e))))))
  {
    match e case Top => case Bottom => case Left => case Right =>
  }

  /** An explicit edge needs no strip: a surface on all four edges is neither strip nor corner. */
  lemma ExplicitEdgeNeedsNoStrip()
    ensures var s := SurfaceState(TOP | BOTTOM | LEFT | RIGHT, 30, 0, 0, 0, 0, Top);
      ExclusiveEdge(s) == Top && ExclusiveEdge(s.(exclusiveEdge := NoEdge)) == NoEdge
  {
    assert TOP | BOTTOM | LEFT | RIGHT == 15;
  }

  /** A surface that names no edge. */
  function Strip(anchor: bv32, zone: int, top: int, right: int, bottom: int, left: int): SurfaceState {
    SurfaceState(anchor, zone, top, right, bottom, left, NoEdge)
  }

  function Max(a: int, b: int): int {
    if a < b then b else a
  }

  lemma StripEdges(zone: int, top: int, right: int, bottom: int, left: int)
    requires zone > 0
    ensures ExclusiveEdge(Strip(13, zone, top, right, bottom, left)) == Top
    ensures ExclusiveEdge(Strip(14, zone, top, right, bottom, left)) == Bottom
    ensures ExclusiveEdge(Strip(7, zone, top, right, bottom, left)) == Left
    ensures ExclusiveEdge(Strip(11, zone, top, right, bottom, left)) == Right
  {
  }

  lemma EdgeTakes(usable: Box, s: SurfaceState)
    ensures var w, h := usable.width, usable.height;
      match ExclusiveEdge(s)
      case NoEdge => Arrange(usable, [s]) == usable
      case Top =>
        var d := s.exclusiveZone + s.marginTop;
        Arrange(usable, [s]) == Box(usable.x, usable.y + d, Max(0, w), Max(0, h - d))
      case Bottom =>
        Arrange(usable, [s]) == Box(usable.x, usable.y, Max(0, w), Max(0, h - s.exclusiveZone - s.marginBottom))
      case Left =>
        var d := s.exclusiveZone + s.marginLeft;
        Arrange(usable, [s]) == Box(usable.x + d, usable.y, Max(0, w - d), Max(0, h))
      case Right =>
        Arrange(usable, [s]) == Box(usable.x, usable.y, Max(0, w - s.exclusiveZone - s.marginRight), Max(0, h))
  {
    assert [s][1..] == [];
    hide ExclusiveEdge;
  }

  /** A strip along one edge, anchored besides it on both edges next to it: 13 is top, left and right, 14
      bottom, left and right, 7 left, top and bottom, 11 right, top and bottom. It takes its zone and the
      margin on that edge. */
  lemma StripsReserve(usable: Box, zone: int, top: int, right: int, bottom: int, left: int)
    requires zone > 0
    ensures var w, h := usable.width, usable.height;
      && Arrange(usable, [Strip(13, zone, top, right, bottom, left)])
           == Box(usable.x, usable.y + zone + top, Max(0, w), Max(0, h - zone - top))
      && Arrange(usable, [Strip(14, zone, top, right, bottom, left)])
           == Box(usable.x, usable.y, Max(0, w), Max(0, h - zone - bottom))
      && Arrange(usable, [Strip(7, zone, top, right, bottom, left)])
           == Box(usable.x + zone + left, usable.y, Max(0, w - zone - left), Max(0, h))
      && Arrange(usable, [Strip(11, zone, top, right, bottom, left)])
           == Box(usable.x, usable.y, Max(0, w - zone - right), Max(0, h))
  {
    StripEdges(zone, top, right, bottom, left);
    EdgeTakes(usable, Strip(13, zone, top, right, bottom, left));
    EdgeTakes(usable, Strip(14, zone, top, right, bottom, left));
    EdgeTakes(usable, Strip(7, zone, top, right, bottom, left));
    EdgeTakes(usable, Strip(11, zone, top, right, bottom, left));
    hide ExclusiveEdge, Arrange;
  }

  // ---- the closed form ----

  function Margin(s: SurfaceState, e: Edge): int {
    match e
    case NoEdge => 0
    case Top => s.marginTop
    case Bottom => s.marginBottom
    case Left => s.marginLeft
    case Right => s.marginRight
  }

  /** What a surface reserves on edge e. */
  function Reserves(s: SurfaceState, e: Edge): int {
    if e == NoEdge || ExclusiveEdge(s) != e then 0
    else s.exclusiveZone + Margin(s, e)
  }

  function AtLeastZero(n: int): int {
    if n < 0 then 0 else n
  }

  datatype Axis = Horizontal | Vertical

  /** What a surface takes of the output's length along an axis; negative if it gives back. */
  function Along(s: SurfaceState, axis: Axis): int {
    if axis == Horizontal then Reserves(s, Left) + Reserves(s, Right) else Reserves(s, Top) + Reserves(s, Bottom)
  }

  /** What is summed over a list of surfaces: the reservations on an edge, or what is taken, or what
      is given back, along an axis. */
  datatype Part = On(edge: Edge) | Taken(axis: Axis) | Given(axis: Axis)

  function Amount(s: SurfaceState, part: Part): int {
    match part
    case On(e) => Reserves(s, e)
    case Taken(axis) => AtLeastZero(Along(s, axis))
    case Given(axis) => AtLeastZero(-Along(s, axis))
  }

  function Total(surfaces: seq<SurfaceState>, part: Part): int {
    if surfaces == [] then 0 else Amount(surfaces[0], part) + Total(surfaces[1..], part)
  }

  function ClosedForm(usable: Box, surfaces: seq<SurfaceState>): Box {
    Box(usable.x + Total(surfaces, On(Left)),
        usable.y + Total(surfaces, On(Top)),
        AtLeastZero(usable.width - Total(surfaces, On(Left)) - Total(surfaces, On(Right))),
        AtLeastZero(usable.height - Total(surfaces, On(Top)) - Total(surfaces, On(Bottom))))
  }

  // ---- one axis ----

  /** The length that is left along one axis, clamped at every surface. */
  function Shrink(side: int, surfaces: seq<SurfaceState>, axis: Axis): int
    decreases |surfaces|
  {
    if surfaces == [] then side else Shrink(AtLeastZero(side - Along(surfaces[0], axis)), surfaces[1..], axis)
  }

  /** A pass works on the two axes apart, and only the lengths are clamped. */
  lemma {:induction false} ArrangeByAxis(usable: Box, surfaces: seq<SurfaceState>)
    requires usable.width >= 0 && usable.height >= 0
    ensures Arrange(usable, surfaces)
      == Box(usable.x + Total(surfaces, On(Left)), usable.y + Total(surfaces, On(Top)),
             Shrink(usable.width, surfaces, Horizontal), Shrink(usable.height, surfaces, Vertical))
    decreases |surfaces|
  {
    if surfaces == [] {
    } else {
      var s := surfaces[0];
      var next := ApplyExclusive(usable, s);
      assert next.x == usable.x + Reserves(s, Left) && next.y == usable.y + Reserves(s, Top);
      assert next.width == AtLeastZero(usable.width - Along(s, Horizontal));
      assert next.height == AtLeastZero(usable.height - Along(s, Vertical));
      hide ApplyExclusive, Reserves, Along, AtLeastZero;
      ArrangeByAxis(next, surfaces[1..]);
    }
  }

  /** No surface gives any length back, or all that is taken fits: then no clamp ever loses what a
      later surface gives. */
  predicate Settled(side: int, surfaces: seq<SurfaceState>, axis: Axis) {
    Total(surfaces, Given(axis)) == 0 || Total(surfaces, Taken(axis)) <= side
  }

  lemma {:induction false} TotalsAlong(surfaces: seq<SurfaceState>, axis: Axis)
    ensures Total(surfaces, Given(axis)) >= 0 && Total(surfaces, Taken(axis)) >= 0
    ensures Total(surfaces, Taken(axis)) - Total(surfaces, Given(axis))
      == if axis == Horizontal then Total(surfaces, On(Left)) + Total(surfaces, On(Right))
         else Total(surfaces, On(Top)) + Total(surfaces, On(Bottom))
  {
    if surfaces == [] {
    } else {
      hide Reserves;
      TotalsAlong(surfaces[1..], axis);
    }
  }

  /** Clamping at every step is then clamping once, at the end. */
  lemma {:induction false} ShrinkIsClosed(side: int, surfaces: seq<SurfaceState>, axis: Axis)
    requires side >= 0 && Settled(side, surfaces, axis)
    ensures Shrink(side, surfaces, axis)
      == AtLeastZero(side - Total(surfaces, Taken(axis)) + Total(surfaces, Given(axis)))
    decreases |surfaces|
  {
    hide Along;
    if surfaces == [] {
    } else {
      TotalsAlong(surfaces[1..], axis);
      ShrinkIsClosed(AtLeastZero(side - Along(surfaces[0], axis)), surfaces[1..], axis);
    }
  }

  /** The fold has the closed form whenever both axes are settled, negative reservations included. */
  lemma ArrangeIsClosedForm(usable: Box, surfaces: seq<SurfaceState>)
    requires usable.width >= 0 && usable.height >= 0
    requires Settled(usable.width, surfaces, Horizontal) && Settled(usable.height, surfaces, Vertical)
    ensures Arrange(usable, surfaces) == ClosedForm(usable, surfaces)
  {
    hide Total;
    ArrangeByAxis(usable, surfaces);
    ShrinkIsClosed(usable.width, surfaces, Horizontal);
    ShrinkIsClosed(usable.height, surfaces, Vertical);
    TotalsAlong(surfaces, Horizontal);
    TotalsAlong(surfaces, Vertical);
  }

  // ---- permutations ----

  lemma {:induction false} TotalConcat(a: seq<SurfaceState>, b: seq<SurfaceState>, part: Part)
    ensures Total(a + b, part) == Total(a, part) + Total(b, part)
  {
    hide Amount;
    if a == [] {
      assert a + b == b;
    } else {
      assert (a + b)[1..] == a[1..] + b;
      TotalConcat(a[1..], b, part);
    }
  }

  lemma TotalTakeOut(b: seq<SurfaceState>, k: nat, part: Part)
    requires k < |b|
    ensures Total(b, part) == Amount(b[k], part) + Total(b[..k] + b[k + 1..], part)
  {
    hide Amount;
    var tail := [b[k]] + b[k + 1..];
    assert b == b[..k] + tail && tail[1..] == b[k + 1..];
    TotalConcat(b[..k], tail, part);
    TotalConcat(b[..k], b[k + 1..], part);
  }

  lemma {:induction false} TotalOfPermutation(a: seq<SurfaceState>, b: seq<SurfaceState>, part: Part)
    requires multiset(a) == multiset(b)
    ensures Total(a, part) == Total(b, part)
  {
    hide Amount;
    if a == [] {
      assert b == [];
    } else {
      var k, rest := MatchHead(a, b);
      TotalOfPermutation(a[1..], rest, part);
      TotalTakeOut(b, k, part);
    }
  }

  lemma TakeOut<T>(b: seq<T>, k: nat)
    requires k < |b|
    ensures multiset(b[..k] + b[k + 1..]) == multiset(b) - multiset{b[k]}
  {
    assert b == b[..k] + ([b[k]] + b[k + 1..]);
  }

  lemma MatchHead<T>(a: seq<T>, b: seq<T>) returns (k: nat, rest: seq<T>)
    requires multiset(a) == multiset(b) && a != []
    ensures k < |b| && b[k] == a[0] && rest == b[..k] + b[k + 1..]
    ensures multiset(a[1..]) == multiset(rest)
  {
    k := PlaceOf(a[0], a, b);
    rest := b[..k] + b[k + 1..];
    TakeOut(a, 0);
    TakeOut(b, k);
    assert a[..0] + a[1..] == a[1..];
  }

  lemma PlaceOf<T>(s: T, a: seq<T>, b: seq<T>) returns (k: nat)
    requires multiset(a) == multiset(b) && s in a
    ensures k < |b| && b[k] == s
  {
    assert s in multiset(b);
    k :| 0 <= k < |b| && b[k] == s;
  }

  // ---- when the order matters ----

  /** The surfaces that give length back, or the others, in order. */
  function Giving(surfaces: seq<SurfaceState>, axis: Axis, give: bool): (r: seq<SurfaceState>)
    decreases |surfaces|
  {
    if surfaces == [] then []
    else
      (if (Along(surfaces[0], axis) < 0) == give then [surfaces[0]] else []) + Giving(surfaces[1..], axis, give)
  }

  lemma {:induction false} GivingSplits(surfaces: seq<SurfaceState>, axis: Axis)
    ensures multiset(Giving(surfaces, axis, true)) + multiset(Giving(surfaces, axis, false)) == multiset(surfaces)
    decreases |surfaces|
  {
    if surfaces == [] {
    } else {
      GivingFromHead(surfaces, axis, true);
      GivingFromHead(surfaces, axis, false);
      FromHead(surfaces);
      HeadGoesToOne(multiset(Giving(surfaces[1..], axis, true)), multiset(Giving(surfaces[1..], axis, false)),
                    multiset{surfaces[0]}, Along(surfaces[0], axis) < 0);
      hide Giving, Along;
      GivingSplits(surfaces[1..], axis);
    }
  }

  lemma FromHead<T>(s: seq<T>)
    requires s != []
    ensures multiset(s) == multiset(s[1..]) + multiset{s[0]}
  {
    assert s == [s[0]] + s[1..];
  }

  lemma HeadGoesToOne<T>(a: multiset<T>, b: multiset<T>, head: multiset<T>, first: bool)
    ensures (if first then a + head else a + multiset{}) + (if first then b + multiset{} else b + head) == a + b + head
  {
  }

  lemma GivingFromHead(surfaces: seq<SurfaceState>, axis: Axis, give: bool)
    requires surfaces != []
    ensures var rest := multiset(Giving(surfaces[1..], axis, give));
      multiset(Giving(surfaces, axis, give))
      == if (Along(surfaces[0], axis) < 0) == give then rest + multiset{surfaces[0]} else rest + multiset{}
  {
    hide Along;
  }

  lemma {:induction false} GivingTotals(surfaces: seq<SurfaceState>, axis: Axis)
    ensures var g, o := Giving(surfaces, axis, true), Giving(surfaces, axis, false);
      && Total(g, Taken(axis)) == 0 && Total(g, Given(axis)) == Total(surfaces, Given(axis))
      && Total(o, Given(axis)) == 0 && Total(o, Taken(axis)) == Total(surfaces, Taken(axis))
    decreases |surfaces|
  {
    hide Along;
    if surfaces == [] {
    } else {
      var s, g, o := surfaces[0], Giving(surfaces[1..], axis, true), Giving(surfaces[1..], axis, false);
      GivingTotals(surfaces[1..], axis);
      if Along(s, axis) < 0 {
        assert Giving(surfaces, axis, true) == [s] + g && ([s] + g)[1..] == g;
        assert Giving(surfaces, axis, false) == [] + o == o;
      } else {
        assert Giving(surfaces, axis, true) == [] + g == g;
        assert Giving(surfaces, axis, false) == [s] + o && ([s] + o)[1..] == o;
      }
    }
  }

  lemma {:induction false} ShrinkConcat(side: int, a: seq<SurfaceState>, b: seq<SurfaceState>, axis: Axis)
    ensures Shrink(side, a + b, axis) == Shrink(Shrink(side, a, axis), b, axis)
    decreases |a|
  {
    hide Along;
    if a == [] {
      assert a + b == b;
    } else {
      assert (a + b)[1..] == a[1..] + b;
      ShrinkConcat(AtLeastZero(side - Along(a[0], axis)), a[1..], b, axis);
    }
  }

  /** Otherwise giving back first and giving back last leave different lengths. */
  lemma GivingFirstOrLast(side: int, surfaces: seq<SurfaceState>, axis: Axis)
    requires side >= 0 && !Settled(side, surfaces, axis)
    ensures var g, o := Giving(surfaces, axis, true), Giving(surfaces, axis, false);
      Shrink(side, g + o, axis) < Shrink(side, o + g, axis)
  {
    var g, o := Giving(surfaces, axis, true), Giving(surfaces, axis, false);
    GivingTotals(surfaces, axis);
    TotalsAlong(surfaces, axis);
    hide Total, Along, Giving, Shrink;
    ShrinkConcat(side, g, o, axis);
    ShrinkConcat(side, o, g, axis);
    ShrinkIsClosed(side, g, axis);
    ShrinkIsClosed(side, o, axis);
    ShrinkIsClosed(Shrink(side, g, axis), o, axis);
    ShrinkIsClosed(Shrink(side, o, axis), g, axis);
  }

  /** Every order of the surfaces leaves the same area. */
  ghost predicate OrderFree(usable: Box, surfaces: seq<SurfaceState>) {
    forall b :: multiset(b) == multiset(surfaces) ==> Arrange(usable, b) == Arrange(usable, surfaces)
  }

  /** The order of the surfaces is immaterial exactly when both axes are settled. */
  lemma OrderIsImmaterial(usable: Box, surfaces: seq<SurfaceState>)
    requires usable.width >= 0 && usable.height >= 0
    ensures OrderFree(usable, surfaces)
      <==> Settled(usable.width, surfaces, Horizontal) && Settled(usable.height, surfaces, Vertical)
  {
    if !Settled(usable.width, surfaces, Horizontal) {
      SomeOrderDiffers(usable, surfaces, Horizontal);
    } else if !Settled(usable.height, surfaces, Vertical) {
      SomeOrderDiffers(usable, surfaces, Vertical);
    } else {
      forall b | multiset(b) == multiset(surfaces)
        ensures Arrange(usable, b) == Arrange(usable, surfaces)
      {
        SameArea(usable, surfaces, b);
      }
    }
  }

  lemma SameArea(usable: Box, a: seq<SurfaceState>, b: seq<SurfaceState>)
    requires multiset(a) == multiset(b) && usable.width >= 0 && usable.height >= 0
    requires Settled(usable.width, a, Horizontal) && Settled(usable.height, a, Vertical)
    ensures Arrange(usable, a) == Arrange(usable, b)
  {
    hide Total;
    TotalOfPermutation(a, b, Given(Horizontal));
    TotalOfPermutation(a, b, Taken(Horizontal));
    TotalOfPermutation(a, b, Given(Vertical));
    TotalOfPermutation(a, b, Taken(Vertical));
    ArrangeIsClosedForm(usable, a);
    ArrangeIsClosedForm(usable, b);
    TotalOfPermutation(a, b, On(Left));
    TotalOfPermutation(a, b, On(Right));
    TotalOfPermutation(a, b, On(Top));
    TotalOfPermutation(a, b, On(Bottom));
  }

  lemma SomeOrderDiffers(usable: Box, surfaces: seq<SurfaceState>, axis: Axis)
    requires usable.width >= 0 && usable.height >= 0
    requires !Settled(if axis == Horizontal then usable.width else usable.height, surfaces, axis)
    ensures !OrderFree(usable, surfaces)
  {
    var g, o := Giving(surfaces, axis, true), Giving(surfaces, axis, false);
    GivingSplits(surfaces, axis);
    GivingFirstOrLast(if axis == Horizontal then usable.width else usable.height, surfaces, axis);
    hide *;
    ArrangeByAxis(usable, g + o);
    ArrangeByAxis(usable, o + g);
    TwoOrders(usable, surfaces, g + o, o + g);
  }

  lemma TwoOrders(usable: Box, surfaces: seq<SurfaceState>, a: seq<SurfaceState>, b: seq<SurfaceState>)
    requires multiset(a) == multiset(surfaces) == multiset(b) && Arrange(usable, a) != Arrange(usable, b)
    ensures !OrderFree(usable, surfaces)
  {
  }

  // ---- inside the output ----

  predicate NonNegative(surfaces: seq<SurfaceState>) {
    forall k, e :: 0 <= k < |surfaces| && e != NoEdge ==> Reserves(surfaces[k], e) >= 0
  }

  lemma {:induction false} NonNegativeTotals(surfaces: seq<SurfaceState>)
    requires NonNegative(surfaces)
    ensures forall e :: Total(surfaces, On(e)) >= 0
    ensures forall axis :: Total(surfaces, Given(axis)) == 0
    decreases |surfaces|
  {
    if surfaces == [] {
    } else {
      NonNegativeTotals(surfaces[1..]);
      var s := surfaces[0];
      assert Reserves(s, Left) >= 0 && Reserves(s, Right) >= 0 && Reserves(s, Top) >= 0 && Reserves(s, Bottom) >= 0;
      hide Reserves;
      assert forall e :: Total(surfaces, On(e)) == Amount(s, On(e)) + Total(surfaces[1..], On(e));
    }
  }

  predicate Inside(a: Box, b: Box) {
    b.x <= a.x && a.x + a.width <= b.x + b.width && b.y <= a.y && a.y + a.height <= b.y + b.height
  }

  /** The usable area lies inside the output exactly when the reservations fit on it side by side,
      along each axis with the near edge alone deciding when nothing is left. */
  lemma InsideIffItFits(usable: Box, surfaces: seq<SurfaceState>)
    requires NonNegative(surfaces) && usable.width >= 0 && usable.height >= 0
    ensures Inside(Arrange(usable, surfaces), usable) <==>
      Total(surfaces, On(Left)) <= usable.width && Total(surfaces, On(Top)) <= usable.height
  {
    hide Total;
    NonNegativeTotals(surfaces);
    ArrangeIsClosedForm(usable, surfaces);
  }

  /** A negative reservation can make the order matter: a margin that more than cancels its zone
      gives back pixels, and how many survive depends on whether the clamp ran before. */
  lemma NegativeReservationBreaksIt()
    ensures var usable := Box(0, 0, 10, 10);
      var wide := SurfaceState(LEFT, 15, 0, 0, 0, 0, NoEdge);
      var giving := SurfaceState(RIGHT, 5, 0, -10, 0, 0, NoEdge);
      Arrange(usable, [wide, giving]).width == 5 && Arrange(usable, [giving, wide]).width == 0
  {
    var usable := Box(0, 0, 10, 10);
    var wide := SurfaceState(LEFT, 15, 0, 0, 0, 0, NoEdge);
    var giving := SurfaceState(RIGHT, 5, 0, -10, 0, 0, NoEdge);
    EdgeRule(wide, Left);
    EdgeRule(giving, Right);
    ArrangeTwo(usable, wide, giving);
    ArrangeTwo(usable, giving, wide);
  }

  lemma ArrangeTwo(usable: Box, a: SurfaceState, b: SurfaceState)
    ensures Arrange(usable, [a, b]) == ApplyExclusive(ApplyExclusive(usable, a), b)
  {
    assert [a, b][1..] == [b] && [b][1..] == [];
    assert Arrange(ApplyExclusive(usable, a), [b]) == ApplyExclusive(ApplyExclusive(usable, a), b);
  }
}
