/** Shapefile polygons (internal/etl/jijeok/load.go, and the same code in
    internal/etl/standardlots/load.go): the rings of a record, their orientation, and
    their grouping into an outer ring followed by its holes.  Coordinates are reals. */
module Rings {

  datatype Point = Point(x: real, y: real)

  type Ring = seq<Point>

  // ----- signed area

  function Cross(p: Point, q: Point): real { p.x * q.y - q.x * p.y }

  /** Twice the signed area. */
  function Area2(pts: Ring): real {
    if |pts| < 2 then 0.0 else Cross(pts[0], pts[1]) + Area2(pts[1..])
  }

  method SignedArea2(pts: Ring) returns (a: real)
    ensures a == Area2(pts)
  {
    a := 0.0;
    var i := 0;
    assert pts[0..] == pts;
    while i < |pts| - 1
      invariant 0 <= i <= |pts|
      invariant a + Area2(pts[i..]) == Area2(pts)
    {
      assert pts[i..][1..] == pts[i + 1..];
      a := a + (pts[i].x * pts[i + 1].y - pts[i + 1].x * pts[i].y);
      i := i + 1;
    }
  }

  function Reversed(pts: Ring): (r: Ring)
    ensures |r| == |pts|
  {
    if pts == [] then [] else Reversed(pts[1..]) + [pts[0]]
  }

  lemma {:induction false} AreaConcat(a: Ring, b: Ring)
    requires a != [] && b != []
    ensures Area2(a + b) == Area2(a) + Cross(a[|a| - 1], b[0]) + Area2(b)
  {
    assert (a + b)[1..] == a[1..] + b;
    if |a| > 1 {
      AreaConcat(a[1..], b);
    } else {
      assert a[1..] + b == b;
    }
  }

  /** Reversing a ring negates its area: an outer ring becomes a hole and back. */
  lemma {:induction false} ReversalNegates(pts: Ring)
    ensures Area2(Reversed(pts)) == -Area2(pts)
  {
    if |pts| == 1 {
      assert Reversed(pts[1..]) == [];
    } else if |pts| > 1 {
      ReversalNegates(pts[1..]);
      var r := Reversed(pts[1..]);
      assert r[|r| - 1] == pts[1];
      AreaConcat(r, [pts[0]]);
    }
  }

  /** The area of a closed ring does not depend on the point it is written from. */
  lemma RotationKeeps(a: Ring, b: Ring)
    requires a != [] && b != []
    ensures Area2(a + b + [a[0]]) == Area2(b + a + [b[0]])
  {
    AreaConcat(a, b);
    AreaConcat(a + b, [a[0]]);
    AreaConcat(b, a);
    AreaConcat(b + a, [b[0]]);
  }

  function Moved(p: Point, d: Point): Point { Point(p.x + d.x, p.y + d.y) }

  function Translated(pts: Ring, d: Point): (r: Ring)
    ensures |r| == |pts|
  {
    if pts == [] then [] else [Moved(pts[0], d)] + Translated(pts[1..], d)
  }

  lemma CrossMoved(p: Point, q: Point, d: Point)
    ensures Cross(Moved(p, d), Moved(q, d)) == Cross(p, q) + Cross(d, q) - Cross(d, p)
  {
    var (px, py, qx, qy, dx, dy) := (p.x, p.y, q.x, q.y, d.x, d.y);
    assert (px + dx) * (qy + dy) == px * qy + px * dy + dx * qy + dx * dy;
    assert (qx + dx) * (py + dy) == qx * py + qx * dy + dx * py + dx * dy;
  }

  /** Moving a ring by d changes its area by the cross product of d with the way from
      its first point to its last. */
  lemma {:induction false} TranslationShifts(pts: Ring, d: Point)
    requires pts != []
    ensures Area2(Translated(pts, d)) == Area2(pts) + Cross(d, pts[|pts| - 1]) - Cross(d, pts[0])
  {
    hide Cross;
    if |pts| > 1 {
      TranslationShifts(pts[1..], d);
      CrossMoved(pts[0], pts[1], d);
      var t := Translated(pts, d);
      assert t[1..] == Translated(pts[1..], d);
      assert t[1] == Moved(pts[1], d);
    }
  }

  /** Hence a closed ring keeps its area, and with it its role. */
  lemma ClosedRingKeepsArea(pts: Ring, d: Point)
    requires pts != [] && pts[0] == pts[|pts| - 1]
    ensures Area2(Translated(pts, d)) == Area2(pts)
  {
    hide Area2, Cross;
    TranslationShifts(pts, d);
  }

  // ----- orientation

  /** Positive when the way from `p` over `q` to `r` turns left, negative when it turns
      right, and twice the area of the triangle in size. */
  function Turn(p: Point, q: Point, r: Point): real {
    (q.x - p.x) * (r.y - p.y) - (q.y - p.y) * (r.x - p.x)
  }

  /** The triangles from `o` to the sides of a ring, with their turns for signs. */
  function Fan(o: Point, pts: Ring): real {
    if |pts| < 2 then 0.0 else Turn(o, pts[0], pts[1]) + Fan(o, pts[1..])
  }

  lemma TurnIsCross(o: Point, p: Point, q: Point)
    ensures Turn(o, p, q) == Cross(o, p) + Cross(p, q) - Cross(o, q)
  {
    var (ox, oy, px, py, qx, qy) := (o.x, o.y, p.x, p.y, q.x, q.y);
    assert (px - ox) * (qy - oy) == px * qy - px * oy - ox * qy + ox * oy;
    assert (py - oy) * (qx - ox) == py * qx - py * ox - oy * qx + oy * ox;
  }

  lemma {:induction false} FanIs(o: Point, pts: Ring)
    requires pts != []
    ensures Fan(o, pts) == Area2(pts) + Cross(o, pts[0]) - Cross(o, pts[|pts| - 1])
  {
    hide Cross, Turn;
    if |pts| > 1 {
      TurnIsCross(o, pts[0], pts[1]);
      FanIs(o, pts[1..]);
    }
  }

  /** A closed ring has the area of the triangles from any point to its sides. */
  lemma AreaIsFan(o: Point, pts: Ring)
    requires pts != [] && pts[0] == pts[|pts| - 1]
    ensures Area2(pts) == Fan(o, pts)
  {
    hide Cross, Fan, Area2;
    FanIs(o, pts);
  }

  /** How side `i` of a ring turns, seen from `o`. */
  function Side(o: Point, pts: Ring, i: int): real
    requires 0 <= i < |pts| - 1
  {
    Turn(o, pts[i], pts[i + 1])
  }

  ghost predicate AllLeft(o: Point, pts: Ring) { forall i :: 0 <= i < |pts| - 1 ==> Side(o, pts, i) >= 0.0 }

  ghost predicate AllRight(o: Point, pts: Ring) { forall i :: 0 <= i < |pts| - 1 ==> Side(o, pts, i) <= 0.0 }

  lemma SideOfRest(o: Point, pts: Ring, i: int)
    requires 1 <= i < |pts| - 1
    ensures Side(o, pts, i) == Side(o, pts[1..], i - 1)
  {
  }

  lemma {:induction false} FanOfLeft(o: Point, pts: Ring, k: int)
    requires AllLeft(o, pts) && (|pts| >= 2 ==> 0 <= k < |pts| - 1)
    ensures Fan(o, pts) >= 0.0 && (|pts| >= 2 ==> Fan(o, pts) >= Side(o, pts, k))
  {
    hide Turn;
    if |pts| >= 2 {
      var rest := pts[1..];
      assert AllLeft(o, rest) by {
        forall i | 0 <= i < |rest| - 1 ensures Side(o, rest, i) >= 0.0 { SideOfRest(o, pts, i + 1); }
      }
      FanOfLeft(o, rest, if k == 0 then 0 else k - 1);
      assert Side(o, pts, 0) == Turn(o, pts[0], pts[1]) >= 0.0;
      if k > 0 { SideOfRest(o, pts, k); }
    }
  }

  lemma {:induction false} FanOfRight(o: Point, pts: Ring, k: int)
    requires AllRight(o, pts) && (|pts| >= 2 ==> 0 <= k < |pts| - 1)
    ensures Fan(o, pts) <= 0.0 && (|pts| >= 2 ==> Fan(o, pts) <= Side(o, pts, k))
  {
    hide Turn;
    if |pts| >= 2 {
      var rest := pts[1..];
      assert AllRight(o, rest) by {
        forall i | 0 <= i < |rest| - 1 ensures Side(o, rest, i) <= 0.0 { SideOfRest(o, pts, i + 1); }
      }
      FanOfRight(o, rest, if k == 0 then 0 else k - 1);
      assert Side(o, pts, 0) == Turn(o, pts[0], pts[1]) <= 0.0;
      if k > 0 { SideOfRest(o, pts, k); }
    }
  }

  /** A ring that runs counter-clockwise around a point has positive area and is a hole;
      one that runs clockwise has negative area and opens a polygon. */
  lemma OrientationDecides(o: Point, pts: Ring, k: int)
    requires pts != [] && pts[0] == pts[|pts| - 1] && 0 <= k < |pts| - 1
    ensures AllLeft(o, pts) && Side(o, pts, k) > 0.0 ==> Area2(pts) > 0.0
    ensures AllRight(o, pts) && Side(o, pts, k) < 0.0 ==> Area2(pts) < 0.0
  {
    hide Turn, Fan, Area2, AllLeft, AllRight;
    AreaIsFan(o, pts);
    if AllLeft(o, pts) { FanOfLeft(o, pts, k); }
    if AllRight(o, pts) { FanOfRight(o, pts, k); }
  }

  /** A triangle has twice its area, positive when it turns left. */
  lemma TriangleArea(p: Point, q: Point, r: Point)
    ensures Area2([p, q, r, p]) == Turn(p, q, r)
  {
    hide Cross, Turn;
    var t, u, v := [p, q, r, p], [q, r, p], [r, p];
    assert t[1..] == u && u[1..] == v;
    TurnIsCross(p, q, r);
    assert Area2(v[1..]) == 0.0;
    assert Area2(v) == Cross(r, p);
    assert Area2(u) == Cross(q, r) + Area2(v);
    CrossSwaps(r, p);
  }

  lemma CrossSwaps(p: Point, q: Point)
    ensures Cross(p, q) == -Cross(q, p)
  {
  }

  // ----- parts

  function End(parts: seq<int>, i: nat, n: nat): int
    requires i < |parts|
  {
    if i + 1 < |parts| then parts[i + 1] else n
  }

  /** The offsets cut the points into stretches; the slices of the source fail otherwise. */
  predicate WellFormed(parts: seq<int>, n: nat) {
    forall i :: 0 <= i < |parts| ==> 0 <= parts[i] <= End(parts, i, n) <= n
  }

  /** The first k parts that can be closed rings, in order. */
  function Closed(points: seq<Point>, parts: seq<int>, k: nat): seq<Ring>
    requires WellFormed(parts, |points|) && k <= |parts|
  {
    if k == 0 then []
    else
      var pts := points[parts[k - 1]..End(parts, k - 1, |points|)];
      Closed(points, parts, k - 1) + (if |pts| < 4 then [] else [pts])
  }

  /** The parts of a shape, and those of them that have at least four points. */
  function Parts(points: seq<Point>, parts: seq<int>): seq<Ring>
    requires WellFormed(parts, |points|)
  {
    seq(|parts|, i requires 0 <= i < |parts| =>
          points[parts[i]..if i == |parts| - 1 then |points| else parts[i + 1]])
  }

  function LongOnes(rings: seq<Ring>): seq<Ring> {
    if rings == [] then [] else (if |rings[0]| >= 4 then [rings[0]] else []) + LongOnes(rings[1..])
  }

  lemma {:induction false} LongSnoc(rings: seq<Ring>, ring: Ring)
    ensures LongOnes(rings + [ring]) == LongOnes(rings) + if |ring| >= 4 then [ring] else []
  {
    var all := rings + [ring];
    if rings == [] {
      assert all[0] == ring && all[1..] == [] && LongOnes([]) == [];
    } else {
      assert all[0] == rings[0] && all[1..] == rings[1..] + [ring];
      LongSnoc(rings[1..], ring);
      LongCons(all);
      LongCons(rings);
      hide LongOnes;
    }
  }

  lemma LongCons(rings: seq<Ring>)
    requires rings != []
    ensures LongOnes(rings) == (if |rings[0]| >= 4 then [rings[0]] else []) + LongOnes(rings[1..])
  {
  }

  lemma NoLongOnes()
    ensures LongOnes([]) == []
  {
  }

  lemma {:induction false} ClosedAreLongOnes(points: seq<Point>, parts: seq<int>, k: nat)
    requires WellFormed(parts, |points|) && k <= |parts|
    ensures Closed(points, parts, k) == LongOnes(Parts(points, parts)[..k])
  {
    hide LongOnes;
    var all := Parts(points, parts);
    if k == 0 {
      NoLongOnes();
    } else {
      ClosedAreLongOnes(points, parts, k - 1);
      assert all[..k] == all[..k - 1] + [all[k - 1]];
      LongSnoc(all[..k - 1], all[k - 1]);
      assert all[k - 1] == points[parts[k - 1]..End(parts, k - 1, |points|)];
    }
  }

  // ----- grouping

  function Flatten(groups: seq<seq<Ring>>): seq<Ring> {
    if groups == [] then [] else Flatten(groups[..|groups| - 1]) + groups[|groups| - 1]
  }

  /** Each group but the first opens with a ring of negative area, and every other ring
      of a group is a hole. */
  predicate IsGroup(group: seq<Ring>, first: bool) {
    && group != []
    && (first || Area2(group[0]) < 0.0)
    && forall r :: 1 <= r < |group| ==> Area2(group[r]) >= 0.0
  }

  ghost predicate Grouping(groups: seq<seq<Ring>>, rings: seq<Ring>) {
    && Flatten(groups) == rings
    && forall g :: 0 <= g < |groups| ==> IsGroup(groups[g], g == 0)
  }

  /** Where the next ring goes. */
  function Place(groups: seq<seq<Ring>>, ring: Ring): seq<seq<Ring>> {
    if Area2(ring) < 0.0 || groups == [] then groups + [[ring]]
    else groups[|groups| - 1 := groups[|groups| - 1] + [ring]]
  }

  function GroupsOf(rings: seq<Ring>): seq<seq<Ring>> {
    if rings == [] then [] else Place(GroupsOf(rings[..|rings| - 1]), rings[|rings| - 1])
  }

  lemma FlattenSnoc(groups: seq<seq<Ring>>, group: seq<Ring>)
    ensures Flatten(groups + [group]) == Flatten(groups) + group
  {
    assert (groups + [group])[..|groups|] == groups;
  }

  lemma PlaceNew(groups: seq<seq<Ring>>, rings: seq<Ring>, ring: Ring)
    requires Grouping(groups, rings) && (Area2(ring) < 0.0 || groups == [])
    ensures Grouping(groups + [[ring]], rings + [ring])
  {
    hide Area2, Flatten;
    FlattenSnoc(groups, [ring]);
    var now := groups + [[ring]];
    forall g | 0 <= g < |now| ensures IsGroup(now[g], g == 0) {
      if g < |groups| { assert IsGroup(groups[g], g == 0); }
    }
  }

  lemma PlaceHole(front: seq<seq<Ring>>, last: seq<Ring>, rings: seq<Ring>, ring: Ring)
    requires Grouping(front + [last], rings) && Area2(ring) >= 0.0
    ensures Grouping(front + [last + [ring]], rings + [ring])
  {
    hide Area2, Flatten;
    FlattenSnoc(front, last);
    FlattenSnoc(front, last + [ring]);
    assert Flatten(front) + last + [ring] == Flatten(front) + (last + [ring]);
    var was, now := front + [last], front + [last + [ring]];
    assert IsGroup(was[|front|], |front| == 0);
    forall g | 0 <= g < |now| ensures IsGroup(now[g], g == 0) {
      assert IsGroup(was[g], g == 0);
    }
  }

  /** The groups hold the rings in order, each an outer ring and its holes ... */
  lemma {:induction false} GroupsAreAGrouping(rings: seq<Ring>)
    ensures Grouping(GroupsOf(rings), rings)
  {
    hide Area2, Grouping;
    if rings == [] {
      NoGroups();
    } else {
      var init, ring := rings[..|rings| - 1], rings[|rings| - 1];
      GroupsAreAGrouping(init);
      var groups := GroupsOf(init);
      assert init + [ring] == rings;
      if Area2(ring) < 0.0 || groups == [] {
        PlaceNew(groups, init, ring);
      } else {
        var front, last := groups[..|groups| - 1], groups[|groups| - 1];
        assert front + [last] == groups;
        PlaceHole(front, last, init, ring);
        assert Place(groups, ring) == front + [last + [ring]];
      }
    }
  }

  lemma NoGroups()
    ensures Grouping([], [])
  {
  }

  /** Taking the last ring away. */
  lemma Unplace(groups: seq<seq<Ring>>, rings: seq<Ring>) returns (before: seq<seq<Ring>>)
    requires Grouping(groups, rings) && groups != []
    ensures rings != []
    ensures Grouping(before, rings[..|rings| - 1]) && Place(before, rings[|rings| - 1]) == groups
  {
    hide Area2, Flatten;
    var n := |groups|;
    var front, last := groups[..n - 1], groups[n - 1];
    var ring := last[|last| - 1];
    assert groups == front + [last] && IsGroup(last, n == 1);
    FlattenSnoc(front, last);
    if |last| == 1 {
      before := front;
      assert last == [ring];
      assert rings[..|rings| - 1] == Flatten(front);
    } else {
      var shorter := last[..|last| - 1];
      before := front + [shorter];
      FlattenSnoc(front, shorter);
      assert last == shorter + [ring];
      assert rings[..|rings| - 1] == Flatten(front) + shorter;
      assert before[n - 1 := shorter + [ring]] == groups;
    }
    forall g | 0 <= g < |before| ensures IsGroup(before[g], g == 0) {
      assert IsGroup(groups[g], g == 0);
    }
  }

  /** ... and no other grouping does. */
  lemma {:induction false} OnlyOneGrouping(groups: seq<seq<Ring>>, rings: seq<Ring>)
    requires Grouping(groups, rings)
    ensures groups == GroupsOf(rings)
    decreases |rings|
  {
    hide Area2, Place, IsGroup;
    if groups != [] {
      var before := Unplace(groups, rings);
      OnlyOneGrouping(before, rings[..|rings| - 1]);
    }
  }

  lemma OnePartMore(points: seq<Point>, parts: seq<int>, k: nat)
    requires WellFormed(parts, |points|) && k < |parts|
    ensures var pts, groups := points[parts[k]..End(parts, k, |points|)], GroupsOf(Closed(points, parts, k));
      GroupsOf(Closed(points, parts, k + 1)) == if |pts| < 4 then groups else Place(groups, pts)
  {
    hide Place, Area2;
    var pts, before := points[parts[k]..End(parts, k, |points|)], Closed(points, parts, k);
    if |pts| < 4 {
      assert before + [] == before;
    } else {
      assert (before + [pts])[..|before|] == before;
    }
  }

  /** The first half of polygonWKT. */
  method GroupRings(points: seq<Point>, parts: seq<int>) returns (polys: seq<seq<Ring>>)
    requires WellFormed(parts, |points|)
    ensures polys == GroupsOf(Closed(points, parts, |parts|))
    ensures Grouping(polys, Closed(points, parts, |parts|))
    ensures Flatten(polys) == LongOnes(Parts(points, parts))
    ensures forall g :: 0 <= g < |polys| ==> polys[g] != [] && (g > 0 ==> Area2(polys[g][0]) < 0.0)
    ensures forall g, r :: 0 <= g < |polys| && 1 <= r < |polys[g]| ==> Area2(polys[g][r]) >= 0.0
  {
    hide Area2, Grouping, Flatten, LongOnes, Parts;
    polys := [];
    assert polys == GroupsOf(Closed(points, parts, 0));
    hide Closed, GroupsOf;
    for i := 0 to |parts|
      invariant polys == GroupsOf(Closed(points, parts, i))
    {
      OnePartMore(points, parts, i);
      var start := parts[i];
      var end := |points|;
      if i + 1 < |parts| { end := parts[i + 1]; }
      var pts := points[start..end];
      if |pts| < 4 { continue; }
      var area := SignedArea2(pts);
      if area < 0.0 {
        polys := polys + [[pts]];
      } else if |polys| > 0 {
        polys := polys[|polys| - 1 := polys[|polys| - 1] + [pts]];
      } else {
        polys := polys + [[pts]];
      }
    }
    GroupsAreAGrouping(Closed(points, parts, |parts|));
    GroupsMean(polys, Closed(points, parts, |parts|));
    AllLongOnes(points, parts);
  }

  lemma AllLongOnes(points: seq<Point>, parts: seq<int>)
    requires WellFormed(parts, |points|)
    ensures Closed(points, parts, |parts|) == LongOnes(Parts(points, parts))
  {
    ClosedAreLongOnes(points, parts, |parts|);
    var all := Parts(points, parts);
    assert all[..|parts|] == all;
    hide Closed, Parts, LongOnes;
  }

  lemma GroupsMean(polys: seq<seq<Ring>>, rings: seq<Ring>)
    requires Grouping(polys, rings)
    ensures Flatten(polys) == rings
    ensures forall g :: 0 <= g < |polys| ==> polys[g] != [] && (g > 0 ==> Area2(polys[g][0]) < 0.0)
    ensures forall g, r :: 0 <= g < |polys| && 1 <= r < |polys[g]| ==> Area2(polys[g][r]) >= 0.0
  {
    hide Area2;
    forall g | 0 <= g < |polys| ensures IsGroup(polys[g], g == 0) { }
  }
}
