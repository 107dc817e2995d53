/** MULTIPOLYGON text (internal/etl/jijeok/load.go, internal/etl/standardlots/load.go;
    section 7 of OGC Simple Feature Access Part 1) and a reader that recovers the nested
    structure from it. */
module Wkt {
  import opened Options
  import opened Numerals
  import opened Rings

  // ----- three decimals

  /** Thousandths, rounded to the nearest, ties to even, as %.3f does. */
  function Milli(r: real): int {
    var f := (1000.0 * r).Floor;
    var d := 1000.0 * r - f as real;
    if d < 0.5 || (d == 0.5 && f % 2 == 0) then f else f + 1
  }

  function Abs(n: int): nat { if n < 0 then -n else n }

  function ThreeDigits(n: nat): (s: string)
    requires n < 1000
    ensures |s| == 3
  {
    [DigitChar(n / 100), DigitChar(n / 10 % 10), DigitChar(n % 10)]
  }

  /** A coordinate, as %.3f writes it; the sign is kept even when only zeros follow. */
  function Fixed3(r: real): string {
    var n := Abs(Milli(r));
    (if r < 0.0 then "-" else "") + (Decimal(n / 1000) + ("." + ThreeDigits(n % 1000)))
  }

  /** The text is within half a thousandth of the coordinate, and on its side of zero. */
  lemma MilliIsNearest(r: real)
    ensures -0.5 <= Milli(r) as real - 1000.0 * r <= 0.5
    ensures if r < 0.0 then Milli(r) <= 0 else Milli(r) >= 0
  {
    var f := (1000.0 * r).Floor;
    assert f as real <= 1000.0 * r < f as real + 1.0;
  }

  /** Reads digits, a point and three digits, with an optional sign. */
  function ReadFixed(s: string): (r: Option<(int, string)>)
    ensures r.Some? ==> |r.value.1| < |s|
  {
    var minus := s != "" && s[0] == '-';
    var t := if minus then s[1..] else s;
    var k := DigitsEnd(t);
    if k == 0 || |t| < k + 4 || t[k] != '.' || !Digits(t[k + 1..k + 4]) then None
    else
      DigitsEndAreDigits(t);
      var n := 1000 * Value(t[..k]) + Value(t[k + 1..k + 4]);
      Some((if minus then -n else n, t[k + 4..]))
  }

  lemma {:induction false} DigitsEndAreDigits(t: string)
    ensures forall i :: 0 <= i < DigitsEnd(t) ==> IsDigit(t[i])
    ensures DigitsEnd(t) < |t| ==> !IsDigit(t[DigitsEnd(t)])
  {
    if t != "" && IsDigit(t[0]) {
      DigitsEndAreDigits(t[1..]);
      assert forall i :: 1 <= i < DigitsEnd(t) ==> t[i] == t[1..][i - 1];
    }
  }

  lemma {:induction false} DigitsEndOf(ds: string, rest: string)
    requires (forall i :: 0 <= i < |ds| ==> IsDigit(ds[i])) && rest != "" && !IsDigit(rest[0])
    ensures DigitsEnd(ds + rest) == |ds|
  {
    if ds == "" {
      assert ds + rest == rest;
    } else {
      assert (ds + rest)[1..] == ds[1..] + rest;
      DigitsEndOf(ds[1..], rest);
    }
  }

  lemma ValueOfThree(n: nat)
    requires n < 1000
    ensures Digits(ThreeDigits(n)) && Value(ThreeDigits(n)) == n
  {
    var s := ThreeDigits(n);
    var t := s[..2];
    assert t[..1] == [s[0]] && [s[0]][..0] == "";
    assert Value([s[0]]) == n / 100;
    assert Value(t) == n / 10;
  }

  lemma FixedReads(r: real, rest: string)
    ensures ReadFixed(Fixed3(r) + rest) == Some((Milli(r), rest))
  {
    hide Milli, ThreeDigits, Decimal, Value;
    MilliIsNearest(r);
    var n := Abs(Milli(r));
    var ds, ms := Decimal(n / 1000), ThreeDigits(n % 1000);
    ValueOfDecimal(n / 1000);
    ValueOfThree(n % 1000);
    var t := ds + ("." + ms + rest);
    DigitsEndOf(ds, "." + ms + rest);
    assert t[..|ds|] == ds && t[|ds|] == '.' && t[|ds| + 1..|ds| + 4] == ms && t[|ds| + 4..] == rest;
    var s := Fixed3(r) + rest;
    if r < 0.0 {
      assert s[1..] == t;
    } else {
      assert s == t;
      assert IsDigit(ds[0]);
    }
  }

  // ----- the text

  /** Items with commas between. */
  function Commas(items: seq<string>): string {
    if items == [] then ""
    else if |items| == 1 then items[0]
    else items[0] + ("," + Commas(items[1..]))
  }

  lemma {:induction false} CommasSnoc(items: seq<string>, x: string)
    requires items != []
    ensures Commas(items + [x]) == Commas(items) + "," + x
  {
    assert (items + [x])[1..] == items[1..] + [x];
    if |items| == 1 {
      assert (items + [x])[1..] == [x];
    } else {
      CommasSnoc(items[1..], x);
      assert items[0] + ("," + (Commas(items[1..]) + "," + x)) == items[0] + ("," + Commas(items[1..])) + "," + x;
    }
  }

  function PointText(p: Point): string { Fixed3(p.x) + (" " + Fixed3(p.y)) }

  function PointTexts(ring: Ring): (ts: seq<string>)
    ensures |ts| == |ring|
  {
    seq(|ring|, i requires 0 <= i < |ring| => PointText(ring[i]))
  }

  function RingText(ring: Ring): string { "(" + (Commas(PointTexts(ring)) + ")") }

  function RingTexts(rings: seq<Ring>): (ts: seq<string>)
    ensures |ts| == |rings|
  {
    seq(|rings|, i requires 0 <= i < |rings| => RingText(rings[i]))
  }

  function PolyText(rings: seq<Ring>): string { "(" + (Commas(RingTexts(rings)) + ")") }

  function PolyTexts(polys: seq<seq<Ring>>): (ts: seq<string>)
    ensures |ts| == |polys|
  {
    seq(|polys|, i requires 0 <= i < |polys| => PolyText(polys[i]))
  }

  const HEAD: string := "MULTIPOLYGON("

  function Text(polys: seq<seq<Ring>>): string {
    if polys == [] then "" else HEAD + (Commas(PolyTexts(polys)) + ")")
  }

  /** How the text is written: longitude before latitude with three decimals, points,
      rings and polygons with commas between. */
  lemma TextIs(p: Point, q: Point, a: Ring, b: Ring, c: Ring)
    ensures Text([[a, b], [c]]) ==
      "MULTIPOLYGON(" + (("(" + (RingText(a) + "," + RingText(b)) + ")") + "," + ("(" + RingText(c) + ")")) + ")"
    ensures RingText([p, q]) == "(" + (Fixed3(p.x) + " " + Fixed3(p.y) + "," + (Fixed3(q.x) + " " + Fixed3(q.y))) + ")"
    ensures Fixed3(127.0244) == "127.024" && Fixed3(-0.0004) == "-0.000"
  {
    RingTextIs(p, q);
    PolyTextsAre(a, b, c);
    Longitude();
    MinusZero();
  }

  lemma TwoItems(x: string, y: string)
    ensures Commas([x, y]) == x + ("," + y) && Commas([x]) == x
  {
    assert [x, y][1..] == [y];
  }

  lemma RingTextIs(p: Point, q: Point)
    ensures RingText([p, q]) == "(" + (Fixed3(p.x) + " " + Fixed3(p.y) + "," + (Fixed3(q.x) + " " + Fixed3(q.y))) + ")"
  {
    hide Fixed3, Commas;
    assert PointTexts([p, q]) == [PointText(p), PointText(q)];
    TwoItems(PointText(p), PointText(q));
  }

  lemma PolyTextIs(a: Ring, b: Ring)
    ensures PolyText([a, b]) == "(" + (RingText(a) + "," + RingText(b)) + ")"
    ensures PolyText([a]) == "(" + RingText(a) + ")"
  {
    hide RingText, Commas;
    assert RingTexts([a, b]) == [RingText(a), RingText(b)] && RingTexts([a]) == [RingText(a)];
    TwoItems(RingText(a), RingText(b));
  }

  lemma PolyTextsAre(a: Ring, b: Ring, c: Ring)
    ensures Text([[a, b], [c]]) ==
      "MULTIPOLYGON(" + (("(" + (RingText(a) + "," + RingText(b)) + ")") + "," + ("(" + RingText(c) + ")")) + ")"
  {
    hide RingText, Commas, PolyText;
    assert PolyTexts([[a, b], [c]]) == [PolyText([a, b]), PolyText([c])];
    TwoItems(PolyText([a, b]), PolyText([c]));
    PolyTextIs(a, b);
    PolyTextIs(c, c);
    hide PolyTexts;
    Bracketed(PolyText([a, b]) + "," + PolyText([c]), PolyText([a, b]) + ("," + PolyText([c])));
  }

  lemma Bracketed(x: string, y: string)
    requires x == y
    ensures HEAD + (y + ")") == "MULTIPOLYGON(" + x + ")"
  {
  }

  lemma Longitude()
    ensures Fixed3(127.0244) == "127.024"
  {
    assert Milli(127.0244) == 127024;
    assert Decimal(127) == "127" && ThreeDigits(24) == "024";
  }

  lemma MinusZero()
    ensures Fixed3(-0.0004) == "-0.000"
  {
    assert Milli(-0.0004) == 0;
    assert Decimal(0) == "0" && ThreeDigits(0) == "000";
  }

  // ----- the reader

  datatype Grid = Grid(x: int, y: int)

  function ReadPoint(s: string): (r: Option<(Grid, string)>)
    ensures r.Some? ==> |r.value.1| < |s|
  {
    match ReadFixed(s)
    case None => None
    case Some((x, t)) =>
      if t == "" || t[0] != ' ' then None
      else
        match ReadFixed(t[1..])
        case None => None
        case Some((y, u)) => Some((Grid(x, y), u))
  }

  function ReadPoints(s: string): (r: Option<(seq<Grid>, string)>)
    ensures r.Some? ==> |r.value.1| < |s|
    decreases |s|
  {
    match ReadPoint(s)
    case None => None
    case Some((p, t)) =>
      if t == "" || t[0] != ',' then Some(([p], t))
      else
        match ReadPoints(t[1..])
        case None => None
        case Some((ps, u)) => Some(([p] + ps, u))
  }

  function ReadRing(s: string): (r: Option<(seq<Grid>, string)>)
    ensures r.Some? ==> |r.value.1| < |s|
  {
    if s == "" || s[0] != '(' then None
    else
      match ReadPoints(s[1..])
      case None => None
      case Some((ps, t)) => if t == "" || t[0] != ')' then None else Some((ps, t[1..]))
  }

  function ReadRings(s: string): (r: Option<(seq<seq<Grid>>, string)>)
    ensures r.Some? ==> |r.value.1| < |s|
    decreases |s|
  {
    match ReadRing(s)
    case None => None
    case Some((ring, t)) =>
      if t == "" || t[0] != ',' then Some(([ring], t))
      else
        match ReadRings(t[1..])
        case None => None
        case Some((rings, u)) => Some(([ring] + rings, u))
  }

  function ReadPoly(s: string): (r: Option<(seq<seq<Grid>>, string)>)
    ensures r.Some? ==> |r.value.1| < |s|
  {
    if s == "" || s[0] != '(' then None
    else
      match ReadRings(s[1..])
      case None => None
      case Some((rings, t)) => if t == "" || t[0] != ')' then None else Some((rings, t[1..]))
  }

  function ReadPolys(s: string): (r: Option<(seq<seq<seq<Grid>>>, string)>)
    ensures r.Some? ==> |r.value.1| < |s|
    decreases |s|
  {
    match ReadPoly(s)
    case None => None
    case Some((poly, t)) =>
      if t == "" || t[0] != ',' then Some(([poly], t))
      else
        match ReadPolys(t[1..])
        case None => None
        case Some((polys, u)) => Some(([poly] + polys, u))
  }

  function Read(s: string): Option<seq<seq<seq<Grid>>>> {
    if s == "" then Some([])
    else if |s| < |HEAD| || s[..|HEAD|] != HEAD then None
    else
      match ReadPolys(s[|HEAD|..])
      case None => None
      case Some((polys, t)) => if t == ")" then Some(polys) else None
  }

  // ----- the reader undoes the text

  function Snapped(p: Point): Grid { Grid(Milli(p.x), Milli(p.y)) }

  function SnappedRing(ring: Ring): (g: seq<Grid>)
    ensures |g| == |ring|
  {
    seq(|ring|, i requires 0 <= i < |ring| => Snapped(ring[i]))
  }

  function SnappedRings(rings: seq<Ring>): (g: seq<seq<Grid>>)
    ensures |g| == |rings|
  {
    seq(|rings|, i requires 0 <= i < |rings| => SnappedRing(rings[i]))
  }

  function SnappedPolys(polys: seq<seq<Ring>>): (g: seq<seq<seq<Grid>>>)
    ensures |g| == |polys|
  {
    seq(|polys|, i requires 0 <= i < |polys| => SnappedRings(polys[i]))
  }

  lemma PointReads(p: Point, rest: string)
    ensures ReadPoint(PointText(p) + rest) == Some((Snapped(p), rest))
  {
    hide ReadFixed, Fixed3, Milli;
    assert PointText(p) + rest == Fixed3(p.x) + (" " + Fixed3(p.y) + rest);
    FixedReads(p.x, " " + Fixed3(p.y) + rest);
    assert (" " + Fixed3(p.y) + rest)[1..] == Fixed3(p.y) + rest;
    FixedReads(p.y, rest);
  }

  lemma {:induction false} PointsRead(ring: Ring, rest: string)
    requires ring != [] && rest != "" && rest[0] == ')'
    ensures ReadPoints(Commas(PointTexts(ring)) + rest) == Some((SnappedRing(ring), rest))
    decreases |ring|
  {
    hide ReadPoint, PointText, Snapped;
    if |ring| == 1 {
      PointReads(ring[0], rest);
      assert SnappedRing(ring) == [Snapped(ring[0])];
    } else {
      var more := Commas(PointTexts(ring[1..]));
      assert PointTexts(ring)[1..] == PointTexts(ring[1..]);
      assert Commas(PointTexts(ring)) + rest == PointText(ring[0]) + ("," + more + rest);
      PointReads(ring[0], "," + more + rest);
      assert ("," + more + rest)[1..] == more + rest;
      PointsRead(ring[1..], rest);
      assert SnappedRing(ring) == [Snapped(ring[0])] + SnappedRing(ring[1..]);
    }
  }

  lemma RingReads(ring: Ring, rest: string)
    requires ring != []
    ensures ReadRing(RingText(ring) + rest) == Some((SnappedRing(ring), rest))
  {
    hide ReadPoints, Commas, PointTexts, SnappedRing;
    var inner := Commas(PointTexts(ring));
    assert (RingText(ring) + rest)[1..] == inner + (")" + rest);
    PointsRead(ring, ")" + rest);
    assert (")" + rest)[1..] == rest;
  }

  lemma {:induction false} RingsRead(rings: seq<Ring>, rest: string)
    requires rings != [] && rest != "" && rest[0] == ')'
    requires forall i :: 0 <= i < |rings| ==> rings[i] != []
    ensures ReadRings(Commas(RingTexts(rings)) + rest) == Some((SnappedRings(rings), rest))
    decreases |rings|
  {
    hide ReadRing, RingText, SnappedRing;
    if |rings| == 1 {
      RingReads(rings[0], rest);
      assert SnappedRings(rings) == [SnappedRing(rings[0])];
    } else {
      var more := Commas(RingTexts(rings[1..]));
      assert RingTexts(rings)[1..] == RingTexts(rings[1..]);
      assert Commas(RingTexts(rings)) + rest == RingText(rings[0]) + ("," + more + rest);
      RingReads(rings[0], "," + more + rest);
      assert ("," + more + rest)[1..] == more + rest;
      RingsRead(rings[1..], rest);
      assert SnappedRings(rings) == [SnappedRing(rings[0])] + SnappedRings(rings[1..]);
    }
  }

  ghost predicate FullPoly(rings: seq<Ring>) {
    rings != [] && forall i :: 0 <= i < |rings| ==> rings[i] != []
  }

  lemma PolyReads(rings: seq<Ring>, rest: string)
    requires FullPoly(rings)
    ensures ReadPoly(PolyText(rings) + rest) == Some((SnappedRings(rings), rest))
  {
    hide ReadRings, Commas, RingTexts, SnappedRings;
    var inner := Commas(RingTexts(rings));
    assert (PolyText(rings) + rest)[1..] == inner + (")" + rest);
    RingsRead(rings, ")" + rest);
    assert (")" + rest)[1..] == rest;
  }

  lemma {:induction false} PolysRead(polys: seq<seq<Ring>>, rest: string)
    requires polys != [] && rest != "" && rest[0] == ')'
    requires forall i :: 0 <= i < |polys| ==> FullPoly(polys[i])
    ensures ReadPolys(Commas(PolyTexts(polys)) + rest) == Some((SnappedPolys(polys), rest))
    decreases |polys|
  {
    hide ReadPoly, PolyText, SnappedRings, FullPoly;
    if |polys| == 1 {
      PolyReads(polys[0], rest);
      assert SnappedPolys(polys) == [SnappedRings(polys[0])];
    } else {
      var more := Commas(PolyTexts(polys[1..]));
      assert PolyTexts(polys)[1..] == PolyTexts(polys[1..]);
      assert Commas(PolyTexts(polys)) + rest == PolyText(polys[0]) + ("," + more + rest);
      PolyReads(polys[0], "," + more + rest);
      assert ("," + more + rest)[1..] == more + rest;
      PolysRead(polys[1..], rest);
      assert SnappedPolys(polys) == [SnappedRings(polys[0])] + SnappedPolys(polys[1..]);
    }
  }

  /** The text of any non-empty polygons reads back as the same polygons, rings and
      points, each coordinate to the nearest thousandth. */
  lemma TextReads(polys: seq<seq<Ring>>)
    requires forall i :: 0 <= i < |polys| ==> FullPoly(polys[i])
    ensures Read(Text(polys)) == Some(SnappedPolys(polys))
  {
    hide ReadPolys, Commas, PolyTexts, FullPoly;
    if polys == [] {
      assert SnappedPolys(polys) == [];
    } else {
      var s := Text(polys);
      assert s[..|HEAD|] == HEAD && s[|HEAD|..] == Commas(PolyTexts(polys)) + ")";
      PolysRead(polys, ")");
    }
  }

  // ----- polygonWKT

  lemma {:induction false} InFlatten(groups: seq<seq<Ring>>, g: nat, r: nat)
    requires g < |groups| && r < |groups[g]|
    ensures groups[g][r] in Flatten(groups)
  {
    if g < |groups| - 1 { InFlatten(groups[..|groups| - 1], g, r); }
  }

  lemma {:induction false} ClosedAreLong(points: seq<Point>, parts: seq<int>, k: nat, ring: Ring)
    requires WellFormed(parts, |points|) && k <= |parts| && ring in Closed(points, parts, k)
    ensures |ring| >= 4
  {
    if ring in Closed(points, parts, k - 1) { ClosedAreLong(points, parts, k - 1, ring); }
  }

  lemma GroupsAreFull(points: seq<Point>, parts: seq<int>, groups: seq<seq<Ring>>)
    requires WellFormed(parts, |points|) && Grouping(groups, Closed(points, parts, |parts|))
    ensures forall i :: 0 <= i < |groups| ==> FullPoly(groups[i])
  {
    hide Closed, Flatten;
    forall g | 0 <= g < |groups| ensures FullPoly(groups[g]) {
      assert IsGroup(groups[g], g == 0);
      forall r | 0 <= r < |groups[g]| ensures groups[g][r] != [] {
        InFlatten(groups, g, r);
        ClosedAreLong(points, parts, |parts|, groups[g][r]);
      }
    }
  }

  method WriteRing(b0: string, ring: Ring) returns (b: string)
    ensures b == b0 + RingText(ring)
  {
    hide PointText;
    b := b0 + "(";
    for i := 0 to |ring|
      invariant b == b0 + "(" + Commas(PointTexts(ring[..i]))
    {
      assert PointTexts(ring[..i + 1]) == PointTexts(ring[..i]) + [PointText(ring[i])];
      if i > 0 {
        CommasSnoc(PointTexts(ring[..i]), PointText(ring[i]));
        b := b + ",";
      }
      b := b + PointText(ring[i]);
    }
    assert ring[..|ring|] == ring;
    b := b + ")";
  }

  method WritePoly(b0: string, rings: seq<Ring>) returns (b: string)
    ensures b == b0 + PolyText(rings)
  {
    hide RingText;
    b := b0 + "(";
    for i := 0 to |rings|
      invariant b == b0 + "(" + Commas(RingTexts(rings[..i]))
    {
      assert RingTexts(rings[..i + 1]) == RingTexts(rings[..i]) + [RingText(rings[i])];
      if i > 0 {
        CommasSnoc(RingTexts(rings[..i]), RingText(rings[i]));
        b := b + ",";
      }
      b := WriteRing(b, rings[i]);
    }
    assert rings[..|rings|] == rings;
    b := b + ")";
  }

  /** The text of a shape: its long enough parts, grouped, printed, and recoverable. */
  method PolygonWkt(points: seq<Point>, parts: seq<int>) returns (b: string)
    requires WellFormed(parts, |points|)
    ensures b == "" <==> Closed(points, parts, |parts|) == []
    ensures Read(b) == Some(SnappedPolys(GroupsOf(Closed(points, parts, |parts|))))
    ensures b == Text(GroupsOf(Closed(points, parts, |parts|)))
  {
    hide Closed, Grouping, PolyText, GroupsOf, Read, SnappedPolys, FullPoly, Flatten, Parts, LongOnes, Area2,
         HEAD;
    var polys := GroupRings(points, parts);
    EmptyGroups(polys, Closed(points, parts, |parts|));
    GroupsAreFull(points, parts, polys);
    TextReads(polys);
    if |polys| == 0 { return ""; }
    b := HEAD;
    for i := 0 to |polys|
      invariant b == HEAD + Commas(PolyTexts(polys[..i]))
    {
      assert PolyTexts(polys[..i + 1]) == PolyTexts(polys[..i]) + [PolyText(polys[i])];
      if i > 0 {
        CommasSnoc(PolyTexts(polys[..i]), PolyText(polys[i]));
        b := b + ",";
      }
      b := WritePoly(b, polys[i]);
    }
    assert polys[..|polys|] == polys;
    b := b + ")";
    assert b == Text(polys);
  }

  lemma EmptyGroups(groups: seq<seq<Ring>>, rings: seq<Ring>)
    requires Grouping(groups, rings)
    ensures groups == [] <==> rings == []
  {
    if groups != [] { assert IsGroup(groups[0], true); InFlatten(groups, 0, 0); }
  }
}
