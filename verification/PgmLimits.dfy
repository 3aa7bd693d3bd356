/** How far the documented promises of a search hold (include/learnindex/pgm_index.hpp, lines 46 to 49): inputs on which
    a range is one longer than documented, and on which it misses the lower bound of a key that is not there. */
module PgmLimits {
  import opened Geometry
  import opened Hulls
  import opened Numbers
  import opened PgmIndex
  import opened PgmLevels
  import opened PiecewiseLinear
  import opened Segmentation

  lemma OneCut(pts: seq<Point>, eps: nat, cuts: seq<nat>)
    requires Greedy(pts, eps, cuts) && Fits(pts, eps) && |cuts| >= 2
    ensures |cuts| == 2
  {
    hide Fits;
    if |cuts| > 2 {
      assert FullAt(pts, eps, cuts, 0);
      FitsPart(pts, eps, 0, cuts[1] + 1);
    }
  }

  /** Points that one line fits make a level of one segment. */
  lemma OnePiece(segs: seq<Segment>, pts: seq<Point>, total: nat, eps: nat, extraKey: int, maxKey: int)
    requires LevelOf(segs, pts, total, eps, extraKey, maxKey) && |pts| >= 2 && Fits(pts, eps)
    ensures |segs| == 2 && segs[1] == Segment(maxKey, 0.0, total) && ReadOff(segs[0], pts, eps, 0, |pts|)
  {
    hide ReadOff, Fits, FullAt;
    var cuts: seq<nat> :| Level(segs, pts, total, eps, extraKey, maxKey, cuts);
    OneCut(pts, eps, cuts);
    assert ReadOffAt(segs, pts, eps, cuts, 0);
  }

  ghost predicate ExtremesAre(r: Rectangle, flat: Line, steep: Line) {
    r.p0.x < r.p2.x && r.p1.x < r.p3.x && Flattest(r) == flat && Steepest(r) == steep
  }

  /** The line between two crossing extreme lines. */
  lemma CanonicalMean(cs: CanonicalSegment, flat: Line, steep: Line)
    requires cs.Proper() && !cs.OnePoint() && ExtremesAre(cs.rectangle, flat, steep) && flat.a < steep.a
    ensures cs.GetFloatingPointSegment(cs.first) ==
            ((flat.a + steep.a) / 2.0, (At(flat, cs.first) + At(steep, cs.first)) / 2.0)
  {
    hide CanonicalSegment.GetFloatingPointSegment, CanonicalSegment.OnePoint, Through, At, SameSlope;
    SlopesDiffer(cs);
    SegmentIsMean(cs, cs.first);
    var f := cs.GetFloatingPointSegment(cs.first);
    MeanValue(flat, steep, f.0, f.1, cs.first);
  }

  /** What the extreme lines of a fit say about the segment read off it. */
  lemma ReadOffMean(s: Segment, pts: seq<Point>, eps: nat, flat: Line, steep: Line)
    requires |pts| >= 2 && ReadOff(s, pts, eps, 0, |pts|) && flat.a < steep.a
    requires forall r: Rectangle :: Fitted(eps, pts, r) ==> ExtremesAre(r, flat, steep)
    ensures s.key == pts[0].x && s.slope == (flat.a + steep.a) / 2.0
    ensures s.intercept == Round((At(flat, s.key) + At(steep, s.key)) / 2.0)
  {
    hide Fitted, ExtremesAre, At, Round, CanonicalSegment.Proper, CanonicalSegment.OnePoint;
    var cs: CanonicalSegment :| SegmentOf(cs, pts, eps, 0, |pts|) && cs.Proper() && s == FromCanonical(cs);
    assert pts[0..|pts|] == pts;
    SegmentFits(eps, pts, cs, cs.first);
    CanonicalMean(cs, flat, steep);
  }

  lemma SlopesDiffer(cs: CanonicalSegment)
    requires cs.Proper() && !cs.OnePoint() && Flattest(cs.rectangle).a < Steepest(cs.rectangle).a
    ensures !SameSlope(Minus(cs.rectangle.p2, cs.rectangle.p0), Minus(cs.rectangle.p3, cs.rectangle.p1))
  {
    var r := cs.rectangle;
    FractionLess(r.p2.y - r.p0.y, r.p2.x - r.p0.x, r.p3.y - r.p1.y, r.p3.x - r.p1.x);
  }

  lemma MeanValue(flat: Line, steep: Line, slope: real, value: real, origin: int)
    requires LineFrom(slope, value, origin) == Mix(flat, steep, 0.5)
    ensures slope == (flat.a + steep.a) / 2.0 && value == (At(flat, origin) + At(steep, origin)) / 2.0
  {
    var o := origin as real;
    assert slope * o == (flat.a * o + steep.a * o) / 2.0;
  }

  // ---- Points on the diagonal

  ghost predicate Diagonal(pts: seq<Point>) {
    |pts| >= 2 && forall i :: 0 <= i < |pts| ==> pts[i] == Point(i, i)
  }

  /** How far the extreme slopes are from one. */
  function Spread(pts: seq<Point>, eps: nat): real
    requires |pts| >= 2
  {
    (2 * eps) as real / (|pts| - 1) as real
  }

  lemma SpreadBounds(pts: seq<Point>, eps: nat, i: nat)
    requires i < |pts| && |pts| >= 2
    ensures 0.0 <= Spread(pts, eps) * i as real <= (2 * eps) as real
    ensures Spread(pts, eps) * (|pts| - 1) as real == (2 * eps) as real
    ensures eps >= 1 ==> Spread(pts, eps) > 0.0
  {
    var d, m := Spread(pts, eps), (|pts| - 1) as real;
    assert d * m == (2 * eps) as real;
    assert d * (m - i as real) == d * m - d * i as real;
    assert d >= 0.0;
    NotNegative(d, m - i as real);
    NotNegative(d, i as real);
  }

  lemma DiagonalLines(pts: seq<Point>, eps: nat)
    requires Diagonal(pts)
    ensures FitsLine(Line(1.0 - Spread(pts, eps), eps as real), pts, eps)
    ensures FitsLine(Line(1.0 + Spread(pts, eps), -(eps as real)), pts, eps)
  {
    hide Spread;
    var d := Spread(pts, eps);
    forall i | 0 <= i < |pts|
      ensures Within(Line(1.0 - d, eps as real), pts[i], eps) && Within(Line(1.0 + d, -(eps as real)), pts[i], eps)
    {
      SpreadBounds(pts, eps, i);
      assert (1.0 - d) * i as real == i as real - d * i as real;
      assert (1.0 + d) * i as real == i as real + d * i as real;
    }
  }

  /** A line that is no steeper than the flattest fit, or no flatter than the steepest, and fits, is that line. */
  lemma DiagonalExtreme(pts: seq<Point>, eps: nat, l: Line)
    requires Diagonal(pts) && FitsLine(l, pts, eps)
    ensures l.a <= 1.0 - Spread(pts, eps) ==> l == Line(1.0 - Spread(pts, eps), eps as real)
    ensures l.a >= 1.0 + Spread(pts, eps) ==> l == Line(1.0 + Spread(pts, eps), -(eps as real))
  {
    hide Spread;
    var d, m := Spread(pts, eps), (|pts| - 1) as real;
    SpreadBounds(pts, eps, 0);
    assert Within(l, pts[0], eps) && Within(l, pts[|pts| - 1], eps);
    assert At(l, 0) == l.b;
    assert At(l, |pts| - 1) == l.a * m + l.b;
    Tight(l.a, l.b, d, m, eps as real);
  }

  lemma Tight(a: real, b: real, d: real, m: real, e: real)
    requires m > 0.0 && d * m == e + e && -e <= b <= e && m - e <= a * m + b <= m + e
    ensures a <= 1.0 - d ==> b == e && a == 1.0 - d
    ensures a >= 1.0 + d ==> b == -e && a == 1.0 + d
  {
    BothTight(a * m, b, m, e);
    if a <= 1.0 - d {
      ScaledOrder(a, 1.0 - d, m, m - d * m);
    }
    if a >= 1.0 + d {
      ScaledOrder(-a, -1.0 - d, m, -m - d * m);
    }
  }

  lemma BothTight(x: real, b: real, m: real, e: real)
    requires -e <= b <= e && m - e <= x + b <= m + e
    ensures x <= m - (e + e) ==> b == e && x == m - (e + e)
    ensures x >= m + (e + e) ==> b == -e && x == m + (e + e)
  {
  }

  lemma ScaledOrder(x: real, y: real, m: real, ym: real)
    requires x <= y && m > 0.0 && ym == y * m
    ensures x * m <= ym && (x * m == ym ==> x == y)
  {
    assert (y - x) * m == ym - x * m;
    if x < y {
      Positive(y - x, m);
    }
  }

  /** The segment of diagonal points is the diagonal. */
  lemma DiagonalSegment(s: Segment, pts: seq<Point>, eps: nat)
    requires Diagonal(pts) && eps >= 1 && ReadOff(s, pts, eps, 0, |pts|)
    ensures s == Segment(0, 1.0, 0)
  {
    hide ReadOff, Spread;
    var d := Spread(pts, eps);
    SpreadBounds(pts, eps, 0);
    var flat, steep := Line(1.0 - d, eps as real), Line(1.0 + d, -(eps as real));
    DiagonalLines(pts, eps);
    forall r: Rectangle | Fitted(eps, pts, r) ensures ExtremesAre(r, flat, steep) {
      DiagonalExtreme(pts, eps, Flattest(r));
      DiagonalExtreme(pts, eps, Steepest(r));
    }
    ReadOffMean(s, pts, eps, flat, steep);
    assert At(flat, 0) == eps as real && At(steep, 0) == -(eps as real);
  }

  lemma DiagonalLevel(segs: seq<Segment>, pts: seq<Point>, total: nat, eps: nat, extraKey: int, maxKey: int)
    requires Diagonal(pts) && eps >= 1 && LevelOf(segs, pts, total, eps, extraKey, maxKey)
    ensures segs == [Segment(0, 1.0, 0), Segment(maxKey, 0.0, total)]
  {
    hide LevelOf, ReadOff;
    DiagonalLines(pts, eps);
    OnePiece(segs, pts, total, eps, extraKey, maxKey);
    DiagonalSegment(segs[0], pts, eps);
  }

  lemma DiagonalPredicts(segs: seq<Segment>, total: nat, maxKey: int, k: nat, pos: nat)
    requires segs == [Segment(0, 1.0, 0), Segment(maxKey, 0.0, total)] && PredictedBy(segs, k, pos)
    ensures pos == if total < k then total else k
  {
    assert 1.0 * (k - 0) as real == k as real;
  }

  lemma IdentityBottom(keys: seq<int>, maxKey: int)
    requires |keys| >= 2 && |keys| <= maxKey && forall i :: 0 <= i < |keys| ==> keys[i] == i
    ensures Input(keys, maxKey) && Unpadded(keys, maxKey) == keys && Diagonal(Bottom(keys, maxKey))
    ensures |Bottom(keys, maxKey)| == |keys|
  {
    hide FirstOfRuns;
    FirstOfRunsDistinct(KeyPoints(keys, maxKey));
  }

  /** On the keys `0..n`, every key that is more than epsilon away from both ends gets a range of `2 * eps + 2`. */
  method WideRange(n: nat, eps: nat, epsRec: nat, maxKey: int, key: nat) returns (r: ApproxPos)
    requires eps >= 1 && eps <= key && key + eps + 2 <= n <= maxKey
    requires n + 1 + eps + epsRec <= INT32_MAX
    ensures r == ApproxPos(key, key - eps, key + eps + 2)
    ensures r.hi - r.lo == 2 * eps + 2
  {
    hide LevelOf, Bottom, Diagonal, Input, Stacked, PredictedBy;
    var keys := seq(n, i => i);
    IdentityBottom(keys, maxKey);
    var built := Build(keys, eps, epsRec, maxKey);
    r := Search(built.value, eps, epsRec, key, keys, maxKey);
    DiagonalLevel(built.value.levels[0], Bottom(keys, maxKey), n, eps, ExtraKey(keys, maxKey), maxKey);
    DiagonalPredicts(built.value.levels[0], n, maxKey, key, r.pos);
  }

  // ---- A last key that repeats

  lemma RepeatedBottom(keys: seq<int>, maxKey: int)
    requires |keys| >= 2 && maxKey > 1 && keys[0] == 0 && forall i :: 1 <= i < |keys| ==> keys[i] == 1
    ensures Input(keys, maxKey) && Unpadded(keys, maxKey) == keys && Diagonal(Bottom(keys, maxKey))
  {
    hide FirstOfRuns;
    var pts, data := Bottom(keys, maxKey), KeyPoints(keys, maxKey);
    BottomIs(keys, maxKey);
    assert RunFrom(pts, data, |pts| - 1) && RunEnd(pts, |pts| - 1, |data|) == |data|;
    assert data[|data| - 1].x == pts[|pts| - 1].x;
    assert RunFrom(pts, data, 0) && pts[0] == data[0];
    assert RunFrom(pts, data, 1) && RunEnd(pts, 0, |data|) == pts[1].y;
    assert data[1].x == 1;
  }

  /** A key beyond a last one that repeats more than epsilon times has its lower bound behind the range. */
  method BeyondRepeats(n: nat, eps: nat, epsRec: nat, maxKey: int) returns (r: ApproxPos)
    requires eps >= 1 && n > eps + 4 && maxKey > 2 && n + 1 + eps + epsRec <= INT32_MAX
    ensures var keys := [0] + seq(n - 1, _ => 1);
            r.hi == eps + 4 < CountLT(keys, 2) == n && !Finds(r, CountLT(keys, 2), n)
  {
    hide LevelOf, Bottom, Diagonal, Input, Stacked, PredictedBy;
    var keys := [0] + seq(n - 1, _ => 1);
    RepeatedBottom(keys, maxKey);
    var built := Build(keys, eps, epsRec, maxKey);
    r := Search(built.value, eps, epsRec, 2, keys, maxKey);
    DiagonalLevel(built.value.levels[0], Bottom(keys, maxKey), n, eps, ExtraKey(keys, maxKey), maxKey);
    DiagonalPredicts(built.value.levels[0], n, maxKey, 2, r.pos);
    CountLEUnique(keys, 1, n);
  }

  // ---- A key that falls between two others

  lemma FlatFive(l: Line)
    requires l.a <= 1.0 / 9.0 && At(l, 0) <= 1.0 && At(l, 9) >= 2.0
    ensures l == Line(1.0 / 9.0, 1.0)
  {
    assert At(l, 0) == l.b && At(l, 9) == 9.0 * l.a + l.b;
  }

  lemma SteepFive(l: Line)
    requires l.a >= 0.25 && At(l, 9) >= 2.0 && At(l, 21) <= 5.0
    ensures l == Line(0.25, -0.25)
  {
    assert At(l, 9) == 9.0 * l.a + l.b && At(l, 21) == 21.0 * l.a + l.b;
  }

  lemma FivePoints(pts: seq<Point>, r: Rectangle)
    requires pts == [Point(0, 0), Point(6, 1), Point(8, 2), Point(9, 3), Point(21, 4)] && Fitted(1, pts, r)
    ensures ExtremesAre(r, Line(1.0 / 9.0, 1.0), Line(0.25, -0.25))
  {
    hide At, Through;
    FiveFit(pts);
    assert Within(Flattest(r), pts[0], 1) && Within(Flattest(r), pts[3], 1);
    assert Within(Steepest(r), pts[3], 1) && Within(Steepest(r), pts[4], 1);
    FlatFive(Flattest(r));
    SteepFive(Steepest(r));
  }

  lemma FiveFit(pts: seq<Point>)
    requires pts == [Point(0, 0), Point(6, 1), Point(8, 2), Point(9, 3), Point(21, 4)]
    ensures FitsLine(Line(1.0 / 9.0, 1.0), pts, 1) && FitsLine(Line(0.25, -0.25), pts, 1)
  {
  }

  lemma FiveBottom(keys: seq<int>, maxKey: int)
    requires keys == [0, 6, 8, 9, 21] && maxKey > 21
    ensures Input(keys, maxKey) && Unpadded(keys, maxKey) == keys
    ensures Bottom(keys, maxKey) == [Point(0, 0), Point(6, 1), Point(8, 2), Point(9, 3), Point(21, 4)]
    ensures ExtraKey(keys, maxKey) == 22
  {
    FirstOfRunsDistinct(KeyPoints(keys, maxKey));
  }

  lemma FiveSegment(segs: seq<Segment>, keys: seq<int>, maxKey: int, pos: nat)
    requires keys == [0, 6, 8, 9, 21] && maxKey > 21
    requires LevelOf(segs, Bottom(keys, maxKey), 5, 1, 22, maxKey) && PredictedBy(segs, 10, pos)
    ensures pos == 1
  {
    hide LevelOf, ReadOff, Bottom, Fitted;
    var pts := Bottom(keys, maxKey);
    FiveBottom(keys, maxKey);
    FiveFit(pts);
    OnePiece(segs, pts, 5, 1, 22, maxKey);
    var flat, steep := Line(1.0 / 9.0, 1.0), Line(0.25, -0.25);
    forall r: Rectangle | Fitted(1, pts, r) ensures ExtremesAre(r, flat, steep) {
      FivePoints(pts, r);
    }
    ReadOffMean(segs[0], pts, 1, flat, steep);
    assert segs[0] == Segment(0, 13.0 / 72.0, 0);
  }

  /** The lower bound of a key that is not there can be the first position after its range. */
  method BehindRange(epsRec: nat, maxKey: int) returns (r: ApproxPos)
    requires maxKey > 21 && 6 + epsRec <= INT32_MAX
    ensures r.hi == CountLT([0, 6, 8, 9, 21], 10) == 4 && !Finds(r, CountLT([0, 6, 8, 9, 21], 10), 5)
  {
    hide LevelOf, Bottom, Input, Stacked, PredictedBy, ExtraKey;
    var keys := [0, 6, 8, 9, 21];
    FiveBottom(keys, maxKey);
    var built := Build(keys, 1, epsRec, maxKey);
    r := Search(built.value, 1, epsRec, 10, keys, maxKey);
    FiveSegment(built.value.levels[0], keys, maxKey, r.pos);
    CountLEUnique(keys, 9, 4);
  }
}
