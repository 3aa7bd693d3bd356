/** One level of the index: segments over points whose ordinates are the ranks of their abscissas
    (include/learnindex/pgm_index.hpp). */
module PgmLevels {
  import opened Geometry
  import opened Hulls
  import opened Numbers
  import opened PiecewiseLinear
  import opened Segmentation
  import opened Wrappers

  const INT32_MAX := 0x7fff_ffff

  datatype IndexError = KeysNotSorted | InterceptOverflow

  datatype Segment = Segment(key: int, slope: real, intercept: int)

  /** `std::round`: to the nearest integer, halves away from zero. */
  function Round(x: real): int {
    if x >= 0.0 then (x + 0.5).Floor else -((-x + 0.5).Floor)
  }

  /** Raw prediction of a segment, never negative. */
  function Predict(s: Segment, k: int): nat {
    var pos := Truncate(s.slope * (k - s.key) as real) + s.intercept;
    if pos > 0 then pos else 0
  }

  /** The cap at the next segment's intercept; converting a negative intercept to an unsigned type makes it too
      large to be a cap. */
  function Approximate(s: Segment, next: Segment, k: int): nat {
    if 0 <= next.intercept < Predict(s, k) then next.intercept else Predict(s, k)
  }

  lemma RoundBounds(x: real)
    ensures x - 0.5 <= Round(x) as real <= x + 0.5
  {
  }

  lemma FloorBounds(x: real)
    requires x >= 0.0
    ensures Truncate(x) as real <= x < Truncate(x) as real + 1.0
  {
  }

  // ---- Counting keys

  ghost predicate Ascending(keys: seq<int>) {
    forall i, j :: 0 <= i < j < |keys| ==> keys[i] < keys[j]
  }

  /** In order, with repetitions. */
  ghost predicate Ordered(keys: seq<int>) {
    forall i, j :: 0 <= i < j < |keys| ==> keys[i] <= keys[j]
  }

  /** Number of leading keys not above `k`. */
  function CountLE(keys: seq<int>, k: int): (u: nat)
    ensures u <= |keys|
  {
    if keys == [] then 0
    else if keys[|keys| - 1] <= k then |keys| else CountLE(keys[..|keys| - 1], k)
  }

  /** Number of leading keys below `k`: the lower bound of `k`. */
  function CountLT(keys: seq<int>, k: int): (u: nat)
    ensures u <= |keys|
  {
    CountLE(keys, k - 1)
  }

  lemma {:induction false} CountLESplits(keys: seq<int>, k: int)
    requires Ordered(keys)
    ensures forall i :: 0 <= i < CountLE(keys, k) ==> keys[i] <= k
    ensures forall i :: CountLE(keys, k) <= i < |keys| ==> k < keys[i]
  {
    if keys != [] && keys[|keys| - 1] > k {
      CountLESplits(keys[..|keys| - 1], k);
    }
  }

  lemma CountLEUnique(keys: seq<int>, k: int, u: nat)
    requires Ordered(keys)
    requires u <= |keys| && (u > 0 ==> keys[u - 1] <= k) && (u < |keys| ==> k < keys[u])
    ensures u == CountLE(keys, k)
  {
    CountLESplits(keys, k);
  }

  // ---- Points and their segments

  /** Abscissas and ordinates grow together, the ordinates from zero and below `total`. */
  ghost predicate Climbs(pts: seq<Point>, total: nat) {
    && pts != [] && pts[0].y == 0 && pts[|pts| - 1].y < total
    && forall i, j :: 0 <= i < j < |pts| ==> pts[i].x < pts[j].x && pts[i].y < pts[j].y
  }

  function Abscissas(pts: seq<Point>): (xs: seq<int>)
    ensures |xs| == |pts| && forall i :: 0 <= i < |pts| ==> xs[i] == pts[i].x
  {
    seq(|pts|, i requires 0 <= i < |pts| => pts[i].x)
  }

  lemma ClimbsOrdered(pts: seq<Point>, total: nat)
    requires Climbs(pts, total)
    ensures Ordered(Abscissas(pts)) && Increasing(pts) && |pts| <= total
    ensures forall i :: 0 <= i < |pts| ==> 0 <= pts[i].y < total
  {
    YAtLeast(pts, total, |pts| - 1);
  }

  lemma {:induction false} YAtLeast(pts: seq<Point>, total: nat, i: nat)
    requires Climbs(pts, total) && i < |pts|
    ensures pts[i].y >= i
  {
    if i > 0 {
      YAtLeast(pts, total, i - 1);
    }
  }

  function FromCanonical(cs: CanonicalSegment): Segment
    requires cs.Proper()
  {
    var f := cs.GetFloatingPointSegment(cs.first);
    Segment(cs.first, f.0, Round(f.1))
  }

  /** `s` was read off the fit of the points `a..b`. */
  ghost predicate ReadOff(s: Segment, pts: seq<Point>, eps: nat, a: nat, b: nat) {
    exists cs: CanonicalSegment :: SegmentOf(cs, pts, eps, a, b) && cs.Proper() && s == FromCanonical(cs)
  }

  /** `s` predicts the ordinates of the points `a..b`, before rounding, within `eps`. */
  ghost predicate Models(s: Segment, pts: seq<Point>, eps: nat, a: nat, b: nat, intercept: real) {
    && a < b <= |pts| && s.key == pts[a].x && s.intercept == Round(intercept) && s.slope >= 0.0
    && (b == a + 1 ==> s.slope == 0.0 && intercept == pts[a].y as real)
    && (b > a + 1 ==> s.slope > 0.0)
    && forall i :: a <= i < b ==> Near(Value(s, intercept, pts[i].x), pts[i].y, eps)
  }

  /** Prediction before rounding. */
  function Value(s: Segment, intercept: real, k: int): real {
    s.slope * (k - s.key) as real + intercept
  }

  ghost predicate Near(x: real, i: int, eps: nat) {
    (i - eps) as real <= x <= (i + eps) as real
  }

  lemma LineFromValue(s: Segment, c: real, k: int)
    ensures At(LineFrom(s.slope, c, s.key), k) == Value(s, c, k)
  {
    assert (k - s.key) as real == k as real - s.key as real;
    assert s.slope * (k as real - s.key as real) == s.slope * k as real - s.slope * s.key as real;
  }

  lemma CanonicalModels(cs: CanonicalSegment, pts: seq<Point>, total: nat, eps: nat, a: nat, b: nat)
    requires Climbs(pts, total) && SegmentOf(cs, pts, eps, a, b)
    ensures cs.Proper()
    ensures Models(FromCanonical(cs), pts, eps, a, b, cs.GetFloatingPointSegment(cs.first).1)
  {
    var piece := pts[a..b];
    assert forall i :: 0 <= i < |piece| ==> piece[i] == pts[a + i];
    if b == a + 1 {
      OnePointSegment(eps, piece, cs, cs.first);
    } else {
      SegmentFits(eps, piece, cs, cs.first);
      SegmentClimbs(eps, piece, cs, cs.first);
    }
    var f := cs.GetFloatingPointSegment(cs.first);
    LineModels(cs, pts, eps, a, b, f.0, f.1);
  }

  lemma LineModels(cs: CanonicalSegment, pts: seq<Point>, eps: nat, a: nat, b: nat, slope: real, value: real)
    requires SegmentOf(cs, pts, eps, a, b) && cs.Proper()
    requires (slope, value) == cs.GetFloatingPointSegment(cs.first)
    requires if b == a + 1 then slope == 0.0 && value == pts[a].y as real else slope > 0.0
    requires FitsLine(LineFrom(slope, value, cs.first), pts[a..b], eps)
    ensures Models(FromCanonical(cs), pts, eps, a, b, value)
  {
    hide At;
    var s := FromCanonical(cs);
    forall i | a <= i < b ensures Near(Value(s, value, pts[i].x), pts[i].y, eps) {
      LineFromValue(s, value, pts[i].x);
      assert pts[a..b][i - a] == pts[i];
      assert Within(LineFrom(slope, value, cs.first), pts[a..b][i - a], eps);
    }
  }

  lemma ReadOffModels(s: Segment, pts: seq<Point>, total: nat, eps: nat, a: nat, b: nat) returns (c: real)
    requires Climbs(pts, total) && ReadOff(s, pts, eps, a, b)
    ensures Models(s, pts, eps, a, b, c)
  {
    hide SegmentOf, FromCanonical, Models;
    var cs: CanonicalSegment :| SegmentOf(cs, pts, eps, a, b) && cs.Proper() && s == FromCanonical(cs);
    CanonicalModels(cs, pts, total, eps, a, b);
    c := cs.GetFloatingPointSegment(cs.first).1;
  }

  /** A level over `pts`: one segment per piece of a greedy cut; when the last piece is a single point, an extra
      segment for the keys beyond it; and a sentinel. `total` is the size of the level below. */
  ghost predicate Level(segs: seq<Segment>, pts: seq<Point>, total: nat, eps: nat, extraKey: int, maxKey: int,
                        cuts: seq<nat>) {
    var m := |cuts| - 1;
    && m >= 1 && Greedy(pts, eps, cuts)
    && |segs| == (if cuts[m - 1] + 1 == |pts| then m + 2 else m + 1)
    && (forall s :: 0 <= s < m ==> ReadOffAt(segs, pts, eps, cuts, s))
    && (cuts[m - 1] + 1 == |pts| ==> segs[m] == Segment(extraKey, 0.0, total))
    && segs[|segs| - 1] == Segment(maxKey, 0.0, total)
  }

  ghost predicate ReadOffAt(segs: seq<Segment>, pts: seq<Point>, eps: nat, cuts: seq<nat>, s: int)
    requires 0 <= s < |segs| && s < |cuts| - 1
  {
    ReadOff(segs[s], pts, eps, cuts[s], cuts[s + 1])
  }

  ghost predicate LevelOf(segs: seq<Segment>, pts: seq<Point>, total: nat, eps: nat, extraKey: int, maxKey: int) {
    exists cuts: seq<nat> :: Level(segs, pts, total, eps, extraKey, maxKey, cuts)
  }

  /** `t` is a segment responsible for `k`: the rightmost that starts at or before `k`, or its twin when the
      extra segment starts at the same key. */
  ghost predicate Routes(segs: seq<Segment>, t: int, k: int) {
    0 <= t < |segs| - 1 && segs[t].key <= k && (k < segs[t + 1].key || segs[t].key == segs[t + 1].key)
  }

  // ---- How accurate the predictions are

  /** Rounding the intercept and truncating the product move the prediction by less than one and a half down and
      by at most one half up. */
  lemma PredictBounds(s: Segment, k: int, c: real, lo: int, hi: int)
    requires s.intercept == Round(c) && s.slope >= 0.0 && s.key <= k
    requires lo as real <= Value(s, c, k)
    ensures lo - 1 <= Predict(s, k)
    ensures Value(s, c, k) <= hi as real && hi >= 0 ==> Predict(s, k) <= hi
  {
    var x := s.slope * (k - s.key) as real;
    NotNegative(s.slope, (k - s.key) as real);
    FloorBounds(x);
    RoundBounds(c);
  }

  lemma ValueGrows(s: Segment, c: real, x: int, y: int)
    requires s.slope >= 0.0 && x <= y
    ensures Value(s, c, x) <= Value(s, c, y)
  {
    var p, q := (x - s.key) as real, (y - x) as real;
    assert (y - s.key) as real == p + q;
    NotNegative(s.slope, q);
    assert s.slope * (p + q) == s.slope * p + s.slope * q;
  }

  /** Prediction of a segment for a key between two of its own. `u` counts the points up to `k`. */
  lemma PieceBounds(s: Segment, pts: seq<Point>, total: nat, eps: nat, a: nat, b: nat, u: nat, k: int)
    requires Climbs(pts, total) && ReadOff(s, pts, eps, a, b)
    requires a < u <= b <= |pts| && pts[u - 1].x <= k && (u < |pts| ==> k < pts[u].x)
    ensures pts[u - 1].y - eps - 1 <= Predict(s, k)
    ensures u < b ==> Predict(s, k) <= pts[u].y + eps
    ensures pts[u - 1].x == k ==> Predict(s, k) <= pts[u - 1].y + eps
    ensures b == a + 1 ==> Predict(s, k) == pts[a].y
  {
    hide Value, Predict, ReadOff;
    var c := ReadOffModels(s, pts, total, eps, a, b);
    ClimbsOrdered(pts, total);
    assert Near(Value(s, c, pts[u - 1].x), pts[u - 1].y, eps);
    ValueGrows(s, c, pts[u - 1].x, k);
    assert s.key <= k;
    if u < b {
      assert Near(Value(s, c, pts[u].x), pts[u].y, eps);
      ValueGrows(s, c, k, pts[u].x);
      PredictBounds(s, k, c, pts[u - 1].y - eps, pts[u].y + eps);
    }
    PredictBounds(s, k, c, pts[u - 1].y - eps, pts[u - 1].y + eps);
    if b == a + 1 {
      FlatPredict(s, k, pts[a].y);
    }
  }

  lemma FlatPredict(s: Segment, k: int, n: nat)
    requires s.slope == 0.0 && s.intercept == Round(n as real)
    ensures Predict(s, k) == n
  {
    assert s.slope * (k - s.key) as real == 0.0;
    RoundBounds(n as real);
  }

  lemma ModelStarts(s: Segment, pts: seq<Point>, eps: nat, a: nat, b: nat, c: real)
    requires Models(s, pts, eps, a, b, c)
    ensures (pts[a].y - eps) as real <= c <= (pts[a].y + eps) as real
  {
    assert Near(Value(s, c, pts[a].x), pts[a].y, eps);
    assert s.slope * (pts[a].x - s.key) as real == 0.0;
  }

  /** What a piece's segment starts with. */
  lemma PieceStarts(s: Segment, pts: seq<Point>, total: nat, eps: nat, a: nat, b: nat)
    requires Climbs(pts, total) && ReadOff(s, pts, eps, a, b)
    ensures a < b <= |pts| && s.key == pts[a].x && (s.slope == 0.0 <==> b == a + 1)
    ensures pts[a].y - eps <= s.intercept <= pts[a].y + eps
  {
    hide ReadOff;
    var c := ReadOffModels(s, pts, total, eps, a, b);
    ModelStarts(s, pts, eps, a, b, c);
    RoundBounds(c);
  }

  /** A piece that could not grow spans more than twice epsilon ranks. */
  lemma FullIsLong(pts: seq<Point>, total: nat, eps: nat, a: nat, b: nat)
    requires Climbs(pts, total) && Full(pts, eps, a, b)
    ensures pts[a].y + 2 * eps + 1 <= pts[b].y
  {
    if pts[b].y <= pts[a].y + 2 * eps {
      var piece, l := pts[a..b + 1], Line(0.0, (pts[a].y + eps) as real);
      forall i | 0 <= i < |piece| ensures Within(l, piece[i], eps) {
        assert piece[i] == pts[a + i];
        assert At(l, piece[i].x) == (pts[a].y + eps) as real;
      }
      assert FitsLine(l, piece, eps);
    }
  }

  /** Every later cut leaves room for a positive intercept. */
  lemma {:induction false} CutsGrow(pts: seq<Point>, total: nat, eps: nat, cuts: seq<nat>, s: nat)
    requires Climbs(pts, total) && Greedy(pts, eps, cuts) && s < |cuts| - 1
    ensures cuts[s] < |pts| && pts[cuts[s]].y >= (if s == 0 then 0 else 2 * eps + 1)
    ensures pts[cuts[s]].y >= if eps == 0 then s else 3 * s
  {
    hide Full;
    assert cuts[s] < cuts[|cuts| - 1];
    if s > 0 {
      CutsGrow(pts, total, eps, cuts, s - 1);
      assert FullAt(pts, eps, cuts, s - 1);
      FullIsLong(pts, total, eps, cuts[s - 1], cuts[s]);
    }
  }

  /** What a responsible segment's capped prediction must meet; `u` counts the points up to `k`. */
  ghost predicate Accurate(pts: seq<Point>, total: nat, eps: nat, extraKey: int, k: int, u: nat, pos: nat) {
    && 1 <= u <= |pts| && pts[u - 1].y - eps - 1 <= pos
    && pos <= (if u == |pts| then total else pts[u].y) + eps
    && (pts[u - 1].x == k && k < extraKey ==> pos <= pts[u - 1].y + eps)
  }

  /** A piece followed by another piece. */
  lemma InnerAccurate(s: Segment, next: Segment, pts: seq<Point>, total: nat, eps: nat, extraKey: int, a: nat,
                      b: nat, c: nat, u: nat, k: int)
    requires Climbs(pts, total) && ReadOff(s, pts, eps, a, b) && ReadOff(next, pts, eps, b, c)
    requires a < u <= b < |pts| && pts[u - 1].x <= k < pts[u].x && pts[b].y >= 2 * eps + 1
    ensures Accurate(pts, total, eps, extraKey, k, u, Approximate(s, next, k))
  {
    hide ReadOff, Predict;
    PieceBounds(s, pts, total, eps, a, b, u, k);
    PieceStarts(next, pts, total, eps, b, c);
  }

  /** The last piece, followed by a segment that carries the level's size. */
  lemma LastAccurate(s: Segment, next: Segment, pts: seq<Point>, total: nat, eps: nat, extraKey: int, a: nat, u: nat,
                     k: int)
    requires Climbs(pts, total) && ReadOff(s, pts, eps, a, |pts|) && next.intercept == total
    requires a < u <= |pts| && pts[u - 1].x <= k && (u < |pts| ==> k < pts[u].x)
    ensures Accurate(pts, total, eps, extraKey, k, u, Approximate(s, next, k))
  {
    hide ReadOff, Predict;
    PieceBounds(s, pts, total, eps, a, |pts|, u, k);
  }

  lemma ExtraAccurate(s: Segment, next: Segment, pts: seq<Point>, total: nat, eps: nat, extraKey: int, k: int)
    requires Climbs(pts, total) && extraKey <= k
    requires s.slope == 0.0 && s.intercept == total && next.intercept == total
    ensures Accurate(pts, total, eps, extraKey, k, |pts|, Approximate(s, next, k))
  {
    assert s.slope * (k - s.key) as real == 0.0;
  }

  /** The accuracy of a level: a responsible segment's prediction, after rounding, truncation and the cap, is at
      most `eps + 1` under the rank of the last point up to `k`, at most `eps` over the rank of the next one, and at
      most `eps` over the rank of a point at `k`. */
  lemma LevelAccurate(segs: seq<Segment>, pts: seq<Point>, total: nat, eps: nat, extraKey: int, maxKey: int,
                      t: int, k: int)
    requires LevelOf(segs, pts, total, eps, extraKey, maxKey) && Climbs(pts, total)
    requires pts[0].x <= k < maxKey && pts[|pts| - 1].x <= extraKey && Routes(segs, t, k)
    ensures Accurate(pts, total, eps, extraKey, k, CountLE(Abscissas(pts), k), Approximate(segs[t], segs[t + 1], k))
  {
    hide Predict, Level, Approximate, Accurate, CountLE;
    var cuts: seq<nat> :| Level(segs, pts, total, eps, extraKey, maxKey, cuts);
    var u := CountLE(Abscissas(pts), k);
    ClimbsOrdered(pts, total);
    PointsSplit(pts, k, u);
    RegularKeys(segs, pts, total, eps, extraKey, maxKey, cuts);
    RouteCases(segs, pts, total, eps, extraKey, maxKey, cuts, t, k);
    if t == |cuts| - 1 {
      ExtraAccurate(segs[t], segs[t + 1], pts, total, eps, extraKey, k);
    } else {
      PieceAccurate(segs, pts, total, eps, extraKey, maxKey, cuts, t, u, k);
    }
  }

  lemma RouteCases(segs: seq<Segment>, pts: seq<Point>, total: nat, eps: nat, extraKey: int, maxKey: int,
                   cuts: seq<nat>, t: nat, k: int)
    requires Level(segs, pts, total, eps, extraKey, maxKey, cuts) && Climbs(pts, total) && Routes(segs, t, k)
    ensures t <= |cuts| - 1
    ensures t == |cuts| - 1 ==> segs[t] == Segment(extraKey, 0.0, total) && segs[t + 1] == Segment(maxKey, 0.0, total)
    ensures t < |cuts| - 1 ==> k < segs[t + 1].key || t + 2 == |cuts|
  {
    hide ReadOff, Greedy;
    assert Greedy(pts, eps, cuts);
    RegularKeys(segs, pts, total, eps, extraKey, maxKey, cuts);
  }

  lemma PieceAccurate(segs: seq<Segment>, pts: seq<Point>, total: nat, eps: nat, extraKey: int, maxKey: int,
                      cuts: seq<nat>, t: nat, u: nat, k: int)
    requires Level(segs, pts, total, eps, extraKey, maxKey, cuts) && Climbs(pts, total)
    requires t < |cuts| - 1 && segs[t].key <= k && (k < segs[t + 1].key || t + 2 == |cuts|)
    requires u <= |pts| && (forall i :: 0 <= i < u ==> pts[i].x <= k) && (forall i :: u <= i < |pts| ==> k < pts[i].x)
    ensures Accurate(pts, total, eps, extraKey, k, u, Approximate(segs[t], segs[t + 1], k))
  {
    hide Predict, ReadOff, Approximate, Accurate, FullAt;
    var a, b := cuts[t], cuts[t + 1];
    assert ReadOffAt(segs, pts, eps, cuts, t);
    PieceStarts(segs[t], pts, total, eps, a, b);
    if t + 2 < |cuts| {
      var c := cuts[t + 2];
      assert ReadOffAt(segs, pts, eps, cuts, t + 1);
      PieceStarts(segs[t + 1], pts, total, eps, b, c);
      CutsGrow(pts, total, eps, cuts, t + 1);
      InnerAccurate(segs[t], segs[t + 1], pts, total, eps, extraKey, a, b, c, u, k);
    } else {
      LastAccurate(segs[t], segs[t + 1], pts, total, eps, extraKey, a, u, k);
    }
  }

  /** The stored line of a segment, before truncation and the cap, is at or above `m` at `k`. */
  predicate Reaches(s: Segment, k: int, m: int) {
    m <= 0 || s.slope * (k - s.key) as real + s.intercept as real >= m as real
  }

  /** The line reaches a whole number if and only if the truncated prediction does. */
  lemma PredictReaches(s: Segment, k: int, m: int)
    requires s.slope >= 0.0 && s.key <= k
    ensures Predict(s, k) >= m <==> Reaches(s, k, m)
  {
    var x := s.slope * (k - s.key) as real;
    NotNegative(s.slope, (k - s.key) as real);
    FloorBounds(x);
  }

  /** A line never falls. */
  lemma ReachesOn(s: Segment, k: int, k': int, m: int)
    requires s.slope >= 0.0 && k <= k' && Reaches(s, k, m)
    ensures Reaches(s, k', m)
  {
    var p, q := (k - s.key) as real, (k' - k) as real;
    assert (k' - s.key) as real == p + q;
    NotNegative(s.slope, q);
    assert s.slope * (p + q) == s.slope * p + s.slope * q;
  }

  /** Which segment is responsible for a key: that of the piece with the last of the `u` points up to it, or the extra
      one, or a twin of the extra one. */
  lemma RoutedPiece(segs: seq<Segment>, pts: seq<Point>, total: nat, eps: nat, extraKey: int, maxKey: int,
                    cuts: seq<nat>, t: int, k: int, u: nat)
    requires Level(segs, pts, total, eps, extraKey, maxKey, cuts) && Climbs(pts, total)
    requires pts[0].x <= k < maxKey && Routes(segs, t, k) && u == CountLE(Abscissas(pts), k)
    ensures segs[t].slope >= 0.0 && segs[t].key <= k && t <= |cuts| - 1
    ensures t == |cuts| - 1 ==> segs[t] == Segment(extraKey, 0.0, total) && segs[t + 1].intercept == total
    ensures t < |cuts| - 1 ==>
              && cuts[t] < u <= cuts[t + 1] <= |pts| && ReadOff(segs[t], pts, eps, cuts[t], cuts[t + 1])
              && segs[t].key == pts[cuts[t]].x
              && (t + 2 < |cuts| ==> cuts[t + 1] < |pts| && segs[t + 1].intercept >= pts[cuts[t + 1]].y - eps)
              && (t + 2 == |cuts| ==> cuts[t + 1] == |pts| && segs[t + 1].intercept == total)
  {
    hide ReadOff, FullAt, CountLE;
    ClimbsOrdered(pts, total);
    PointsSplit(pts, k, u);
    RouteCases(segs, pts, total, eps, extraKey, maxKey, cuts, t, k);
    if t < |cuts| - 1 {
      assert ReadOffAt(segs, pts, eps, cuts, t);
      PieceStarts(segs[t], pts, total, eps, cuts[t], cuts[t + 1]);
      PieceRises(segs[t], pts, total, eps, cuts[t], cuts[t + 1]);
      if t + 2 < |cuts| {
        assert ReadOffAt(segs, pts, eps, cuts, t + 1);
        PieceStarts(segs[t + 1], pts, total, eps, cuts[t + 1], cuts[t + 2]);
      }
    }
  }

  lemma PieceRises(s: Segment, pts: seq<Point>, total: nat, eps: nat, a: nat, b: nat)
    requires Climbs(pts, total) && ReadOff(s, pts, eps, a, b)
    ensures s.slope >= 0.0
  {
    hide ReadOff;
    var c := ReadOffModels(s, pts, total, eps, a, b);
  }

  /** The cap of a responsible segment never decides below the ordinate that follows the key, less epsilon. */
  lemma LevelReaches(segs: seq<Segment>, pts: seq<Point>, total: nat, eps: nat, extraKey: int, maxKey: int, t: int,
                     k: int, m: int)
    requires LevelOf(segs, pts, total, eps, extraKey, maxKey) && Climbs(pts, total)
    requires pts[0].x <= k < maxKey && Routes(segs, t, k)
    requires var u := CountLE(Abscissas(pts), k); m <= (if u < |pts| then pts[u].y else total) - eps
    ensures Approximate(segs[t], segs[t + 1], k) >= m <==> Reaches(segs[t], k, m)
  {
    hide Level, CountLE, ReadOff, Reaches, Predict;
    var cuts: seq<nat> :| Level(segs, pts, total, eps, extraKey, maxKey, cuts);
    var u := CountLE(Abscissas(pts), k);
    RoutedPiece(segs, pts, total, eps, extraKey, maxKey, cuts, t, k, u);
    ClimbsOrdered(pts, total);
    PredictReaches(segs[t], k, m);
  }

  /** Where no point lies between two keys, what the line reaches at the first it reaches at the second, whichever
      segments are found responsible. */
  lemma LevelReachesOn(segs: seq<Segment>, pts: seq<Point>, total: nat, eps: nat, extraKey: int, maxKey: int,
                       t: int, k: int, t': int, k': int, m: int)
    requires LevelOf(segs, pts, total, eps, extraKey, maxKey) && Climbs(pts, total)
    requires pts[0].x <= k <= k' < maxKey && Routes(segs, t, k) && Routes(segs, t', k')
    requires pts[|pts| - 1].x <= extraKey
    requires CountLE(Abscissas(pts), k) == CountLE(Abscissas(pts), k')
    requires m <= total && (CountLE(Abscissas(pts), k) == |pts| && pts[|pts| - 1].x == extraKey
                            ==> m <= pts[|pts| - 1].y)
    requires Reaches(segs[t], k, m)
    ensures Reaches(segs[t'], k', m)
  {
    hide CountLE, ReadOff, Reaches, Predict, FullAt;
    var cuts: seq<nat> :| Level(segs, pts, total, eps, extraKey, maxKey, cuts);
    var u := CountLE(Abscissas(pts), k);
    RoutedPiece(segs, pts, total, eps, extraKey, maxKey, cuts, t, k, u);
    RoutedPiece(segs, pts, total, eps, extraKey, maxKey, cuts, t', k', u);
    RegularKeys(segs, pts, total, eps, extraKey, maxKey, cuts);
    if t' == |cuts| - 1 {
      FlatReaches(segs[t'], k', m);
    } else if t == |cuts| - 1 {
      // the twin of the extra segment
      RouteCases(segs, pts, total, eps, extraKey, maxKey, cuts, t', k');
      assert t' + 2 == |cuts| && cuts[t'] + 1 == |pts|;
      PieceStarts(segs[t'], pts, total, eps, cuts[t'], cuts[t' + 1]);
      ClimbsOrdered(pts, total);
      PointsSplit(pts, k', u);
      PieceBounds(segs[t'], pts, total, eps, cuts[t'], cuts[t' + 1], u, k');
      PredictReaches(segs[t'], k', m);
    } else {
      ReachesOn(segs[t], k, k', m);
    }
  }

  lemma FlatReaches(s: Segment, k: int, m: int)
    requires s.slope == 0.0 && s.intercept >= m
    ensures Reaches(s, k, m)
  {
    assert s.slope * (k - s.key) as real == 0.0;
  }

  lemma PointsSplit(pts: seq<Point>, k: int, u: nat)
    requires u == CountLE(Abscissas(pts), k) && Ordered(Abscissas(pts))
    ensures forall i :: 0 <= i < u ==> pts[i].x <= k
    ensures forall i :: u <= i < |pts| ==> k < pts[i].x
  {
    CountLESplits(Abscissas(pts), k);
    assert forall i :: 0 <= i < |pts| ==> Abscissas(pts)[i] == pts[i].x;
  }

  // ---- The keys of a level

  /** The segments of a level without the sentinel, as the keys of the level above. */
  function KeysOf(segs: seq<Segment>): (keys: seq<int>)
    requires segs != []
    ensures |keys| == |segs| - 1 && forall i :: 0 <= i < |keys| ==> keys[i] == segs[i].key
  {
    seq(|segs| - 1, i requires 0 <= i < |segs| - 1 => segs[i].key)
  }

  /** The keys of a level's pieces ascend; those after them are the extra segment's and the sentinel's. */
  lemma RegularKeys(segs: seq<Segment>, pts: seq<Point>, total: nat, eps: nat, extraKey: int, maxKey: int,
                    cuts: seq<nat>)
    requires Level(segs, pts, total, eps, extraKey, maxKey, cuts) && Climbs(pts, total)
    ensures var m := |cuts| - 1;
            && 1 <= m < |segs| <= m + 2
            && segs[0].key == pts[0].x && segs[m - 1].key <= pts[|pts| - 1].x
            && (forall i, j :: 0 <= i < j < m ==> segs[i].key < segs[j].key)
            && (|segs| == m + 2 ==> segs[m].key == extraKey) && segs[|segs| - 1].key == maxKey
  {
    hide ReadOff, FullAt;
    var m := |cuts| - 1;
    forall s | 0 <= s < m ensures cuts[s] < |pts| && segs[s].key == pts[cuts[s]].x {
      assert ReadOffAt(segs, pts, eps, cuts, s);
      PieceStarts(segs[s], pts, total, eps, cuts[s], cuts[s + 1]);
    }
  }

  /** The bottom level has one responsible segment for each key: the rightmost that does not start above it. */
  lemma Rightmost(segs: seq<Segment>, pts: seq<Point>, total: nat, eps: nat, extraKey: int, maxKey: int, t: int, k: int)
    requires LevelOf(segs, pts, total, eps, extraKey, maxKey) && Climbs(pts, total)
    requires pts[|pts| - 1].x < extraKey && k < maxKey && Routes(segs, t, k)
    ensures k < segs[t + 1].key
  {
    hide Level;
    var cuts: seq<nat> :| Level(segs, pts, total, eps, extraKey, maxKey, cuts);
    RegularKeys(segs, pts, total, eps, extraKey, maxKey, cuts);
  }

  /** The keys without the last one if it repeats. */
  function Distinct(keys: seq<int>): seq<int> {
    if |keys| >= 2 && keys[|keys| - 1] == keys[|keys| - 2] then keys[..|keys| - 1] else keys
  }

  /** What the level-building step needs of the keys of a level below. */
  ghost predicate Indexable(keys: seq<int>, firstKey: int, extraKey: int) {
    && keys != [] && Ascending(Distinct(keys)) && keys[0] == firstKey < extraKey
    && keys[|keys| - 1] <= extraKey
    && (Distinct(keys) != keys ==> keys[|keys| - 1] == extraKey)
  }

  function RankPoints(keys: seq<int>): (pts: seq<Point>)
    ensures |pts| == |keys| && forall i :: 0 <= i < |keys| ==> pts[i] == Point(keys[i], i)
  {
    seq(|keys|, i requires 0 <= i < |keys| => Point(keys[i], i))
  }

  lemma DistinctSorted(keys: seq<int>)
    requires Ascending(Distinct(keys))
    ensures Ordered(keys)
  {
    var d := Distinct(keys);
    forall i, j | 0 <= i < j < |keys| ensures keys[i] <= keys[j] {
      assert keys[i] == d[i];
      if j < |d| {
        assert keys[j] == d[j];
      } else {
        assert keys[j] == d[|d| - 1];
      }
    }
  }

  /** The points of a level below: the ranks of its distinct keys. */
  lemma DistinctPoints(keys: seq<int>)
    requires keys != [] && Ascending(Distinct(keys))
    ensures Sorted(RankPoints(keys)) && FirstOfRuns(RankPoints(keys)) == RankPoints(Distinct(keys))
    ensures Climbs(RankPoints(Distinct(keys)), |keys|)
    ensures Abscissas(RankPoints(Distinct(keys))) == Distinct(keys)
  {
    hide FirstOfRuns;
    DistinctSorted(keys);
    FirstOfRunsDistinct(RankPoints(Distinct(keys)));
    if |keys| >= 2 && keys[|keys| - 1] == keys[|keys| - 2] {
      RepeatedLast(keys);
    }
  }

  lemma RepeatedLast(keys: seq<int>)
    requires |keys| >= 2 && keys[|keys| - 1] == keys[|keys| - 2]
    ensures FirstOfRuns(RankPoints(keys)) == FirstOfRuns(RankPoints(keys[..|keys| - 1]))
  {
    var pts := RankPoints(keys);
    assert pts[..|pts| - 1] == RankPoints(keys[..|keys| - 1]);
  }

  /** A level's keys can themselves be indexed. */
  lemma LevelKeys(segs: seq<Segment>, pts: seq<Point>, total: nat, eps: nat, extraKey: int, maxKey: int)
    requires LevelOf(segs, pts, total, eps, extraKey, maxKey) && Climbs(pts, total)
    requires pts[0].x < extraKey && pts[|pts| - 1].x <= extraKey
    ensures segs != [] && segs[|segs| - 1].key == maxKey && Indexable(KeysOf(segs), pts[0].x, extraKey)
    ensures 1 <= |segs| - 1 <= total + 1
  {
    hide Level, Indexable;
    var cuts: seq<nat> :| Level(segs, pts, total, eps, extraKey, maxKey, cuts);
    RegularKeys(segs, pts, total, eps, extraKey, maxKey, cuts);
    KeysIndexable(KeysOf(segs), |cuts| - 1, pts[0].x, extraKey);
    CutsFew(segs, pts, total, eps, extraKey, maxKey, cuts);
  }

  lemma KeysIndexable(ks: seq<int>, m: nat, firstKey: int, extraKey: int)
    requires 1 <= m <= |ks| <= m + 1 && ks[0] == firstKey < extraKey && ks[m - 1] <= extraKey
    requires forall i, j :: 0 <= i < j < m ==> ks[i] < ks[j]
    requires |ks| == m + 1 ==> ks[m] == extraKey
    ensures Indexable(ks, firstKey, extraKey)
  {
    if |ks| == m + 1 && ks[m] == ks[m - 1] {
      assert Distinct(ks) == ks[..m];
    } else if m < 2 || |ks| == m + 1 || ks[m - 2] < ks[m - 1] {
      assert Distinct(ks) == ks;
    }
  }

  /** Every piece but the last holds more than twice epsilon ranks. */
  lemma CutsFew(segs: seq<Segment>, pts: seq<Point>, total: nat, eps: nat, extraKey: int, maxKey: int, cuts: seq<nat>)
    requires Level(segs, pts, total, eps, extraKey, maxKey, cuts) && Climbs(pts, total)
    ensures |cuts| - 1 < |segs| <= |cuts| + 1 && |cuts| <= total + 1
    ensures eps >= 1 ==> 3 * (|cuts| - 2) < total
    ensures |cuts| == 2 && |pts| > 1 ==> |segs| == 2
  {
    hide ReadOffAt, FullAt, Climbs;
    var m := |cuts| - 1;
    CutsGrow(pts, total, eps, cuts, m - 1);
    ClimbsOrdered(pts, total);
  }

  /** A level has fewer segments than the level below, unless that one is a single segment. */
  lemma LevelShrinks(segs: seq<Segment>, keys: seq<int>, eps: nat, firstKey: int, extraKey: int, maxKey: int)
    requires LevelOf(segs, RankPoints(Distinct(keys)), |keys|, eps, extraKey, maxKey)
    requires Indexable(keys, firstKey, extraKey) && |keys| >= 2 && eps >= 1
    ensures 1 <= |segs| - 1 < |keys|
  {
    hide Level;
    var pts := RankPoints(Distinct(keys));
    var cuts: seq<nat> :| Level(segs, pts, |keys|, eps, extraKey, maxKey, cuts);
    DistinctPoints(keys);
    RegularKeys(segs, pts, |keys|, eps, extraKey, maxKey, cuts);
    CutsFew(segs, pts, |keys|, eps, extraKey, maxKey, cuts);
    assert |Distinct(keys)| >= 2;
  }

  // ---- Building a level

  ghost predicate RegularPart(segs: seq<Segment>, out: seq<CanonicalSegment>, n: nat)
    requires n <= |out|
  {
    |segs| == n && forall s :: 0 <= s < n ==> out[s].Proper() && segs[s] == FromCanonical(out[s])
  }

  function CloseLevel(regular: seq<Segment>, total: nat, extraKey: int, maxKey: int): (segs: seq<Segment>)
    requires regular != []
  {
    regular
    + (if regular[|regular| - 1].slope == 0.0 then [Segment(extraKey, 0.0, total)] else [])
    + [Segment(maxKey, 0.0, total)]
  }

  lemma LevelClosed(regular: seq<Segment>, pts: seq<Point>, total: nat, eps: nat, extraKey: int, maxKey: int,
                    cuts: seq<nat>)
    requires Climbs(pts, total) && Greedy(pts, eps, cuts) && |cuts| == |regular| + 1 && regular != []
    requires forall s :: 0 <= s < |regular| ==> ReadOffAt(regular, pts, eps, cuts, s)
    ensures Level(CloseLevel(regular, total, extraKey, maxKey), pts, total, eps, extraKey, maxKey, cuts)
  {
    hide ReadOff, FullAt, Climbs;
    var m, segs := |regular|, CloseLevel(regular, total, extraKey, maxKey);
    assert ReadOffAt(regular, pts, eps, cuts, m - 1);
    PieceStarts(regular[m - 1], pts, total, eps, cuts[m - 1], cuts[m - 1 + 1]);
    forall s | 0 <= s < m ensures ReadOffAt(segs, pts, eps, cuts, s) {
      assert ReadOffAt(regular, pts, eps, cuts, s);
    }
  }

  lemma LevelBuilt(out: seq<CanonicalSegment>, pts: seq<Point>, total: nat, eps: nat, regular: seq<Segment>,
                   extraKey: int, maxKey: int)
    requires Climbs(pts, total) && IsSegmentation(out, pts, eps) && RegularPart(regular, out, |out|)
    ensures regular != [] && LevelOf(CloseLevel(regular, total, extraKey, maxKey), pts, total, eps, extraKey, maxKey)
  {
    hide FromCanonical, SegmentOf, FullAt, Level, CloseLevel;
    var cuts: seq<nat> :| Pieces(out, pts, eps, cuts) && Greedy(pts, eps, cuts);
    forall s | 0 <= s < |out| ensures ReadOffAt(regular, pts, eps, cuts, s) {
      assert SegmentAt(out, pts, eps, cuts, s);
    }
    LevelClosed(regular, pts, total, eps, extraKey, maxKey, cuts);
  }

  lemma InterceptSmall(out: seq<CanonicalSegment>, pts: seq<Point>, total: nat, eps: nat, s: nat)
    requires Climbs(pts, total) && IsSegmentation(out, pts, eps) && s < |out|
    ensures out[s].Proper() && out[s].GetFloatingPointSegment(out[s].first).1 <= (total + eps) as real
  {
    hide FromCanonical, SegmentOf, FullAt;
    var cuts: seq<nat> :| Pieces(out, pts, eps, cuts) && Greedy(pts, eps, cuts);
    var a, b, cs := cuts[s], cuts[s + 1], out[s];
    assert SegmentAt(out, pts, eps, cuts, s);
    CanonicalModels(cs, pts, total, eps, a, b);
    ModelStarts(FromCanonical(cs), pts, eps, a, b, cs.GetFloatingPointSegment(cs.first).1);
    ClimbsOrdered(pts, total);
  }

  /** Segments one level, adds the extra segment when the last one is flat, and closes it with the sentinel. */
  method BuildLevel(data: seq<Point>, eps: nat, extraKey: int, maxKey: int)
    returns (r: Result<seq<Segment>, IndexError>)
    requires Sorted(data) && Climbs(FirstOfRuns(data), |data|)
    ensures r.Success? ==> LevelOf(r.value, FirstOfRuns(data), |data|, eps, extraKey, maxKey)
    ensures r.Failure? ==> |data| + eps > INT32_MAX
  {
    hide IsSegmentation, FromCanonical, LevelOf, Level, Climbs, FirstOfRuns;
    var made := MakeSegmentation(data, eps);
    var out := made.value;
    var segments: seq<Segment> := [];
    for i := 0 to |out|
      invariant RegularPart(segments, out, i)
    {
      InterceptSmall(out, FirstOfRuns(data), |data|, eps, i);
      if out[i].GetFloatingPointSegment(out[i].first).1 > INT32_MAX as real {
        return Failure(InterceptOverflow);
      }
      segments := segments + [FromCanonical(out[i])];
    }
    LevelBuilt(out, FirstOfRuns(data), |data|, eps, segments, extraKey, maxKey);
    ghost var regular := segments;
    if segments[|segments| - 1].slope == 0.0 {
      // keys beyond the last one are to be approximated by the size of the level
      segments := segments + [Segment(extraKey, 0.0, |data|)];
    }
    segments := segments + [Segment(maxKey, 0.0, |data|)];
    assert segments == CloseLevel(regular, |data|, extraKey, maxKey);
    return Success(segments);
  }
}
