/** The streaming fit of one segment (include/learnindex/piecewise_linear_model.hpp). */
module PiecewiseLinear {
  import opened Geometry
  import opened Hulls
  import opened Wrappers

  datatype FitError = PointsMustIncrease

  /** Corners of the region of feasible lines: `p0 p2` is the flattest feasible line, `p1 p3` the steepest. */
  datatype Rectangle = Rectangle(p0: Point, p1: Point, p2: Point, p3: Point)

  function Up(p: Point, eps: int): Point {
    Point(p.x, p.y + eps)
  }

  function Lo(p: Point, eps: int): Point {
    Point(p.x, p.y - eps)
  }

  ghost predicate Within(l: Line, p: Point, eps: int) {
    Above(l, Lo(p, eps)) && Below(l, Up(p, eps))
  }

  ghost predicate FitsLine(l: Line, pts: seq<Point>, eps: int) {
    forall i :: 0 <= i < |pts| ==> Within(l, pts[i], eps)
  }

  /** Some line passes within `eps` of every point. */
  ghost predicate Fits(pts: seq<Point>, eps: int) {
    exists l: Line :: FitsLine(l, pts, eps)
  }

  // ---- The two sides of the fit, both as "pass over" constraints

  function LoSide(h: seq<Point>, eps: int): (s: seq<Point>)
    ensures |s| == |h| && forall i :: 0 <= i < |h| ==> s[i] == Lo(h[i], eps)
  {
    seq(|h|, i requires 0 <= i < |h| => Lo(h[i], eps))
  }

  function UpSide(h: seq<Point>, eps: int): (s: seq<Point>)
    ensures |s| == |h| && forall i :: 0 <= i < |h| ==> s[i] == Flip(Up(h[i], eps))
  {
    seq(|h|, i requires 0 <= i < |h| => Flip(Up(h[i], eps)))
  }

  /** The chain `h` stands in for the constraints `s` while the feasible slopes run from that of `l1` (which
      touches the end of the chain) to that of `l2` (which touches its start). */
  ghost predicate Side(h: seq<Point>, s: seq<Point>, l1: Line, l2: Line) {
    && |h| > 0 && Increasing(h) && Concave(h)
    && l1.a <= l2.a
    && AllAbove(l1, h) && AllAbove(l2, h) && AllAbove(l1, s) && AllAbove(l2, s)
    && At(l2, h[0].x) == h[0].y as real
    && At(l1, h[|h| - 1].x) == h[|h| - 1].y as real
    && Covers(h, s, l1.a, l2.a)
  }

  /** Turning the steepest line down to a new point and cutting the chain at the tangent. */
  lemma SideAdvance(h: seq<Point>, s: seq<Point>, l1: Line, l2: Line, m: nat, p: Point)
    requires Side(h, s, l1, l2)
    requires Tangent(h, m, p) && SeenFrom(h, p) && h[0].x < p.x
    requires At(l1, p.x) <= p.y as real <= At(l2, p.x)
    ensures Side(h[m..], s, l1, Through(h[m], p))
    ensures l1.a <= Through(h[m], p).a <= l2.a
    ensures At(Through(h[m], p), p.x) == p.y as real
    ensures forall q: Point :: q.x <= p.x && Below(l1, q) && Below(l2, q) ==> Below(Through(h[m], p), q)
  {
    var t := Through(h[m], p);
    TangentSound(h, s, l1, l2, m, p);
    ThroughHits(h[m], p);
    var g := h[m..];
    forall k | 0 <= k < |g| ensures g[k] == h[m + k] {
    }
    forall k: nat | k + 2 < |g| ensures TurnsRight(g, k) {
      assert TurnsRight(h, m + k);
    }
    assert AllAbove(l1, g) && AllAbove(t, g);
  }

  /** A new constraint that lifts the flattest line joins the chain, which first drops what it hides. */
  lemma SideExtend(h: seq<Point>, s: seq<Point>, l1: Line, l2: Line, e: nat, p: Point, t: Line)
    requires Side(h, s, l1, l2)
    requires 1 <= e <= |h| && h[|h| - 1].x < p.x
    requires Keeps(h, e, p) && Concave(h[..e] + [p])
    requires l1.a <= t.a <= l2.a && AllAbove(t, h) && AllAbove(t, s) && At(t, p.x) == p.y as real
    requires Above(l2, p)
    ensures Side(h[..e] + [p], s + [p], t, l2)
  {
    var g := h[..e] + [p];
    forall k | 0 <= k < |g| ensures g[k] == if k < e then h[k] else p {
    }
    CoversPush(h, h[..e], s, p, l1.a, l2.a);
    assert AllAbove(t, g) && AllAbove(l2, g);
    assert AllAbove(t, s + [p]) && AllAbove(l2, s + [p]);
  }

  lemma SideSkip(h: seq<Point>, s: seq<Point>, l1: Line, l2: Line, p: Point)
    requires Side(h, s, l1, l2)
    requires h[|h| - 1].x <= p.x && Above(l1, p) && Above(l2, p)
    ensures Side(h, s + [p], l1, l2)
  {
    CoversSkip(h, s, p, l1, l2.a);
  }

  // ---- The scans of add_point

  /** Finds the least steep sight line from `p` to the lower chain, stopping at the first increase. */
  method ScanLower(h: seq<Point>, eps: nat, start: nat, p: Point) returns (m: nat)
    requires start < |h| && Increasing(h) && h[|h| - 1].x < p.x
    requires Concave(LoSide(h[start..], eps))
    ensures start <= m < |h| && Tangent(LoSide(h[start..], eps), m - start, p)
  {
    hide Less, Greater, LeastSteep, Concave;
    ghost var c := LoSide(h[start..], eps);
    assert c[0] == Lo(h[start], eps);
    StartsSteep(c, p);
    var min := Minus(Lo(h[start], eps), p);
    m := start;
    var i := start + 1;
    while i < |h|
      invariant start <= m == i - 1 < |h|
      invariant min == Minus(c[m - start], p)
      invariant LeastSteep(c, i - start, m - start, p)
    {
      var val := Minus(Lo(h[i], eps), p);
      assert val == Minus(c[i - start], p);
      ScanStep(c, i - start, p);
      LeastBounds(c, i - start, m - start, p);
      if Greater(val, min) {
        return;
      }
      min := val;
      m := i;
      i := i + 1;
    }
  }

  /** Finds the steepest sight line from `p` to the upper chain, stopping at the first decrease. */
  method ScanUpper(h: seq<Point>, eps: nat, start: nat, p: Point) returns (m: nat)
    requires start < |h| && Increasing(h) && h[start].x < p.x && h[|h| - 1].x <= p.x
    requires h[|h| - 1].x == p.x ==> Up(h[|h| - 1], eps).y > p.y
    requires Concave(UpSide(h[start..], eps))
    ensures start <= m < |h| && h[m].x < p.x && Tangent(UpSide(h[start..], eps), m - start, Flip(p))
  {
    hide Less, Greater, LeastSteep, Concave;
    ghost var c := UpSide(h[start..], eps);
    assert c[0] == Flip(Up(h[start], eps));
    StartsSteep(c, Flip(p));
    var max := Minus(Up(h[start], eps), p);
    m := start;
    var i := start + 1;
    while i < |h|
      invariant start <= m == i - 1 < |h| && h[m].x < p.x
      invariant max == Minus(Up(h[m], eps), p)
      invariant LeastSteep(c, i - start, m - start, Flip(p))
    {
      var val := Minus(Up(h[i], eps), p);
      ScanStep(c, i - start, Flip(p));
      FlipLess(Up(h[i], eps), Up(h[m], eps), p);
      if Less(val, max) {
        return;
      }
      max := val;
      m := i;
      i := i + 1;
    }
  }

  lemma LeastBounds(c: seq<Point>, n: nat, m: int, p: Point)
    requires n <= |c| && LeastSteep(c, n, m, p)
    ensures 0 <= m < n && c[m].x < p.x
  {
  }

  lemma StartsSteep(c: seq<Point>, p: Point)
    requires c != [] && c[0].x < p.x
    ensures LeastSteep(c, 1, 0, p)
  {
  }

  /** Mirroring turns the comparison of slopes around; a point straight above `p` compares below any slope. */
  lemma FlipLess(g: Point, h: Point, p: Point)
    requires h.x < p.x
    ensures Less(Minus(g, p), Minus(h, p)) <==> Greater(Minus(Flip(g), Flip(p)), Minus(Flip(h), Flip(p)))
    ensures g.x == p.x && g.y > p.y ==> Less(Minus(g, p), Minus(h, p))
  {
    var s, t := Minus(g, p), Minus(h, p);
    assert (-s.dy) * t.dx == -(s.dy * t.dx);
    assert s.dx * (-t.dy) == -(s.dx * t.dy);
    if g.x == p.x && g.y > p.y {
      assert s.dy * t.dx < 0;
    }
  }

  lemma SideOrdered(h: seq<Point>, eps: nat, start: nat)
    requires start < |h| && Increasing(h)
    ensures Increasing(LoSide(h[start..], eps)) && Increasing(UpSide(h[start..], eps))
    ensures LoSide(h[start..], eps)[|h| - start - 1].x == UpSide(h[start..], eps)[|h| - start - 1].x == h[|h| - 1].x
  {
  }

  /** The last two points of a trimmed side. */
  lemma SideLast(h: seq<Point>, eps: nat, start: nat, end: nat)
    requires start + 2 <= end <= |h|
    ensures LoSide(h[start..], eps)[end - start - 2] == Lo(h[end - 2], eps)
    ensures LoSide(h[start..], eps)[end - start - 1] == Lo(h[end - 1], eps)
    ensures UpSide(h[start..], eps)[end - start - 2] == Flip(Up(h[end - 2], eps))
    ensures UpSide(h[start..], eps)[end - start - 1] == Flip(Up(h[end - 1], eps))
  {
  }

  lemma TrimLowerStep(h: seq<Point>, eps: nat, start: nat, end: nat, p: Point)
    requires start + 2 <= end <= |h| && Increasing(h) && h[|h| - 1].x < p.x
    requires Keeps(LoSide(h[start..], eps), end - start, p)
    ensures Cross(Lo(h[end - 2], eps), Lo(h[end - 1], eps), p) >= 0 ==>
            Keeps(LoSide(h[start..], eps), end - start - 1, p)
    ensures Cross(Lo(h[end - 2], eps), Lo(h[end - 1], eps), p) < 0 && Concave(LoSide(h[start..], eps)) ==>
            Concave(LoSide(h[start..], eps)[..end - start] + [p])
  {
    hide Cross, Keeps, Concave, Increasing;
    SideOrdered(h, eps, start);
    SideLast(h, eps, start, end);
    if Cross(Lo(h[end - 2], eps), Lo(h[end - 1], eps), p) >= 0 {
      TrimStep(LoSide(h[start..], eps), end - start, p);
    } else if Concave(LoSide(h[start..], eps)) {
      TrimEnd(LoSide(h[start..], eps), end - start, p);
    }
  }

  lemma TrimUpperStep(h: seq<Point>, eps: nat, start: nat, end: nat, p: Point)
    requires start + 2 <= end <= |h| && Increasing(h) && h[|h| - 1].x < p.x
    requires Keeps(UpSide(h[start..], eps), end - start, Flip(p))
    ensures Cross(Up(h[end - 2], eps), Up(h[end - 1], eps), p) <= 0 ==>
            Keeps(UpSide(h[start..], eps), end - start - 1, Flip(p))
    ensures Cross(Up(h[end - 2], eps), Up(h[end - 1], eps), p) > 0 && Concave(UpSide(h[start..], eps)) ==>
            Concave(UpSide(h[start..], eps)[..end - start] + [Flip(p)])
  {
    hide Cross, Keeps, Concave, Increasing;
    SideOrdered(h, eps, start);
    SideLast(h, eps, start, end);
    FlipCross(Up(h[end - 2], eps), Up(h[end - 1], eps), p);
    if Cross(Up(h[end - 2], eps), Up(h[end - 1], eps), p) <= 0 {
      TrimStep(UpSide(h[start..], eps), end - start, Flip(p));
    } else if Concave(UpSide(h[start..], eps)) {
      TrimEnd(UpSide(h[start..], eps), end - start, Flip(p));
    }
  }

  /** Drops from the end of the lower chain what the new point hides. */
  method TrimLower(h: seq<Point>, eps: nat, start: nat, p: Point) returns (end: nat)
    requires start < |h| && Increasing(h) && h[|h| - 1].x < p.x
    requires Concave(LoSide(h[start..], eps))
    ensures start + 1 <= end <= |h|
    ensures Keeps(LoSide(h[start..], eps), end - start, p)
    ensures Concave(LoSide(h[start..], eps)[..end - start] + [p])
  {
    hide Cross, Keeps, Concave, Increasing;
    end := |h|;
    KeepsAll(LoSide(h[start..], eps), p);
    while end >= start + 2 && Cross(Lo(h[end - 2], eps), Lo(h[end - 1], eps), p) >= 0
      invariant start + 1 <= end <= |h|
      invariant Keeps(LoSide(h[start..], eps), end - start, p)
    {
      TrimLowerStep(h, eps, start, end, p);
      end := end - 1;
    }
    if end >= start + 2 {
      TrimLowerStep(h, eps, start, end, p);
    } else {
      PairConcave(LoSide(h[start..], eps)[..1] + [p]);
    }
  }

  /** Drops from the end of the upper chain what the new point hides. */
  method TrimUpper(h: seq<Point>, eps: nat, start: nat, p: Point) returns (end: nat)
    requires start < |h| && Increasing(h) && h[|h| - 1].x < p.x
    requires Concave(UpSide(h[start..], eps))
    ensures start + 1 <= end <= |h|
    ensures Keeps(UpSide(h[start..], eps), end - start, Flip(p))
    ensures Concave(UpSide(h[start..], eps)[..end - start] + [Flip(p)])
  {
    hide Cross, Keeps, Concave, Increasing;
    end := |h|;
    KeepsAll(UpSide(h[start..], eps), Flip(p));
    while end >= start + 2 && Cross(Up(h[end - 2], eps), Up(h[end - 1], eps), p) <= 0
      invariant start + 1 <= end <= |h|
      invariant Keeps(UpSide(h[start..], eps), end - start, Flip(p))
    {
      TrimUpperStep(h, eps, start, end, p);
      end := end - 1;
    }
    if end >= start + 2 {
      TrimUpperStep(h, eps, start, end, p);
    } else {
      PairConcave(UpSide(h[start..], eps)[..1] + [Flip(p)]);
    }
  }

  /** Trimming the chain `c` to `c[..e]` before `p` joins it loses no constraint. */
  ghost predicate Keeps(c: seq<Point>, e: int, p: Point) {
    0 <= e <= |c| && Dominates(c[..e] + [p], c)
  }

  lemma TrimStep(c: seq<Point>, e: int, p: Point)
    requires Increasing(c) && c != [] && c[|c| - 1].x < p.x
    requires 2 <= e && Keeps(c, e, p) && Cross(c[e - 2], c[e - 1], p) >= 0
    ensures Keeps(c, e - 1, p)
  {
    PopDominates(c, e, p);
  }

  lemma KeepsAll(c: seq<Point>, p: Point)
    ensures Keeps(c, |c|, p)
  {
    forall l: Line | AllAbove(l, c[..|c|] + [p]) ensures AllAbove(l, c) {
      forall k | 0 <= k < |c| ensures Above(l, c[k]) {
        assert (c[..|c|] + [p])[k] == c[k];
      }
    }
  }

  lemma PairConcave(c: seq<Point>)
    requires |c| == 2
    ensures Concave(c)
  {
  }

  /** A chain trimmed until its last step turns right into the new point still turns right everywhere. */
  lemma TrimEnd(c: seq<Point>, e: nat, p: Point)
    requires Concave(c) && 1 <= e <= |c| && (e >= 2 ==> Cross(c[e - 2], c[e - 1], p) < 0)
    ensures Concave(c[..e] + [p])
  {
    var g := c[..e] + [p];
    forall i: nat | i + 2 < |g| ensures TurnsRight(g, i) {
      if i + 2 < e {
        assert TurnsRight(c, i);
        assert g[i] == c[i] && g[i + 1] == c[i + 1] && g[i + 2] == c[i + 2];
      }
    }
  }

  lemma FlipCross(o: Point, a: Point, b: Point)
    ensures Cross(Flip(o), Flip(a), Flip(b)) == -Cross(o, a, b)
  {
    var oa, ob := Minus(a, o), Minus(b, o);
    assert oa.dx * (-ob.dy) - (-oa.dy) * ob.dx == -(oa.dx * ob.dy - oa.dy * ob.dx);
  }

  // ---- What add_point keeps

  function Flattest(r: Rectangle): Line
    requires r.p0.x < r.p2.x
  {
    Through(r.p0, r.p2)
  }

  function Steepest(r: Rectangle): Line
    requires r.p1.x < r.p3.x
  {
    Through(r.p1, r.p3)
  }

  /** The rectangle touches the chains: its corners are their ends. */
  ghost predicate Corners(eps: nat, lower: seq<Point>, ls: nat, upper: seq<Point>, us: nat, r: Rectangle) {
    && ls < |lower| && us < |upper|
    && r.p0 == Up(upper[us], eps) && r.p3 == Up(upper[|upper| - 1], eps)
    && r.p1 == Lo(lower[ls], eps) && r.p2 == Lo(lower[|lower| - 1], eps)
    && r.p0.x < r.p2.x && r.p1.x < r.p3.x
    && Increasing(lower) && Increasing(upper)
  }

  /** Each chain covers its side of the points `lp` and `up`. */
  ghost predicate Covered(eps: nat, lp: seq<Point>, up: seq<Point>, lower: seq<Point>, ls: nat, upper: seq<Point>,
                          us: nat, r: Rectangle) {
    && Corners(eps, lower, ls, upper, us, r)
    && Side(LoSide(lower[ls..], eps), LoSide(lp, eps), Flattest(r), Steepest(r))
    && Side(UpSide(upper[us..], eps), UpSide(up, eps), FlipLine(Steepest(r)), FlipLine(Flattest(r)))
  }

  ghost predicate Members(h: seq<Point>, pts: seq<Point>) {
    forall i :: 0 <= i < |h| ==> h[i] in pts
  }

  /** State between two calls, two or more points having been accepted. */
  ghost predicate Chains(eps: nat, pts: seq<Point>, lower: seq<Point>, ls: nat, upper: seq<Point>, us: nat,
                         r: Rectangle) {
    && |pts| >= 2 && Increasing(pts)
    && Covered(eps, pts, pts, lower, ls, upper, us, r)
    && Members(lower, pts) && Members(upper, pts)
  }

  /** State between the two updates of one call: the upper side already knows the new point. */
  ghost predicate Halfway(eps: nat, pts: seq<Point>, p: Point, lower: seq<Point>, ls: nat, upper: seq<Point>,
                          us: nat, r: Rectangle) {
    && |pts| >= 2 && Increasing(pts + [p])
    && Covered(eps, pts, pts + [p], lower, ls, upper, us, r)
    && Members(lower, pts) && Members(upper, pts + [p])
    && Lo(p, eps).y as real <= At(Steepest(r), p.x)
    && lower[|lower| - 1].x < p.x && upper[us].x < p.x
    && (upper[|upper| - 1].x == p.x ==> eps > 0)
  }

  lemma SideSuffix(h: seq<Point>, eps: int, start: nat, m: nat)
    requires start <= m <= |h|
    ensures LoSide(h[m..], eps) == LoSide(h[start..], eps)[m - start..]
    ensures UpSide(h[m..], eps) == UpSide(h[start..], eps)[m - start..]
  {
  }

  lemma SideLeft(h: seq<Point>, eps: int, start: nat, x: int)
    requires start < |h| && forall i :: 0 <= i < |h| ==> h[i].x < x
    ensures forall k :: 0 <= k < |h| - start ==> LoSide(h[start..], eps)[k].x < x
    ensures forall k :: 0 <= k < |h| - start ==> UpSide(h[start..], eps)[k].x < x
  {
  }

  lemma SideTrimmed(h: seq<Point>, eps: int, start: nat, end: nat, p: Point)
    requires start <= end <= |h|
    ensures LoSide((h[..end] + [p])[start..], eps) == LoSide(h[start..], eps)[..end - start] + [Lo(p, eps)]
    ensures UpSide((h[..end] + [p])[start..], eps) == UpSide(h[start..], eps)[..end - start] + [Flip(Up(p, eps))]
  {
  }

  lemma SideAppend(pts: seq<Point>, p: Point, eps: int)
    ensures LoSide(pts + [p], eps) == LoSide(pts, eps) + [Lo(p, eps)]
    ensures UpSide(pts + [p], eps) == UpSide(pts, eps) + [Flip(Up(p, eps))]
  {
  }

  lemma TrimIncreasing(h: seq<Point>, end: nat, p: Point)
    requires Increasing(h) && end <= |h| && (|h| > 0 ==> h[|h| - 1].x < p.x)
    ensures Increasing(h[..end] + [p])
  {
  }

  lemma ChainEnds(pts: seq<Point>, h: seq<Point>, p: Point)
    requires Increasing(pts + [p]) && Members(h, pts)
    ensures forall i :: 0 <= i < |h| ==> h[i].x < p.x
  {
    forall i | 0 <= i < |h| ensures h[i].x < p.x {
      var k :| 0 <= k < |pts| && pts[k] == h[i];
      assert (pts + [p])[k] == h[i] && (pts + [p])[|pts|] == p;
    }
  }

  lemma FirstSkipped(eps: nat, pts: seq<Point>, p: Point, lower: seq<Point>, ls: nat, upper: seq<Point>, us: nat,
                     r: Rectangle)
    requires Chains(eps, pts, lower, ls, upper, us, r) && Increasing(pts + [p])
    requires At(Steepest(r), p.x) <= Up(p, eps).y as real
    requires Lo(p, eps).y as real <= At(Steepest(r), p.x)
    requires At(Flattest(r), p.x) <= Up(p, eps).y as real
    ensures Halfway(eps, pts, p, lower, ls, upper, us, r)
  {
    ChainEnds(pts, upper, p);
    ChainEnds(pts, lower, p);
    SideAppend(pts, p, eps);
    FlipAt(Steepest(r), p.x);
    FlipAt(Flattest(r), p.x);
    SideSkip(UpSide(upper[us..], eps), UpSide(pts, eps), FlipLine(Steepest(r)), FlipLine(Flattest(r)),
             Flip(Up(p, eps)));
  }

  /** The lower side after the steepest line has been turned down to the new point. */
  lemma LowerTurned(lower: seq<Point>, s: seq<Point>, eps: int, ls: nat, m: nat, l1: Line, l2: Line, q: Point)
    requires ls <= m < |lower| && Side(LoSide(lower[ls..], eps), s, l1, l2)
    requires forall i :: 0 <= i < |lower| ==> lower[i].x < q.x
    requires Tangent(LoSide(lower[ls..], eps), m - ls, q)
    requires At(l1, q.x) <= q.y as real <= At(l2, q.x)
    ensures var t := Through(Lo(lower[m], eps), q);
            && Side(LoSide(lower[m..], eps), s, l1, t)
            && l1.a <= t.a <= l2.a && At(t, q.x) == q.y as real
            && forall z: Point :: z.x <= q.x && Below(l1, z) && Below(l2, z) ==> Below(t, z)
  {
    hide Tangent, At, Through, Side, Below;
    SideLeft(lower, eps, ls, q.x);
    SideSuffix(lower, eps, ls, m);
    SideAdvance(LoSide(lower[ls..], eps), s, l1, l2, m - ls, q);
  }

  /** Both sides after the first update, from points that all lie left of the new one. */
  lemma FirstSides(eps: nat, pts: seq<Point>, p: Point, lower: seq<Point>, ls: nat, m: nat, upper: seq<Point>,
                   us: nat, end: nat, l1: Line, l2: Line)
    requires forall i :: 0 <= i < |pts| ==> pts[i].x < p.x
    requires forall i :: 0 <= i < |lower| ==> lower[i].x < p.x
    requires forall i :: 0 <= i < |upper| ==> upper[i].x < p.x
    requires ls <= m < |lower| && us + 1 <= end <= |upper|
    requires Side(LoSide(lower[ls..], eps), LoSide(pts, eps), l1, l2)
    requires Side(UpSide(upper[us..], eps), UpSide(pts, eps), FlipLine(l2), FlipLine(l1))
    requires At(l1, p.x) <= Up(p, eps).y as real < At(l2, p.x)
    requires Tangent(LoSide(lower[ls..], eps), m - ls, Up(p, eps))
    requires Keeps(UpSide(upper[us..], eps), end - us, Flip(Up(p, eps)))
    requires Concave(UpSide(upper[us..], eps)[..end - us] + [Flip(Up(p, eps))])
    ensures var t := Through(Lo(lower[m], eps), Up(p, eps));
            && At(t, p.x) == Up(p, eps).y as real
            && Side(LoSide(lower[m..], eps), LoSide(pts, eps), l1, t)
            && Side(UpSide((upper[..end] + [p])[us..], eps), UpSide(pts + [p], eps), FlipLine(t), FlipLine(l1))
  {
    hide Tangent, Concave, Keeps, At, Through, Side, Below;
    var q := Up(p, eps);
    assert pts[0..] == pts;
    if pts != [] {
      SideLeft(pts, eps, 0, p.x);
    }
    SideLeft(upper, eps, us, p.x);
    LowerTurned(lower, LoSide(pts, eps), eps, ls, m, l1, l2, q);
    UpperTurned(UpSide(upper[us..], eps), UpSide(pts, eps), l1, l2, Through(Lo(lower[m], eps), q), end - us, q);
    SideAppend(pts, p, eps);
    SideTrimmed(upper, eps, us, end, p);
  }

  lemma FirstTaken(eps: nat, pts: seq<Point>, p: Point, lower: seq<Point>, ls: nat, m: nat, upper: seq<Point>,
                   us: nat, end: nat, r: Rectangle)
    requires Chains(eps, pts, lower, ls, upper, us, r) && Increasing(pts + [p])
    requires Up(p, eps).y as real < At(Steepest(r), p.x)
    requires At(Flattest(r), p.x) <= Up(p, eps).y as real
    requires ls <= m < |lower| && Tangent(LoSide(lower[ls..], eps), m - ls, Up(p, eps))
    requires us + 1 <= end <= |upper|
    requires Keeps(UpSide(upper[us..], eps), end - us, Flip(Up(p, eps)))
    requires Concave(UpSide(upper[us..], eps)[..end - us] + [Flip(Up(p, eps))])
    ensures lower[m].x < p.x
    ensures Halfway(eps, pts, p, lower, m, upper[..end] + [p], us, r.(p1 := Lo(lower[m], eps), p3 := Up(p, eps)))
  {
    hide Tangent, Concave, Keeps, At, Through, Side, Below;
    ChainEnds(pts, lower, p);
    ChainEnds(pts, upper, p);
    ChainEnds(pts, pts, p);
    TrimIncreasing(upper, end, p);
    FirstSides(eps, pts, p, lower, ls, m, upper, us, end, Flattest(r), Steepest(r));
    if eps == 0 {
      ExactLinesMeet(pts, LoSide(lower[ls..], 0), UpSide(upper[us..], 0), Flattest(r), Steepest(r), p.x);
    }
  }

  /** The upper side after the steepest line has been turned down from `l2` to `t`, through the new point `q`. */
  lemma UpperTurned(h: seq<Point>, s: seq<Point>, l1: Line, l2: Line, t: Line, e: nat, q: Point)
    requires Side(h, s, FlipLine(l2), FlipLine(l1))
    requires forall k :: 0 <= k < |h| ==> h[k].x < q.x
    requires forall k :: 0 <= k < |s| ==> s[k].x < q.x
    requires l1.a <= t.a <= l2.a && At(t, q.x) == q.y as real && At(l1, q.x) <= q.y as real
    requires forall z: Point :: z.x <= q.x && Below(l1, z) && Below(l2, z) ==> Below(t, z)
    requires 1 <= e <= |h| && Keeps(h, e, Flip(q)) && Concave(h[..e] + [Flip(q)])
    ensures Side(h[..e] + [Flip(q)], s + [Flip(q)], FlipLine(t), FlipLine(l1))
  {
    hide At, Covers, Concave, Keeps;
    TurnUpper(h, s, l1, l2, t, q);
    FlipAt(l1, q.x);
    FlipAt(t, q.x);
    SideExtend(h, s, FlipLine(l2), FlipLine(l1), e, Flip(q), FlipLine(t));
  }

  /** The turned line stays under every upper bound that both old extremes were under. */
  lemma TurnUpper(h: seq<Point>, s: seq<Point>, l1: Line, l2: Line, t: Line, q: Point)
    requires AllAbove(FlipLine(l2), h) && AllAbove(FlipLine(l1), h)
    requires AllAbove(FlipLine(l2), s) && AllAbove(FlipLine(l1), s)
    requires forall k :: 0 <= k < |h| ==> h[k].x <= q.x
    requires forall k :: 0 <= k < |s| ==> s[k].x <= q.x
    requires forall z: Point :: z.x <= q.x && Below(l1, z) && Below(l2, z) ==> Below(t, z)
    ensures AllAbove(FlipLine(t), h) && AllAbove(FlipLine(t), s)
  {
    forall z: Point | z.x <= q.x && Above(FlipLine(l2), z) && Above(FlipLine(l1), z)
      ensures Above(FlipLine(t), z)
    {
      FlipAt(l1, z.x);
      FlipAt(l2, z.x);
      FlipAt(t, z.x);
      assert Below(l1, Flip(z)) && Below(l2, Flip(z));
    }
  }

  lemma SecondSkipped(eps: nat, pts: seq<Point>, p: Point, lower: seq<Point>, ls: nat, upper: seq<Point>, us: nat,
                      r: Rectangle)
    requires Halfway(eps, pts, p, lower, ls, upper, us, r)
    requires Lo(p, eps).y as real <= At(Flattest(r), p.x)
    ensures Chains(eps, pts + [p], lower, ls, upper, us, r)
  {
    hide At, Through;
    SideAppend(pts, p, eps);
    SideSkip(LoSide(lower[ls..], eps), LoSide(pts, eps), Flattest(r), Steepest(r), Lo(p, eps));
  }

  /** The upper side after the flattest line has been turned up to the new point. */
  lemma UpperRaised(upper: seq<Point>, s: seq<Point>, eps: int, us: nat, m: nat, l1: Line, l2: Line, q: Point)
    requires us <= m < |upper| && upper[m].x < q.x
    requires Side(UpSide(upper[us..], eps), s, FlipLine(l2), FlipLine(l1))
    requires SeenFrom(UpSide(upper[us..], eps), Flip(q)) && upper[us].x < q.x
    requires Tangent(UpSide(upper[us..], eps), m - us, Flip(q))
    requires At(l1, q.x) <= q.y as real <= At(l2, q.x)
    ensures var t := Through(Up(upper[m], eps), q);
            && Side(UpSide(upper[m..], eps), s, FlipLine(l2), FlipLine(t))
            && l1.a <= t.a <= l2.a && At(t, q.x) == q.y as real
            && forall z: Point :: z.x <= q.x && Below(FlipLine(l2), z) && Below(FlipLine(l1), z) ==>
               Below(FlipLine(t), z)
  {
    hide Tangent, At, Through, Side, Below, SeenFrom;
    SideSuffix(upper, eps, us, m);
    FlipAt(l1, q.x);
    FlipAt(l2, q.x);
    FlipThrough(Up(upper[m], eps), q);
    ThroughHits(Up(upper[m], eps), q);
    SideAdvance(UpSide(upper[us..], eps), s, FlipLine(l2), FlipLine(l1), m - us, Flip(q));
  }

  /** The lower side after the flattest line has been turned up from `l1` to `t`, through the new point `q`. */
  lemma LowerRaised(h: seq<Point>, s: seq<Point>, l1: Line, l2: Line, t: Line, e: nat, q: Point)
    requires Side(h, s, l1, l2)
    requires forall k :: 0 <= k < |h| ==> h[k].x < q.x
    requires forall k :: 0 <= k < |s| ==> s[k].x < q.x
    requires l1.a <= t.a <= l2.a && At(t, q.x) == q.y as real && q.y as real <= At(l2, q.x)
    requires forall z: Point :: z.x <= q.x && Below(FlipLine(l2), z) && Below(FlipLine(l1), z) ==> Below(FlipLine(t), z)
    requires 1 <= e <= |h| && Keeps(h, e, q) && Concave(h[..e] + [q])
    ensures Side(h[..e] + [q], s + [q], t, l2)
  {
    hide At, Covers, Concave, Keeps;
    assert FlipLine(FlipLine(l1)) == l1 && FlipLine(FlipLine(l2)) == l2 && FlipLine(FlipLine(t)) == t;
    TurnUpper(h, s, FlipLine(l2), FlipLine(l1), FlipLine(t), q);
    SideExtend(h, s, l1, l2, e, q, t);
  }

  /** Both sides after the second update. */
  lemma SecondSides(eps: nat, pts: seq<Point>, p: Point, lower: seq<Point>, ls: nat, end: nat, upper: seq<Point>,
                    us: nat, m: nat, l1: Line, l2: Line)
    requires forall i :: 0 <= i < |pts| ==> pts[i].x < p.x
    requires forall i :: 0 <= i < |lower| ==> lower[i].x < p.x
    requires us <= m < |upper| && ls + 1 <= end <= |lower| && upper[us].x < p.x && upper[m].x < p.x
    requires SeenFrom(UpSide(upper[us..], eps), Flip(Lo(p, eps)))
    requires Side(LoSide(lower[ls..], eps), LoSide(pts, eps), l1, l2)
    requires Side(UpSide(upper[us..], eps), UpSide(pts + [p], eps), FlipLine(l2), FlipLine(l1))
    requires At(l1, p.x) < Lo(p, eps).y as real <= At(l2, p.x)
    requires Tangent(UpSide(upper[us..], eps), m - us, Flip(Lo(p, eps)))
    requires Keeps(LoSide(lower[ls..], eps), end - ls, Lo(p, eps))
    requires Concave(LoSide(lower[ls..], eps)[..end - ls] + [Lo(p, eps)])
    ensures var t := Through(Up(upper[m], eps), Lo(p, eps));
            && Side(LoSide((lower[..end] + [p])[ls..], eps), LoSide(pts + [p], eps), t, l2)
            && Side(UpSide(upper[m..], eps), UpSide(pts + [p], eps), FlipLine(l2), FlipLine(t))
  {
    hide Tangent, Concave, Keeps, At, Through, Side, Below, SeenFrom;
    var q := Lo(p, eps);
    assert pts[0..] == pts;
    if pts != [] {
      SideLeft(pts, eps, 0, p.x);
    }
    SideLeft(lower, eps, ls, p.x);
    UpperRaised(upper, UpSide(pts + [p], eps), eps, us, m, l1, l2, q);
    LowerRaised(LoSide(lower[ls..], eps), LoSide(pts, eps), l1, l2, Through(Up(upper[m], eps), q), end - ls, q);
    SideAppend(pts, p, eps);
    SideTrimmed(lower, eps, ls, end, p);
  }

  /** The upper chain of the halfway state lies left of the new point, except for the point itself. */
  lemma HalfwayUpper(eps: nat, pts: seq<Point>, p: Point, upper: seq<Point>, us: nat)
    requires Increasing(pts + [p]) && Members(upper, pts + [p]) && us < |upper|
    ensures forall i :: 0 <= i < |upper| ==> upper[i].x < p.x || upper[i] == p
    ensures SeenFrom(UpSide(upper[us..], eps), Flip(Lo(p, eps)))
  {
    forall i | 0 <= i < |upper| ensures upper[i].x < p.x || upper[i] == p {
      var k :| 0 <= k < |pts| + 1 && (pts + [p])[k] == upper[i];
      assert (pts + [p])[|pts|] == p;
    }
  }

  lemma SecondTaken(eps: nat, pts: seq<Point>, p: Point, lower: seq<Point>, ls: nat, end: nat, upper: seq<Point>,
                    us: nat, m: nat, r: Rectangle)
    requires Halfway(eps, pts, p, lower, ls, upper, us, r)
    requires At(Flattest(r), p.x) < Lo(p, eps).y as real
    requires us <= m < |upper| && upper[m].x < p.x
    requires Tangent(UpSide(upper[us..], eps), m - us, Flip(Lo(p, eps)))
    requires ls + 1 <= end <= |lower|
    requires Keeps(LoSide(lower[ls..], eps), end - ls, Lo(p, eps))
    requires Concave(LoSide(lower[ls..], eps)[..end - ls] + [Lo(p, eps)])
    ensures Chains(eps, pts + [p], lower[..end] + [p], ls, upper, m, r.(p0 := Up(upper[m], eps), p2 := Lo(p, eps)))
  {
    hide Tangent, Concave, Keeps, At, Through, Side, Below, SeenFrom;
    ChainEnds(pts, lower, p);
    ChainEnds(pts, pts, p);
    HalfwayUpper(eps, pts, p, upper, us);
    TrimIncreasing(lower, end, p);
    SecondSides(eps, pts, p, lower, ls, end, upper, us, m, Flattest(r), Steepest(r));
  }

  /** With a tolerance of zero the extreme lines pass through the same two points. */
  lemma ExactLinesMeet(pts: seq<Point>, h: seq<Point>, g: seq<Point>, l1: Line, l2: Line, x: int)
    requires |pts| >= 2 && Increasing(pts)
    requires Side(h, LoSide(pts, 0), l1, l2) && Side(g, UpSide(pts, 0), FlipLine(l2), FlipLine(l1))
    ensures At(l1, x) == At(l2, x)
  {
    forall i | 0 <= i < |pts| ensures At(l1, pts[i].x) == At(l2, pts[i].x) {
      FlipAt(l1, pts[i].x);
      FlipAt(l2, pts[i].x);
      assert Above(l1, LoSide(pts, 0)[i]) && Above(l2, LoSide(pts, 0)[i]);
      assert Above(FlipLine(l1), UpSide(pts, 0)[i]) && Above(FlipLine(l2), UpSide(pts, 0)[i]);
    }
    if l1.a < l2.a {
      StrictDrift(l1, l2, pts[0].x, pts[1].x);
    } else if x <= pts[0].x {
      Drift(l1, l2, x, pts[0].x);
      Drift(l2, l1, x, pts[0].x);
    } else {
      Drift(l1, l2, pts[0].x, x);
      Drift(l2, l1, pts[0].x, x);
    }
  }

  // ---- What the state means

  lemma TwoPoints(eps: nat, a: Point, b: Point)
    requires a.x < b.x
    ensures Chains(eps, [a, b], [a, b], 0, [a, b], 0, Rectangle(Up(a, eps), Lo(a, eps), Lo(b, eps), Up(b, eps)))
  {
    var r, pts := Rectangle(Up(a, eps), Lo(a, eps), Lo(b, eps), Up(b, eps)), [a, b];
    ThroughHits(r.p0, r.p2);
    ThroughHits(r.p1, r.p3);
    var l1, l2 := Flattest(r), Steepest(r);
    SlopeBound(l2, r.p0, r.p2);
    forall x ensures At(FlipLine(l1), x) == -At(l1, x) && At(FlipLine(l2), x) == -At(l2, x) {
      FlipAt(l1, x);
      FlipAt(l2, x);
    }
    hide At, Through;
    assert pts[0..] == pts;
    PairConcave(LoSide(pts, eps));
    PairConcave(UpSide(pts, eps));
    var lo, up := LoSide(pts, eps), UpSide(pts, eps);
    assert AllAbove(l1, lo) && AllAbove(l2, lo) && AllAbove(FlipLine(l1), up) && AllAbove(FlipLine(l2), up);
    assert Side(lo, lo, l1, l2) && Side(up, up, FlipLine(l2), FlipLine(l1));
  }

  /** Soundness: both extreme lines pass within `eps` of every accepted point. */
  lemma ExtremesFit(eps: nat, pts: seq<Point>, lower: seq<Point>, ls: nat, upper: seq<Point>, us: nat, r: Rectangle)
    requires Chains(eps, pts, lower, ls, upper, us, r)
    ensures FitsLine(Flattest(r), pts, eps) && FitsLine(Steepest(r), pts, eps)
  {
    hide At, Through;
    forall i | 0 <= i < |pts|
      ensures Within(Flattest(r), pts[i], eps) && Within(Steepest(r), pts[i], eps)
    {
      assert Above(Flattest(r), LoSide(pts, eps)[i]) && Above(Steepest(r), LoSide(pts, eps)[i]);
      assert Above(FlipLine(Flattest(r)), UpSide(pts, eps)[i]) && Above(FlipLine(Steepest(r)), UpSide(pts, eps)[i]);
      FlipAt(Flattest(r), pts[i].x);
      FlipAt(Steepest(r), pts[i].x);
    }
  }

  lemma MemberFits(l: Line, pts: seq<Point>, eps: nat, p: Point)
    requires FitsLine(l, pts, eps) && p in pts
    ensures Within(l, p, eps)
  {
    var i :| 0 <= i < |pts| && pts[i] == p;
  }

  /** Every line that fits has a slope between the extremes, and lies outside them beyond their corners. */
  lemma Extremal(eps: nat, pts: seq<Point>, lower: seq<Point>, ls: nat, upper: seq<Point>, us: nat, r: Rectangle,
                 l: Line, x: int)
    requires Chains(eps, pts, lower, ls, upper, us, r)
    requires FitsLine(l, pts, eps) && pts[|pts| - 1].x <= x
    ensures Flattest(r).a <= l.a <= Steepest(r).a
    ensures At(Flattest(r), x) <= At(l, x) <= At(Steepest(r), x)
  {
    hide At, Through;
    MemberFits(l, pts, eps, upper[us]);
    MemberFits(l, pts, eps, upper[|upper| - 1]);
    MemberFits(l, pts, eps, lower[ls]);
    MemberFits(l, pts, eps, lower[|lower| - 1]);
    SlopeBound(l, r.p0, r.p2);
    SlopeBound(l, r.p1, r.p3);
    ThroughHits(r.p0, r.p2);
    ThroughHits(r.p1, r.p3);
    MembersLeft(pts, lower);
    MembersLeft(pts, upper);
    Drift(Flattest(r), l, r.p2.x, x);
    Drift(l, Steepest(r), r.p3.x, x);
  }

  lemma MembersLeft(pts: seq<Point>, h: seq<Point>)
    requires Increasing(pts) && Members(h, pts)
    ensures forall i :: 0 <= i < |h| ==> h[i].x <= pts[|pts| - 1].x
  {
    forall i | 0 <= i < |h| ensures h[i].x <= pts[|pts| - 1].x {
      var k :| 0 <= k < |pts| && pts[k] == h[i];
    }
  }

  /** Optimality: a point outside the extreme lines is outside every line that fits. */
  lemma Rejected(eps: nat, pts: seq<Point>, lower: seq<Point>, ls: nat, upper: seq<Point>, us: nat, r: Rectangle,
                 p: Point)
    requires Chains(eps, pts, lower, ls, upper, us, r) && Increasing(pts + [p])
    requires Up(p, eps).y as real < At(Flattest(r), p.x) || Lo(p, eps).y as real > At(Steepest(r), p.x)
    ensures !Fits(pts + [p], eps)
  {
    hide At, Through;
    forall l: Line ensures !FitsLine(l, pts + [p], eps) {
      if FitsLine(l, pts + [p], eps) {
        assert (pts + [p])[|pts|] == p && (pts + [p])[|pts| - 1] == pts[|pts| - 1];
        assert Within(l, p, eps);
        assert FitsLine(l, pts, eps) by {
          forall i | 0 <= i < |pts| ensures Within(l, pts[i], eps) {
            assert (pts + [p])[i] == pts[i];
          }
        }
        Extremal(eps, pts, lower, ls, upper, us, r, l, p.x);
        assert false;
      }
    }
  }

  /** Every line that fits the points has a slope between those of the rectangle's lines. */
  ghost predicate Extreme(r: Rectangle, pts: seq<Point>, eps: nat)
    requires r.p0.x < r.p2.x && r.p1.x < r.p3.x
  {
    forall l: Line :: FitsLine(l, pts, eps) ==> Flattest(r).a <= l.a <= Steepest(r).a
  }

  /** What the rectangle says about the points it was fitted to. */
  ghost predicate Fitted(eps: nat, pts: seq<Point>, r: Rectangle) {
    && pts != []
    && (|pts| == 1 ==> r.p0 == Up(pts[0], eps) && r.p1 == Lo(pts[0], eps))
    && (|pts| >= 2 ==>
          && r.p0.x < r.p2.x && r.p1.x < r.p3.x
          && FitsLine(Flattest(r), pts, eps) && FitsLine(Steepest(r), pts, eps) && Extreme(r, pts, eps)
          && (exists i, j :: 0 <= i < |pts| && 0 <= j < |pts| && r.p1 == Lo(pts[i], eps) && r.p3 == Up(pts[j], eps))
          && (exists i, j :: 0 <= i < |pts| && 0 <= j < |pts| && r.p0 == Up(pts[i], eps) && r.p2 == Lo(pts[j], eps)))
  }

  lemma ChainsFitted(eps: nat, pts: seq<Point>, lower: seq<Point>, ls: nat, upper: seq<Point>, us: nat, r: Rectangle)
    requires Chains(eps, pts, lower, ls, upper, us, r)
    ensures Fitted(eps, pts, r)
    ensures Fits(pts, eps)
  {
    hide At, Through, Side;
    ExtremesFit(eps, pts, lower, ls, upper, us, r);
    var i :| 0 <= i < |pts| && pts[i] == lower[ls];
    var j :| 0 <= j < |pts| && pts[j] == upper[|upper| - 1];
    var i' :| 0 <= i' < |pts| && pts[i'] == upper[us];
    var j' :| 0 <= j' < |pts| && pts[j'] == lower[|lower| - 1];
    assert r.p1 == Lo(pts[i], eps) && r.p3 == Up(pts[j], eps);
    assert r.p0 == Up(pts[i'], eps) && r.p2 == Lo(pts[j'], eps);
    forall l: Line | FitsLine(l, pts, eps) ensures Flattest(r).a <= l.a <= Steepest(r).a {
      Extremal(eps, pts, lower, ls, upper, us, r, l, pts[|pts| - 1].x);
    }
  }

  /** The integer tests of add_point, read as positions of the new point against the extreme lines. */
  lemma Tests(eps: nat, pts: seq<Point>, lower: seq<Point>, ls: nat, upper: seq<Point>, us: nat, r: Rectangle, p: Point)
    requires Chains(eps, pts, lower, ls, upper, us, r) && Increasing(pts + [p])
    ensures r.p0.x < r.p2.x && r.p1.x < r.p3.x
    ensures Less(Minus(Up(p, eps), r.p2), Minus(r.p2, r.p0)) <==> Up(p, eps).y as real < At(Flattest(r), p.x)
    ensures Greater(Minus(Lo(p, eps), r.p3), Minus(r.p3, r.p1)) <==> Lo(p, eps).y as real > At(Steepest(r), p.x)
    ensures Less(Minus(Up(p, eps), r.p1), Minus(r.p3, r.p1)) <==> Up(p, eps).y as real < At(Steepest(r), p.x)
    ensures Greater(Minus(Lo(p, eps), r.p0), Minus(r.p2, r.p0)) <==> Lo(p, eps).y as real > At(Flattest(r), p.x)
  {
    hide Side, At, Through, Less, Greater;
    ChainEnds(pts, lower, p);
    ChainEnds(pts, upper, p);
    SideOfLine(r.p0, r.p2, r.p2, Up(p, eps));
    SideOfLine(r.p1, r.p3, r.p3, Lo(p, eps));
    SideOfLine(r.p1, r.p3, r.p1, Up(p, eps));
    SideOfLine(r.p0, r.p2, r.p0, Lo(p, eps));
  }

  lemma FirstReady(eps: nat, pts: seq<Point>, lower: seq<Point>, ls: nat, upper: seq<Point>, us: nat, r: Rectangle,
                   p: Point)
    requires Chains(eps, pts, lower, ls, upper, us, r) && Increasing(pts + [p])
    ensures ls < |lower| && Increasing(lower) && lower[|lower| - 1].x < p.x && Concave(LoSide(lower[ls..], eps))
    ensures us < |upper| && Increasing(upper) && upper[|upper| - 1].x < p.x && Concave(UpSide(upper[us..], eps))
  {
    hide At, Through;
    ChainEnds(pts, lower, p);
    ChainEnds(pts, upper, p);
  }

  lemma SecondReady(eps: nat, pts: seq<Point>, p: Point, lower: seq<Point>, ls: nat, upper: seq<Point>, us: nat,
                    r: Rectangle)
    requires Halfway(eps, pts, p, lower, ls, upper, us, r)
    ensures ls < |lower| && Increasing(lower) && lower[|lower| - 1].x < p.x && Concave(LoSide(lower[ls..], eps))
    ensures us < |upper| && Increasing(upper) && upper[us].x < p.x && upper[|upper| - 1].x <= p.x
    ensures upper[|upper| - 1].x == p.x ==> Up(upper[|upper| - 1], eps).y > Lo(p, eps).y
    ensures Concave(UpSide(upper[us..], eps))
    ensures r.p0.x < r.p2.x && r.p1.x < r.p3.x
  {
    hide At, Through;
    HalfwayUpper(eps, pts, p, upper, us);
  }

  lemma ChainsIncrease(eps: nat, pts: seq<Point>, lower: seq<Point>, ls: nat, upper: seq<Point>, us: nat, r: Rectangle,
                       p: Point)
    requires Chains(eps, pts, lower, ls, upper, us, r) && pts[|pts| - 1].x < p.x
    ensures Increasing(pts + [p])
  {
  }

  /** Integer division as the source's language does it, toward zero. */
  function HalfTowardZero(n: int): int {
    if n >= 0 then n / 2 else -((-n) / 2)
  }

  /** How many steps of `s` lead to the line along `t` that starts at offset `e`. */
  function CrossingParameter(s: Slope, t: Slope, e: Slope): real
    requires !SameSlope(s, t)
  {
    var a := s.dx * t.dy - s.dy * t.dx;
    (e.dx * t.dy - e.dy * t.dx) as real / a as real
  }

  /** A fitted segment: the rectangle of feasible lines and the first abscissa. */
  datatype CanonicalSegment = CanonicalSegment(rectangle: Rectangle, first: int) {

    predicate OnePoint() {
      rectangle.p0 == rectangle.p2 && rectangle.p1 == rectangle.p3
    }

    /** Usable as a segment: a single point, or two lines that are not vertical. */
    predicate Proper() {
      OnePoint() || (rectangle.p0.x < rectangle.p2.x && rectangle.p1.x < rectangle.p3.x)
    }

    /** Where the two extreme lines cross. */
    function GetIntersection(): (real, real) {
      var p0, p1 := rectangle.p0, rectangle.p1;
      var slope1 := Minus(rectangle.p2, p0);
      var slope2 := Minus(rectangle.p3, p1);
      if OnePoint() || SameSlope(slope1, slope2) then
        (p0.x as real, p0.y as real)
      else
        var b := CrossingParameter(slope1, slope2, Minus(p1, p0));
        (p0.x as real + b * slope1.dx as real, p0.y as real + b * slope1.dy as real)
    }

    function GetSlopeRange(): (real, real)
      requires Proper()
    {
      if OnePoint() then (0.0, 1.0) else (Flattest(rectangle).a, Steepest(rectangle).a)
    }

    /** Slope and intercept at `origin` of the line the index will use. */
    function GetFloatingPointSegment(origin: int): (real, real)
      requires Proper()
    {
      if OnePoint() then
        (0.0, HalfTowardZero(rectangle.p0.y + rectangle.p1.y) as real)
      else
        var i := GetIntersection();
        var range := GetSlopeRange();
        var slope := (range.0 + range.1) / 2.0;
        (slope, i.1 - (i.0 - origin as real) * slope)
    }
  }

  /** The line a slope and an intercept at `origin` stand for. */
  function LineFrom(slope: real, intercept: real, origin: int): Line {
    Line(slope, intercept - slope * origin as real)
  }

  lemma CrossPointAlgebra(dx1: real, dy1: real, dx2: real, dy2: real, ex: real, ey: real, b: real)
    requires b * (dx1 * dy2 - dy1 * dx2) == ex * dy2 - ey * dx2
    ensures (b * dx1 - ex) * dy2 == (b * dy1 - ey) * dx2
  {
    assert b * (dx1 * dy2 - dy1 * dx2) == b * (dx1 * dy2) - b * (dy1 * dx2);
    assert (b * dx1 - ex) * dy2 == b * (dx1 * dy2) - ex * dy2;
    assert (b * dy1 - ey) * dx2 == b * (dy1 * dx2) - ey * dx2;
  }

  /** The extreme lines both pass through the computed intersection. */
  lemma IntersectionOnBoth(s: CanonicalSegment)
    requires s.Proper() && !s.OnePoint()
    requires !SameSlope(Minus(s.rectangle.p2, s.rectangle.p0), Minus(s.rectangle.p3, s.rectangle.p1))
    ensures var i, l1, l2 := s.GetIntersection(), Flattest(s.rectangle), Steepest(s.rectangle);
            i.1 == l1.a * i.0 + l1.b && i.1 == l2.a * i.0 + l2.b
  {
    hide SameSlope, CrossingParameter;
    var r, i := s.rectangle, s.GetIntersection();
    var s1, s2, e := Minus(r.p2, r.p0), Minus(r.p3, r.p1), Minus(r.p1, r.p0);
    var b := CrossingParameter(s1, s2, e);
    SolvesCross(s1, s2, e);
    var u, v := b * s1.dx as real, b * s1.dy as real;
    IntersectionAt(s, s1, s2, e, b);
    OnLine(r.p0, s1, u, v, b);
    OnLineSlope(r.p1, s2, u - e.dx as real, v - e.dy as real);
  }

  lemma IntersectionAt(s: CanonicalSegment, s1: Slope, s2: Slope, e: Slope, b: real)
    requires !s.OnePoint() && !SameSlope(s1, s2)
    requires s1 == Minus(s.rectangle.p2, s.rectangle.p0) && s2 == Minus(s.rectangle.p3, s.rectangle.p1)
    requires e == Minus(s.rectangle.p1, s.rectangle.p0) && b == CrossingParameter(s1, s2, e)
    ensures s.GetIntersection().0 == s.rectangle.p0.x as real + b * s1.dx as real
    ensures s.GetIntersection().1 == s.rectangle.p0.y as real + b * s1.dy as real
  {
  }

  lemma SolvesCross(s1: Slope, s2: Slope, e: Slope)
    requires !SameSlope(s1, s2)
    ensures var b := CrossingParameter(s1, s2, e);
            (b * s1.dx as real - e.dx as real) * s2.dy as real == (b * s1.dy as real - e.dy as real) * s2.dx as real
  {
    var b := CrossingParameter(s1, s2, e);
    var det, num := s1.dx * s2.dy - s1.dy * s2.dx, e.dx * s2.dy - e.dy * s2.dx;
    DivideBack(num as real, det as real);
    ProductDifference(s1.dx, s2.dy, s1.dy, s2.dx);
    ProductDifference(e.dx, s2.dy, e.dy, s2.dx);
    CrossPointAlgebra(s1.dx as real, s1.dy as real, s2.dx as real, s2.dy as real, e.dx as real, e.dy as real, b);
  }

  lemma DivideBack(n: real, d: real)
    requires d != 0.0
    ensures (n / d) * d == n
  {
  }

  lemma ProductDifference(a: int, b: int, c: int, d: int)
    ensures (a * b - c * d) as real == a as real * b as real - c as real * d as real
  {
  }

  lemma OnLine(p: Point, s: Slope, u: real, v: real, b: real)
    requires s.dx > 0 && u == b * s.dx as real && v == b * s.dy as real
    ensures var a := s.dy as real / s.dx as real;
            p.y as real + v == a * (p.x as real + u) + (p.y as real - a * p.x as real)
  {
    var a, d := s.dy as real / s.dx as real, s.dx as real;
    assert a * d == s.dy as real;
    assert a * (b * d) == b * (a * d);
    assert a * (p.x as real + u) == a * p.x as real + a * u;
  }

  lemma OnLineSlope(p: Point, s: Slope, u: real, v: real)
    requires s.dx > 0 && u * s.dy as real == v * s.dx as real
    ensures var a := s.dy as real / s.dx as real;
            p.y as real + v == a * (p.x as real + u) + (p.y as real - a * p.x as real)
  {
    var a, d := s.dy as real / s.dx as real, s.dx as real;
    assert a * d == s.dy as real;
    assert (a * u) * d == u * (a * d);
    CancelReal(a * u, v, d);
    assert a * (p.x as real + u) == a * p.x as real + a * u;
  }

  lemma CancelReal(x: real, y: real, d: real)
    requires d > 0.0 && x * d == y * d
    ensures x == y
  {
    assert x * d / d == x && y * d / d == y;
  }

  /** The line handed to the index is the mean of the two extreme lines. */
  lemma SegmentIsMean(s: CanonicalSegment, origin: int)
    requires s.Proper() && !s.OnePoint()
    requires !SameSlope(Minus(s.rectangle.p2, s.rectangle.p0), Minus(s.rectangle.p3, s.rectangle.p1))
    ensures var f := s.GetFloatingPointSegment(origin);
            LineFrom(f.0, f.1, origin) == Mix(Flattest(s.rectangle), Steepest(s.rectangle), 0.5)
  {
    var l1, l2, i := Flattest(s.rectangle), Steepest(s.rectangle), s.GetIntersection();
    IntersectionOnBoth(s);
    hide Flattest, Steepest;
    var slope := (l1.a + l2.a) / 2.0;
    MeanAlgebra(l1.a, l1.b, l2.a, l2.b, i.0, i.1, slope, origin as real);
  }

  lemma MeanAlgebra(a1: real, b1: real, a2: real, b2: real, x: real, y: real, s: real, o: real)
    requires y == a1 * x + b1 && y == a2 * x + b2 && s == (a1 + a2) / 2.0
    ensures y - (x - o) * s - s * o == b1 + 0.5 * (b2 - b1)
  {
    assert (x - o) * s == x * s - o * s;
    assert x * s == (a1 * x + a2 * x) / 2.0;
  }

  /** `s` was read off the fit of `pts`. */
  ghost predicate IsSegment(s: CanonicalSegment, eps: nat, pts: seq<Point>) {
    && pts != [] && s.first == pts[0].x
    && (|pts| == 1 ==>
          s.rectangle == Rectangle(Up(pts[0], eps), Lo(pts[0], eps), Up(pts[0], eps), Lo(pts[0], eps)))
    && (|pts| >= 2 ==> Fitted(eps, pts, s.rectangle))
  }

  /** Whatever origin the caller picks, the segment read from a fitted rectangle passes within `eps` of every
      point the rectangle was fitted to. */
  lemma SegmentFits(eps: nat, pts: seq<Point>, s: CanonicalSegment, origin: int)
    requires |pts| >= 2 && Fitted(eps, pts, s.rectangle)
    ensures s.Proper() && !s.OnePoint()
    ensures var f := s.GetFloatingPointSegment(origin); FitsLine(LineFrom(f.0, f.1, origin), pts, eps)
  {
    var r, f := s.rectangle, s.GetFloatingPointSegment(origin);
    var l, l1, l2 := LineFrom(f.0, f.1, origin), Flattest(r), Steepest(r);
    if SameSlope(Minus(r.p2, r.p0), Minus(r.p3, r.p1)) {
      SameSlopeSegment(s, origin);
    } else {
      SegmentIsMean(s, origin);
      forall i | 0 <= i < |pts| ensures Within(l, pts[i], eps) {
        assert Within(l1, pts[i], eps) && Within(l2, pts[i], eps);
        MixAt(l1, l2, 0.5, pts[i].x);
      }
    }
  }

  lemma SameSlopeSegment(s: CanonicalSegment, origin: int)
    requires s.Proper() && !s.OnePoint()
    requires SameSlope(Minus(s.rectangle.p2, s.rectangle.p0), Minus(s.rectangle.p3, s.rectangle.p1))
    ensures var f := s.GetFloatingPointSegment(origin); LineFrom(f.0, f.1, origin) == Flattest(s.rectangle)
  {
    var r := s.rectangle;
    var s1, s2 := Minus(r.p2, r.p0), Minus(r.p3, r.p1);
    FractionLess(s1.dy, s1.dx, s2.dy, s2.dx);
    FractionLess(s2.dy, s2.dx, s1.dy, s1.dx);
    var a := Flattest(r).a;
    assert Steepest(r).a == a;
    assert (a + a) / 2.0 == a;
    assert (r.p0.x as real - origin as real) * a == r.p0.x as real * a - origin as real * a;
  }

  lemma OnePointSegment(eps: nat, pts: seq<Point>, s: CanonicalSegment, origin: int)
    requires |pts| == 1
    requires s.rectangle == Rectangle(Up(pts[0], eps), Lo(pts[0], eps), Up(pts[0], eps), Lo(pts[0], eps))
    ensures s.OnePoint()
    ensures s.GetFloatingPointSegment(origin) == (0.0, pts[0].y as real)
    ensures FitsLine(LineFrom(0.0, pts[0].y as real, origin), pts, eps)
  {
    assert (-(2 * pts[0].y)) / 2 == -pts[0].y;
    assert LineFrom(0.0, pts[0].y as real, origin) == Line(0.0, pts[0].y as real);
  }

  /** Ordinates that grow make the slope of the segment positive. */
  lemma SegmentClimbs(eps: nat, pts: seq<Point>, s: CanonicalSegment, origin: int)
    requires |pts| >= 2 && Fitted(eps, pts, s.rectangle) && Increasing(pts)
    requires forall i, j :: 0 <= i < j < |pts| ==> pts[i].y < pts[j].y
    ensures s.Proper() && s.GetFloatingPointSegment(origin).0 > 0.0
  {
    hide At, Through;
    var r := s.rectangle;
    var i, j :| 0 <= i < |pts| && 0 <= j < |pts| && r.p1 == Lo(pts[i], eps) && r.p3 == Up(pts[j], eps);
    assert i < j;
    assert Within(Flattest(r), pts[i], eps) && Within(Flattest(r), pts[j], eps);
    SlopeBound(Flattest(r), Up(pts[i], eps), Lo(pts[j], eps));
    ThroughSlope(Up(pts[i], eps), Lo(pts[j], eps));
    ThroughSlope(Lo(pts[i], eps), Up(pts[j], eps));
    MeanPositive((pts[j].y - eps - pts[i].y - eps) as real, (pts[j].y + eps - pts[i].y + eps) as real,
                 (pts[j].x - pts[i].x) as real, Flattest(r).a, Steepest(r).a);
  }

  lemma ThroughSlope(p: Point, q: Point)
    requires p.x < q.x
    ensures Through(p, q).a == (q.y - p.y) as real / (q.x - p.x) as real
  {
  }

  lemma MeanPositive(lo: real, up: real, d: real, s1: real, s2: real)
    requires d > 0.0 && lo + up > 0.0 && s1 >= lo / d && s2 == up / d
    ensures s1 + s2 > 0.0
  {
    assert lo / d + up / d == (lo + up) / d;
  }

  /** Fits the points it is given, in order of increasing abscissa, until one cannot join the others. */
  class OptimalPiecewiseLinearModel {
    const epsilon: nat
    var lower: seq<Point>
    var upper: seq<Point>
    var firstX: int
    var lastX: int
    var lowerStart: nat
    var upperStart: nat
    var pointsInHull: nat
    var rectangle: Rectangle
    /** The points of the segment being fitted, or of the segment just closed. */
    ghost var accepted: seq<Point>

    ghost predicate Valid()
      reads this
    {
      && (pointsInHull == 0 ==> accepted == [] || |accepted| >= 2)
      && (pointsInHull > 0 ==> pointsInHull == |accepted| && lastX == accepted[|accepted| - 1].x)
      && (accepted != [] ==> Fitted(epsilon, accepted, rectangle) && firstX == accepted[0].x)
      && (pointsInHull == 1 ==>
            lower == accepted && upper == accepted && lowerStart == 0 && upperStart == 0)
      && (pointsInHull >= 2 ==> Chains(epsilon, accepted, lower, lowerStart, upper, upperStart, rectangle))
    }

    constructor (epsilon: nat)
      ensures Valid() && accepted == [] && pointsInHull == 0 && this.epsilon == epsilon
    {
      this.epsilon := epsilon;
      lower, upper, firstX, lastX, lowerStart, upperStart, pointsInHull := [], [], 0, 0, 0, 0, 0;
      rectangle := Rectangle(Point(0, 0), Point(0, 0), Point(0, 0), Point(0, 0));
      accepted := [];
    }

    /** Accepts `(x, y)` exactly when some line passes within epsilon of it and of every point of the segment;
        otherwise the segment is closed and the next call starts another. */
    method AddPoint(x: int, y: int) returns (r: Result<bool, FitError>)
      requires Valid()
      modifies this
      ensures Valid()
      ensures r.Failure? <==> old(pointsInHull) > 0 && x <= old(lastX)
      ensures r.Failure? ==> unchanged(this)
      ensures r.Success? && old(pointsInHull) == 0 ==> r.value && accepted == [Point(x, y)]
      ensures r.Success? && old(pointsInHull) > 0 ==> (r.value <==> Fits(old(accepted) + [Point(x, y)], epsilon))
      ensures r.Success? && old(pointsInHull) > 0 && r.value ==> accepted == old(accepted) + [Point(x, y)]
      ensures r.Success? ==> lastX == x
      ensures r.Success? && r.value ==> pointsInHull == |accepted|
      ensures r.Success? && !r.value ==> pointsInHull == 0 && accepted == old(accepted) && rectangle == old(rectangle)
    {
      hide Chains, Halfway, Fitted, Fits, At, Less, Greater, Concave, Keeps, Tangent, Increasing, LoSide, UpSide;
      if pointsInHull > 0 && x <= lastX {
        return Failure(PointsMustIncrease);
      }
      lastX := x;
      var p := Point(x, y);
      var p1, p2 := Up(p, epsilon), Lo(p, epsilon);
      if pointsInHull == 0 {
        firstX := x;
        rectangle := rectangle.(p0 := p1, p1 := p2);
        upper, lower := [p], [p];
        upperStart, lowerStart := 0, 0;
        pointsInHull := pointsInHull + 1;
        accepted := [p];
        OneFitted(epsilon, p, rectangle);
        return Success(true);
      }
      ghost var pts := accepted;
      if pointsInHull == 1 {
        rectangle := rectangle.(p2 := p2, p3 := p1);
        upper, lower := upper + [p], lower + [p];
        pointsInHull := pointsInHull + 1;
        accepted := accepted + [p];
        assert accepted == [pts[0], p];
        assert pts == [pts[0]];
        OneFits(epsilon, pts[0], old(rectangle));
        TwoPoints(epsilon, pts[0], p);
        ChainsFitted(epsilon, accepted, lower, lowerStart, upper, upperStart, rectangle);
        return Success(true);
      }
      ghost var r0 := rectangle;
      ChainsIncrease(epsilon, pts, lower, lowerStart, upper, upperStart, r0, p);
      Tests(epsilon, pts, lower, lowerStart, upper, upperStart, r0, p);
      FirstReady(epsilon, pts, lower, lowerStart, upper, upperStart, r0, p);

      var slope1 := Minus(rectangle.p2, rectangle.p0);
      var slope2 := Minus(rectangle.p3, rectangle.p1);
      var outside1 := Less(Minus(p1, rectangle.p2), slope1);
      var outside2 := Greater(Minus(p2, rectangle.p3), slope2);
      if outside1 || outside2 {
        pointsInHull := 0;
        Rejected(epsilon, pts, lower, lowerStart, upper, upperStart, r0, p);
        return Success(false);
      }
      if Less(Minus(p1, rectangle.p1), slope2) {
        TurnSteepest(p);
      } else {
        FirstSkipped(epsilon, pts, p, lower, lowerStart, upper, upperStart, r0);
      }
      ghost var r1 := rectangle;
      assert Flattest(r1) == Flattest(r0);
      if Greater(Minus(p2, rectangle.p0), slope1) {
        TurnFlattest(p);
      } else {
        SecondSkipped(epsilon, pts, p, lower, lowerStart, upper, upperStart, r1);
      }
      pointsInHull := pointsInHull + 1;
      accepted := accepted + [p];
      ChainsFitted(epsilon, accepted, lower, lowerStart, upper, upperStart, rectangle);
      return Success(true);
    }

    /** The segment fitted to the points accepted since the last rejection, or up to it. */
    method GetSegment() returns (s: CanonicalSegment)
      requires Valid() && accepted != []
      ensures s.first == accepted[0].x
      ensures IsSegment(s, epsilon, accepted)
    {
      if pointsInHull == 1 {
        s := CanonicalSegment(Rectangle(rectangle.p0, rectangle.p1, rectangle.p0, rectangle.p1), firstX);
      } else {
        s := CanonicalSegment(rectangle, firstX);
      }
    }

    /** The new upper bound cuts the steepest line down. */
    method TurnSteepest(p: Point)
      requires Chains(epsilon, accepted, lower, lowerStart, upper, upperStart, rectangle) && Increasing(accepted + [p])
      requires Up(p, epsilon).y as real < At(Steepest(rectangle), p.x)
      requires At(Flattest(rectangle), p.x) <= Up(p, epsilon).y as real
      modifies this`lower, this`upper, this`lowerStart, this`rectangle
      ensures Halfway(epsilon, accepted, p, lower, lowerStart, upper, upperStart, rectangle)
      ensures rectangle.p0 == old(rectangle.p0) && rectangle.p2 == old(rectangle.p2)
    {
      hide Chains, Halfway, At, Concave, Keeps, Tangent, Increasing, LoSide, UpSide;
      ghost var ls, r := lowerStart, rectangle;
      var p1 := Up(p, epsilon);
      FirstReady(epsilon, accepted, lower, lowerStart, upper, upperStart, rectangle, p);
      var m := ScanLower(lower, epsilon, lowerStart, p1);
      rectangle := rectangle.(p1 := Lo(lower[m], epsilon), p3 := p1);
      lowerStart := m;
      var end := TrimUpper(upper, epsilon, upperStart, p1);
      FirstTaken(epsilon, accepted, p, lower, ls, m, upper, upperStart, end, r);
      upper := upper[..end] + [p];
    }

    /** The new lower bound lifts the flattest line. */
    method TurnFlattest(p: Point)
      requires Halfway(epsilon, accepted, p, lower, lowerStart, upper, upperStart, rectangle)
      requires At(Flattest(rectangle), p.x) < Lo(p, epsilon).y as real
      modifies this`lower, this`upper, this`upperStart, this`rectangle
      ensures Chains(epsilon, accepted + [p], lower, lowerStart, upper, upperStart, rectangle)
    {
      hide Chains, Halfway, At, Concave, Keeps, Tangent, Increasing, LoSide, UpSide;
      ghost var us, r := upperStart, rectangle;
      var p2 := Lo(p, epsilon);
      SecondReady(epsilon, accepted, p, lower, lowerStart, upper, upperStart, rectangle);
      var m := ScanUpper(upper, epsilon, upperStart, p2);
      rectangle := rectangle.(p0 := Up(upper[m], epsilon), p2 := p2);
      upperStart := m;
      var end := TrimLower(lower, epsilon, lowerStart, p2);
      SecondTaken(epsilon, accepted, p, lower, lowerStart, end, upper, us, m, r);
      lower := lower[..end] + [p];
    }
  }

  lemma OneFitted(eps: nat, p: Point, r: Rectangle)
    requires r.p0 == Up(p, eps) && r.p1 == Lo(p, eps)
    ensures Fitted(eps, [p], r)
  {
  }

  lemma OneFits(eps: nat, p: Point, r: Rectangle)
    requires Fitted(eps, [p], r)
    ensures r.p0 == Up(p, eps) && r.p1 == Lo(p, eps)
  {
    assert [p][0] == p;
  }
}
