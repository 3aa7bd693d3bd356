/** Chains of points that stand in for all the points seen so far.

    Everything here is about the lower side (points a line must pass over); the upper side is its mirror image
    under `Flip`. */
module Hulls {
  import opened Geometry

  ghost predicate Increasing(h: seq<Point>) {
    forall i, j :: 0 <= i < j < |h| ==> h[i].x < h[j].x
  }

  /** Every step of the chain turns right. */
  ghost predicate Concave(h: seq<Point>) {
    forall i: nat :: i + 2 < |h| ==> TurnsRight(h, i)
  }

  ghost predicate TurnsRight(h: seq<Point>, i: nat)
    requires i + 2 < |h|
  {
    Cross(h[i], h[i + 1], h[i + 2]) < 0
  }

  ghost predicate AllAbove(l: Line, h: seq<Point>) {
    forall i :: 0 <= i < |h| ==> Above(l, h[i])
  }

  /** Among lines with slope in `[lo, hi]`, those that pass over the chain `h` pass over all of `s`. */
  ghost predicate Covers(h: seq<Point>, s: seq<Point>, lo: real, hi: real) {
    forall l: Line :: lo <= l.a <= hi && AllAbove(l, h) ==> AllAbove(l, s)
  }

  /** Every line over `g` is over `h`. */
  ghost predicate Dominates(g: seq<Point>, h: seq<Point>) {
    forall l: Line :: AllAbove(l, g) ==> AllAbove(l, h)
  }

  /** `h[m]` is where the sight line from `p` is least steep, among the points strictly left of `p`. */
  ghost predicate Tangent(h: seq<Point>, m: int, p: Point) {
    LeastSteep(h, |h|, m, p)
  }

  ghost predicate LeastSteep(h: seq<Point>, n: nat, m: int, p: Point)
    requires n <= |h|
  {
    0 <= m < n && h[m].x < p.x &&
    forall k {:trigger Through(h[k], p)} :: 0 <= k < n && h[k].x < p.x ==> Through(h[m], p).a <= Through(h[k], p).a
  }

  /** Points left of `p`, or straight under it. */
  ghost predicate SeenFrom(h: seq<Point>, p: Point) {
    forall k :: 0 <= k < |h| ==> h[k].x < p.x || (h[k].x == p.x && h[k].y <= p.y)
  }

  /** Once the sight lines start to climb along a chain that turns right, they climb to its end. */
  lemma {:induction false} SightClimbs(h: seq<Point>, i: nat, j: nat, p: Point)
    requires Increasing(h) && Concave(h)
    requires i + 1 <= j < |h| && h[j].x < p.x
    requires Through(h[i], p).a < Through(h[i + 1], p).a
    ensures Through(h[i], p).a < Through(h[j], p).a
    decreases j - i
  {
    if i + 1 < j {
      assert TurnsRight(h, i);
      SightTurns(h[i], h[i + 1], h[i + 2], p);
      SightClimbs(h, i + 1, j, p);
    }
  }

  /** One step of the scan for the tangent: either `i` is at least as flat as the best so far, or nothing later is. */
  lemma ScanStep(h: seq<Point>, i: nat, p: Point)
    requires Increasing(h) && Concave(h) && 1 <= i < |h| && LeastSteep(h, i, i - 1, p)
    ensures h[i].x < p.x && !Greater(Minus(h[i], p), Minus(h[i - 1], p)) ==> LeastSteep(h, i + 1, i, p)
    ensures h[i].x >= p.x || Greater(Minus(h[i], p), Minus(h[i - 1], p)) ==> Tangent(h, i - 1, p)
  {
    if h[i].x < p.x {
      LessMeans(h[i], h[i - 1], p);
    }
    if h[i].x >= p.x || Greater(Minus(h[i], p), Minus(h[i - 1], p)) {
      forall k | i <= k < |h| && h[k].x < p.x
        ensures Through(h[i - 1], p).a <= Through(h[k], p).a
      {
        assert h[i].x < p.x;
        SightClimbs(h, i - 1, k, p);
      }
    }
  }

  /** The sight line at a tangent point passes over the whole chain. */
  lemma TangentOverChain(h: seq<Point>, m: nat, p: Point)
    requires Tangent(h, m, p) && SeenFrom(h, p)
    ensures AllAbove(Through(h[m], p), h)
  {
    var t := Through(h[m], p);
    ThroughHits(h[m], p);
    forall k | 0 <= k < |h| ensures Above(t, h[k]) {
      if h[k].x < p.x {
        ThroughHits(h[k], p);
        Drift(t, Through(h[k], p), h[k].x, p.x);
      }
    }
  }

  /** Between two lines that `p` separates there is one through `p`, squeezed wherever both bound a point. */
  lemma Between(l1: Line, l2: Line, p: Point) returns (l: Line)
    requires l1.a <= l2.a && At(l1, p.x) <= p.y as real <= At(l2, p.x)
    ensures l1.a <= l.a <= l2.a && At(l, p.x) == p.y as real
    ensures forall q :: Above(l1, q) && Above(l2, q) ==> Above(l, q)
    ensures forall q :: Below(l1, q) && Below(l2, q) ==> Below(l, q)
  {
    var d := At(l2, p.x) - At(l1, p.x);
    var w := if d == 0.0 then 0.0 else (p.y as real - At(l1, p.x)) / d;
    assert w * d == p.y as real - At(l1, p.x);
    assert 0.0 <= w <= 1.0 by {
      if d > 0.0 {
        QuotientInUnit(p.y as real - At(l1, p.x), d);
      }
    }
    l := Mix(l1, l2, w);
    MixAt(l1, l2, w, p.x);
    MixSlope(l1, l2, w);
    forall q: Point
      ensures Above(l1, q) && Above(l2, q) ==> Above(l, q)
      ensures Below(l1, q) && Below(l2, q) ==> Below(l, q)
    {
      MixAt(l1, l2, w, q.x);
    }
  }

  lemma QuotientInUnit(n: real, d: real)
    requires d > 0.0 && 0.0 <= n <= d
    ensures 0.0 <= n / d <= 1.0
  {
  }

  function Mix(l1: Line, l2: Line, w: real): Line {
    Line(l1.a + w * (l2.a - l1.a), l1.b + w * (l2.b - l1.b))
  }

  lemma MixSlope(l1: Line, l2: Line, w: real)
    requires l1.a <= l2.a && 0.0 <= w <= 1.0
    ensures l1.a <= Mix(l1, l2, w).a <= l2.a
  {
    var d := l2.a - l1.a;
    assert 0.0 <= w * d;
    assert (1.0 - w) * d >= 0.0;
    assert (1.0 - w) * d == d - w * d;
  }

  lemma MixAtValue(l1: Line, l2: Line, w: real, x: int)
    ensures At(Mix(l1, l2, w), x) == At(l1, x) + w * (At(l2, x) - At(l1, x))
  {
    MixValue(l1.a, l1.b, l2.a, l2.b, w, x as real);
  }

  lemma MixAt(l1: Line, l2: Line, w: real, x: int)
    ensures At(Mix(l1, l2, w), x) == At(l1, x) + w * (At(l2, x) - At(l1, x))
    ensures 0.0 <= w <= 1.0 && At(l1, x) <= At(l2, x) ==> At(l1, x) <= At(Mix(l1, l2, w), x) <= At(l2, x)
    ensures 0.0 <= w <= 1.0 && At(l2, x) <= At(l1, x) ==> At(l2, x) <= At(Mix(l1, l2, w), x) <= At(l1, x)
  {
    hide At, Mix;
    MixAtValue(l1, l2, w, x);
    UnitStep(At(l2, x) - At(l1, x), w);
  }

  lemma MixValue(a1: real, b1: real, a2: real, b2: real, w: real, r: real)
    ensures (a1 + w * (a2 - a1)) * r + (b1 + w * (b2 - b1)) == (a1 * r + b1) + w * ((a2 * r + b2) - (a1 * r + b1))
  {
    var da, db := a2 - a1, b2 - b1;
    Scale(a1, w, da, r);
    assert da * r == a2 * r - a1 * r;
    assert w * (da * r + db) == w * (da * r) + w * db;
  }

  lemma Scale(a: real, w: real, d: real, r: real)
    ensures (a + w * d) * r == a * r + w * (d * r)
  {
  }

  lemma UnitStep(d: real, w: real)
    ensures 0.0 <= w <= 1.0 && 0.0 <= d ==> 0.0 <= w * d <= d
    ensures 0.0 <= w <= 1.0 && d <= 0.0 ==> d <= w * d <= 0.0
  {
    if 0.0 <= w <= 1.0 {
      assert (1.0 - w) * d == d - w * d;
    }
  }

  /** The new extreme line. `l1` and `l2` are the flattest and the steepest line over `s`; `l2` touches the start
      of the chain, and `p` lies between them. The line `t` through the tangent point and `p` is steeper than
      `l1`, flatter than `l2`, passes over all of `s`, stays under whatever both lines are under, and the chain
      may be cut at the tangent point. */
  lemma TangentSound(h: seq<Point>, s: seq<Point>, l1: Line, l2: Line, m: nat, p: Point)
    requires Tangent(h, m, p) && SeenFrom(h, p)
    requires h[0].x < p.x && At(l2, h[0].x) == h[0].y as real
    requires l1.a <= l2.a && At(l1, p.x) <= p.y as real <= At(l2, p.x)
    requires AllAbove(l1, h) && AllAbove(l2, h) && Covers(h, s, l1.a, l2.a)
    requires Increasing(h)
    ensures l1.a <= Through(h[m], p).a <= l2.a
    ensures AllAbove(Through(h[m], p), h) && AllAbove(Through(h[m], p), s)
    ensures forall q: Point :: q.x <= p.x && Below(l1, q) && Below(l2, q) ==> Below(Through(h[m], p), q)
    ensures Covers(h[m..], s, l1.a, Through(h[m], p).a)
  {
    var t := Through(h[m], p);
    ThroughHits(h[m], p);
    TangentOverChain(h, m, p);
    SlopeBound(l2, h[0], p);
    var mid := Between(l1, l2, p);
    assert Above(mid, h[m]);
    SlopeBound(mid, h[m], p);
    assert l1.a <= t.a <= l2.a;
    forall q: Point | q.x <= p.x && Below(l1, q) && Below(l2, q) ensures Below(t, q) {
      assert Below(mid, q);
      Drift(mid, t, q.x, p.x);
    }
    forall l: Line | l1.a <= l.a <= t.a && AllAbove(l, h[m..]) ensures AllAbove(l, s) {
      forall k | 0 <= k < |h| ensures Above(l, h[k]) {
        if k < m {
          assert Above(l, h[m..][0]);
          Drift(l, t, h[k].x, h[m].x);
        } else {
          assert Above(l, h[m..][k - m]);
        }
      }
      assert AllAbove(l, h);
    }
  }

  /** Dropping the last point before `p` when it lies under the chord loses no constraint. */
  lemma PopDominates(h: seq<Point>, e: nat, p: Point)
    requires 2 <= e <= |h| && Dominates(h[..e] + [p], h)
    requires h[e - 2].x < h[e - 1].x < p.x && Cross(h[e - 2], h[e - 1], p) >= 0
    ensures Dominates(h[..e - 1] + [p], h)
  {
    var g, k := h[..e - 1] + [p], h[..e] + [p];
    forall l: Line | AllAbove(l, g) ensures AllAbove(l, h) {
      assert g[e - 2] == h[e - 2] && g[e - 1] == p;
      assert Above(l, g[e - 2]) && Above(l, g[e - 1]);
      UnderChord(l, h[e - 2], h[e - 1], p);
      forall i | 0 <= i < |k| ensures Above(l, k[i]) {
        if i < e - 1 {
          assert k[i] == g[i];
        } else if i == e - 1 {
          assert k[i] == h[e - 1];
        } else {
          assert k[i] == g[e - 1];
        }
      }
      assert AllAbove(l, k);
    }
  }

  lemma CoversPush(h: seq<Point>, g: seq<Point>, s: seq<Point>, p: Point, lo: real, hi: real)
    requires Covers(h, s, lo, hi) && Dominates(g + [p], h)
    ensures Covers(g + [p], s + [p], lo, hi)
  {
    forall l: Line | lo <= l.a <= hi && AllAbove(l, g + [p]) ensures AllAbove(l, s + [p]) {
      assert AllAbove(l, h);
      assert Above(l, (g + [p])[|g|]);
    }
  }

  /** A new point under the flattest line needs no place in the chain. */
  lemma CoversSkip(h: seq<Point>, s: seq<Point>, p: Point, l1: Line, hi: real)
    requires Covers(h, s, l1.a, hi) && |h| > 0
    requires h[|h| - 1].x <= p.x && At(l1, h[|h| - 1].x) <= h[|h| - 1].y as real
    requires Above(l1, p)
    ensures Covers(h, s + [p], l1.a, hi)
  {
    forall l: Line | l1.a <= l.a <= hi && AllAbove(l, h) ensures AllAbove(l, s + [p]) {
      assert Above(l, h[|h| - 1]);
      Drift(l1, l, h[|h| - 1].x, p.x);
      assert AllAbove(l, s);
    }
  }

  lemma FlipThrough(p: Point, q: Point)
    requires p.x < q.x
    ensures Through(Flip(p), Flip(q)) == FlipLine(Through(p, q))
  {
    var d, l, m := (q.x - p.x) as real, Through(p, q), Through(Flip(p), Flip(q));
    assert (-q.y - (-p.y)) as real == -((q.y - p.y) as real);
    assert m.a == -((q.y - p.y) as real) / d == -l.a;
    assert m.a * p.x as real == -(l.a * p.x as real);
    assert m.b == -(p.y as real) - m.a * p.x as real == -l.b;
  }

  lemma FlipAt(l: Line, x: int)
    ensures At(FlipLine(l), x) == -At(l, x)
  {
  }
}
