/** Points, slopes and lines of the piecewise linear model.

    The source compares slopes by cross-multiplying wide integers; a `Line` here has a real slope and a real
    intercept, and the lemmas below say what each integer test means for lines. */
module Geometry {

  datatype Point = Point(x: int, y: int)

  datatype Slope = Slope(dx: int, dy: int)

  function Minus(p: Point, q: Point): Slope {
    Slope(p.x - q.x, p.y - q.y)
  }

  predicate Less(s: Slope, t: Slope) {
    s.dy * t.dx < s.dx * t.dy
  }

  predicate Greater(s: Slope, t: Slope) {
    s.dy * t.dx > s.dx * t.dy
  }

  predicate SameSlope(s: Slope, t: Slope) {
    s.dy * t.dx == s.dx * t.dy
  }

  function Cross(o: Point, a: Point, b: Point): int {
    var oa := Minus(a, o);
    var ob := Minus(b, o);
    oa.dx * ob.dy - oa.dy * ob.dx
  }

  datatype Line = Line(a: real, b: real)

  function At(l: Line, x: int): real {
    l.a * (x as real) + l.b
  }

  ghost predicate Above(l: Line, p: Point) {
    At(l, p.x) >= p.y as real
  }

  ghost predicate Below(l: Line, p: Point) {
    At(l, p.x) <= p.y as real
  }

  /** The line through two points of different abscissa. */
  function Through(p: Point, q: Point): Line
    requires p.x < q.x
  {
    var a := (q.y - p.y) as real / (q.x - p.x) as real;
    Line(a, p.y as real - a * (p.x as real))
  }

  function Flip(p: Point): Point {
    Point(p.x, -p.y)
  }

  function FlipLine(l: Line): Line {
    Line(-l.a, -l.b)
  }

  lemma AtStep(l: Line, x: int, z: int)
    ensures At(l, z) == At(l, x) + l.a * ((z - x) as real)
  {
    assert (z - x) as real == z as real - x as real;
    assert l.a * ((z - x) as real) == l.a * (z as real) - l.a * (x as real);
  }

  /** Two lines drift apart in the direction of the steeper one. */
  lemma Drift(l: Line, m: Line, x: int, z: int)
    requires x <= z && l.a <= m.a
    ensures At(m, z) - At(l, z) >= At(m, x) - At(l, x)
  {
    AtStep(l, x, z);
    AtStep(m, x, z);
    var d := (z - x) as real;
    assert (m.a - l.a) * d >= 0.0;
    assert (m.a - l.a) * d == m.a * d - l.a * d;
  }

  lemma ThroughHits(p: Point, q: Point)
    requires p.x < q.x
    ensures At(Through(p, q), p.x) == p.y as real
    ensures At(Through(p, q), q.x) == q.y as real
  {
    var l := Through(p, q);
    AtStep(l, p.x, q.x);
    var d := (q.x - p.x) as real;
    assert l.a == (q.y - p.y) as real / d;
    assert l.a * d == (q.y - p.y) as real;
  }

  /** The slope of a line is bounded by any two points it passes on opposite sides of. */
  lemma SlopeBound(l: Line, p: Point, q: Point)
    requires p.x < q.x
    ensures Below(l, p) && Above(l, q) ==> Through(p, q).a <= l.a
    ensures Above(l, p) && Below(l, q) ==> l.a <= Through(p, q).a
  {
    var m := Through(p, q);
    ThroughHits(p, q);
    if Below(l, p) && Above(l, q) && l.a < m.a {
      StrictDrift(l, m, p.x, q.x);
    }
    if Above(l, p) && Below(l, q) && m.a < l.a {
      StrictDrift(m, l, p.x, q.x);
    }
  }

  lemma StrictDrift(l: Line, m: Line, x: int, z: int)
    requires x < z && l.a < m.a
    ensures At(m, z) - At(l, z) > At(m, x) - At(l, x)
  {
    AtStep(l, x, z);
    AtStep(m, x, z);
    var d := (z - x) as real;
    assert (m.a - l.a) * d > 0.0;
    assert (m.a - l.a) * d == m.a * d - l.a * d;
  }

  /** Scaling by a positive denominator: the integer comparison of two fractions is the real one. */
  lemma FractionLess(n: int, d: int, m: int, e: int)
    requires d > 0 && e > 0
    ensures n * e < m * d <==> n as real / d as real < m as real / e as real
  {
    var x, y := n as real / d as real, m as real / e as real;
    var dr, er := d as real, e as real;
    assert n as real == x * dr;
    assert m as real == y * er;
    assert (n * e) as real == x * dr * er;
    assert (m * d) as real == y * er * dr;
    assert x * dr * er == x * (dr * er);
    assert y * er * dr == y * (dr * er);
    assert dr * er > 0.0;
    if x < y {
      assert x * (dr * er) < y * (dr * er);
    } else {
      assert x * (dr * er) >= y * (dr * er);
    }
  }

  /** `h - p < g - p` for points left of `p` compares the lines through `p`. */
  lemma LessMeans(h: Point, g: Point, p: Point)
    requires h.x < p.x && g.x < p.x
    ensures Less(Minus(h, p), Minus(g, p)) <==> Through(h, p).a < Through(g, p).a
    ensures Greater(Minus(h, p), Minus(g, p)) <==> Through(h, p).a > Through(g, p).a
  {
    FractionLess(p.y - h.y, p.x - h.x, p.y - g.y, p.x - g.x);
    FractionLess(p.y - g.y, p.x - g.x, p.y - h.y, p.x - h.x);
    assert (h.y - p.y) * (g.x - p.x) == (p.y - h.y) * (p.x - g.x);
    assert (h.x - p.x) * (g.y - p.y) == (p.y - g.y) * (p.x - h.x);
  }

  /** `p - o < t - s`, for `o` one of the two points of the line `s t` and `p` right of `o`, says that `p` lies
      under the line; `>` says that it lies over it. */
  lemma SideOfLine(s: Point, t: Point, o: Point, p: Point)
    requires s.x < t.x && (o == s || o == t) && o.x < p.x
    ensures Less(Minus(p, o), Minus(t, s)) <==> p.y as real < At(Through(s, t), p.x)
    ensures Greater(Minus(p, o), Minus(t, s)) <==> p.y as real > At(Through(s, t), p.x)
  {
    var l := Through(s, t);
    ThroughHits(s, t);
    AtStep(l, o.x, p.x);
    FractionLess(p.y - o.y, p.x - o.x, t.y - s.y, t.x - s.x);
    FractionLess(t.y - s.y, t.x - s.x, p.y - o.y, p.x - o.x);
    var d := (p.x - o.x) as real;
    var r := (p.y - o.y) as real / d;
    assert l.a == (t.y - s.y) as real / (t.x - s.x) as real;
    assert r * d == (p.y - o.y) as real;
    if r < l.a {
      assert r * d < l.a * d;
    } else if r > l.a {
      assert r * d > l.a * d;
    }
    assert Less(Minus(p, o), Minus(t, s)) <==> r < l.a by {
      assert (p.x - o.x) * (t.y - s.y) == (t.y - s.y) * (p.x - o.x);
    }
    assert Greater(Minus(p, o), Minus(t, s)) <==> r > l.a by {
      assert (p.x - o.x) * (t.y - s.y) == (t.y - s.y) * (p.x - o.x);
    }
  }

  /** A point on or under a chord is passed by every line that passes over the chord's ends. */
  lemma UnderChord(l: Line, p: Point, r: Point, q: Point)
    requires p.x < r.x < q.x && Cross(p, r, q) >= 0
    requires Above(l, p) && Above(l, q)
    ensures Above(l, r)
  {
    var m := Through(p, q);
    ThroughHits(p, q);
    SideOfLine(p, q, p, r);
    assert Less(Minus(r, p), Minus(q, p)) || (r.y - p.y) * (q.x - p.x) == (r.x - p.x) * (q.y - p.y);
    assert !Greater(Minus(r, p), Minus(q, p));
    assert At(m, r.x) >= r.y as real;
    if l.a <= m.a {
      Drift(l, m, r.x, q.x);
    } else {
      Drift(m, l, p.x, r.x);
    }
  }

  /** Along a chain that turns right, once a step lies under the sight line to `p` the next one does too. */
  lemma SightTurns(a: Point, b: Point, c: Point, p: Point)
    requires a.x < b.x < c.x < p.x
    requires Cross(a, b, c) < 0
    requires Through(a, p).a < Through(b, p).a
    ensures Through(b, p).a < Through(c, p).a
  {
    FractionLess(p.y - a.y, p.x - a.x, p.y - b.y, p.x - b.x);
    FractionLess(p.y - b.y, p.x - b.x, p.y - c.y, p.x - c.x);
    CrossSum(b.x - a.x, b.y - a.y, c.x - b.x, c.y - b.y);
    TurnSum(b.x - a.x, b.y - a.y, c.x - b.x, c.y - b.y, p.x - c.x, p.y - c.y);
  }

  lemma CrossSum(u1: int, u2: int, v1: int, v2: int)
    ensures u1 * (u2 + v2) - u2 * (u1 + v1) == u1 * v2 - u2 * v1
  {
  }

  lemma TurnSum(u1: int, u2: int, v1: int, v2: int, w1: int, w2: int)
    requires u1 > 0 && v1 > 0 && w1 > 0
    requires u1 * v2 - u2 * v1 < 0
    requires (u2 + v2 + w2) * (v1 + w1) < (v2 + w2) * (u1 + v1 + w1)
    ensures (v2 + w2) * w1 < w2 * (v1 + w1)
  {
    Distribute(u2, v2 + w2, u1, v1 + w1);
    assert u2 * (v1 + w1) < (v2 + w2) * u1;
    assert u2 * w1 < u1 * w2 by {
      assert u2 * (v1 + w1) == u2 * v1 + u2 * w1;
      assert (v2 + w2) * u1 == u1 * v2 + u1 * w2;
    }
    TurnsCompose(u1, u2, v1, v2, w1, w2);
    assert (v2 + w2) * w1 == v2 * w1 + w2 * w1;
    assert w2 * (v1 + w1) == v1 * w2 + w2 * w1;
  }

  lemma Distribute(p: int, q: int, r: int, s: int)
    ensures (p + q) * s - q * (r + s) == p * s - q * r
  {
  }

  lemma TurnsCompose(u1: int, u2: int, v1: int, v2: int, w1: int, w2: int)
    requires u1 > 0 && v1 > 0 && w1 > 0
    requires u1 * v2 < u2 * v1 && u2 * w1 < u1 * w2
    ensures v2 * w1 < v1 * w2
  {
    assert (u1 * v2) * w1 < (u2 * v1) * w1;
    assert (u2 * w1) * v1 < (u1 * w2) * v1;
    assert u1 * (v2 * w1) == (u1 * v2) * w1;
    assert u1 * (v1 * w2) == (u1 * w2) * v1;
    assert (u2 * v1) * w1 == (u2 * w1) * v1;
    Cancel(u1, v2 * w1, v1 * w2);
  }

  lemma Cancel(u: int, x: int, y: int)
    requires u > 0 && u * x < u * y
    ensures x < y
  {
  }
}
