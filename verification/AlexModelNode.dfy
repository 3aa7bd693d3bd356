/** ALEX model nodes: runs of child pointers and the routing through them (include/alex/alex_nodes.h,
    include/alex/alex.h). Model parameters are exact reals; a child keeps the keys stored at or below it. */
module AlexModelNodes {
  import opened LeafLists
  import opened LeafOrders
  import opened Numbers
  import opened Powers

  // ---- Routing

  /** The bucket of a key among `n`: the prediction, clamped. */
  function Bucket(a: real, b: real, n: nat, key: int): nat
    requires n > 0
    ensures Bucket(a, b, n, key) < n
  {
    var p := Truncate(a * key as real + b);
    if p < 0 then 0 else if p > n - 1 then n - 1 else p
  }

  /** Clamping and truncation respect every inner bucket boundary. */
  lemma BucketBelow(a: real, b: real, n: nat, key: int, m: nat)
    requires 0 < m < n
    ensures Bucket(a, b, n, key) < m <==> Before(a, b, key, m)
  {
  }

  /** The model puts the key before bucket `m`. */
  ghost predicate Before(a: real, b: real, key: int, m: int) {
    a * key as real + b < m as real
  }

  /** With model and buckets scaled alike a key falls into the same place. */
  lemma BucketScales(a: real, b: real, n: nat, key: int, f: nat)
    requires n > 0 && f > 0
    ensures n * f > 0 && Bucket(a * f as real, b * f as real, n * f, key) / f == Bucket(a, b, n, key)
  {
    hide Bucket;
    assert n * f >= f by {
      assert (n - 1) * f >= 0;
    }
    var m, big := Bucket(a, b, n, key), Bucket(a * f as real, b * f as real, n * f, key);
    if m > 0 {
      BoundScales(a, b, n, key, f, m);
    }
    if m + 1 < n {
      BoundScales(a, b, n, key, f, m + 1);
    } else {
      assert (m + 1) * f == n * f;
    }
    QuotientIs(big, f, m);
  }

  lemma BoundScales(a: real, b: real, n: nat, key: int, f: nat, m: nat)
    requires f > 0 && 0 < m < n
    ensures n * f > 0 && (Bucket(a, b, n, key) < m <==> Bucket(a * f as real, b * f as real, n * f, key) < m * f)
  {
    hide Bucket;
    MulBelow(0, m, f);
    MulBelow(m, n, f);
    BucketBelow(a, b, n, key, m);
    BucketBelow(a * f as real, b * f as real, n * f, key, m * f);
    ScaledValue(a, b, key as real, f as real);
    ScaledBound(a * key as real + b, m, f);
  }

  lemma ScaledValue(a: real, b: real, x: real, f: real)
    ensures (a * f) * x + b * f == (a * x + b) * f
  {
  }

  lemma ScaledBound(t: real, m: nat, f: nat)
    requires f > 0
    ensures t < m as real <==> t * f as real < (m * f) as real
  {
    assert (m * f) as real == m as real * f as real;
    if t < m as real {
      assert (m as real - t) * f as real > 0.0;
    } else {
      assert (t - m as real) * f as real >= 0.0;
    }
  }

  // ---- Runs of child pointers

  /** First place of the aligned block of size `p` with place `i`. */
  function Start(i: nat, p: nat): nat
    requires p > 0
  {
    if i < p then 0 else p + Start(i - p, p)
  }

  lemma {:induction false} StartIs(i: nat, p: nat, q: nat)
    requires p > 0 && q * p <= i < q * p + p
    ensures Start(i, p) == q * p
  {
    if q > 0 {
      assert q * p == (q - 1) * p + p;
      assert (q - 1) * p >= 0;
      StartIs(i - p, p, q - 1);
    }
  }

  lemma StartAligned(i: nat, p: nat)
    requires p > 0
    ensures Start(i, p) <= i < Start(i, p) + p && Start(i, p) % p == 0
    ensures Start(i, p) == i - i % p
  {
    hide Start;
    var q := i / p;
    StartIs(i, p, q);
    assert i - i % p == q * p;
    QuotientIs(q * p, p, q);
  }

  /** The pointers of every child fill one aligned block whose size its duplication factor gives. */
  ghost predicate Runs(c: seq<AlexNode>, d: seq<nat>) {
    && |d| == |c|
    && forall i :: 0 <= i < |c| ==> RunAt(c, i, Pow2(d[i]))
  }

  ghost predicate RunAt(c: seq<AlexNode>, i: nat, p: nat)
    requires i < |c| && p > 0
  {
    Start(i, p) + p <= |c| && forall j :: 0 <= j < |c| ==> (c[j] == c[i] <==> Start(i, p) <= j < Start(i, p) + p)
  }

  ghost function Factors(c: seq<AlexNode>): (d: seq<nat>)
    reads c
    ensures |d| == |c| && forall i :: 0 <= i < |c| ==> d[i] == c[i].duplicationFactor
  {
    seq(|c|, i requires 0 <= i < |c| reads c => c[i].duplicationFactor)
  }

  /** Repeating every pointer equally often keeps the runs. */
  lemma ExpandRuns(c: seq<AlexNode>, d: seq<nat>, c': seq<AlexNode>, d': seq<nat>, e: nat)
    requires Runs(c, d) && |c'| == |c| * Pow2(e) && |d'| == |c'|
    requires forall j :: 0 <= j < |c'| ==>
             0 <= j / Pow2(e) < |c| && c'[j] == c[j / Pow2(e)] && d'[j] == d[j / Pow2(e)] + e
    ensures Runs(c', d')
  {
    hide Pow2, Start, RunAt;
    forall i | 0 <= i < |c'| ensures RunAt(c', i, Pow2(d'[i])) {
      Pow2Add(d[i / Pow2(e)], e);
      RunAtExpands(c, c', i, Pow2(d[i / Pow2(e)]), Pow2(e));
    }
  }

  lemma RunAtExpands(c: seq<AlexNode>, c': seq<AlexNode>, i: nat, p: nat, f: nat)
    requires p > 0 && f > 0 && |c'| == |c| * f && i < |c'| && i / f < |c| && RunAt(c, i / f, p)
    requires forall j :: 0 <= j < |c'| ==> 0 <= j / f < |c| && c'[j] == c[j / f]
    ensures p * f > 0 && RunAt(c', i, p * f)
  {
    hide Start;
    StartAligned(i / f, p);
    var s := Start(i / f, p);
    RunExpands(i, p, f);
    MulBelow(s + p - 1, |c|, f);
    forall j | 0 <= j < |c'| ensures s <= j / f < s + p <==> s * f <= j < s * f + p * f {
      InScaledRun(j, f, s, p);
    }
    assert s * f + p * f <= |c'| by {
      InScaledRun(0, f, s, p);
    }
  }

  lemma InScaledRun(j: nat, f: nat, s: nat, p: nat)
    requires f > 0
    ensures s <= j / f < s + p <==> s * f <= j < s * f + p * f
    ensures (s + p) * f == s * f + p * f == (s + p - 1) * f + f
  {
    QuotientBelow(j, f, s);
    QuotientBelow(j, f, s + p);
  }

  lemma Product(q: nat, p: nat, f: nat)
    requires p > 0 && f > 0
    ensures p * f > 0 && (q * p) * f == q * (p * f) && (q * p + p) * f == (q * p) * f + p * f
  {
    MulBelow(0, p, f);
  }

  lemma RunExpands(i: nat, p: nat, f: nat)
    requires p > 0 && f > 0
    ensures p * f > 0 && Start(i, p * f) == Start(i / f, p) * f
  {
    hide Start;
    StartAligned(i / f, p);
    var s := Start(i / f, p);
    var q := s / p;
    assert s == q * p;
    QuotientBelow(i, f, s);
    QuotientBelow(i, f, s + p);
    Product(q, p, f);
    StartIs(i, p * f, q);
  }

  /** Runs of new children in place of the run of one child. */
  lemma SplitRuns(c: seq<AlexNode>, d: seq<nat>, c': seq<AlexNode>, d': seq<nat>, lo: nat, hi: nat, leaf: AlexNode)
    requires Runs(c, d) && |c'| == |d'| == |c| && lo <= hi <= |c|
    requires forall j :: 0 <= j < |c| ==> (c[j] == leaf <==> lo <= j < hi)
    requires forall j :: 0 <= j < |c| && !(lo <= j < hi) ==> c'[j] == c[j] && d'[j] == d[j]
    requires forall j :: lo <= j < hi ==> c'[j] !in c && RunAt(c', j, Pow2(d'[j]))
    ensures Runs(c', d')
  {
    hide Pow2, Start;
    forall i | 0 <= i < |c'| && !(lo <= i < hi) ensures RunAt(c', i, Pow2(d'[i])) {
      assert RunAt(c, i, Pow2(d[i]));
      forall j | 0 <= j < |c'| ensures c'[j] == c'[i] <==> c[j] == c[i] {
        assert c[i] in c;
      }
    }
  }

  /** The pointers to `gone` redirected to `kept`. */
  ghost predicate Redirected(c: seq<AlexNode>, c': seq<AlexNode>, kept: AlexNode, gone: AlexNode) {
    |c'| == |c| && forall j :: 0 <= j < |c| ==> c'[j] == if c[j] == gone then kept else c[j]
  }

  lemma RedirectedRun(c: seq<AlexNode>, c': seq<AlexNode>, kept: AlexNode, gone: AlexNode, i: nat, lo: nat, p: nat)
    requires Redirected(c, c', kept, gone) && p > 0 && lo % p == 0 && lo + p <= |c| && lo <= i < lo + p
    requires forall j :: 0 <= j < |c| ==> (c[j] == kept || c[j] == gone <==> lo <= j < lo + p)
    ensures RunAt(c', i, p)
  {
    hide Start;
    assert lo == lo / p * p;
    StartIs(i, p, lo / p);
  }

  /** Two runs of one size that fill one block of twice that size become one run. */
  lemma MergeRuns(c: seq<AlexNode>, d: seq<nat>, c': seq<AlexNode>, d': seq<nat>, lo: nat, k: nat, kept: AlexNode,
                  gone: AlexNode)
    requires Runs(c, d) && Redirected(c, c', kept, gone) && |d'| == |c| && lo % Pow2(k) == 0 && lo + Pow2(k) <= |c|
    requires forall j :: 0 <= j < |c| ==> (c[j] == kept || c[j] == gone <==> lo <= j < lo + Pow2(k))
    requires forall j :: 0 <= j < |c| ==> d'[j] == if c'[j] == kept then k else d[j]
    ensures Runs(c', d')
  {
    hide Pow2, Start;
    forall i | 0 <= i < |c'| ensures RunAt(c', i, Pow2(d'[i])) {
      if lo <= i < lo + Pow2(k) {
        RedirectedRun(c, c', kept, gone, i, lo, Pow2(k));
      } else {
        assert RunAt(c, i, Pow2(d[i]));
      }
    }
  }

  // ---- Fanout trees

  ghost predicate Sorted(keys: seq<int>) {
    forall i, j :: 0 <= i < j < |keys| ==> keys[i] <= keys[j]
  }

  /** Position of the first key not below `v`. */
  function LowerBound(keys: seq<int>, v: real): (n: nat)
    ensures n <= |keys| && (forall i :: 0 <= i < n ==> keys[i] as real < v) && (n < |keys| ==> v <= keys[n] as real)
  {
    if keys == [] || keys[0] as real >= v then 0 else 1 + LowerBound(keys[1..], v)
  }

  /** A node of a fanout tree: number `id` of `Pow2(level)` equal parts of the key range, with the positions in the
      leaf where its keys begin and end. */
  datatype FTNode = FTNode(level: nat, id: nat, left: nat, right: nat)

  /** Key at the left edge of part `id`, by the model of the level over the range from `lv` to `rv`. */
  function Edge(lv: real, rv: real, level: nat, id: nat): real
    requires lv < rv
  {
    var a := 1.0 / (rv - lv) * Pow2(level) as real;
    var b := -1.0 * (1.0 / (rv - lv)) * lv * Pow2(level) as real;
    assert a > 0.0 by {
      assert 1.0 / (rv - lv) > 0.0;
    }
    (id as real - b) / a
  }

  function FanoutNode(keys: seq<int>, lv: real, rv: real, level: nat, id: nat): FTNode
    requires lv < rv
  {
    FTNode(level, id, if id == 0 then 0 else LowerBound(keys, Edge(lv, rv, level, id)),
      if id + 1 == Pow2(level) then |keys| else LowerBound(keys, Edge(lv, rv, level, id + 1)))
  }

  /** The edges of the parts are those of the buckets: parts of `p` buckets each from bucket `start` on. */
  lemma EdgeIsBucket(a: real, b: real, lv: real, rv: real, start: nat, p: nat, level: nat, id: nat)
    requires a > 0.0 && lv < rv && a * lv + b == start as real && a * rv + b == (start + p * Pow2(level)) as real
    ensures a * Edge(lv, rv, level, id) + b == (start + id * p) as real
  {
    hide Edge, Pow2;
    var w, n, v := rv - lv, Pow2(level) as real, Edge(lv, rv, level, id);
    EdgeAt(lv, rv, level, id);
    WidthIs(a, b, lv, rv, start, p, level);
    var d, q := v - lv, id as real * p as real;
    assert (a * d) * n == q * n by {
      assert (a * d) * n == a * (d * n) == a * (id as real * w) == id as real * (a * w);
    }
    Cancel(a * d, q, n);
    assert (id * p) as real == q;
    assert a * v == a * lv + a * d;
  }

  lemma EdgeAt(lv: real, rv: real, level: nat, id: nat)
    requires lv < rv
    ensures (Edge(lv, rv, level, id) - lv) * Pow2(level) as real == id as real * (rv - lv)
  {
    hide Pow2;
    var w, n, v := rv - lv, Pow2(level) as real, Edge(lv, rv, level, id);
    var u := 1.0 / w;
    assert u * w == 1.0;
    assert v * (u * n) == id as real + u * lv * n;
    EdgeAlgebra(v, lv, u, n, w, id as real);
  }

  lemma EdgeAlgebra(v: real, lv: real, u: real, n: real, w: real, x: real)
    requires u * w == 1.0 && v * (u * n) == x + u * lv * n
    ensures (v - lv) * n == x * w
  {
    var e := (v - lv) * n;
    assert e * u == v * (u * n) - u * lv * n == x;
    assert x * w == e * (u * w);
  }

  lemma WidthIs(a: real, b: real, lv: real, rv: real, start: nat, p: nat, level: nat)
    requires a * lv + b == start as real && a * rv + b == (start + p * Pow2(level)) as real
    ensures a * (rv - lv) == p as real * Pow2(level) as real
  {
    assert (p * Pow2(level)) as real == p as real * Pow2(level) as real;
    assert a * (rv - lv) == a * rv - a * lv;
  }

  /** The model puts key `v` exactly at the start of bucket `m`. */
  ghost predicate AtBucket(a: real, b: real, v: real, m: nat) {
    a * v + b == m as real
  }

  lemma Cancel(x: real, y: real, n: real)
    requires n > 0.0 && x * n == y * n
    ensures x == y
  {
    var d := x - y;
    assert d * n == x * n - y * n;
  }

  /** Buckets, of those a split hands out, before part `k`, in units of the smallest part. */
  function Covered(nodes: seq<FTNode>, depth: nat, k: nat): nat
    requires k <= |nodes| && forall t :: 0 <= t < |nodes| ==> nodes[t].level <= depth
  {
    if k == 0 then 0 else Covered(nodes, depth, k - 1) + Pow2(depth - nodes[k - 1].level)
  }

  /** The nodes in use, from left to right, are parts of the range without gaps or overlaps. */
  ghost predicate Tiles(nodes: seq<FTNode>, depth: nat) {
    && (forall t :: 0 <= t < |nodes| ==> nodes[t].level <= depth)
    && Covered(nodes, depth, |nodes|) == Pow2(depth)
    && forall t :: 0 <= t < |nodes| ==> Covered(nodes, depth, t) == nodes[t].id * Pow2(depth - nodes[t].level)
  }

  lemma {:induction false} CoveredGrows(nodes: seq<FTNode>, depth: nat, i: nat, j: nat)
    requires i < j <= |nodes| && forall t :: 0 <= t < |nodes| ==> nodes[t].level <= depth
    ensures Covered(nodes, depth, i) + Pow2(depth - nodes[i].level) <= Covered(nodes, depth, j)
  {
    if i + 1 < j {
      CoveredGrows(nodes, depth, i, j - 1);
    }
  }

  /** Where part `t` lies, counted in parts of its own size. */
  lemma TileEdges(nodes: seq<FTNode>, depth: nat, t: nat)
    requires Tiles(nodes, depth) && t < |nodes|
    ensures var x := nodes[t];
            && Covered(nodes, depth, t) == x.id * Pow2(depth - x.level)
            && Covered(nodes, depth, t + 1) == (x.id + 1) * Pow2(depth - x.level) <= Pow2(depth)
            && Pow2(depth) == Pow2(x.level) * Pow2(depth - x.level)
            && (t == 0 <==> x.id == 0) && (t + 1 == |nodes| <==> x.id + 1 == Pow2(x.level))
  {
    hide Pow2, Covered;
    var x, below := nodes[t], Pow2(depth - nodes[t].level);
    Pow2Add(x.level, depth - x.level);
    CoveredOnce(nodes, depth, t);
    InParts(x.id, below, Pow2(x.level), Covered(nodes, depth, t));
  }

  lemma InParts(id: int, p: int, n: int, c: int)
    requires p > 0 && c == id * p
    ensures c + p == (id + 1) * p && (c == 0 <==> id == 0) && (c + p == n * p <==> id + 1 == n)
  {
    SameFactor(id, 0, p);
    SameFactor(id + 1, n, p);
  }

  lemma CoveredOnce(nodes: seq<FTNode>, depth: nat, t: nat)
    requires t < |nodes| && forall t :: 0 <= t < |nodes| ==> nodes[t].level <= depth
    ensures Covered(nodes, depth, t + 1) == Covered(nodes, depth, t) + Pow2(depth - nodes[t].level)
    ensures Covered(nodes, depth, 0) == 0 <= Covered(nodes, depth, t) && (Covered(nodes, depth, t) == 0 <==> t == 0)
    ensures Covered(nodes, depth, t + 1) <= Covered(nodes, depth, |nodes|)
    ensures Covered(nodes, depth, t + 1) == Covered(nodes, depth, |nodes|) <==> t + 1 == |nodes|
  {
    hide Pow2;
    if t > 0 {
      CoveredGrows(nodes, depth, 0, t);
    }
    if t + 1 < |nodes| {
      CoveredGrows(nodes, depth, t + 1, |nodes|);
    }
  }

  lemma SameFactor(x: int, y: int, f: nat)
    requires f > 0
    ensures x * f == y * f <==> x == y
  {
    if x < y {
      MulAtMost(x + 1, y, f);
    } else if x > y {
      MulAtMost(y + 1, x, f);
    }
  }

  /** The keys predicted before bucket `m` are those before position `pos`. */
  ghost predicate CutAt(keys: seq<int>, a: real, b: real, m: int, pos: nat) {
    pos <= |keys| && forall i :: 0 <= i < |keys| ==> (i < pos <==> Before(a, b, keys[i], m))
  }

  lemma CutsGrow(keys: seq<int>, a: real, b: real, m: int, m': int, p: nat, q: nat)
    requires CutAt(keys, a, b, m, p) && CutAt(keys, a, b, m', q) && m <= m'
    ensures p <= q
  {
    if q < |keys| {
      assert !Before(a, b, keys[q], m');
    }
  }

  lemma SameSide(a: real, k: real, v: real)
    requires a > 0.0
    ensures k < v <==> a * k < a * v
  {
    var d := v - k;
    assert a * v == a * k + a * d;
    assert d > 0.0 <==> a * d > 0.0;
  }

  lemma CutHere(keys: seq<int>, a: real, b: real, m: int, v: real)
    requires Sorted(keys) && a > 0.0 && a * v + b == m as real
    ensures CutAt(keys, a, b, m, LowerBound(keys, v))
  {
    hide Before;
    forall i | 0 <= i < |keys| ensures i < LowerBound(keys, v) <==> Before(a, b, keys[i], m) {
      SameSide(a, keys[i] as real, v);
      BeforeIs(a, b, keys[i], m, v);
    }
  }

  lemma BeforeIs(a: real, b: real, key: int, m: int, v: real)
    requires a > 0.0 && a * v + b == m as real
    ensures Before(a, b, key, m) <==> a * key as real < a * v
  {
  }

  /** First bucket of part `t`, with `unit` buckets in the smallest part. */
  ghost function PartStart(nodes: seq<FTNode>, depth: nat, start: nat, unit: nat, t: nat): int
    requires Tiles(nodes, depth) && t <= |nodes|
  {
    start + Covered(nodes, depth, t) * unit
  }

  /** A part ends where the next one starts, or with the keys. */
  ghost predicate Joined(nodes: seq<FTNode>, n: nat, t: int)
    requires 0 <= t < |nodes|
  {
    nodes[t].right == if t + 1 == |nodes| then n else nodes[t + 1].left
  }

  /** Parts with the keys that belong to their buckets. */
  ghost predicate Parts(nodes: seq<FTNode>, depth: nat, keys: seq<int>, a: real, b: real, start: nat, unit: nat) {
    && Tiles(nodes, depth) && nodes != []
    && (forall t :: 0 <= t < |nodes| ==> nodes[t].left <= nodes[t].right <= |keys|)
    && (forall t :: 0 <= t < |nodes| ==> Joined(nodes, |keys|, t))
    && nodes[0].left == 0
    && forall t :: 0 < t < |nodes| ==> CutAt(keys, a, b, PartStart(nodes, depth, start, unit, t), nodes[t].left)
  }

  /** The positions of a node of a fanout tree are those that its buckets call for. */
  lemma FanoutCuts(nodes: seq<FTNode>, depth: nat, keys: seq<int>, a: real, b: real, lv: real, rv: real, start: nat,
                   unit: nat, t: nat)
    requires Tiles(nodes, depth) && Sorted(keys) && a > 0.0 && lv < rv && t < |nodes|
    requires a * lv + b == start as real && a * rv + b == (start + unit * Pow2(depth)) as real
    requires nodes[t] == FanoutNode(keys, lv, rv, nodes[t].level, nodes[t].id)
    ensures if t == 0 then nodes[t].left == 0
            else CutAt(keys, a, b, PartStart(nodes, depth, start, unit, t), nodes[t].left)
    ensures if t + 1 == |nodes| then nodes[t].right == |keys|
            else CutAt(keys, a, b, PartStart(nodes, depth, start, unit, t + 1), nodes[t].right)
  {
    hide Edge, LowerBound, CutAt, Covered, Pow2;
    TileEdges(nodes, depth, t);
    var x := nodes[t];
    FanoutCut(keys, a, b, lv, rv, start, unit, Pow2(depth - x.level), x.level, x.id, Pow2(depth),
              Covered(nodes, depth, t));
    FanoutCut(keys, a, b, lv, rv, start, unit, Pow2(depth - x.level), x.level, x.id + 1, Pow2(depth),
              Covered(nodes, depth, t + 1));
  }

  lemma FanoutCut(keys: seq<int>, a: real, b: real, lv: real, rv: real, start: nat, unit: nat, below: nat, level: nat,
                  id: nat, all: nat, covered: nat)
    requires Sorted(keys) && a > 0.0 && lv < rv && all == Pow2(level) * below && covered == id * below
    requires a * lv + b == start as real && a * rv + b == (start + unit * all) as real
    ensures CutAt(keys, a, b, start + covered * unit, LowerBound(keys, Edge(lv, rv, level, id)))
  {
    hide Edge, LowerBound, CutAt, Pow2;
    var p := unit * below;
    assert p * Pow2(level) == unit * all && id * p == covered * unit;
    EdgeIsBucket(a, b, lv, rv, start, p, level, id);
    CutHere(keys, a, b, start + id * p, Edge(lv, rv, level, id));
  }

  /** So the nodes in use of a fanout tree are parts of the leaf. */
  lemma FanoutParts(nodes: seq<FTNode>, depth: nat, keys: seq<int>, a: real, b: real, lv: real, rv: real, start: nat,
                    unit: nat)
    requires Tiles(nodes, depth) && Sorted(keys) && a > 0.0 && lv < rv
    requires a * lv + b == start as real && a * rv + b == (start + unit * Pow2(depth)) as real
    requires forall t :: 0 <= t < |nodes| ==> nodes[t] == FanoutNode(keys, lv, rv, nodes[t].level, nodes[t].id)
    ensures Parts(nodes, depth, keys, a, b, start, unit)
  {
    hide Edge, LowerBound, Covered, Pow2, CutAt;
    forall t | 0 <= t < |nodes|
      ensures nodes[t].left <= nodes[t].right <= |keys| && Joined(nodes, |keys|, t)
      ensures t > 0 ==> CutAt(keys, a, b, PartStart(nodes, depth, start, unit, t), nodes[t].left)
      ensures t == 0 ==> nodes[t].left == 0
    {
      FanoutCuts(nodes, depth, keys, a, b, lv, rv, start, unit, t);
      FanoutStep(nodes, depth, keys, a, b, lv, rv, start, unit, t);
    }
    assert nodes != [] by {
      assert Pow2(depth) > 0;
      NoneCovered(nodes, depth);
    }
  }

  lemma NoneCovered(nodes: seq<FTNode>, depth: nat)
    requires Tiles(nodes, depth)
    ensures nodes != []
  {
  }

  lemma PartStarts(nodes: seq<FTNode>, depth: nat, start: nat, unit: nat, t: nat)
    requires Tiles(nodes, depth) && t < |nodes|
    ensures nodes[t].level <= depth
    ensures PartStart(nodes, depth, start, unit, t + 1)
         == PartStart(nodes, depth, start, unit, t) + Pow2(depth - nodes[t].level) * unit
    ensures PartStart(nodes, depth, start, unit, t) <= PartStart(nodes, depth, start, unit, t + 1)
         <= start + Pow2(depth) * unit
    ensures PartStart(nodes, depth, start, unit, t) >= start
    ensures t > 0 && unit > 0 ==> PartStart(nodes, depth, start, unit, t) > start
    ensures PartStart(nodes, depth, start, unit, 0) == start
    ensures PartStart(nodes, depth, start, unit, |nodes|) == start + Pow2(depth) * unit
  {
    hide Pow2, Covered;
    CoveredOnce(nodes, depth, t);
    InUnits(Covered(nodes, depth, t), Pow2(depth - nodes[t].level), Pow2(depth), unit);
  }

  lemma InUnits(c: nat, step: nat, all: nat, unit: nat)
    requires c + step <= all
    ensures (c + step) * unit == c * unit + step * unit && 0 <= c * unit <= c * unit + step * unit <= all * unit
    ensures unit > 0 && c > 0 ==> c * unit > 0
  {
    assert step * unit >= 0 && c * unit >= 0 && (all - c - step) * unit >= 0;
    assert unit > 0 && c > 0 ==> c * unit > 0;
  }

  lemma FanoutStep(nodes: seq<FTNode>, depth: nat, keys: seq<int>, a: real, b: real, lv: real, rv: real, start: nat,
                   unit: nat, t: nat)
    requires Tiles(nodes, depth) && Sorted(keys) && a > 0.0 && lv < rv && t < |nodes|
    requires a * lv + b == start as real && a * rv + b == (start + unit * Pow2(depth)) as real
    requires forall t :: 0 <= t < |nodes| ==> nodes[t] == FanoutNode(keys, lv, rv, nodes[t].level, nodes[t].id)
    ensures nodes[t].left <= nodes[t].right <= |keys|
    ensures t + 1 < |nodes| ==> nodes[t].right == nodes[t + 1].left
  {
    hide Edge, LowerBound, Covered, Pow2, CutAt;
    FanoutCuts(nodes, depth, keys, a, b, lv, rv, start, unit, t);
    var here, next := PartStart(nodes, depth, start, unit, t), PartStart(nodes, depth, start, unit, t + 1);
    if t + 1 < |nodes| {
      FanoutCuts(nodes, depth, keys, a, b, lv, rv, start, unit, t + 1);
      CutsGrow(keys, a, b, next, next, nodes[t].right, nodes[t + 1].left);
      CutsGrow(keys, a, b, next, next, nodes[t + 1].left, nodes[t].right);
    }
    if 0 < t && t + 1 < |nodes| {
      PartStarts(nodes, depth, start, unit, t);
      CutsGrow(keys, a, b, here, next, nodes[t].left, nodes[t].right);
    }
  }

  lemma PartIn(nodes: seq<FTNode>, depth: nat, keys: seq<int>, a: real, b: real, start: nat, unit: nat, t: nat)
    requires Parts(nodes, depth, keys, a, b, start, unit) && t < |nodes|
    ensures nodes[t].left <= nodes[t].right <= |keys|
    ensures nodes[t].right == if t + 1 == |nodes| then |keys| else nodes[t + 1].left
  {
    assert Joined(nodes, |keys|, t);
  }

  lemma PartsTile(nodes: seq<FTNode>, depth: nat, keys: seq<int>, a: real, b: real, start: nat, unit: nat)
    requires Parts(nodes, depth, keys, a, b, start, unit)
    ensures Tiles(nodes, depth)
  {
  }

  lemma PartsStart(nodes: seq<FTNode>, depth: nat, keys: seq<int>, a: real, b: real, start: nat, unit: nat)
    requires Parts(nodes, depth, keys, a, b, start, unit)
    ensures Tiles(nodes, depth) && nodes != [] && nodes[0].left == 0
  {
  }

  /** No fanout tree stands for the one with two halves. */
  lemma HalvesParts(keys: seq<int>, a: real, b: real, start: nat, unit: nat, mid: nat)
    requires Sorted(keys) && a > 0.0 && mid <= |keys| && CutAt(keys, a, b, start + unit, mid)
    ensures Parts([FTNode(1, 0, 0, mid), FTNode(1, 1, mid, |keys|)], 1, keys, a, b, start, unit)
  {
    var nodes := [FTNode(1, 0, 0, mid), FTNode(1, 1, mid, |keys|)];
    Pow2Zero();
    assert Covered(nodes, 1, 0) == 0 && Covered(nodes, 1, 1) == 1 && Covered(nodes, 1, 2) == 2;
    assert Pow2(1) == 2 * Pow2(0);
    assert Tiles(nodes, 1);
    assert PartStart(nodes, 1, start, unit, 1) == start + unit;
  }

  /** All keys of a run that belong to a part are predicted into the buckets of the part. */
  lemma PartKeys(nodes: seq<FTNode>, depth: nat, keys: seq<int>, a: real, b: real, n: nat, start: nat, unit: nat,
                 t: nat, i: nat)
    requires Parts(nodes, depth, keys, a, b, start, unit) && t < |nodes| && unit > 0
    requires nodes[t].left <= i < nodes[t].right && start + Pow2(depth) * unit <= n
    requires n > 0 && start <= Bucket(a, b, n, keys[i]) < start + Pow2(depth) * unit
    ensures PartStart(nodes, depth, start, unit, t) <= Bucket(a, b, n, keys[i]) <
            PartStart(nodes, depth, start, unit, t + 1)
  {
    hide Pow2, Covered, Bucket, PartStart, Tiles;
    PartStarts(nodes, depth, start, unit, t);
    var lo, hi := PartStart(nodes, depth, start, unit, t), PartStart(nodes, depth, start, unit, t + 1);
    if t > 0 {
      assert CutAt(keys, a, b, lo, nodes[t].left);
      BucketBelow(a, b, n, keys[i], lo);
    }
    if t + 1 < |nodes| {
      assert Joined(nodes, |keys|, t) && CutAt(keys, a, b, hi, nodes[t + 1].left);
      PartStarts(nodes, depth, start, unit, t + 1);
      BucketBelow(a, b, n, keys[i], hi);
    }
  }

  /** The child in place `i` has its run within the places from `lo` to `hi`, and its keys are predicted into it. */
  ghost predicate Settled(c: seq<AlexNode>, i: nat, p: nat, a: real, b: real, lo: nat, hi: nat)
    requires i < |c| && p > 0
  {
    && RunAt(c, i, p) && lo <= Start(i, p) && Start(i, p) + p <= hi
    && forall k :: k in c[i].keys ==> Start(i, p) <= Bucket(a, b, |c|, k) < Start(i, p) + p
  }

  lemma SettledKept(c: seq<AlexNode>, c': seq<AlexNode>, i: nat, p: nat, a: real, b: real, lo: nat, cur: nat, hi: nat)
    requires |c'| == |c| && lo <= i < cur <= hi <= |c| && p > 0 && Settled(c, i, p, a, b, lo, cur)
    requires forall j :: 0 <= j < |c| && !(cur <= j < hi) ==> c'[j] == c[j]
    requires forall j :: cur <= j < hi ==> c'[j] !in c
    ensures Settled(c', i, p, a, b, lo, hi)
  {
    hide Start, Bucket;
    assert c[i] in c;
  }

  lemma SettledNew(c: seq<AlexNode>, c': seq<AlexNode>, i: nat, p: nat, a: real, b: real, lo: nat, cur: nat,
                   x: AlexNode)
    requires |c'| == |c| && lo <= cur <= i < cur + p <= |c| && p > 0 && cur % p == 0 && x !in c
    requires forall j :: 0 <= j < |c| ==> c'[j] == if cur <= j < cur + p then x else c[j]
    requires forall k :: k in x.keys ==> cur <= Bucket(a, b, |c|, k) < cur + p
    ensures Settled(c', i, p, a, b, lo, cur + p)
  {
    hide Start, Bucket;
    assert cur == cur / p * p;
    StartIs(i, p, cur / p);
  }

  /** `c'` has `f` pointers for every one of `c`. */
  ghost predicate Repeated(c: seq<AlexNode>, c': seq<AlexNode>, f: nat)
    requires f > 0
  {
    |c'| == |c| * f && forall j :: 0 <= j < |c'| ==> 0 <= j / f < |c| && c'[j] == c[j / f]
  }

  ghost predicate Stretched(c: seq<AlexNode>, c': seq<AlexNode>) {
    exists f: nat :: f > 0 && Repeated(c, c', f)
  }

  lemma NotStretched(c: seq<AlexNode>)
    ensures Stretched(c, c)
  {
    assert Repeated(c, c, 1);
  }

  lemma StretchedEdged(c: seq<AlexNode>, c': seq<AlexNode>, list: seq<AlexNode>, e: Ends, sub: Ends)
    requires Stretched(c, c') && Edged(c, list, e, sub)
    ensures Edged(c', list, e, sub)
  {
    var f: nat :| f > 0 && Repeated(c, c', f);
    EdgedExpanded(c, c', f, list, e, sub);
  }

  lemma RepeatedIf(c: seq<AlexNode>, c': seq<AlexNode>, f: nat)
    requires f > 0 && |c'| == |c| * f && Copied(c, c', f, |c|)
    ensures Repeated(c, c', f)
  {
    forall j | 0 <= j < |c'| ensures 0 <= j / f < |c| {
      QuotientBelow(j, f, |c|);
      QuotientBelow(j, f, 0);
    }
  }

  /** The pointers of the first `cur` children are in place. */
  ghost predicate Copied(c: seq<AlexNode>, to: seq<AlexNode>, f: nat, cur: nat)
    requires f > 0 && cur <= |c|
  {
    forall j :: 0 <= j < |to| && j / f < cur ==> to[j] == c[j / f]
  }

  ghost predicate RunCopied(to: seq<AlexNode>, to': seq<AlexNode>, child: AlexNode, f: nat, cur: nat, repeats: nat)
    requires f > 0
  {
    |to'| == |to| && forall j :: 0 <= j < |to| ==> to'[j] == if cur <= j / f < cur + repeats then child else to[j]
  }

  lemma NoneCopied(c: seq<AlexNode>, to: seq<AlexNode>, f: nat)
    requires f > 0
    ensures Copied(c, to, f, 0)
  {
    forall j | 0 <= j < |to| ensures j / f >= 0 {
      QuotientBelow(j, f, 0);
    }
  }

  lemma CopiedMore(c: seq<AlexNode>, to: seq<AlexNode>, to': seq<AlexNode>, child: AlexNode, f: nat, cur: nat,
                   repeats: nat)
    requires f > 0 && cur + repeats <= |c| && Copied(c, to, f, cur) && RunCopied(to, to', child, f, cur, repeats)
    requires forall j :: cur <= j < cur + repeats ==> c[j] == child
    ensures Copied(c, to', f, cur + repeats)
  {
  }

  /** Repeating every pointer and raising the duplication factors keeps the runs. */
  lemma RunsRepeated(c: seq<AlexNode>, d: seq<nat>, c': seq<AlexNode>, log2: nat)
    requires Runs(c, d) && |c'| == Times(|c|, Pow2(log2)) && Copied(c, c', Pow2(log2), |c|)
    requires forall i :: 0 <= i < |c| ==> c[i].duplicationFactor == d[i] + log2
    ensures Repeated(c, c', Pow2(log2)) && Runs(c', Factors(c'))
  {
    hide Pow2, Runs, Copied, Times;
    TimesIs(|c|, Pow2(log2));
    RepeatedIf(c, c', Pow2(log2));
    ExpandRuns(c, d, c', Factors(c'), log2);
  }

  lemma RepeatedAt(c: seq<AlexNode>, c': seq<AlexNode>, f: nat, j: nat)
    requires f > 0 && Repeated(c, c', f)
    ensures |c'| == |c| * f && (j < |c'| ==> 0 <= j / f < |c| && c'[j] == c[j / f])
  {
  }

  /** A place whose child is not in the places before it starts a run. */
  /** No run reaches over place `cur`. */
  ghost predicate CutBetween(c: seq<AlexNode>, cur: nat) {
    forall i, j :: 0 <= i < cur <= j < |c| ==> c[i] != c[j]
  }

  lemma RunFrom(c: seq<AlexNode>, d: seq<nat>, cur: nat)
    requires Runs(c, d) && cur < |c| && CutBetween(c, cur)
    ensures cur + Pow2(d[cur]) <= |c| && CutBetween(c, cur + Pow2(d[cur]))
    ensures forall j :: 0 <= j < |c| ==> (c[j] == c[cur] <==> cur <= j < cur + Pow2(d[cur]))
  {
    hide Start, Pow2;
    var p := Pow2(d[cur]);
    assert RunAt(c, cur, p);
    assert c[Start(cur, p)] == c[cur];
  }

  lemma NotCut(c: seq<AlexNode>)
    ensures CutBetween(c, 0)
  {
  }

  /** A key finds the same child among the repeated pointers, with the model scaled. */
  lemma SameChild(c: seq<AlexNode>, c': seq<AlexNode>, f: nat, a: real, b: real, a': real, b': real, k: int)
    requires f > 0 && Repeated(c, c', f) && c != [] && ModelScaled(a, b, a', b', f)
    ensures |c'| > 0 && c'[Bucket(a', b', |c'|, k)] == c[Bucket(a, b, |c|, k)]
  {
    hide Bucket;
    BucketScales(a, b, |c|, k, f);
  }

  lemma PartAligned(nodes: seq<FTNode>, depth: nat, start: nat, extra: nat, t: nat)
    requires Tiles(nodes, depth) && t < |nodes| && start % Pow2(depth + extra) == 0
    ensures PartStart(nodes, depth, start, Pow2(extra), t) % Pow2(depth - nodes[t].level + extra) == 0
    ensures PartStart(nodes, depth, start, Pow2(extra), t + 1)
         == PartStart(nodes, depth, start, Pow2(extra), t) + Pow2(depth - nodes[t].level + extra)
  {
    hide Pow2, Covered;
    var x := nodes[t];
    TileEdges(nodes, depth, t);
    PartStarts(nodes, depth, start, Pow2(extra), t);
    Pow2Add(depth - x.level, extra);
    Pow2Add(depth - x.level + extra, x.level);
    BlockInBlock(start, Pow2(depth + extra), Pow2(depth - x.level + extra), Pow2(x.level), x.id);
    assert x.id * Pow2(depth - x.level + extra) == Covered(nodes, depth, t) * Pow2(extra);
  }

  lemma BlockInBlock(start: nat, size: nat, p: nat, n: nat, id: nat)
    requires p > 0 && size == p * n && size > 0 && start % size == 0
    ensures (start + id * p) % p == 0
  {
    var q := start / size;
    assert start == q * size == (q * n) * p;
    assert start + id * p == (q * n + id) * p;
    QuotientIs((q * n + id) * p, p, q * n + id);
  }

  lemma KeysSlice(keys: seq<int>, nodes: seq<FTNode>, depth: nat, a: real, b: real, n: nat, start: nat, unit: nat,
                  t: nat)
    requires Parts(nodes, depth, keys, a, b, start, unit) && t < |nodes| && unit > 0
    requires n > 0 && start + Pow2(depth) * unit <= n
    requires forall k :: k in keys ==> start <= Bucket(a, b, n, k) < start + Pow2(depth) * unit
    ensures forall k :: k in keys[nodes[t].left..nodes[t].right] ==>
              PartStart(nodes, depth, start, unit, t) <= Bucket(a, b, n, k) <
                  PartStart(nodes, depth, start, unit, t + 1)
  {
    hide Pow2, Covered, Bucket, PartStart, Tiles, CutAt;
    var part := keys[nodes[t].left..nodes[t].right];
    forall k | k in part
      ensures PartStart(nodes, depth, start, unit, t) <= Bucket(a, b, n, k) <
              PartStart(nodes, depth, start, unit, t + 1)
    {
      var i :| 0 <= i < |part| && part[i] == k;
      assert keys[nodes[t].left + i] == k;
      PartKeys(nodes, depth, keys, a, b, n, start, unit, t, nodes[t].left + i);
    }
  }

  /** The model of one node is that of another with all buckets `f` times as narrow. */
  function Scale(x: real, f: nat): real {
    x * f as real
  }

  ghost predicate ModelScaled(a: real, b: real, a': real, b': real, f: nat) {
    f > 0 && a' == a * f as real && b' == b * f as real
  }

  function Times(x: nat, f: nat): nat {
    if x == 0 then 0 else Times(x - 1, f) + f
  }

  lemma {:induction false} TimesIs(x: nat, f: nat)
    ensures Times(x, f) == x * f
  {
    if x > 0 {
      TimesIs(x - 1, f);
      assert (x - 1) * f + f == x * f;
    }
  }

  lemma Pow2Times(m: nat, n: nat)
    ensures Pow2(m + n) == Times(Pow2(m), Pow2(n))
  {
    Pow2Add(m, n);
    TimesIs(Pow2(m), Pow2(n));
  }

  function MaxNat(m: nat, n: nat): nat {
    if m >= n then m else n
  }

  /** The nodes to divide a leaf by: those in use, or without any the two halves, cut in the middle between its
      edges. */
  function NodesFor(keys: seq<int>, used: seq<FTNode>, lv: real, rv: real): seq<FTNode> {
    if used != [] then used
    else
      var cut := LowerBound(keys, (lv + rv) / 2.0);
      [FTNode(1, 0, 0, cut), FTNode(1, 1, cut, |keys|)]
  }

  /** The leaves that nodes of a fanout tree of this depth call for, with `2^extra` pointers for each of its smallest
      parts, from pointer `start` on. */
  ghost predicate DividedBy(leaves: seq<AlexNode>, c: seq<AlexNode>, nodes: seq<FTNode>, keys: seq<int>, depth: nat,
                            start: nat, extra: nat)
    reads leaves
  {
    && Tiles(nodes, depth) && |leaves| == |nodes| && Made(leaves, nodes, keys, depth, extra)
    && Written(c, leaves, nodes, depth, start, Pow2(extra))
  }

  ghost predicate RunScaled(start: nat, size: nat, start': nat, size': nat, f: nat) {
    f > 0 && start' == Times(start, f) && size' == Times(size, f)
  }

  /** The edges of a run are at the same keys after an expansion. */
  lemma EdgesScale(a: real, b: real, a': real, b': real, start: nat, size: nat, start': nat, size': nat, f: nat,
                   lv: real, rv: real)
    requires ModelScaled(a, b, a', b', f) && RunScaled(start, size, start', size', f)
    requires AtBucket(a, b, lv, start) && AtBucket(a, b, rv, start + size)
    ensures AtBucket(a', b', lv, start') && AtBucket(a', b', rv, start' + size')
  {
    hide AtBucket, Times, ModelScaled;
    TimesIs(start, f);
    TimesIs(size, f);
    assert (start + size) * f == start * f + size * f;
    BoundaryScales(a, b, a', b', start, f, lv);
    BoundaryScales(a, b, a', b', start + size, f, rv);
  }

  lemma BoundaryScales(a: real, b: real, a': real, b': real, m: nat, f: nat, v: real)
    requires ModelScaled(a, b, a', b', f) && AtBucket(a, b, v, m)
    ensures AtBucket(a', b', v, m * f)
  {
    var g := f as real;
    assert (a * g) * v == (a * v) * g;
    assert (a * v + b) * g == (a * v) * g + b * g;
    assert (m * f) as real == m as real * g;
  }

  lemma NoKeys()
    ensures AllKeys([]) == []
  {
  }

  /** Leaves that can be linked with each other. */
  ghost predicate NewLeaves(leaves: seq<AlexNode>) {
    LinksApart(leaves) && forall x :: x in leaves ==> x.isLeaf
  }

  lemma NoLeaves()
    ensures NewLeaves([])
  {
  }

  lemma MoreLeaves(leaves: seq<AlexNode>, child: AlexNode)
    requires NewLeaves(leaves) && child.isLeaf && forall x :: x in leaves ==> x.links != child.links
    ensures NewLeaves(leaves + [child])
  {
  }

  /** Every leaf has the keys of its node, and a duplication factor for its share of the pointers. */
  ghost predicate Made(leaves: seq<AlexNode>, nodes: seq<FTNode>, keys: seq<int>, depth: nat, extra: nat)
    reads leaves
  {
    |leaves| <= |nodes| && forall t :: 0 <= t < |leaves| ==> MadeFrom(leaves[t], nodes[t], keys, depth, extra)
  }

  ghost predicate MadeFrom(leaf: AlexNode, node: FTNode, keys: seq<int>, depth: nat, extra: nat)
    reads leaf
  {
    && node.level <= depth && node.left <= node.right <= |keys| && leaf.isLeaf
    && leaf.keys == keys[node.left..node.right] && leaf.duplicationFactor == depth - node.level + extra
  }

  /** The pointers between the start of a node's part and the next one go to its leaf. */
  ghost predicate Written(c: seq<AlexNode>, leaves: seq<AlexNode>, nodes: seq<FTNode>, depth: nat, start: nat,
                          unit: nat)
    requires Tiles(nodes, depth)
  {
    |leaves| <= |nodes| && forall t :: 0 <= t < |leaves| ==> WrittenAt(c, leaves, nodes, depth, start, unit, t)
  }

  ghost predicate WrittenAt(c: seq<AlexNode>, leaves: seq<AlexNode>, nodes: seq<FTNode>, depth: nat, start: nat,
                            unit: nat, t: nat)
    requires Tiles(nodes, depth) && t < |leaves| && t < |nodes|
  {
    var lo, hi := PartStart(nodes, depth, start, unit, t), PartStart(nodes, depth, start, unit, t + 1);
    0 <= lo <= hi <= |c| && forall j :: lo <= j < hi ==> c[j] == leaves[t]
  }

  lemma NoneMade(c: seq<AlexNode>, nodes: seq<FTNode>, keys: seq<int>, depth: nat, start: nat, extra: nat)
    requires Tiles(nodes, depth)
    ensures Made([], nodes, keys, depth, extra) && Written(c, [], nodes, depth, start, Pow2(extra))
  {
  }

  lemma MoreMade(leaves: seq<AlexNode>, nodes: seq<FTNode>, keys: seq<int>, depth: nat, extra: nat, child: AlexNode)
    requires Made(leaves, nodes, keys, depth, extra) && |leaves| < |nodes|
    requires MadeFrom(child, nodes[|leaves|], keys, depth, extra)
    ensures Made(leaves + [child], nodes, keys, depth, extra)
  {
  }

  lemma MoreWritten(c: seq<AlexNode>, c': seq<AlexNode>, leaves: seq<AlexNode>, nodes: seq<FTNode>, depth: nat,
                    start: nat, unit: nat, child: AlexNode)
    requires Tiles(nodes, depth) && Written(c, leaves, nodes, depth, start, unit) && |leaves| < |nodes| && |c'| == |c|
    requires var lo, hi := PartStart(nodes, depth, start, unit, |leaves|),
                           PartStart(nodes, depth, start, unit, |leaves| + 1);
             && 0 <= lo <= hi <= |c|
             && forall j :: 0 <= j < |c| ==> c'[j] == if lo <= j < hi then child else c[j]
    ensures Written(c', leaves + [child], nodes, depth, start, unit)
  {
    hide PartStart, Tiles;
    forall t | 0 <= t <= |leaves| ensures WrittenAt(c', leaves + [child], nodes, depth, start, unit, t) {
      if t < |leaves| {
        assert WrittenAt(c, leaves, nodes, depth, start, unit, t);
        PartsGrow(nodes, depth, start, unit, t + 1, |leaves|);
        StillWritten(c, c', leaves, leaves + [child], nodes, depth, start, unit, t);
      }
    }
  }

  lemma StillWritten(c: seq<AlexNode>, c': seq<AlexNode>, leaves: seq<AlexNode>, leaves': seq<AlexNode>,
                     nodes: seq<FTNode>, depth: nat, start: nat, unit: nat, t: nat)
    requires Tiles(nodes, depth) && t < |leaves| <= |leaves'| && t < |nodes| && leaves'[t] == leaves[t] && |c'| == |c|
    requires WrittenAt(c, leaves, nodes, depth, start, unit, t)
    requires forall j :: 0 <= j < |c| && j < PartStart(nodes, depth, start, unit, t + 1) ==> c'[j] == c[j]
    ensures WrittenAt(c', leaves', nodes, depth, start, unit, t)
  {
    hide PartStart, Tiles;
  }

  lemma {:induction false} PartsGrow(nodes: seq<FTNode>, depth: nat, start: nat, unit: nat, s: nat, t: nat)
    requires Tiles(nodes, depth) && s <= t <= |nodes|
    ensures PartStart(nodes, depth, start, unit, s) <= PartStart(nodes, depth, start, unit, t)
  {
    hide PartStart, Tiles;
    if s < t {
      PartsGrow(nodes, depth, start, unit, s, t - 1);
      PartStarts(nodes, depth, start, unit, t - 1);
    }
  }

  lemma SpreadSome(c: seq<AlexNode>, leaves: seq<AlexNode>)
    requires SpreadOver(c, leaves)
    ensures leaves != []
  {
  }

  /** The pointers written so far, and those to one more leaf. */
  lemma MoreSpread(c: seq<AlexNode>, c': seq<AlexNode>, start: nat, cur: nat, m: nat, leaves: seq<AlexNode>,
                   child: AlexNode)
    requires m > 0 && start <= cur && cur + m <= |c| == |c'|
    requires forall j :: 0 <= j < |c| ==> c'[j] == if cur <= j < cur + m then child else c[j]
    requires if leaves == [] then cur == start else SpreadOver(c[start..cur], leaves)
    ensures SpreadOver(c'[start..cur + m], leaves + [child])
  {
    hide SpreadOver;
    assert c'[start..cur + m] == c[start..cur] + seq(m, _ => child);
    SpreadMore(c[start..cur], leaves, m, child);
  }

  lemma MoreKeys(leaves: seq<AlexNode>, child: AlexNode, keys: seq<int>, left: nat, right: nat)
    requires left <= right <= |keys| && AllKeys(leaves) == keys[..left] && child.keys == keys[left..right]
    ensures AllKeys(leaves + [child]) == keys[..right]
  {
    assert (leaves + [child])[..|leaves|] == leaves;
    assert keys[..left] + keys[left..right] == keys[..right];
  }

  /** One more leaf, with the keys of the next node. */
  lemma OneMore(leaves: seq<AlexNode>, nodes: seq<FTNode>, keys: seq<int>, depth: nat, extra: nat, child: AlexNode)
    requires NewLeaves(leaves) && forall x :: x in leaves ==> x.links != child.links
    requires Made(leaves, nodes, keys, depth, extra) && |leaves| < |nodes|
    requires MadeFrom(child, nodes[|leaves|], keys, depth, extra) && AllKeys(leaves) == keys[..nodes[|leaves|].left]
    ensures NewLeaves(leaves + [child]) && Made(leaves + [child], nodes, keys, depth, extra)
    ensures AllKeys(leaves + [child]) == keys[..nodes[|leaves|].right]
  {
    hide NewLeaves, Made, AllKeys, Pow2;
    MoreKeys(leaves, child, keys, nodes[|leaves|].left, nodes[|leaves|].right);
    MoreLeaves(leaves, child);
    MoreMade(leaves, nodes, keys, depth, extra, child);
  }

  lemma ScaledRun(c: seq<AlexNode>, c': seq<AlexNode>, bucket: nat, at: nat, f: nat, size: nat, size': nat)
    requires f > 0 && Repeated(c, c', f) && bucket < |c| && size > 0 && at == Times(bucket, f)
             && size' == Times(size, f)
    ensures at < |c'| && c'[at] == c[bucket] && size' > 0
    ensures RunScaled(Start(bucket, size), size, Start(at, size'), size', f)
  {
    hide Start, Repeated, Times;
    TimesIs(bucket, f);
    TimesIs(size, f);
    TimesIs(Start(bucket, size), f);
    MulBelow(bucket, |c|, f);
    QuotientIs(at, f, bucket);
    RunExpands(at, size, f);
    RepeatedAt(c, c', f, at);
  }

  // ---- Halves of aligned blocks

  lemma BlockFits(i: nat, lo: nat, p: nat, n: nat)
    requires p > 0 && lo % p == 0 && lo <= i < n * p
    ensures lo + p <= n * p
  {
    var q := lo / p;
    assert lo == q * p;
    assert q >= n ==> (q - n) * p >= 0;
    MulBelow(q, n, p);
  }

  /** A block of `p` places, a smaller power of two, lies within the array. */
  lemma BlockWithin(i: nat, p: nat, m: nat)
    requires p > 0 && i < m * p
    ensures Start(i, p) % p == 0 && Start(i, p) + p <= m * p
  {
    hide Start;
    StartAligned(i, p);
    BlockFits(i, Start(i, p), p, m);
  }

  lemma TwoHalvesOf(i: nat, p: nat)
    requires p > 0
    ensures i % (2 * p) == i % p || i % (2 * p) == i % p + p
    ensures (i - i % (2 * p)) % p == 0
  {
    var q := i / (2 * p);
    var twice := 2 * q;
    assert q * (2 * p) == twice * p;
    assert (twice + 1) * p == twice * p + p && (twice + 2) * p == twice * p + 2 * p;
    QuotientIs(twice * p, p, twice);
    if i < twice * p + p {
      QuotientIs(i, p, twice);
    } else {
      QuotientIs(i, p, twice + 1);
    }
  }

  lemma WhichHalf(i: nat, p: nat)
    requires p > 0
    ensures Start(i, 2 * p) % p == 0
    ensures i % (2 * p) == i % p ==> Start(i, p) == Start(i, 2 * p)
    ensures i % (2 * p) != i % p ==> Start(i, p) == Start(i, 2 * p) + p
  {
    hide Start;
    StartAligned(i, p);
    StartAligned(i, 2 * p);
    TwoHalvesOf(i, p);
  }

  lemma SameBlock(i: nat, j: nat, p: nat)
    requires p > 0 && Start(i, p) <= j < Start(i, p) + p
    ensures Start(j, p) == Start(i, p)
  {
    hide Start;
    StartAligned(i, p);
    assert Start(i, p) == Start(i, p) / p * p;
    StartIs(j, p, Start(i, p) / p);
  }

  /** The place beside one half of a block is in the other half. */
  lemma Beside(start: nat, beside: nat, lo: nat, p: nat)
    requires p > 0 && lo % p == 0
    requires (start == lo && beside == lo + p) || (start == lo + p && beside == start - 1)
    ensures Start(beside, p) == lo + lo + p - start
  {
    hide Start;
    var q := lo / p;
    assert lo == q * p && (q + 1) * p == q * p + p;
    StartIs(beside, p, if start == lo then q + 1 else q);
  }

  /** Every key is kept at the child that the model finds for it. */
  ghost predicate Homes(c: seq<AlexNode>, a: real, b: real) {
    forall i, k :: 0 <= i < |c| && k in c[i].keys ==> c[Bucket(a, b, |c|, k)] == c[i]
  }

  /** A pointer to the leaf and one to the leaf on this side of it lie next to each other. */
  ghost predicate Touch(c: seq<AlexNode>, leaf: AlexNode, adjacent: AlexNode, toRight: bool) {
    exists j :: 0 < j < |c| && Borders(c, j, leaf, adjacent, toRight)
  }

  ghost predicate Borders(c: seq<AlexNode>, j: nat, leaf: AlexNode, adjacent: AlexNode, toRight: bool)
    requires 0 < j < |c|
  {
    leaf != adjacent && c[j - 1] == (if toRight then leaf else adjacent) && c[j] == (if toRight then adjacent else leaf)
  }

  lemma TouchAt(c: seq<AlexNode>, j: nat, leaf: AlexNode, adjacent: AlexNode, toRight: bool)
    requires 0 < j < |c| && Borders(c, j, leaf, adjacent, toRight)
    ensures Touch(c, leaf, adjacent, toRight)
  {
  }

  /** Then they are neighbours in the list. */
  lemma TouchIn(c: seq<AlexNode>, list: seq<AlexNode>, e: Ends, leaf: AlexNode, adjacent: AlexNode, toRight: bool)
    returns (at: nat)
    requires Touch(c, leaf, adjacent, toRight) && Edged(c, list, e, NoEnds) && leaf.isLeaf && adjacent.isLeaf
    ensures at < |list| && list[at] == leaf
    ensures adjacent == if toRight then Following(list, at) else Prior(list, at)
  {
    var j :| 0 < j < |c| && Borders(c, j, leaf, adjacent, toRight);
    assert JointAt(c, list, NoEnds, j);
    var i :| 0 <= i < |list| && list[i] == c[j - 1] && Following(list, i) == c[j];
    at := if toRight then i else i + 1;
  }

  class AlexModelNode {
    /** The node as a child of its own parent. */
    const node: AlexNode
    var children: array<AlexNode>
    var a: real
    var b: real
    ghost var logChildren: nat

    constructor (node: AlexNode, children: array<AlexNode>, a: real, b: real, ghost logChildren: nat)
      ensures this.node == node && this.children == children && this.a == a && this.b == b
              && this.logChildren == logChildren
    {
      this.node, this.children, this.a, this.b, this.logChildren := node, children, a, b, logChildren;
    }

    ghost predicate Valid()
      reads this, children, children[..]
    {
      && a > 0.0 && children.Length == Pow2(logChildren)
      && Runs(children[..], Factors(children[..])) && Homes(children[..], a, b)
    }

    lemma Positive()
      requires Valid()
      ensures a > 0.0 && children.Length > 0
    {
    }

    function Route(key: int): nat
      requires children.Length > 0
      reads this
      ensures Route(key) < children.Length
    {
      Bucket(a, b, children.Length, key)
    }

    /** The child responsible for a key. */
    function GetChildNode(key: int): AlexNode
      requires children.Length > 0
      reads this, children
    {
      children[Route(key)]
    }

    /** Repeated pointers and a scaled model leave every key with its child, and so every child with its keys. */
    lemma Expanded(c: seq<AlexNode>, a0: real, b0: real, f: nat)
      requires a > 0.0 && f > 0 && children.Length == Pow2(logChildren) && c != []
      requires Repeated(c, children[..], f) && Runs(children[..], Factors(children[..])) && ModelScaled(a0, b0, a, b, f)
      requires Homes(c, a0, b0)
      ensures Valid() && forall k :: GetChildNode(k) == c[Bucket(a0, b0, |c|, k)]
    {
      hide Pow2, Bucket, Runs, ModelScaled;
      var c' := children[..];
      forall k ensures GetChildNode(k) == c[Bucket(a0, b0, |c|, k)] {
        SameChild(c, c', f, a0, b0, a, b, k);
        assert GetChildNode(k) == c'[Bucket(a, b, |c'|, k)];
      }
      forall i, k | 0 <= i < |c'| && k in c'[i].keys ensures c'[Bucket(a, b, |c'|, k)] == c'[i] {
        assert c'[i] == c[i / f];
        assert GetChildNode(k) == c[i / f];
      }
    }

    /** `2^log2` pointers for every one: every key keeps its child. */
    method Expand(log2: nat) returns (factor: nat)
      requires Valid()
      modifies this, children[..]
      ensures Valid() && fresh(children) && factor == Pow2(log2) && logChildren == old(logChildren) + log2
      ensures ModelScaled(old(a), old(b), a, b, factor)
      ensures Repeated(old(children[..]), children[..], factor)
      ensures forall c :: c in old(children[..]) ==> c.duplicationFactor == old(c.duplicationFactor) + log2
      ensures forall k :: GetChildNode(k) == old(GetChildNode(k))
    {
      hide Pow2, Bucket, Runs, Repeated, ModelScaled, Homes, Valid, GetChildNode, Scale;
      InPlace();
      factor := Pow2(log2);
      ghost var c := children[..];
      var newChildren := RepeatPointers(log2, factor);
      ScaleUp(factor);
      ghost var c' := newChildren[..];
      children, a, b, logChildren := newChildren, Scale(a, factor), Scale(b, factor), logChildren + log2;
      assert children[..] == c';
      Expanded(c, old(a), old(b), factor);
    }

    lemma InPlace()
      requires Valid()
      ensures a > 0.0 && children.Length == Pow2(logChildren) > 0 && Homes(children[..], a, b)
      ensures forall k :: GetChildNode(k) == children[..][Bucket(a, b, |children[..]|, k)]
    {
    }

    lemma ScaleUp(factor: nat)
      requires a > 0.0 && factor > 0
      ensures Scale(a, factor) > 0.0 && ModelScaled(a, b, Scale(a, factor), Scale(b, factor), factor)
    {
    }

    /** The expanded pointer array; the duplication factors grow. */
    method RepeatPointers(log2: nat, factor: nat) returns (newChildren: array<AlexNode>)
      requires Valid() && factor == Pow2(log2)
      modifies children[..]
      ensures fresh(newChildren) && Repeated(old(children[..]), newChildren[..], factor)
      ensures newChildren.Length == Pow2(logChildren + log2)
      ensures Runs(newChildren[..], Factors(newChildren[..]))
      ensures forall c :: c in old(children[..]) ==> c.duplicationFactor == old(c.duplicationFactor) + log2
    {
      hide Pow2, Start, Bucket, Copied, RunCopied, Repeated, Runs, Times, CutBetween;
      var n := children.Length;
      NotCut(children[..]);
      assert Runs(children[..], Factors(children[..]));
      Pow2Times(logChildren, log2);
      TimesIs(n, factor);
      ghost var c, d := children[..], Factors(children[..]);
      var first := children[0];
      newChildren := new AlexNode[Times(n, factor)](_ => first);
      NoneCopied(c, newChildren[..], factor);
      var cur := 0;
      while cur < n
        invariant 0 <= cur <= n && n == children.Length == |c| && c == children[..] && fresh(newChildren)
        invariant newChildren.Length == Times(n, factor) && Copied(c, newChildren[..], factor, cur)
        invariant CutBetween(c, cur)
        invariant forall i :: 0 <= i < n ==> c[i].duplicationFactor == if i < cur then d[i] + log2 else d[i]
      {
        var child := children[cur];
        var repeats := Pow2(child.duplicationFactor);
        RunFrom(c, d, cur);
        ghost var before := newChildren[..];
        CopyRun(newChildren, child, factor, cur, repeats, n);
        CopiedMore(c, before, newChildren[..], child, factor, cur, repeats);
        child.duplicationFactor := child.duplicationFactor + log2;
        cur := cur + repeats;
      }
      RunsRepeated(c, d, newChildren[..], log2);
    }

    /** Writes the pointers of one run of the expanded node. */
    method CopyRun(to: array<AlexNode>, child: AlexNode, factor: nat, cur: nat, repeats: nat, n: nat)
      requires factor > 0 && cur + repeats <= n && to.Length == Times(n, factor)
      modifies to
      ensures RunCopied(old(to[..]), to[..], child, factor, cur, repeats)
    {
      hide Times;
      TimesIs(n, factor);
      MulAtMost(cur + repeats, n, factor);
      MulAtMost(cur, cur + repeats, factor);
      for i := factor * cur to factor * (cur + repeats)
        invariant forall j :: 0 <= j < to.Length ==> to[j] == if factor * cur <= j < i then child else old(to[j])
      {
        to[i] := child;
      }
      forall j | 0 <= j < to.Length
        ensures cur <= j / factor < cur + repeats <==> factor * cur <= j < factor * (cur + repeats)
      {
        QuotientBelow(j, factor, cur);
        QuotientBelow(j, factor, cur + repeats);
      }
    }

    method FillRun(from: nat, to: nat, child: AlexNode)
      requires from <= to <= children.Length
      modifies children
      ensures forall j :: 0 <= j < children.Length ==> children[j] == if from <= j < to then child else old(children[j])
    {
      for i := from to to
        invariant forall j :: 0 <= j < children.Length ==>
                  children[j] == if from <= j < i then child else old(children[j])
      {
        children[i] := child;
      }
    }

    /** The run of a leaf. */
    ghost predicate RunOf(leaf: AlexNode, start: nat, size: nat)
      reads this, children
    {
      && size > 0 && start % size == 0 && start + size <= children.Length
      && forall j :: 0 <= j < children.Length ==> (children[j] == leaf <==> start <= j < start + size)
    }

    /** The new leaf for a node of the fanout tree, and its run from pointer `cur` on. */
    method NewRun(keys: seq<int>, depth: nat, nodes: seq<FTNode>, start: nat, extra: nat, t: nat, cur: nat)
      returns (child: AlexNode, repeats: nat)
      requires Parts(nodes, depth, keys, a, b, start, Pow2(extra)) && t < |nodes| && Tiles(nodes, depth)
      requires cur == PartStart(nodes, depth, start, Pow2(extra), t) && start % Pow2(depth + extra) == 0
      requires 0 < start + Pow2(depth) * Pow2(extra) <= children.Length
      requires forall k :: k in keys ==>
                 start <= Bucket(a, b, children.Length, k) < start + Pow2(depth) * Pow2(extra)
      modifies children
      ensures fresh(child) && fresh(child.links) && MadeFrom(child, nodes[t], keys, depth, extra)
      ensures repeats == Pow2(child.duplicationFactor) > 0 && cur % repeats == 0
      ensures cur + repeats == PartStart(nodes, depth, start, Pow2(extra), t + 1) <= children.Length
      ensures forall k :: k in child.keys ==> cur <= Bucket(a, b, children.Length, k) < cur + repeats
      ensures forall j :: 0 <= j < children.Length ==>
                children[j] == if cur <= j < cur + repeats then child else old(children[j])
    {
      hide Pow2, Covered, Bucket, PartStart, Tiles, CutAt, Parts;
      PartIn(nodes, depth, keys, a, b, start, Pow2(extra), t);
      PartStarts(nodes, depth, start, Pow2(extra), t);
      var duplicationFactor := depth - nodes[t].level + extra;
      repeats := Pow2(duplicationFactor);
      child := new AlexNode(true, keys[nodes[t].left..nodes[t].right], duplicationFactor);
      PartAligned(nodes, depth, start, extra, t);
      KeysSlice(keys, nodes, depth, a, b, children.Length, start, Pow2(extra), t);
      FillRun(cur, cur + repeats, child);
    }

    /** Divides the keys of a leaf among new leaves, one for each node of the fanout tree, in the leaf's run. */
    method CreateNewDataNodes(leaf: AlexNode, depth: nat, nodes: seq<FTNode>, start: nat, extra: nat)
      returns (leaves: seq<AlexNode>)
      requires Valid() && RunOf(leaf, start, Pow2(depth + extra))
      requires Parts(nodes, depth, leaf.keys, a, b, start, Pow2(extra))
      modifies children
      ensures Valid() && AllKeys(leaves) == leaf.keys && NewLeaves(leaves)
      ensures forall x :: x in leaves ==> fresh(x) && fresh(x.links)
      ensures forall j :: 0 <= j < children.Length ==>
                if start <= j < start + Pow2(depth + extra) then children[j] in leaves
                    else children[j] == old(children[j])
      ensures SpreadOver(children[start..start + Pow2(depth + extra)], leaves)
      ensures |leaves| == |nodes| && Made(leaves, nodes, leaf.keys, depth, extra)
      ensures Written(children[..], leaves, nodes, depth, start, Pow2(extra))
    {
      hide Pow2, Covered, Bucket, PartStart, Tiles, Start, Settled, CutAt, AllKeys, Runs, Homes, Parts, SpreadOver;
      hide NewLeaves, Made, MadeFrom, Written;
      PartsStart(nodes, depth, leaf.keys, a, b, start, Pow2(extra));
      LeafKeys(leaf, start, Pow2(depth + extra));
      assert AllKeys([]) == leaf.keys[..0] by {
        NoKeys();
      }
      NoLeaves();
      NoneMade(children[..], nodes, leaf.keys, depth, start, extra);
      ghost var c, d, unit := children[..], Factors(children[..]), Pow2(extra);
      Pow2Add(depth, extra);
      PartStarts(nodes, depth, start, unit, 0);
      var cur, t := start, 0;
      leaves := [];
      ghost var done := 0;
      while t < |nodes|
        invariant t <= |nodes| && cur == PartStart(nodes, depth, start, unit, t) >= start
        invariant cur <= start + Pow2(depth) * unit
        invariant NewLeaves(leaves) && forall x :: x in leaves ==> fresh(x) && fresh(x.links)
        invariant forall j :: 0 <= j < |c| && !(start <= j < cur) ==> children[j] == c[j]
        invariant forall j :: start <= j < cur ==>
                    children[j] in leaves && Settled(children[..], j, Pow2(children[j].duplicationFactor), a, b,
                                                     start, cur)
        invariant if leaves == [] then cur == start else cur > start && SpreadOver(children[start..cur], leaves)
        invariant done == (if t == |nodes| then |leaf.keys| else nodes[t].left) <= |leaf.keys|
        invariant AllKeys(leaves) == leaf.keys[..done] && |leaves| == t
        invariant Made(leaves, nodes, leaf.keys, depth, extra)
        invariant Written(children[..], leaves, nodes, depth, start, unit)
      {
        PartIn(nodes, depth, leaf.keys, a, b, start, unit, t);
        PartStarts(nodes, depth, start, unit, t);
        ghost var before := children[..];
        var child, repeats := NewRun(leaf.keys, depth, nodes, start, extra, t, cur);
        StillSettled(before, start, cur, child);
        OneMore(leaves, nodes, leaf.keys, depth, extra, child);
        MoreWritten(before, children[..], leaves, nodes, depth, start, unit, child);
        MoreSpread(before, children[..], start, cur, repeats, leaves, child);
        done := nodes[t].right;
        leaves, cur, t := leaves + [child], cur + repeats, t + 1;
      }
      SplitIsValid(c, d, start, start + Pow2(depth) * unit, leaf);
    }

    lemma StillSettled(before: seq<AlexNode>, start: nat, cur: nat, child: AlexNode)
      requires var p := Pow2(child.duplicationFactor);
               && |before| == children.Length && start <= cur && cur + p <= |before| && cur % p == 0 && child !in before
               && (forall j :: 0 <= j < |before| ==> children[j] == if cur <= j < cur + p then child else before[j])
               && (forall k :: k in child.keys ==> cur <= Bucket(a, b, |before|, k) < cur + p)
      requires forall j :: start <= j < cur ==> Settled(before, j, Pow2(before[j].duplicationFactor), a, b, start, cur)
      ensures forall j :: start <= j < cur + Pow2(child.duplicationFactor) ==>
                Settled(children[..], j, Pow2(children[j].duplicationFactor), a, b, start, cur
                    + Pow2(child.duplicationFactor))
    {
      hide Pow2, Bucket, Settled;
      var p := Pow2(child.duplicationFactor);
      forall j | start <= j < cur + p
        ensures Settled(children[..], j, Pow2(children[j].duplicationFactor), a, b, start, cur + p)
      {
        if j < cur {
          SettledKept(before, children[..], j, Pow2(children[j].duplicationFactor), a, b, start, cur, cur + p);
        } else {
          SettledNew(before, children[..], j, p, a, b, start, cur, child);
        }
      }
    }

    lemma LeafKeys(leaf: AlexNode, start: nat, size: nat)
      requires Valid() && RunOf(leaf, start, size)
      ensures forall k :: k in leaf.keys ==> start <= Route(k) < start + size
    {
      hide Pow2, Bucket, Runs;
      assert children[..][start] == leaf;
      assert forall k :: k in leaf.keys ==> children[..][Route(k)] == leaf;
    }

    lemma SplitIsValid(c: seq<AlexNode>, d: seq<nat>, lo: nat, hi: nat, leaf: AlexNode)
      requires a > 0.0 && children.Length == |c| == |d| == Pow2(logChildren) && Runs(c, d) && lo <= hi <= |c|
      requires forall j :: 0 <= j < |c| ==> (c[j] == leaf <==> lo <= j < hi)
      requires Homes(c, a, b)
      requires forall j :: 0 <= j < |c| && !(lo <= j < hi) ==>
               children[j] == c[j] && children[j].duplicationFactor == d[j]
      requires forall j :: lo <= j < hi ==>
                 children[j] !in c && Settled(children[..], j, Pow2(children[j].duplicationFactor), a, b, lo, hi)
      ensures Valid()
    {
      hide Pow2, Bucket, Start;
      SplitRuns(c, d, children[..], Factors(children[..]), lo, hi, leaf);
      var c' := children[..];
      forall i, k | 0 <= i < |c'| && k in c'[i].keys ensures c'[Bucket(a, b, |c'|, k)] == c'[i] {
        if lo <= i < hi {
          assert Settled(c', i, Pow2(children[i].duplicationFactor), a, b, lo, hi);
        } else {
          assert c[Bucket(a, b, |c|, k)] == c[i];
        }
      }
    }

    /** Key that the model puts exactly at the start of a bucket. */
    function Boundary(bucket: nat): real
      requires a > 0.0
      reads this
    {
      (bucket as real - b) / a
    }

    ghost function RunSize(bucket: nat): nat
      requires bucket < children.Length
      reads this, children, children[..]
      ensures RunSize(bucket) > 0
    {
      Pow2(children[bucket].duplicationFactor)
    }

    ghost function RunStart(bucket: nat): nat
      requires bucket < children.Length
      reads this, children, children[..]
    {
      Start(bucket, RunSize(bucket))
    }

    /** The keys that the run of the child in a bucket begins and ends with. */
    ghost function LeftEdge(bucket: nat): real
      requires a > 0.0 && bucket < children.Length
      reads this, children, children[..]
    {
      Boundary(RunStart(bucket))
    }

    ghost function RightEdge(bucket: nat): real
      requires a > 0.0 && bucket < children.Length
      reads this, children, children[..]
    {
      Boundary(RunStart(bucket) + RunSize(bucket))
    }

    /** The nodes are parts of the run of the child in a bucket, cut by a fanout tree. */
    ghost predicate FromFanoutTree(bucket: nat, nodes: seq<FTNode>)
      requires a > 0.0 && bucket < children.Length
      reads this, children, children[..]
    {
      CutBy(children[bucket].keys, nodes, LeftEdge(bucket), RightEdge(bucket))
    }

    static ghost predicate CutBy(keys: seq<int>, nodes: seq<FTNode>, lv: real, rv: real) {
      lv < rv && forall t :: 0 <= t < |nodes| ==> nodes[t] == FanoutNode(keys, lv, rv, nodes[t].level, nodes[t].id)
    }

    lemma BoundariesGrow(m: nat, m': nat)
      requires a > 0.0 && m < m'
      ensures Boundary(m) < Boundary(m') && AtBucket(a, b, Boundary(m), m) && AtBucket(a, b, Boundary(m'), m')
    {
      var x, y := Boundary(m), Boundary(m');
      assert a * (y - x) == (m' - m) as real;
      assert y <= x ==> a * (x - y) >= 0.0;
    }

    lemma RunHere(bucket: nat)
      requires Valid() && bucket < children.Length
      ensures var leaf := children[bucket];
              var size := Pow2(leaf.duplicationFactor);
              RunOf(leaf, Start(bucket, size), size)
    {
      hide Pow2, Start;
      StartAligned(bucket, Pow2(children[bucket].duplicationFactor));
      assert RunAt(children[..], bucket, Pow2(children[bucket].duplicationFactor));
    }

    /** `2^depth` pointers to the leaf in a bucket. */
    method ExpandTo(bucket: nat, depth: nat) returns (at: nat, ghost f: nat)
      requires Valid() && bucket < children.Length && children[bucket].duplicationFactor < depth
      modifies this, children[..]
      ensures Valid() && fresh(children) && ModelScaled(old(a), old(b), a, b, f)
      ensures at < children.Length && children[at] == old(children[bucket]) && children[at].duplicationFactor == depth
      ensures RunScaled(old(RunStart(bucket)), old(RunSize(bucket)), RunStart(at), RunSize(at), f)
      ensures forall k :: GetChildNode(k) == old(GetChildNode(k))
      ensures Stretched(old(children[..]), children[..])
    {
      hide Pow2, Start, Bucket, Repeated, ModelScaled, RunScaled, Valid, Times;
      Positive();
      var was := children[bucket].duplicationFactor;
      var factor := Expand(depth - was);
      f := factor;
      at := Times(bucket, factor);
      Pow2Times(was, depth - was);
      ScaledRun(old(children[..]), children[..], bucket, at, f, Pow2(was), Pow2(depth));
    }

    /** At least `2^depth` pointers to the leaf in a bucket. */
    method EnoughPointers(bucket: nat, depth: nat) returns (at: nat, ghost f: nat)
      requires Valid() && bucket < children.Length
      modifies this, children[..]
      ensures Valid() && (children == old(children) || fresh(children)) && ModelScaled(old(a), old(b), a, b, f)
      ensures at < children.Length && children[at] == old(children[bucket])
      ensures children[at].duplicationFactor == MaxNat(old(children[bucket].duplicationFactor), depth)
      ensures RunScaled(old(RunStart(bucket)), old(RunSize(bucket)), RunStart(at), RunSize(at), f)
      ensures forall k :: GetChildNode(k) == old(GetChildNode(k))
      ensures Stretched(old(children[..]), children[..])
    {
      hide Pow2, Start, Bucket, ModelScaled, RunScaled, Valid, RunStart, Stretched;
      Positive();
      var fanout, repeats := Pow2(depth), Pow2(children[bucket].duplicationFactor);
      if depth <= children[bucket].duplicationFactor {
        Pow2Grows(depth, children[bucket].duplicationFactor);
      } else {
        Pow2Strict(children[bucket].duplicationFactor, depth);
      }
      if fanout > repeats {
        at, f := ExpandTo(bucket, depth);
      } else {
        f, at := 1, bucket;
        NotStretched(children[..]);
        NotScaled(RunStart(bucket), repeats);
      }
    }

    /** The run that a leaf has once there are enough pointers to it, between the keys where it was before. */
    method RunToSplit(bucket: nat, depth: nat) returns (start: nat, size: nat, ghost f: nat)
      requires Valid() && bucket < children.Length
      modifies this, children[..]
      ensures var leaf := old(children[bucket]);
              && Valid() && RunOf(leaf, start, size) && size == Pow2(leaf.duplicationFactor)
                 && leaf.duplicationFactor == MaxNat(old(leaf.duplicationFactor), depth)
      ensures RunScaled(old(RunStart(bucket)), old(RunSize(bucket)), start, size, f)
      ensures children == old(children) || fresh(children)
      ensures forall k :: GetChildNode(k) == old(GetChildNode(k))
      ensures AtBucket(a, b, old(LeftEdge(bucket)), start) && AtBucket(a, b, old(RightEdge(bucket)), start + size)
      ensures Stretched(old(children[..]), children[..])
    {
      hide Pow2, Start, Bucket, ModelScaled, RunScaled, Valid, RunOf, Boundary, AtBucket, Stretched;
      Positive();
      ghost var size0, start0, lv, rv := RunSize(bucket), RunStart(bucket), LeftEdge(bucket), RightEdge(bucket);
      BoundariesGrow(start0, start0 + size0);
      var at;
      at, f := EnoughPointers(bucket, depth);
      RunHere(at);
      size := Pow2(children[at].duplicationFactor);
      start := Start(at, size);
      EdgesScale(old(a), old(b), a, b, start0, size0, start, size, f, lv, rv);
    }

    lemma NotScaled(start: nat, size: nat)
      ensures ModelScaled(a, b, a, b, 1) && RunScaled(start, size, start, size, 1)
    {
      TimesIs(start, 1);
      TimesIs(size, 1);
    }

    /** A leaf gives way to new leaves beside it. Every key of it moves to the new leaf that it is now looked up in, and
        keys elsewhere keep their child. Without nodes of a fanout tree the new leaves are two. In the list of all
        leaves they take the place of the old one, in the order of the pointers to them. */
    method SplitSideways(bucket: nat, depth: nat, used: seq<FTNode>, ghost list: seq<AlexNode>, ghost at: nat,
                         ghost e: Ends)
      returns (ghost leaves: seq<AlexNode>, ghost start: nat, ghost f: nat)
      requires Valid() && bucket < children.Length && Sorted(children[bucket].keys) && depth >= 1
      requires if used == [] then depth == 1 else Tiles(used, depth) && FromFanoutTree(bucket, used)
      requires Linked(list) && at < |list| && list[at] == children[bucket] && list[at].isLeaf
      requires Edged(children[..], list, e, NoEnds)
      modifies this, children, children[..], Links(list)
      ensures Valid() && AllKeys(leaves) == old(children[bucket]).keys && leaves != []
      ensures forall x :: x in leaves ==> fresh(x) && x.isLeaf
      ensures forall k :: if old(GetChildNode(k)) == old(children[bucket]) then GetChildNode(k) in leaves
                          else GetChildNode(k) == old(GetChildNode(k))
      ensures Linked(Substituted(list, at, leaves)) && AllKeys(Substituted(list, at, leaves)) == AllKeys(list)
      ensures Edged(children[..], Substituted(list, at, leaves), Divided(e, list[at], leaves), NoEnds)
      ensures old(a) > 0.0 &&
              var leaf, d := old(children[bucket]), old(children[bucket].duplicationFactor);
              var nodes := NodesFor(leaf.keys, used, old(LeftEdge(bucket)), old(RightEdge(bucket)));
              && DividedBy(leaves, children[..], nodes, leaf.keys, depth, start, MaxNat(d, depth) - depth)
              && RunScaled(old(RunStart(bucket)), old(RunSize(bucket)), start, Pow2(MaxNat(d, depth)), f)
    {
      hide Valid, Linked, Edged, GetChildNode, AllKeys, Substituted, LinksApart, DividedBy, RunScaled, NodesFor, Pow2;
      hide LeftEdge, RightEdge, RunStart, RunSize, Tiles, Made, Written, Sorted, FromFanoutTree, Divided;
      Positive();
      var leaf := children[bucket];
      LinkedApart(list);
      var made;
      made, start, f := SplitRun(bucket, depth, used, list, at, e);
      LinkNewLeaves(leaf, made, list, at);
      KeysSubstituted(list, at, made);
      leaves := made;
    }

    /** The pointers to the new leaves. */
    method SplitRun(bucket: nat, depth: nat, used: seq<FTNode>, ghost list: seq<AlexNode>, ghost at: nat, ghost e: Ends)
      returns (leaves: seq<AlexNode>, ghost start: nat, ghost f: nat)
      requires Valid() && bucket < children.Length && Sorted(children[bucket].keys) && depth >= 1
      requires if used == [] then depth == 1 else Tiles(used, depth) && FromFanoutTree(bucket, used)
      requires LinksApart(list) && at < |list| && list[at] == children[bucket] && list[at].isLeaf
      requires Edged(children[..], list, e, NoEnds)
      modifies this, children, children[..]
      ensures Valid() && AllKeys(leaves) == old(children[bucket]).keys && NewLeaves(leaves) && leaves != []
      ensures forall x :: x in leaves ==> fresh(x) && fresh(x.links)
      ensures forall k :: if old(GetChildNode(k)) == old(children[bucket]) then GetChildNode(k) in leaves
                          else GetChildNode(k) == old(GetChildNode(k))
      ensures Edged(children[..], Substituted(list, at, leaves), Divided(e, list[at], leaves), NoEnds)
      ensures old(a) > 0.0 &&
              var leaf, d := old(children[bucket]), old(children[bucket].duplicationFactor);
              var nodes := NodesFor(leaf.keys, used, old(LeftEdge(bucket)), old(RightEdge(bucket)));
              && DividedBy(leaves, children[..], nodes, leaf.keys, depth, start, MaxNat(d, depth) - depth)
              && RunScaled(old(RunStart(bucket)), old(RunSize(bucket)), start, Pow2(MaxNat(d, depth)), f)
    {
      hide Pow2, Start, Bucket, Parts, Tiles, Valid, LeftEdge, RightEdge, AtBucket, CutBy, Edged, Stretched, SpreadOver;
      hide Substituted, Made, Written, RunScaled;
      Positive();
      var leaf := children[bucket];
      ghost var c, lv, rv := children[..], LeftEdge(bucket), RightEdge(bucket);
      var start', size;
      start', size, f := RunToSplit(bucket, depth);
      start := start';
      Positive();
      ghost var c' := children[..];
      StretchedEdged(c, c', list, e, NoEnds);
      var extra := leaf.duplicationFactor - depth;
      var nodes := NodesInUse(leaf, used, depth, start', size, extra, lv, rv);
      leaves := CreateNewDataNodes(leaf, depth, nodes, start', extra);
      PartsTile(nodes, depth, leaf.keys, a, b, start', Pow2(extra));
      SpreadSome(children[start..start + size], leaves);
      EdgedDivided(c', children[..], start, start + size, list, e, at, leaves);
    }

    /** The given nodes; without any, two halves cut where the middle bucket begins. */
    method NodesInUse(leaf: AlexNode, used: seq<FTNode>, depth: nat, start: nat, size: nat, extra: nat,
                      ghost lv: real, ghost rv: real) returns (nodes: seq<FTNode>)
      requires a > 0.0 && Sorted(leaf.keys) && size == Pow2(depth + extra)
      requires if used == [] then depth == 1 else Tiles(used, depth) && CutBy(leaf.keys, used, lv, rv)
      requires AtBucket(a, b, lv, start) && AtBucket(a, b, rv, start + size)
      ensures Parts(nodes, depth, leaf.keys, a, b, start, Pow2(extra)) && nodes == NodesFor(leaf.keys, used, lv, rv)
    {
      hide Pow2, Parts, Tiles, Boundary, AtBucket, CutBy;
      nodes := used;
      if used == [] {
        var mid := start + size / 2;
        var right := LowerBound(leaf.keys, Boundary(mid));
        nodes := [FTNode(1, 0, 0, right), FTNode(1, 1, right, |leaf.keys|)];
        Midway(start, extra, mid, lv, rv);
        TwoHalves(leaf.keys, start, extra, mid);
      } else {
        TreeParts(leaf.keys, used, depth, start, extra, lv, rv);
      }
    }

    lemma TreeParts(keys: seq<int>, used: seq<FTNode>, depth: nat, start: nat, extra: nat, lv: real, rv: real)
      requires Tiles(used, depth) && Sorted(keys) && a > 0.0 && CutBy(keys, used, lv, rv)
      requires AtBucket(a, b, lv, start) && AtBucket(a, b, rv, start + Pow2(depth + extra))
      ensures Parts(used, depth, keys, a, b, start, Pow2(extra))
    {
      hide Tiles, Pow2, FanoutNode;
      Pow2Add(depth, extra);
      FanoutParts(used, depth, keys, a, b, lv, rv, start, Pow2(extra));
    }

    lemma Midway(start: nat, extra: nat, mid: nat, lv: real, rv: real)
      requires a > 0.0 && mid == start + Pow2(1 + extra) / 2
      requires AtBucket(a, b, lv, start) && AtBucket(a, b, rv, start + Pow2(1 + extra))
      ensures Boundary(mid) == (lv + rv) / 2.0
    {
      var x, y, p := Boundary(mid), (lv + rv) / 2.0, Pow2(extra);
      assert Pow2(1 + extra) == 2 * p && mid == start + p;
      var l, r := a * lv, a * rv;
      assert a * y == (l + r) / 2.0;
      assert l == start as real - b && r == (start + 2 * p) as real - b;
      assert (l + r) / 2.0 == (start + p) as real - b;
      assert a * x == mid as real - b;
      assert x * a == y * a;
      Cancel(x, y, a);
    }

    lemma TwoHalves(keys: seq<int>, start: nat, extra: nat, mid: nat)
      requires a > 0.0 && Sorted(keys) && mid == start + Pow2(1 + extra) / 2
      ensures var right := LowerBound(keys, Boundary(mid));
              Parts([FTNode(1, 0, 0, right), FTNode(1, 1, right, |keys|)], 1, keys, a, b, start, Pow2(extra))
    {
      assert mid == start + Pow2(extra);
      BoundariesGrow(mid, mid + 1);
      CutHere(keys, a, b, mid, Boundary(mid));
      HalvesParts(keys, a, b, start, Pow2(extra), LowerBound(keys, Boundary(mid)));
    }

    /** The pointers of an empty leaf go to the leaf with the other half of a block. */
    method Redirect(leaf: AlexNode, adjacent: AlexNode, start: nat, ghost other: nat, ghost lo: nat)
      requires Valid() && leaf.keys == [] && leaf != adjacent && leaf.duplicationFactor == adjacent.duplicationFactor
      requires RunOf(leaf, start, Pow2(leaf.duplicationFactor)) && RunOf(adjacent, other, Pow2(leaf.duplicationFactor))
      requires var p := Pow2(leaf.duplicationFactor);
               && lo % Pow2(leaf.duplicationFactor + 1) == 0 && lo + Pow2(leaf.duplicationFactor + 1) <= children.Length
               && start + other == lo + lo + p && (start == lo || other == lo)
      modifies children, adjacent
      ensures Valid() && adjacent.duplicationFactor == old(leaf.duplicationFactor) + 1
      ensures forall j :: 0 <= j < children.Length ==>
                children[j] == if old(children[j]) == leaf then adjacent else old(children[j])
    {
      hide Start, Bucket, RunAt, Runs, Pow2, Homes;
      ghost var c, d, k := children[..], Factors(children[..]), leaf.duplicationFactor;
      Pow2Double(k);
      assert c[other] == adjacent && c[start] == leaf;
      assert forall j :: 0 <= j < |c| ==> (c[j] == adjacent || c[j] == leaf <==> lo <= j < lo + Pow2(k + 1));
      FillRun(start, start + Pow2(leaf.duplicationFactor), adjacent);
      adjacent.duplicationFactor := adjacent.duplicationFactor + 1;
      assert Redirected(c, children[..], adjacent, leaf);
      StillValid(c, d, lo, k + 1, adjacent, leaf);
    }

    lemma StillValid(c: seq<AlexNode>, d: seq<nat>, lo: nat, k: nat, kept: AlexNode, gone: AlexNode)
      requires a > 0.0 && children.Length == |c| == Pow2(logChildren) && Runs(c, d)
               && Redirected(c, children[..], kept, gone)
      requires lo % Pow2(k) == 0 && lo + Pow2(k) <= |c| && gone.keys == [] && gone != kept && kept in c
      requires forall j :: 0 <= j < |c| ==> (c[j] == kept || c[j] == gone <==> lo <= j < lo + Pow2(k))
      requires forall j :: 0 <= j < |c| ==> children[j].duplicationFactor == if children[j] == kept then k else d[j]
      requires Homes(c, a, b)
      ensures Valid()
    {
      hide Start, Bucket, RunAt, Runs, Pow2;
      var c' := children[..];
      MergeRuns(c, d, c', Factors(c'), lo, k, kept, gone);
      forall i, k | 0 <= i < |c'| && k in c'[i].keys ensures c'[Bucket(a, b, |c'|, k)] == c'[i] {
        var x :| 0 <= x < |c| && c[x] == c'[i];
        assert c[Bucket(a, b, |c|, k)] == c[x];
      }
    }

    /** Another leaf with as many pointers lies in the block of twice as many around a bucket. */
    ghost predicate Mergeable(bucket: nat)
      requires bucket < children.Length
      reads this, children, children[..]
    {
      var size := 2 * Pow2(children[bucket].duplicationFactor);
      exists j :: 0 <= j < children.Length && Twin(bucket, j) && Start(j, size) == Start(bucket, size)
    }

    ghost predicate Twin(i: nat, j: nat)
      requires i < children.Length && j < children.Length
      reads this, children, children[..]
    {
      var leaf := children[i];
      children[j] != leaf && children[j].isLeaf && children[j].duplicationFactor == leaf.duplicationFactor
    }

    /** A twin in the block of twice the size is what lies beside the run. */
    lemma TwinBeside(bucket: nat, beside: nat, j: nat)
      requires Valid() && bucket < children.Length && beside < children.Length && j < children.Length
      requires var p := Pow2(children[bucket].duplicationFactor);
               var start, lo := Start(bucket, p), Start(bucket, 2 * p);
               && Start(j, 2 * p) == lo && Start(beside, p) == lo + lo + p - start && Twin(bucket, j)
      ensures children[beside] == children[j]
    {
      hide Pow2, Start, Bucket, Runs, RunAt, Homes;
      var p := Pow2(children[bucket].duplicationFactor);
      RunHere(bucket);
      RunHere(j);
      WhichHalf(bucket, p);
      WhichHalf(j, p);
      StartAligned(bucket, p);
      StartAligned(j, p);
      StartAligned(beside, p);
    }

    lemma FoundBeside(bucket: nat, beside: nat)
      requires Valid() && bucket < children.Length && beside < children.Length
      requires var p := Pow2(children[bucket].duplicationFactor);
               var start, lo := Start(bucket, p), Start(bucket, 2 * p);
               && (beside == if start == lo then start + p else start - 1) && Start(beside, p) == lo + lo + p - start
      ensures Mergeable(bucket) <==>
              children[beside].isLeaf && children[beside].duplicationFactor == children[bucket].duplicationFactor
    {
      hide Pow2, Start, Bucket, Runs, RunAt, Homes;
      var p := Pow2(children[bucket].duplicationFactor);
      RunHere(bucket);
      WhichHalf(bucket, p);
      StartAligned(bucket, p);
      SameBlock(bucket, beside, 2 * p);
      assert Twin(bucket, beside) ==> Mergeable(bucket);
      forall j | 0 <= j < children.Length && Twin(bucket, j) && Start(j, 2 * p) == Start(bucket, 2 * p)
        ensures children[beside] == children[j]
      {
        TwinBeside(bucket, beside, j);
      }
    }

    /** Redirects the pointers of an empty leaf to the leaf beside it, if the two fill one aligned block. */
    method RedirectBeside(bucket: nat) returns (merged: bool, adjacentToRight: bool)
      requires Valid() && bucket < children.Length && children[bucket].isLeaf && children[bucket].keys == []
      requires Pow2(children[bucket].duplicationFactor) < children.Length
      modifies children, children[..]
      ensures Valid() && children[bucket].isLeaf && merged == old(Mergeable(bucket)) && (merged || !Mergeable(bucket))
      ensures merged ==> children[bucket].duplicationFactor == old(children[bucket].duplicationFactor) + 1
                         && old(children[bucket].duplicationFactor) < logChildren
      ensures exists to :: to in old(children[..]) && forall j :: 0 <= j < children.Length ==>
                children[j] == if merged && old(children[j]) == old(children[bucket]) then to else old(children[j])
      ensures merged ==> Touch(old(children[..]), old(children[bucket]), children[bucket], adjacentToRight)
    {
      hide Pow2, Start, Bucket, Runs, RunAt, Homes, Mergeable;
      ghost var c := children[..];
      var leaf := children[bucket];
      var repeats := Pow2(leaf.duplicationFactor);
      var start := Start(bucket, repeats);
      RunHere(bucket);
      Pow2Less(leaf.duplicationFactor, logChildren);
      BlockWithin(bucket, 2 * repeats, Pow2(logChildren - leaf.duplicationFactor - 1));
      WhichHalf(bucket, repeats);
      adjacentToRight := bucket % (2 * repeats) == bucket % repeats;
      var beside := if adjacentToRight then start + repeats else start - 1;
      var adjacent := children[beside];
      merged := adjacent.isLeaf && leaf.duplicationFactor == adjacent.duplicationFactor;
      Beside(start, beside, Start(bucket, 2 * repeats), repeats);
      FoundBeside(bucket, beside);
      if merged {
        TouchAt(c, if adjacentToRight then beside else start, leaf, adjacent, adjacentToRight);
        RunHere(beside);
        Redirect(leaf, adjacent, start, Start(beside, repeats), Start(bucket, 2 * repeats));
      }
      assert adjacent in old(children[..]);
    }

    /** Redirects the pointers of an empty leaf to the leaf beside it, and takes it out of the list of leaves. */
    method MergeBeside(bucket: nat, ghost list: seq<AlexNode>, ghost e: Ends) returns (merged: bool, ghost at: nat)
      requires Valid() && bucket < children.Length && children[bucket].isLeaf && children[bucket].keys == []
      requires Pow2(children[bucket].duplicationFactor) < children.Length
      requires Linked(list) && Edged(children[..], list, e, NoEnds)
      modifies children, children[..], Links(list)
      ensures Valid() && children[bucket].isLeaf && merged == old(Mergeable(bucket)) && (merged || !Mergeable(bucket))
      ensures merged ==> children[bucket].duplicationFactor == old(children[bucket].duplicationFactor) + 1
                         && old(children[bucket].duplicationFactor) < logChildren
      ensures exists to :: to in old(children[..]) && forall j :: 0 <= j < children.Length ==>
                children[j] == if merged && old(children[j]) == old(children[bucket]) then to else old(children[j])
      ensures if merged
              then GivesWay(list, at, children[bucket]) && list[at] == old(children[bucket])
                   && Linked(Substituted(list, at, []))
                   && Edged(children[..], Substituted(list, at, []), Moved(e, list[at], children[bucket]), NoEnds)
              else Linked(list) && Edged(children[..], list, e, NoEnds)
    {
      hide Valid, Linked, Edged, Mergeable, Substituted, Pow2, Touch, LinksApart;
      ghost var c := children[..];
      var leaf := children[bucket];
      var adjacentToRight;
      merged, adjacentToRight := RedirectBeside(bucket);
      at := 0;
      assert !merged ==> children[..] == c;
      if merged {
        at := TouchIn(c, list, e, leaf, children[bucket], adjacentToRight);
        LinkedApart(list);
        Unlink(leaf, children[bucket], adjacentToRight, list, at);
        EdgedMerged(c, children[..], list, e, at, children[bucket]);
      }
    }

    /** Redirects the pointers of empty leaves to the leaf beside them, as long as the two fill one aligned block; the
        leaf at the end of it is returned. No key loses its child. */
    method MergeSideways(bucket: nat, ghost list: seq<AlexNode>, ghost e: Ends)
      returns (leaf: AlexNode, ghost gone: seq<Merging>)
      requires Valid() && bucket < children.Length && children[bucket].isLeaf
      requires Linked(list) && Edged(children[..], list, e, NoEnds)
      modifies children, children[..], Links(list)
      ensures Valid() && leaf == children[bucket] && leaf.isLeaf
      ensures forall j :: 0 <= j < children.Length ==> children[j] in old(children[..])
      ensures forall j :: 0 <= j < children.Length && old(children[j]).keys != [] ==> children[j] == old(children[j])
      ensures forall j :: 0 <= j < children.Length && old(children[j]) == old(children[bucket]) ==> children[j] == leaf
      ensures leaf.keys == [] && Pow2(leaf.duplicationFactor) < children.Length ==> !Mergeable(bucket)
      ensures Mergings(list, gone)
      ensures forall m :: m in gone ==> m.gone in old(children[..]) && m.kept in old(children[..])
      ensures Linked(AfterMergings(list, gone))
      ensures Edged(children[..], AfterMergings(list, gone), EndsAfter(e, gone), NoEnds)
    {
      hide Pow2, Bucket, Runs, Homes, Mergeable, Linked, Edged, Substituted, Links, Mergings, AfterMergings, EndsAfter;
      leaf := children[bucket];
      ghost var c := children[..];
      gone := [];
      NoMergings(list, e);
      while leaf.keys == [] && Pow2(leaf.duplicationFactor) < children.Length
        invariant Valid() && leaf == children[bucket] && leaf.isLeaf && children.Length == |c|
        invariant forall j :: 0 <= j < |c| ==> children[j] in c
        invariant forall j :: 0 <= j < |c| && c[j].keys != [] ==> children[j] == c[j]
        invariant forall j :: 0 <= j < |c| && c[j] == c[bucket] ==> children[j] == leaf
        invariant Mergings(list, gone) && forall m :: m in gone ==> m.gone in c && m.kept in c
        invariant Linked(AfterMergings(list, gone)) && Links(AfterMergings(list, gone)) <= Links(list)
        invariant Edged(children[..], AfterMergings(list, gone), EndsAfter(e, gone), NoEnds)
        decreases logChildren - leaf.duplicationFactor
      {
        var merged;
        ghost var at;
        merged, at := MergeBeside(bucket, AfterMergings(list, gone), EndsAfter(e, gone));
        if !merged {
          break;
        }
        MergingMore(list, gone, Merging(at, leaf, children[bucket]));
        gone := gone + [Merging(at, leaf, children[bucket])];
        leaf := children[bucket];
      }
    }

    /** A child model node whose pointers all go to one leaf, with keys of its own only, gives way to that leaf. */
    method MergeUp(bucket: nat, child: AlexModelNode, leaf: AlexNode)
      requires Valid() && bucket < children.Length && children[bucket] == child.node
      requires forall j :: 0 <= j < child.children.Length ==> child.children[j] == leaf
      requires leaf !in children[..] && forall k :: k in leaf.keys ==> k in child.node.keys
      modifies children, leaf
      ensures Valid() && leaf.duplicationFactor == child.node.duplicationFactor
      ensures forall j :: 0 <= j < children.Length ==>
                children[j] == if old(children[j]) == child.node then leaf else old(children[j])
      ensures forall k :: GetChildNode(k) == if old(GetChildNode(k)) == child.node then leaf else old(GetChildNode(k))
    {
      hide Pow2, Start, Bucket, Runs, Settled, Homes;
      leaf.duplicationFactor := child.node.duplicationFactor;
      var repeats := Pow2(leaf.duplicationFactor);
      var start := Start(bucket, repeats);
      ghost var c, d := children[..], Factors(children[..]);
      RunHere(bucket);
      LeafKeys(child.node, start, repeats);
      FillRun(start, start + repeats, leaf);
      forall j | start <= j < start + repeats
        ensures Settled(children[..], j, Pow2(children[j].duplicationFactor), a, b, start, start + repeats)
      {
        SettledNew(c, children[..], j, repeats, a, b, start, start, leaf);
      }
      SplitIsValid(c, d, start, start + repeats, child.node);
    }
  }
}
