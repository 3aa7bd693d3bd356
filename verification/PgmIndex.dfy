/** The multi-level index over a sorted array of keys (include/learnindex/pgm_index.hpp). */
module PgmIndex {
  import opened Geometry
  import opened PgmLevels
  import opened Segmentation
  import opened Wrappers

  /** Above this recursive epsilon the source searches a level by bisection. */
  const LINEAR_SEARCH_THRESHOLD := 25

  datatype ApproxPos = ApproxPos(pos: nat, lo: nat, hi: nat)

  function SubEps(x: nat, eps: nat): nat {
    if x <= eps then 0 else x - eps
  }

  function AddEps(x: nat, eps: nat, size: nat): nat {
    if x + eps + 2 >= size then size else x + eps + 2
  }

  // ---- From the keys to the points of the bottom level

  /** The keys without a closing largest value, which is reserved for padding. */
  function Unpadded(keys: seq<int>, maxKey: int): seq<int> {
    if keys != [] && keys[|keys| - 1] == maxKey then keys[..|keys| - 1] else keys
  }

  /** Sorted keys below the reserved one, which may follow them once. */
  ghost predicate Input(keys: seq<int>, maxKey: int) {
    var kept := Unpadded(keys, maxKey);
    Ordered(keys) && kept != [] && kept[|kept| - 1] < maxKey
  }

  /** The last of several equal keys, when neither it nor its successor follows, stands for its successor. */
  predicate Bumped(keys: seq<int>, i: nat)
    requires i < |keys|
  {
    0 < i && i + 1 < |keys| && keys[i] == keys[i - 1] && keys[i] != keys[i + 1] && keys[i] + 1 != keys[i + 1]
  }

  function KeyPoint(keys: seq<int>, i: nat): Point
    requires i < |keys|
  {
    if Bumped(keys, i) then Point(keys[i] + 1, i) else Point(keys[i], i)
  }

  function KeyPoints(keys: seq<int>, maxKey: int): (data: seq<Point>)
    ensures |data| == |Unpadded(keys, maxKey)| && forall i :: 0 <= i < |data| ==> data[i] == KeyPoint(keys, i)
  {
    seq(|Unpadded(keys, maxKey)|, i requires 0 <= i < |Unpadded(keys, maxKey)| => KeyPoint(keys, i))
  }

  /** Where the run of the `s`-th of `pts` ends in the data. */
  function RunEnd(pts: seq<Point>, s: nat, n: nat): int {
    if s + 1 < |pts| then pts[s + 1].y else n
  }

  /** `pts` are the first points of the runs of equal abscissas in `data`. */
  ghost predicate Firsts(pts: seq<Point>, data: seq<Point>) {
    Climbs(pts, |data|) && forall s :: 0 <= s < |pts| ==> RunFrom(pts, data, s)
  }

  ghost predicate RunFrom(pts: seq<Point>, data: seq<Point>, s: int)
    requires 0 <= s < |pts|
  {
    && 0 <= pts[s].y < RunEnd(pts, s, |data|) <= |data| && pts[s] == data[pts[s].y]
    && forall i :: pts[s].y <= i < RunEnd(pts, s, |data|) ==> data[i].x == pts[s].x
  }

  lemma {:induction false} RunsHaveFirsts(data: seq<Point>)
    requires data != [] && Sorted(data) && forall i :: 0 <= i < |data| ==> data[i].y == i
    ensures Firsts(FirstOfRuns(data), data)
  {
    if |data| > 1 {
      var prior, n := data[..|data| - 1], |data| - 1;
      RunsHaveFirsts(prior);
      FirstsGrow(FirstOfRuns(prior), data);
    }
  }

  lemma ClimbsMore(pts: seq<Point>, data: seq<Point>)
    requires |data| > 1 && Sorted(data) && data[|data| - 1].y == |data| - 1
    requires Climbs(pts, |data| - 1) && pts[|pts| - 1].x == data[|data| - 2].x
    ensures Climbs(pts, |data|)
    ensures data[|data| - 1].x != data[|data| - 2].x ==> Climbs(pts + [data[|data| - 1]], |data|)
  {
    ClimbsOrdered(pts, |data| - 1);
    assert data[|data| - 2].x <= data[|data| - 1].x;
  }

  lemma FirstsGrow(pts: seq<Point>, data: seq<Point>)
    requires |data| > 1 && Sorted(data) && (forall i :: 0 <= i < |data| ==> data[i].y == i)
    requires Firsts(pts, data[..|data| - 1])
    ensures Firsts(if data[|data| - 1].x == data[|data| - 2].x then pts else pts + [data[|data| - 1]], data)
  {
    var n := |data| - 1;
    var pts' := if data[n].x == data[n - 1].x then pts else pts + [data[n]];
    assert RunFrom(pts, data[..n], |pts| - 1);
    assert RunEnd(pts, |pts| - 1, n) == n && data[..n][n - 1].x == pts[|pts| - 1].x;
    ClimbsMore(pts, data);
    forall s | 0 <= s < |pts'| ensures RunFrom(pts', data, s) {
      if s < |pts| {
        assert RunFrom(pts, data[..n], s);
        RunGrows(pts, pts', data, s);
      }
    }
  }

  lemma RunGrows(pts: seq<Point>, pts': seq<Point>, data: seq<Point>, s: nat)
    requires s < |pts| <= |pts'| && |data| > 1 && RunFrom(pts, data[..|data| - 1], s)
    requires forall t :: 0 <= t < |pts| ==> pts'[t] == pts[t]
    requires if |pts'| > |pts| then pts'[|pts|].y == |data| - 1 else data[|data| - 1].x == data[|data| - 2].x
    ensures RunFrom(pts', data, s)
  {
    var n := |data| - 1;
    forall i | pts[s].y <= i < RunEnd(pts', s, |data|) ensures data[i].x == pts[s].x {
      if i < n {
        assert data[..n][i].x == pts[s].x;
      } else {
        assert data[..n][n - 1].x == pts[s].x;
      }
    }
  }

  lemma DataSorted(keys: seq<int>, maxKey: int)
    requires Input(keys, maxKey)
    ensures Sorted(KeyPoints(keys, maxKey)) && KeyPoints(keys, maxKey) != []
  {
  }

  /** What the bottom level is built on. */
  function Bottom(keys: seq<int>, maxKey: int): seq<Point> {
    FirstOfRuns(KeyPoints(keys, maxKey))
  }

  function ExtraKey(keys: seq<int>, maxKey: int): int
    requires Unpadded(keys, maxKey) != []
  {
    Unpadded(keys, maxKey)[|Unpadded(keys, maxKey)| - 1] + 1
  }

  lemma BottomIs(keys: seq<int>, maxKey: int)
    requires Input(keys, maxKey)
    ensures Firsts(Bottom(keys, maxKey), KeyPoints(keys, maxKey))
    ensures var pts := Bottom(keys, maxKey);
            && pts != [] && pts[0].x == keys[0] < ExtraKey(keys, maxKey) <= maxKey
            && pts[|pts| - 1].x <= ExtraKey(keys, maxKey)
            && (Unpadded(keys, maxKey) == keys ==> pts[|pts| - 1].x < ExtraKey(keys, maxKey))
  {
    var data := KeyPoints(keys, maxKey);
    DataSorted(keys, maxKey);
    RunsHaveFirsts(data);
    var pts := Bottom(keys, maxKey);
    assert RunFrom(pts, data, 0) && pts[0] == data[0];
    assert RunFrom(pts, data, |pts| - 1) && RunEnd(pts, |pts| - 1, |data|) == |data|;
    assert data[|data| - 1].x == pts[|pts| - 1].x;
  }

  /** The data divides where the points do: around the run of the last point up to `k`. */
  ghost predicate Divides(pts: seq<Point>, data: seq<Point>, k: int, u: nat) {
    && 1 <= u <= |pts| && 0 <= pts[u - 1].y < RunEnd(pts, u - 1, |data|) <= |data|
    && (forall i :: 0 <= i < pts[u - 1].y ==> data[i].x < pts[u - 1].x)
    && (forall i :: pts[u - 1].y <= i < RunEnd(pts, u - 1, |data|) ==> data[i].x == pts[u - 1].x <= k)
    && (forall i :: RunEnd(pts, u - 1, |data|) <= i < |data| ==> k < data[i].x)
  }

  lemma FirstsDivide(pts: seq<Point>, data: seq<Point>, k: int, u: nat)
    requires Firsts(pts, data) && Sorted(data)
    requires 1 <= u <= |pts| && pts[u - 1].x <= k && (u < |pts| ==> k < pts[u].x)
    ensures Divides(pts, data, k, u)
  {
    assert RunFrom(pts, data, u - 1);
    assert u < |pts| ==> RunFrom(pts, data, u);
    if pts[u - 1].y > 0 {
      assert RunFrom(pts, data, u - 2) && RunEnd(pts, u - 2, |data|) == pts[u - 1].y;
      assert data[pts[u - 1].y - 1].x == pts[u - 2].x;
    }
  }

  lemma DataDivides(keys: seq<int>, maxKey: int, k: int, u: nat)
    requires Input(keys, maxKey) && keys[0] <= k && u == CountLE(Abscissas(Bottom(keys, maxKey)), k)
    ensures Divides(Bottom(keys, maxKey), KeyPoints(keys, maxKey), k, u)
  {
    hide FirstOfRuns, KeyPoint, Divides, Firsts;
    var pts, data := Bottom(keys, maxKey), KeyPoints(keys, maxKey);
    BottomIs(keys, maxKey);
    DataSorted(keys, maxKey);
    FirstsClimb(pts, data);
    ClimbsOrdered(pts, |data|);
    PointsSplit(pts, k, u);
    FirstsDivide(pts, data, k, u);
  }

  /** The lower bound of a key that is there is the rank of its point. */
  lemma PresentRank(keys: seq<int>, maxKey: int, k: int, u: nat)
    requires Input(keys, maxKey) && k in Unpadded(keys, maxKey) && u == CountLE(Abscissas(Bottom(keys, maxKey)), k)
    ensures 1 <= u <= |Bottom(keys, maxKey)| && Bottom(keys, maxKey)[u - 1].x == k
    ensures CountLT(keys, k) == Bottom(keys, maxKey)[u - 1].y < |keys|
  {
    hide Bottom, CountLE;
    var data, f := KeyPoints(keys, maxKey), CountLT(keys, k);
    CountLESplits(keys, k - 1);
    DataDivides(keys, maxKey, k, u);
    DataSorted(keys, maxKey);
    assert keys[f] == k && !Bumped(keys, f);
    assert data[f] == Point(k, f);
    assert data[f].x <= data[RunEnd(Bottom(keys, maxKey), u - 1, |data|) - 1].x;
    if f > 0 {
      assert data[f - 1].x < k;
    }
  }

  /** The lower bound of a key that is not there is the end of the run before it; that run is a single point unless
      it is the last one. */
  lemma AbsentRank(keys: seq<int>, maxKey: int, k: int, u: nat)
    requires Input(keys, maxKey) && keys[0] <= k < maxKey && k !in keys
    requires u == CountLE(Abscissas(Bottom(keys, maxKey)), k)
    ensures 1 <= u <= |Bottom(keys, maxKey)|
    ensures CountLT(keys, k) == RunEnd(Bottom(keys, maxKey), u - 1, |Unpadded(keys, maxKey)|)
    ensures CountLT(keys, k) == Bottom(keys, maxKey)[u - 1].y + 1 || (CountLT(keys, k) == |keys| && LastRepeats(keys))
  {
    hide Bottom, CountLE;
    var pts, data := Bottom(keys, maxKey), KeyPoints(keys, maxKey);
    DataDivides(keys, maxKey, k, u);
    var y0, y1 := pts[u - 1].y, RunEnd(pts, u - 1, |data|);
    forall i | y1 <= i < |keys| ensures k < keys[i] {
      assert keys[i] in keys;
      assert i < |data| ==> data[i] == KeyPoint(keys, i);
    }
    assert data[y0].x <= k;
    forall i | 0 <= i < y1 ensures keys[i] < k {
      assert keys[i] in keys && keys[i] <= data[i].x <= k;
    }
    CountLEUnique(keys, k - 1, y1);
    if y1 > y0 + 1 {
      RunsEnd(keys, maxKey, k, y1);
    }
  }

  predicate LastRepeats(keys: seq<int>) {
    |keys| >= 2 && keys[|keys| - 1] == keys[|keys| - 2]
  }

  /** A run of several points with a key missing after it is the last one. */
  lemma RunsEnd(keys: seq<int>, maxKey: int, k: int, y: nat)
    requires Input(keys, maxKey) && k !in keys && k < maxKey && 2 <= y <= |KeyPoints(keys, maxKey)|
    requires var data := KeyPoints(keys, maxKey);
             data[y - 1].x == data[y - 2].x <= k && (y < |data| ==> k < data[y].x)
    ensures y == |keys| && LastRepeats(keys)
  {
    var data := KeyPoints(keys, maxKey);
    var x := data[y - 1].x;
    assert !Bumped(keys, y - 1);
    assert !Bumped(keys, y - 2);
    assert keys[y - 1] == keys[y - 2] == x < k;
  }

  // ---- The index

  /** `levels[0]` is the bottom level. The source keeps all levels in one vector with offsets. */
  datatype Index = Index(n: nat, firstKey: int, levels: seq<seq<Segment>>)

  /** A level whose keys, without the sentinel's, can themselves be indexed. */
  ghost predicate Base(segs: seq<Segment>, firstKey: int, extraKey: int, maxKey: int) {
    segs != [] && Indexable(KeysOf(segs), firstKey, extraKey) && segs[|segs| - 1].key == maxKey
  }

  ghost predicate On(above: seq<Segment>, below: seq<Segment>, epsRec: nat, extraKey: int, maxKey: int) {
    && below != []
    && LevelOf(above, RankPoints(Distinct(KeysOf(below))), |below| - 1, epsRec, extraKey, maxKey)
  }

  ghost predicate Stacked(levels: seq<seq<Segment>>, firstKey: int, epsRec: nat, extraKey: int, maxKey: int) {
    && (forall l :: 0 <= l < |levels| ==> Base(levels[l], firstKey, extraKey, maxKey))
    && (forall l {:trigger levels[l]} :: 0 < l < |levels| ==> On(levels[l], levels[l - 1], epsRec, extraKey, maxKey))
  }

  lemma StackedPush(levels: seq<seq<Segment>>, next: seq<Segment>, firstKey: int, epsRec: nat, extraKey: int,
                    maxKey: int)
    requires levels != [] && Stacked(levels, firstKey, epsRec, extraKey, maxKey)
    requires Base(next, firstKey, extraKey, maxKey) && On(next, levels[|levels| - 1], epsRec, extraKey, maxKey)
    ensures Stacked(levels + [next], firstKey, epsRec, extraKey, maxKey)
  {
    hide Base, On;
    var ls := levels + [next];
    forall l {:trigger ls[l]} | 0 < l < |ls| ensures On(ls[l], ls[l - 1], epsRec, extraKey, maxKey) {
      if l < |levels| {
        assert On(levels[l], levels[l - 1], epsRec, extraKey, maxKey);
      }
    }
  }

  /** The index was built on `keys`; unless the levels are searched by bisection, the top one is a single segment. */
  ghost predicate IndexOf(idx: Index, keys: seq<int>, eps: nat, epsRec: nat, maxKey: int) {
    && Input(keys, maxKey) && idx.n == |keys| && idx.firstKey == keys[0] && idx.levels != []
    && BottomOf(idx.levels[0], keys, eps, maxKey)
    && Stacked(idx.levels, keys[0], epsRec, ExtraKey(keys, maxKey), maxKey)
    && (if epsRec == 0 then |idx.levels| == 1 else |idx.levels[|idx.levels| - 1]| == 2)
  }

  ghost predicate BottomOf(segs: seq<Segment>, keys: seq<int>, eps: nat, maxKey: int)
    requires Input(keys, maxKey)
  {
    LevelOf(segs, Bottom(keys, maxKey), |Unpadded(keys, maxKey)|, eps, ExtraKey(keys, maxKey), maxKey)
  }

  /** Builds the bottom level on the keys. */
  method BuildBottom(keys: seq<int>, eps: nat, maxKey: int) returns (r: Result<seq<Segment>, IndexError>)
    requires Input(keys, maxKey)
    ensures r.Success? ==> BottomOf(r.value, keys, eps, maxKey)
    ensures r.Success? ==> Base(r.value, keys[0], ExtraKey(keys, maxKey), maxKey) && |r.value| - 1 <= |keys| + 1
    ensures r.Failure? ==> |keys| + eps > INT32_MAX
  {
    hide LevelOf, Firsts, KeyPoint, FirstOfRuns, Indexable;
    ghost var pts := Bottom(keys, maxKey);
    BottomIs(keys, maxKey);
    DataSorted(keys, maxKey);
    FirstsClimb(pts, KeyPoints(keys, maxKey));
    r := BuildLevel(KeyPoints(keys, maxKey), eps, ExtraKey(keys, maxKey), maxKey);
    if r.Success? {
      LevelKeys(r.value, pts, |Unpadded(keys, maxKey)|, eps, ExtraKey(keys, maxKey), maxKey);
    }
  }

  lemma FirstsClimb(pts: seq<Point>, data: seq<Point>)
    requires Firsts(pts, data)
    ensures Climbs(pts, |data|)
  {
  }

  /** Builds a level on the segments of another. */
  method BuildUpper(below: seq<Segment>, epsRec: nat, ghost firstKey: int, extraKey: int, maxKey: int)
    returns (r: Result<seq<Segment>, IndexError>)
    requires Base(below, firstKey, extraKey, maxKey) && epsRec >= 1 && |below| >= 3
    ensures r.Success? ==> On(r.value, below, epsRec, extraKey, maxKey) && Base(r.value, firstKey, extraKey, maxKey)
    ensures r.Success? ==> |r.value| < |below|
    ensures r.Failure? ==> |below| - 1 + epsRec > INT32_MAX
  {
    hide LevelOf, FirstOfRuns;
    var keys := KeysOf(below);
    ghost var pts := RankPoints(Distinct(keys));
    DistinctPoints(keys);
    IndexableEnds(keys, firstKey, extraKey);
    r := BuildLevel(RankPoints(keys), epsRec, extraKey, maxKey);
    if r.Success? {
      LevelKeys(r.value, pts, |keys|, epsRec, extraKey, maxKey);
      LevelShrinks(r.value, keys, epsRec, firstKey, extraKey, maxKey);
    }
  }

  lemma IndexableEnds(keys: seq<int>, firstKey: int, extraKey: int)
    requires Indexable(keys, firstKey, extraKey)
    ensures var d := Distinct(keys); d != [] && d[0] == firstKey < extraKey && d[|d| - 1] <= extraKey
  {
  }

  /** Builds the bottom level on the keys and levels on levels until one segment is left. */
  method Build(keys: seq<int>, eps: nat, epsRec: nat, maxKey: int) returns (r: Result<Index, IndexError>)
    requires keys == [] || Input(keys, maxKey)
    ensures r.Success? && keys != [] ==> IndexOf(r.value, keys, eps, epsRec, maxKey)
    ensures r.Failure? ==> |keys| + eps > INT32_MAX || |keys| + 1 + epsRec > INT32_MAX
  {
    hide Input, Base, On, BottomOf, ExtraKey;
    if keys == [] {
      return Success(Index(0, 0, []));
    }
    InputStarts(keys, maxKey);
    var bottom := BuildBottom(keys, eps, maxKey);
    if bottom.Failure? {
      return Failure(bottom.error);
    }
    BaseSorted(bottom.value, keys[0], ExtraKey(keys, maxKey), maxKey);
    var levels := [bottom.value];
    while epsRec > 0 && |levels[|levels| - 1]| - 1 > 1
      invariant levels != [] && levels[0] == bottom.value
      invariant Stacked(levels, keys[0], epsRec, ExtraKey(keys, maxKey), maxKey)
      invariant 1 <= |levels[|levels| - 1]| - 1 <= |keys| + 1
      invariant epsRec == 0 ==> |levels| == 1
      decreases |levels[|levels| - 1]|
    {
      var next := BuildUpper(levels[|levels| - 1], epsRec, keys[0], ExtraKey(keys, maxKey), maxKey);
      if next.Failure? {
        return Failure(next.error);
      }
      StackedPush(levels, next.value, keys[0], epsRec, ExtraKey(keys, maxKey), maxKey);
      BaseSorted(next.value, keys[0], ExtraKey(keys, maxKey), maxKey);
      levels := levels + [next.value];
    }
    return Success(Index(|keys|, keys[0], levels));
  }

  lemma InputStarts(keys: seq<int>, maxKey: int)
    requires Input(keys, maxKey)
    ensures keys != [] && Unpadded(keys, maxKey) != [] && keys[0] < maxKey
  {
  }

  /** `std::upper_bound` on the segments `lo..hi`. */
  method UpperBound(segs: seq<Segment>, lo: nat, hi: nat, k: int) returns (r: nat)
    requires lo <= hi <= |segs|
    requires forall i, j :: 0 <= i < j < hi ==> segs[i].key <= segs[j].key
    ensures lo <= r <= hi
    ensures forall i :: lo <= i < r ==> segs[i].key <= k
    ensures forall i :: r <= i < hi ==> k < segs[i].key
  {
    var l, h := lo, hi;
    while l < h
      invariant lo <= l <= h <= hi
      invariant forall i :: lo <= i < l ==> segs[i].key <= k
      invariant forall i :: h <= i < hi ==> k < segs[i].key
    {
      var mid := l + (h - l) / 2;
      if segs[mid].key <= k {
        l := mid + 1;
      } else {
        h := mid;
      }
    }
    return l;
  }

  /** What a routed segment of the level above says about a level: the search window below it. */
  ghost predicate Window(segs: seq<Segment>, epsRec: nat, extraKey: int, k: int, pos: nat)
    requires segs != []
  {
    var d := Distinct(KeysOf(segs));
    Accurate(RankPoints(d), |segs| - 1, epsRec, extraKey, k, CountLE(d, k), pos)
  }

  lemma RoutedWindow(above: seq<Segment>, segs: seq<Segment>, epsRec: nat, firstKey: int, extraKey: int, maxKey: int,
                     t: nat, k: int)
    requires Base(segs, firstKey, extraKey, maxKey) && On(above, segs, epsRec, extraKey, maxKey)
    requires Routes(above, t, k) && firstKey <= k < maxKey
    ensures Window(segs, epsRec, extraKey, k, Approximate(above[t], above[t + 1], k))
  {
    hide Approximate, Accurate, LevelOf;
    var keys := KeysOf(segs);
    DistinctPoints(keys);
    IndexableEnds(keys, firstKey, extraKey);
    LevelAccurate(above, RankPoints(Distinct(keys)), |keys|, epsRec, extraKey, maxKey, t, k);
  }

  /** The window starts at or before the responsible segment, and holds it or its twin. */
  lemma WindowHolds(segs: seq<Segment>, epsRec: nat, firstKey: int, extraKey: int, maxKey: int, k: int, pos: nat)
    requires Base(segs, firstKey, extraKey, maxKey) && Window(segs, epsRec, extraKey, k, pos)
    ensures var lo, hi := SubEps(pos, epsRec + 1), AddEps(pos, epsRec, |segs| - 1);
            && lo < hi <= |segs| - 1 && segs[lo].key <= k
            && (hi == |segs| - 1 || k < segs[hi].key || (hi == |segs| - 2 && segs[hi - 1].key == segs[hi].key))
  {
    var keys := KeysOf(segs);
    var d := Distinct(keys);
    CountLESplits(d, k);
    DistinctSorted(keys);
    assert forall i :: 0 <= i < |d| ==> d[i] == keys[i];
  }

  /** A level's keys are in order, start at the first key and end under the sentinel's. */
  lemma BaseSorted(segs: seq<Segment>, firstKey: int, extraKey: int, maxKey: int)
    requires Base(segs, firstKey, extraKey, maxKey)
    ensures |segs| >= 2 && segs[0].key == firstKey && segs[|segs| - 1].key == maxKey
    ensures forall i, j :: 0 <= i < j < |segs| - 1 ==> segs[i].key <= segs[j].key
  {
    DistinctSorted(KeysOf(segs));
    assert forall i :: 0 <= i < |segs| - 1 ==> KeysOf(segs)[i] == segs[i].key;
  }

  /** One step down: from a segment of the level above to one of this level. */
  method RouteDown(above: seq<Segment>, level: seq<Segment>, epsRec: nat, t: nat, k: int,
                   ghost firstKey: int, ghost extraKey: int, ghost maxKey: int)
    returns (it: nat)
    requires Base(level, firstKey, extraKey, maxKey) && On(above, level, epsRec, extraKey, maxKey)
    requires Routes(above, t, k) && firstKey <= k < maxKey
    ensures Routes(level, it, k) && (epsRec <= LINEAR_SEARCH_THRESHOLD ==> k < level[it + 1].key)
  {
    hide Base, On, Approximate, Window;
    var pos := Approximate(above[t], above[t + 1], k);
    RoutedWindow(above, level, epsRec, firstKey, extraKey, maxKey, t, k);
    WindowHolds(level, epsRec, firstKey, extraKey, maxKey, k, pos);
    BaseSorted(level, firstKey, extraKey, maxKey);
    var lo := SubEps(pos, epsRec + 1);
    if epsRec <= LINEAR_SEARCH_THRESHOLD {
      while level[lo + 1].key <= k
        invariant lo < |level| - 1 && level[lo].key <= k
        decreases |level| - lo
      {
        lo := lo + 1;
      }
      it := lo;
    } else {
      var hi := AddEps(pos, epsRec, |level| - 1);
      it := UpperBound(level, lo, hi, k);
      if it != 0 {
        it := it - 1;
      }
    }
  }

  /** Below the reserved key there are no twins on the bottom level. */
  lemma RightmostBottom(segs: seq<Segment>, keys: seq<int>, eps: nat, maxKey: int, t: int, k: int)
    requires Input(keys, maxKey) && BottomOf(segs, keys, eps, maxKey) && keys[|keys| - 1] < maxKey
    requires k < maxKey && Routes(segs, t, k)
    ensures k < segs[t + 1].key
  {
    hide LevelOf, Bottom, Firsts;
    BottomIs(keys, maxKey);
    FirstsClimb(Bottom(keys, maxKey), KeyPoints(keys, maxKey));
    Rightmost(segs, Bottom(keys, maxKey), |Unpadded(keys, maxKey)|, eps, ExtraKey(keys, maxKey), maxKey, t, k);
  }

  /** Finds the segment responsible for the key, level by level from the top: the rightmost that does not start above
      it. For input closed by the reserved key and levels searched by bisection, the contract leaves open which of two
      segments with the same key is found; `Search` is right with either. */
  method SegmentForKey(idx: Index, epsRec: nat, k: int, ghost keys: seq<int>, ghost eps: nat, ghost maxKey: int)
    returns (it: nat)
    requires IndexOf(idx, keys, eps, epsRec, maxKey) && keys[0] <= k < maxKey
    ensures Routes(idx.levels[0], it, k)
    ensures keys[|keys| - 1] < maxKey || epsRec <= LINEAR_SEARCH_THRESHOLD ==> k < idx.levels[0][it + 1].key
  {
    hide Base, On, BottomOf, ExtraKey, Input;
    InputStarts(keys, maxKey);
    ghost var extraKey := ExtraKey(keys, maxKey);
    var l := |idx.levels| - 1;
    BaseSorted(idx.levels[l], keys[0], extraKey, maxKey);
    if epsRec == 0 {
      it := UpperBound(idx.levels[0], 0, |idx.levels[0]| - 1, k);
      if it != 0 {
        it := it - 1;
      }
      return;
    }
    it := 0;
    while l > 0
      invariant 0 <= l < |idx.levels|
      invariant Routes(idx.levels[l], it, k) && (epsRec <= LINEAR_SEARCH_THRESHOLD ==> k < idx.levels[l][it + 1].key)
    {
      l := l - 1;
      assert On(idx.levels[l + 1], idx.levels[l + 1 - 1], epsRec, extraKey, maxKey);
      it := RouteDown(idx.levels[l + 1], idx.levels[l], epsRec, it, k, keys[0], extraKey, maxKey);
    }
    if keys[|keys| - 1] < maxKey {
      RightmostBottom(idx.levels[0], keys, eps, maxKey, it, k);
    }
  }

  /** `pos` is what a segment of the level responsible for `k` predicts for it. */
  ghost predicate PredictedBy(segs: seq<Segment>, k: int, pos: nat) {
    exists t :: Routes(segs, t, k) && pos == Approximate(segs[t], segs[t + 1], k)
  }

  function RangeAround(pos: nat, eps: nat, n: nat): ApproxPos {
    ApproxPos(pos, SubEps(pos, eps), AddEps(pos, eps, n))
  }

  /** The documented promise for a key with lower bound `bound`: the range holds it, or the range ends with the array
      and so does the search. */
  ghost predicate Finds(r: ApproxPos, bound: nat, n: nat) {
    r.lo <= bound && (bound < r.hi || bound == n == r.hi)
  }

  lemma BottomAccurate(segs: seq<Segment>, keys: seq<int>, eps: nat, maxKey: int, t: int, k: int)
    requires Input(keys, maxKey) && BottomOf(segs, keys, eps, maxKey)
    requires Routes(segs, t, k) && keys[0] <= k < maxKey
    ensures var pts := Bottom(keys, maxKey);
            Accurate(pts, |Unpadded(keys, maxKey)|, eps, ExtraKey(keys, maxKey), k, CountLE(Abscissas(pts), k),
                     Approximate(segs[t], segs[t + 1], k))
  {
    hide Approximate, Accurate, LevelOf, Bottom, Firsts;
    BottomIs(keys, maxKey);
    FirstsClimb(Bottom(keys, maxKey), KeyPoints(keys, maxKey));
    LevelAccurate(segs, Bottom(keys, maxKey), |Unpadded(keys, maxKey)|, eps, ExtraKey(keys, maxKey), maxKey, t, k);
  }

  /** The prediction of the bottom level against the lower bound of the key. */
  lemma RangeHolds(segs: seq<Segment>, keys: seq<int>, eps: nat, maxKey: int, t: int, key: int, k: int, pos: nat)
    requires Input(keys, maxKey) && BottomOf(segs, keys, eps, maxKey)
    requires key < maxKey && k == (if keys[0] > key then keys[0] else key)
    requires Routes(segs, t, k) && pos == Approximate(segs[t], segs[t + 1], k)
    ensures pos <= CountLT(keys, key) + eps
    ensures key in keys ==> CountLT(keys, key) < |keys|
    ensures key in keys || key < keys[0] ==> CountLT(keys, key) < pos + eps + 2
    ensures CountLT(keys, key) <= pos + eps + 2 || (CountLT(keys, key) == |keys| && LastRepeats(keys))
  {
    hide BottomOf, Bottom, Approximate, CountLE, Routes;
    BottomAccurate(segs, keys, eps, maxKey, t, k);
    var u := CountLE(Abscissas(Bottom(keys, maxKey)), k);
    if key < keys[0] {
      CountLEUnique(keys, key - 1, 0);
      CountLEUnique(keys, k - 1, 0);
      PresentRank(keys, maxKey, k, u);
    } else if key in keys {
      PresentRank(keys, maxKey, k, u);
    } else {
      AbsentRank(keys, maxKey, k, u);
    }
  }

  // ---- The promise for a key that is not there

  /** What a prediction must reach for a missing key with `c` smaller ones: the position of the key before it, less
      epsilon; for a key beyond the last one, one less than that. */
  function Needed(c: nat, n: nat, eps: nat): int {
    (if c < n then c + 1 else n) - eps - 2
  }

  /** The line stored for a missing key is high enough. */
  ghost predicate Kept(segs: seq<Segment>, keys: seq<int>, eps: nat, k: int) {
    exists t :: Routes(segs, t, k) && Reaches(segs[t], k, Needed(CountLT(keys, k), |keys|, eps))
  }

  /** The promise for a missing key holds if and only if the line of a responsible segment is high enough. */
  lemma AbsentFound(segs: seq<Segment>, keys: seq<int>, eps: nat, maxKey: int, t: int, k: int, pos: nat)
    requires Input(keys, maxKey) && BottomOf(segs, keys, eps, maxKey)
    requires keys[0] <= k < maxKey && k !in keys
    requires Routes(segs, t, k) && pos == Approximate(segs[t], segs[t + 1], k)
    ensures Finds(RangeAround(pos, eps, |keys|), CountLT(keys, k), |keys|) <==>
            Reaches(segs[t], k, Needed(CountLT(keys, k), |keys|, eps))
  {
    hide LevelOf, Bottom, Firsts, Approximate, Reaches, Routes, CountLE;
    var pts, u := Bottom(keys, maxKey), CountLE(Abscissas(Bottom(keys, maxKey)), k);
    BottomIs(keys, maxKey);
    FirstsClimb(pts, KeyPoints(keys, maxKey));
    AbsentRank(keys, maxKey, k, u);
    RangeHolds(segs, keys, eps, maxKey, t, k, k, pos);
    LevelReaches(segs, pts, |Unpadded(keys, maxKey)|, eps, ExtraKey(keys, maxKey), maxKey, t, k,
                 Needed(CountLT(keys, k), |keys|, eps));
  }

  /** Missing keys with the same lower bound lie between the same points. */
  lemma SameGap(keys: seq<int>, maxKey: int, k: int, k': int)
    requires Input(keys, maxKey) && keys[0] <= k < maxKey && keys[0] <= k' < maxKey && k !in keys && k' !in keys
    requires CountLT(keys, k) == CountLT(keys, k')
    ensures CountLE(Abscissas(Bottom(keys, maxKey)), k) == CountLE(Abscissas(Bottom(keys, maxKey)), k')
  {
    hide Bottom, Firsts, CountLE;
    var pts, data := Bottom(keys, maxKey), KeyPoints(keys, maxKey);
    var u, u' := CountLE(Abscissas(pts), k), CountLE(Abscissas(pts), k');
    AbsentRank(keys, maxKey, k, u);
    AbsentRank(keys, maxKey, k', u');
    BottomIs(keys, maxKey);
    FirstsClimb(pts, data);
  }

  /** A promise kept for a missing key is kept for every greater one in the same gap, whichever segments are found. */
  lemma GapKeeps(segs: seq<Segment>, keys: seq<int>, eps: nat, maxKey: int, t: int, k: int, t': int, k': int)
    requires Input(keys, maxKey) && BottomOf(segs, keys, eps, maxKey)
    requires keys[0] <= k <= k' < maxKey && k !in keys && k' !in keys && CountLT(keys, k) == CountLT(keys, k')
    requires Routes(segs, t, k) && Routes(segs, t', k')
    requires Reaches(segs[t], k, Needed(CountLT(keys, k), |keys|, eps))
    ensures Reaches(segs[t'], k', Needed(CountLT(keys, k'), |keys|, eps))
  {
    hide LevelOf, Bottom, Firsts, Reaches, Routes, CountLE;
    var pts, u := Bottom(keys, maxKey), CountLE(Abscissas(Bottom(keys, maxKey)), k);
    BottomIs(keys, maxKey);
    FirstsClimb(pts, KeyPoints(keys, maxKey));
    AbsentRank(keys, maxKey, k, u);
    SameGap(keys, maxKey, k, k');
    LevelReachesOn(segs, pts, |Unpadded(keys, maxKey)|, eps, ExtraKey(keys, maxKey), maxKey, t, k, t', k',
                   Needed(CountLT(keys, k), |keys|, eps));
  }

  /** Which segment is found responsible makes no difference. */
  lemma KeptBy(segs: seq<Segment>, keys: seq<int>, eps: nat, maxKey: int, t: int, k: int)
    requires Input(keys, maxKey) && BottomOf(segs, keys, eps, maxKey)
    requires keys[0] <= k < maxKey && k !in keys && Routes(segs, t, k)
    ensures Kept(segs, keys, eps, k) <==> Reaches(segs[t], k, Needed(CountLT(keys, k), |keys|, eps))
  {
    hide BottomOf, Reaches, CountLE, Needed;
    if Kept(segs, keys, eps, k) {
      var t0 :| Routes(segs, t0, k) && Reaches(segs[t0], k, Needed(CountLT(keys, k), |keys|, eps));
      GapKeeps(segs, keys, eps, maxKey, t0, k, t, k);
    }
  }

  /** Some segment is responsible for a key. */
  lemma Responsible(segs: seq<Segment>, k: int) returns (t: nat)
    requires |segs| >= 2 && segs[0].key <= k < segs[|segs| - 1].key
    ensures Routes(segs, t, k)
  {
    t := 0;
    while segs[t + 1].key <= k
      invariant t < |segs| - 1 && segs[t].key <= k
      decreases |segs| - t
    {
      t := t + 1;
    }
  }

  lemma BottomResponsible(segs: seq<Segment>, keys: seq<int>, eps: nat, maxKey: int, k: int) returns (t: nat)
    requires Input(keys, maxKey) && BottomOf(segs, keys, eps, maxKey) && keys[0] <= k < maxKey
    ensures Routes(segs, t, k)
  {
    hide LevelOf, Bottom, Firsts;
    BottomIs(keys, maxKey);
    FirstsClimb(Bottom(keys, maxKey), KeyPoints(keys, maxKey));
    LevelKeys(segs, Bottom(keys, maxKey), |Unpadded(keys, maxKey)|, eps, ExtraKey(keys, maxKey), maxKey);
    t := Responsible(segs, k);
  }

  /** Keys are missing behind the first `i` ones; the least of them follows the last of these. */
  predicate Gap(keys: seq<int>, i: nat, maxKey: int)
    requires 1 <= i <= |keys|
  {
    keys[i - 1] + 1 < if i < |keys| then keys[i] else maxKey
  }

  lemma GapOf(keys: seq<int>, maxKey: int, k: int)
    requires Input(keys, maxKey) && keys[0] <= k < maxKey && k !in keys
    ensures var i := CountLT(keys, k);
            && 1 <= i <= |keys| && Gap(keys, i, maxKey) && keys[i - 1] + 1 <= k
  {
    CountLESplits(keys, k - 1);
    var i := CountLT(keys, k);
    assert i < |keys| ==> keys[i] in keys;
  }

  lemma GapStart(keys: seq<int>, i: nat, maxKey: int)
    requires Input(keys, maxKey) && 1 <= i <= |keys| && Gap(keys, i, maxKey)
    ensures var k := keys[i - 1] + 1; keys[0] < k < maxKey && k !in keys && CountLT(keys, k) == i
  {
    CountLEUnique(keys, keys[i - 1], i);
  }

  lemma LeastKeeps(segs: seq<Segment>, keys: seq<int>, eps: nat, maxKey: int, k: int)
    requires Input(keys, maxKey) && BottomOf(segs, keys, eps, maxKey) && keys[0] <= k < maxKey && k !in keys
    requires 1 <= CountLT(keys, k) <= |keys| && Gap(keys, CountLT(keys, k), maxKey)
    requires Kept(segs, keys, eps, keys[CountLT(keys, k) - 1] + 1)
    ensures Kept(segs, keys, eps, k)
  {
    hide BottomOf, Reaches, CountLT, Needed;
    var i := CountLT(keys, k);
    GapOf(keys, maxKey, k);
    GapStart(keys, i, maxKey);
    var k0 := keys[i - 1] + 1;
    var t0 :| Routes(segs, t0, k0) && Reaches(segs[t0], k0, Needed(CountLT(keys, k0), |keys|, eps));
    var t := BottomResponsible(segs, keys, eps, maxKey, k);
    GapKeeps(segs, keys, eps, maxKey, t0, k0, t, k);
  }

  /** The test of an index: it keeps its promise for every missing key above the first one if and only if it does so
      for the least key of every gap. (For keys below the first one and for those that are there it always does.) */
  lemma KeptInGaps(segs: seq<Segment>, keys: seq<int>, eps: nat, maxKey: int)
    requires Input(keys, maxKey) && BottomOf(segs, keys, eps, maxKey)
    ensures (forall k :: keys[0] <= k < maxKey && k !in keys ==> Kept(segs, keys, eps, k)) <==>
            (forall i :: 1 <= i <= |keys| && Gap(keys, i, maxKey) ==> Kept(segs, keys, eps, keys[i - 1] + 1))
  {
    hide Input, BottomOf, Kept, Gap, CountLT;
    InputStarts(keys, maxKey);
    forall i | 1 <= i <= |keys| && Gap(keys, i, maxKey)
      ensures keys[0] <= keys[i - 1] + 1 < maxKey && keys[i - 1] + 1 !in keys
    {
      GapStart(keys, i, maxKey);
    }
    forall k | keys[0] <= k < maxKey && k !in keys
      ensures var i := CountLT(keys, k);
              && 1 <= i <= |keys| && Gap(keys, i, maxKey)
              && (Kept(segs, keys, eps, keys[i - 1] + 1) ==> Kept(segs, keys, eps, k))
    {
      GapOf(keys, maxKey, k);
      if Kept(segs, keys, eps, keys[CountLT(keys, k) - 1] + 1) {
        LeastKeeps(segs, keys, eps, maxKey, k);
      }
    }
  }

  /** The range guarantee. A key that is there has its first position inside the range. For one that is not, the
      documented promise holds if and only if the key lies below the first one or the line stored for it is high enough;
      otherwise the lower bound is the first position after the range, or the key lies beyond a last key that repeats.
      The range is `2 * eps + 2` long, one more than documented, exactly when neither end is cut off. */
  method Search(idx: Index, eps: nat, epsRec: nat, key: int, ghost keys: seq<int>, ghost maxKey: int)
    returns (r: ApproxPos)
    requires IndexOf(idx, keys, eps, epsRec, maxKey) && key < maxKey
    ensures PredictedBy(idx.levels[0], if idx.firstKey > key then idx.firstKey else key, r.pos)
    ensures r == RangeAround(r.pos, eps, |keys|)
    ensures key in keys ==> r.lo <= CountLT(keys, key) < r.hi
    ensures Finds(r, CountLT(keys, key), |keys|) <==>
            key in keys || key < keys[0] || Kept(idx.levels[0], keys, eps, key)
    ensures r.lo <= CountLT(keys, key) && r.hi <= |keys|
    ensures CountLT(keys, key) <= r.hi || (CountLT(keys, key) == |keys| && LastRepeats(keys))
    ensures r.hi - r.lo <= 2 * eps + 2
    ensures r.hi - r.lo == 2 * eps + 2 <==> eps <= r.pos && r.pos + eps + 2 <= |keys|
    ensures r.hi - r.lo == 2 * eps + 2 ==> |keys| >= 2 * eps + 2
  {
    hide BottomOf, Stacked, Approximate, CountLT, Input, Needed, Reaches;
    var k := if idx.firstKey > key then idx.firstKey else key;
    InputStarts(keys, maxKey);
    var it := SegmentForKey(idx, epsRec, k, keys, eps, maxKey);
    var segs := idx.levels[0];
    var pos := Approximate(segs[it], segs[it + 1], k);
    RangeHolds(segs, keys, eps, maxKey, it, key, k, pos);
    if key !in keys && key >= keys[0] {
      AbsentFound(segs, keys, eps, maxKey, it, key, pos);
      KeptBy(segs, keys, eps, maxKey, it, key);
    }
    return ApproxPos(pos, SubEps(pos, eps), AddEps(pos, eps, idx.n));
  }
}
