/** Cutting a sorted sequence of points into segments (make_segmentation in
    include/learnindex/piecewise_linear_model.hpp). */
module Segmentation {
  import opened Geometry
  import opened Hulls
  import opened PiecewiseLinear
  import opened Wrappers

  predicate Sorted(data: seq<Point>) {
    forall i, j :: 0 <= i < j < |data| ==> data[i].x <= data[j].x
  }

  /** The first point of every run of equal abscissas. */
  function FirstOfRuns(data: seq<Point>): (d: seq<Point>) {
    if |data| <= 1 then
      data
    else
      var d := FirstOfRuns(data[..|data| - 1]);
      if data[|data| - 1].x == data[|data| - 2].x then d else d + [data[|data| - 1]]
  }

  lemma FirstsAppend(d: seq<Point>, data: seq<Point>)
    requires |data| > 1 && Sorted(data) && Increasing(d) && d != [] && Members(d, data[..|data| - 1])
    requires d[|d| - 1].x == data[|data| - 2].x
    ensures data[|data| - 1].x != data[|data| - 2].x ==> Increasing(d + [data[|data| - 1]])
    ensures Members(d, data) && Members(d + [data[|data| - 1]], data)
  {
    forall i | 0 <= i < |d| ensures d[i] in data {
      assert d[i] in data[..|data| - 1];
    }
    assert data[|data| - 2].x <= data[|data| - 1].x;
  }

  lemma {:induction false} FirstOfRunsIncreases(data: seq<Point>)
    requires Sorted(data)
    ensures Increasing(FirstOfRuns(data))
    ensures data != [] ==> FirstOfRuns(data) != [] && FirstOfRuns(data)[|FirstOfRuns(data)| - 1].x == data[|data| - 1].x
    ensures Members(FirstOfRuns(data), data)
  {
    hide Members, Increasing, Sorted;
    if |data| <= 1 {
      FewPoints(data);
    } else {
      SortedPrefix(data);
      FirstOfRunsIncreases(data[..|data| - 1]);
      FirstsAppend(FirstOfRuns(data[..|data| - 1]), data);
    }
  }

  lemma FewPoints(data: seq<Point>)
    requires |data| <= 1
    ensures Increasing(data) && Members(data, data)
  {
  }

  lemma SortedPrefix(data: seq<Point>)
    requires Sorted(data) && data != []
    ensures Sorted(data[..|data| - 1])
  {
  }

  lemma {:induction false} FirstOfRunsDistinct(data: seq<Point>)
    requires Increasing(data)
    ensures FirstOfRuns(data) == data
  {
    if |data| > 1 {
      FirstOfRunsDistinct(data[..|data| - 1]);
    }
  }

  /** `cuts` splits `0..n` into non-empty pieces. */
  ghost predicate Partition(cuts: seq<nat>, n: nat) {
    && |cuts| >= 1 && cuts[0] == 0 && cuts[|cuts| - 1] == n
    && forall i, j :: 0 <= i < j < |cuts| ==> cuts[i] < cuts[j]
  }

  /** The points from `a` to `b` can be fitted by one line. */
  ghost predicate Piece(pts: seq<Point>, eps: nat, a: nat, b: nat) {
    a < b <= |pts| && Fits(pts[a..b], eps)
  }

  /** The points from `a` to `b` together with the next one cannot be fitted. */
  ghost predicate Full(pts: seq<Point>, eps: nat, a: nat, b: nat) {
    a < b < |pts| && !Fits(pts[a..b + 1], eps)
  }

  ghost predicate SegmentOf(s: CanonicalSegment, pts: seq<Point>, eps: nat, a: nat, b: nat) {
    a < b <= |pts| && IsSegment(s, eps, pts[a..b])
  }

  /** Every piece can be fitted by one line. */
  ghost predicate Covering(pts: seq<Point>, eps: nat, cuts: seq<nat>) {
    Partition(cuts, |pts|) && forall s :: 0 <= s < |cuts| - 1 ==> PieceAt(pts, eps, cuts, s)
  }

  ghost predicate PieceAt(pts: seq<Point>, eps: nat, cuts: seq<nat>, s: int)
    requires 0 <= s < |cuts| - 1
  {
    Piece(pts, eps, cuts[s], cuts[s + 1])
  }

  /** No piece could have taken the first point of the next one. */
  ghost predicate Greedy(pts: seq<Point>, eps: nat, cuts: seq<nat>) {
    Partition(cuts, |pts|) && forall s :: 0 <= s < |cuts| - 2 ==> FullAt(pts, eps, cuts, s)
  }

  ghost predicate FullAt(pts: seq<Point>, eps: nat, cuts: seq<nat>, s: int)
    requires 0 <= s < |cuts| - 1
  {
    Full(pts, eps, cuts[s], cuts[s + 1])
  }

  /** `out` holds the segments of the pieces. */
  ghost predicate Pieces(out: seq<CanonicalSegment>, pts: seq<Point>, eps: nat, cuts: seq<nat>) {
    Partition(cuts, |pts|) && |cuts| == |out| + 1 && forall s :: 0 <= s < |out| ==> SegmentAt(out, pts, eps, cuts, s)
  }

  ghost predicate SegmentAt(out: seq<CanonicalSegment>, pts: seq<Point>, eps: nat, cuts: seq<nat>, s: int)
    requires 0 <= s < |out| && s < |cuts| - 1
  {
    SegmentOf(out[s], pts, eps, cuts[s], cuts[s + 1])
  }

  ghost predicate IsSegmentation(out: seq<CanonicalSegment>, pts: seq<Point>, eps: nat) {
    exists cuts: seq<nat> :: Pieces(out, pts, eps, cuts) && Greedy(pts, eps, cuts)
  }

  lemma FitsPart(pts: seq<Point>, eps: nat, lo: nat, hi: nat)
    requires lo <= hi <= |pts| && Fits(pts, eps)
    ensures Fits(pts[lo..hi], eps)
  {
    var l: Line :| FitsLine(l, pts, eps);
    assert FitsLine(l, pts[lo..hi], eps);
  }

  lemma SliceOfSlice(pts: seq<Point>, a: nat, b: nat, c: nat, d: nat)
    requires a <= c <= d <= b <= |pts|
    ensures pts[a..b][c - a..d - a] == pts[c..d]
  {
    var s, t := pts[a..b][c - a..d - a], pts[c..d];
    assert |s| == |t|;
    forall i | 0 <= i < |s| ensures s[i] == t[i] {
      assert s[i] == pts[a..b][c - a + i] == pts[c + i];
    }
  }

  lemma IsSegmentFits(s: CanonicalSegment, eps: nat, pts: seq<Point>)
    requires IsSegment(s, eps, pts)
    ensures Fits(pts, eps)
  {
    if |pts| == 1 {
      OnePointSegment(eps, pts, s, 0);
    } else {
      SegmentFits(eps, pts, s, 0);
    }
  }

  lemma PiecesCover(out: seq<CanonicalSegment>, pts: seq<Point>, eps: nat, cuts: seq<nat>)
    requires Pieces(out, pts, eps, cuts)
    ensures Covering(pts, eps, cuts)
  {
    forall s | 0 <= s < |cuts| - 1 ensures PieceAt(pts, eps, cuts, s) {
      assert SegmentAt(out, pts, eps, cuts, s);
      IsSegmentFits(out[s], eps, pts[cuts[s]..cuts[s + 1]]);
    }
  }

  /** The greedy cut is never behind any other covering. */
  lemma {:induction false} GreedyAhead(pts: seq<Point>, eps: nat, cuts: seq<nat>, other: seq<nat>, s: nat)
    requires Greedy(pts, eps, cuts) && Covering(pts, eps, other)
    requires s < |cuts| && s < |other|
    ensures other[s] <= cuts[s]
  {
    if s > 0 {
      GreedyAhead(pts, eps, cuts, other, s - 1);
      if cuts[s] < other[s] {
        var a, b, c, d := other[s - 1], other[s], cuts[s - 1], cuts[s];
        assert PieceAt(pts, eps, other, s - 1) && FullAt(pts, eps, cuts, s - 1);
        SliceOfSlice(pts, a, b, c, d + 1);
        FitsPart(pts[a..b], eps, c - a, d + 1 - a);
      }
    }
  }

  /** The greedy segmentation has the fewest segments of all coverings. */
  lemma GreedyFewest(pts: seq<Point>, eps: nat, cuts: seq<nat>, other: seq<nat>)
    requires Greedy(pts, eps, cuts) && Covering(pts, eps, other)
    ensures |cuts| <= |other|
  {
    if |other| < |cuts| {
      GreedyAhead(pts, eps, cuts, other, |other| - 1);
    }
  }

  /** The number of segments is the least number of pieces, each fitting one line, that the points can be cut into:
      the emitted pieces are such a cut, and no other has fewer. */
  lemma FewestSegments(out: seq<CanonicalSegment>, pts: seq<Point>, eps: nat)
    requires IsSegmentation(out, pts, eps)
    ensures exists cuts: seq<nat> :: Pieces(out, pts, eps, cuts) && Covering(pts, eps, cuts)
    ensures forall other: seq<nat> :: Covering(pts, eps, other) ==> |out| <= |other| - 1
  {
    hide SegmentAt, FullAt, PieceAt;
    var cuts: seq<nat> :| Pieces(out, pts, eps, cuts) && Greedy(pts, eps, cuts);
    PiecesCover(out, pts, eps, cuts);
    forall other: seq<nat> | Covering(pts, eps, other) ensures |out| <= |other| - 1 {
      GreedyFewest(pts, eps, cuts, other);
    }
  }

  /** State of the loop: `pts` has been consumed, `out` holds the closed segments, `open` is the segment under
      construction and starts at the last cut. */
  ghost predicate Progress(out: seq<CanonicalSegment>, pts: seq<Point>, eps: nat, cuts: seq<nat>, open: seq<Point>) {
    && |cuts| == |out| + 1 && cuts[0] == 0
    && (forall i, j :: 0 <= i < j < |cuts| ==> cuts[i] < cuts[j])
    && cuts[|out|] < |pts| && open == pts[cuts[|out|]..]
    && (forall s :: 0 <= s < |out| ==> ClosedAt(out, pts, eps, cuts, s))
  }

  ghost predicate ClosedAt(out: seq<CanonicalSegment>, pts: seq<Point>, eps: nat, cuts: seq<nat>, s: int)
    requires 0 <= s < |out| && s < |cuts| - 1
  {
    Closed(out[s], pts, eps, cuts[s], cuts[s + 1])
  }

  ghost predicate Closed(s: CanonicalSegment, pts: seq<Point>, eps: nat, a: nat, b: nat) {
    SegmentOf(s, pts, eps, a, b) && Full(pts, eps, a, b)
  }

  lemma ClosedStays(s: CanonicalSegment, pts: seq<Point>, eps: nat, a: nat, b: nat, p: Point)
    requires Closed(s, pts, eps, a, b)
    ensures Closed(s, pts + [p], eps, a, b)
  {
    assert (pts + [p])[a..b] == pts[a..b] && (pts + [p])[a..b + 1] == pts[a..b + 1];
  }

  lemma ProgressAccept(out: seq<CanonicalSegment>, pts: seq<Point>, eps: nat, cuts: seq<nat>, open: seq<Point>,
                       p: Point)
    requires Progress(out, pts, eps, cuts, open)
    ensures Progress(out, pts + [p], eps, cuts, open + [p])
  {
    hide Closed;
    assert open + [p] == (pts + [p])[cuts[|out|]..];
    forall s | 0 <= s < |out| ensures ClosedAt(out, pts + [p], eps, cuts, s) {
      assert ClosedAt(out, pts, eps, cuts, s);
      ClosedStays(out[s], pts, eps, cuts[s], cuts[s + 1], p);
    }
  }

  /** A rejected point closes the open segment and starts the next one. */
  lemma ProgressReject(out: seq<CanonicalSegment>, pts: seq<Point>, eps: nat, cuts: seq<nat>, open: seq<Point>,
                       p: Point, s: CanonicalSegment)
    requires Progress(out, pts, eps, cuts, open)
    requires IsSegment(s, eps, open) && !Fits(open + [p], eps)
    ensures Progress(out + [s], pts + [p], eps, cuts + [|pts|], [p])
  {
    hide IsSegment, Fits;
    var pts', cuts', out' := pts + [p], cuts + [|pts|], out + [s];
    ProgressAccept(out, pts, eps, cuts, open, p);
    assert [p] == pts'[|pts|..];
    var a := cuts[|out|];
    assert pts'[a..|pts|] == open && pts'[a..|pts| + 1] == open + [p];
    assert Closed(s, pts', eps, a, |pts|);
    forall k | 0 <= k < |out'| ensures ClosedAt(out', pts', eps, cuts', k) {
      if k < |out| {
        assert ClosedAt(out, pts', eps, cuts, k);
      }
    }
  }

  lemma ProgressDone(out: seq<CanonicalSegment>, pts: seq<Point>, eps: nat, cuts: seq<nat>, open: seq<Point>,
                     s: CanonicalSegment)
    requires Progress(out, pts, eps, cuts, open) && IsSegment(s, eps, open)
    ensures IsSegmentation(out + [s], pts, eps)
  {
    hide IsSegment, Fits;
    var cuts', out' := cuts + [|pts|], out + [s];
    var a := cuts[|out|];
    assert pts[a..|pts|] == open;
    assert SegmentOf(s, pts, eps, a, |pts|);
    forall k | 0 <= k < |out'| ensures SegmentAt(out', pts, eps, cuts', k) {
      if k < |out| {
        assert ClosedAt(out, pts, eps, cuts, k);
      }
    }
    forall k | 0 <= k < |cuts'| - 2 ensures FullAt(pts, eps, cuts', k) {
      assert ClosedAt(out, pts, eps, cuts, k);
    }
    assert Pieces(out', pts, eps, cuts') && Greedy(pts, eps, cuts');
  }

  lemma RunsStep(data: seq<Point>, i: nat)
    requires 1 <= i < |data|
    ensures FirstOfRuns(data[..i + 1]) ==
            if data[i].x == data[i - 1].x then FirstOfRuns(data[..i]) else FirstOfRuns(data[..i]) + [data[i]]
    ensures Sorted(data[..i + 1]) <==> Sorted(data[..i]) && data[i - 1].x <= data[i].x
  {
    var d := data[..i + 1];
    assert d[..|d| - 1] == data[..i];
    if Sorted(data[..i]) && data[i - 1].x <= data[i].x {
      forall j | 0 <= j < i ensures d[j].x <= d[i].x {
        assert data[..i][j].x <= data[..i][i - 1].x;
      }
    }
    if Sorted(d) {
      assert d[i - 1].x <= d[i].x;
    }
  }

  /** Segments every run's first point with the streaming fit; unsorted input is an error. */
  method MakeSegmentation(data: seq<Point>, epsilon: nat) returns (r: Result<seq<CanonicalSegment>, FitError>)
    ensures r.Success? <==> Sorted(data)
    ensures r.Success? ==> IsSegmentation(r.value, FirstOfRuns(data), epsilon)
  {
    hide Fits, IsSegment, Progress, IsSegmentation, FirstOfRuns, OptimalPiecewiseLinearModel.Valid, Sorted;
    var n := |data|;
    var out: seq<CanonicalSegment> := [];
    if n == 0 {
      EmptySegmentation(epsilon);
      return Success(out);
    }
    var start := 0;
    var p := data[0];
    var opt := new OptimalPiecewiseLinearModel(epsilon);
    var first := opt.AddPoint(p.x, p.y);
    ghost var cuts: seq<nat> := [0];
    ghost var pts := [p];
    OneConsumed(data, epsilon);
    var i := 1;
    while i < n
      invariant 1 <= i <= n && fresh(opt) && opt.Valid() && opt.epsilon == epsilon
      invariant Sorted(data[..i]) && FirstOfRuns(data[..i]) == pts
      invariant opt.pointsInHull > 0 ==>
          opt.accepted != [] && start < i && p.x == data[i - 1].x && opt.lastX == p.x
          && Progress(out, pts, epsilon, cuts, opt.accepted)
      invariant opt.pointsInHull == 0 ==>
          start == i < n && data[i - 1].x < data[i].x && Progress(out, pts + [data[i]], epsilon, cuts, [data[i]])
      decreases n - i, opt.pointsInHull > 0
    {
      var nextP := data[i];
      RunsStep(data, i);
      if i != start && nextP.x == p.x {
        i := i + 1;
        continue;
      }
      p := nextP;
      ghost var open, hull := opt.accepted, opt.pointsInHull;
      var ok := opt.AddPoint(p.x, p.y);
      assert Point(p.x, p.y) == p;
      if ok.Failure? {
        Unsorted(data, i);
        return Failure(PointsMustIncrease);
      }
      if !ok.value {
        var s := opt.GetSegment();
        ProgressReject(out, pts, epsilon, cuts, open, p, s);
        out := out + [s];
        cuts := cuts + [|pts|];
        start := i;
      } else {
        if hull > 0 {
          ProgressAccept(out, pts, epsilon, cuts, open, p);
        }
        pts := pts + [p];
        i := i + 1;
      }
    }
    assert data[..n] == data;
    var s := opt.GetSegment();
    ProgressDone(out, pts, epsilon, cuts, opt.accepted, s);
    return Success(out + [s]);
  }

  lemma EmptySegmentation(eps: nat)
    ensures IsSegmentation([], FirstOfRuns([]), eps)
    ensures Sorted([])
  {
    assert Pieces([], [], eps, [0]) && Greedy([], eps, [0]);
  }

  lemma OneConsumed(data: seq<Point>, eps: nat)
    requires data != []
    ensures Sorted(data[..1]) && FirstOfRuns(data[..1]) == [data[0]] && Progress([], [data[0]], eps, [0], [data[0]])
  {
    assert [data[0]][0..] == [data[0]];
  }

  lemma Unsorted(data: seq<Point>, i: nat)
    requires 1 <= i < |data| && data[i].x < data[i - 1].x
    ensures !Sorted(data)
  {
  }
}
