/** How the list of leaves agrees with the child pointers of model nodes (include/alex/alex.h). */
module LeafOrders {
  import opened LeafLists
  import opened Numbers
  import opened Seqs

  /** `y` comes right after `x` in the list. */
  ghost predicate Follows(list: seq<AlexNode>, x: AlexNode, y: AlexNode) {
    exists i :: 0 <= i < |list| && list[i] == x && Following(list, i) == y
  }

  lemma FollowsAt(list: seq<AlexNode>, i: nat)
    requires i + 1 < |list|
    ensures Follows(list, list[i], list[i + 1])
  {
    assert Following(list, i) == list[i + 1];
  }

  /** A leaf is in the list once. */
  lemma OncePlaced(list: seq<AlexNode>, i: nat, j: nat)
    requires LinksApart(list) && i < |list| && j < |list| && list[i] == list[j]
    ensures i == j
  {
  }

  /** The outermost leaves under a model node, as far as it is known. */
  datatype Ends = Ends(node: AlexNode?, first: AlexNode?, last: AlexNode?)

  const NoEnds := Ends(null, null, null)

  /** First leaf under a child; known for leaves and for the child `sub.node`. */
  function First(x: AlexNode, sub: Ends): AlexNode? {
    if x.isLeaf then x else if x == sub.node then sub.first else null
  }

  function Last(x: AlexNode, sub: Ends): AlexNode? {
    if x.isLeaf then x else if x == sub.node then sub.last else null
  }

  /** Where the pointers change from `x` to `y`, the list goes on from the last leaf under `x` to the first one under
      `y`. */
  ghost predicate Joint(list: seq<AlexNode>, x: AlexNode, y: AlexNode, sub: Ends) {
    var l, f := Last(x, sub), First(y, sub);
    x != y && l != null && f != null ==> Follows(list, l, f)
  }

  ghost predicate JointAt(c: seq<AlexNode>, list: seq<AlexNode>, sub: Ends, j: nat)
    requires 0 < j < |c|
  {
    Joint(list, c[j - 1], c[j], sub)
  }

  /** The pointers of a node and the list are in the same order. */
  ghost predicate InOrder(c: seq<AlexNode>, list: seq<AlexNode>, sub: Ends) {
    forall j :: 0 < j < |c| ==> JointAt(c, list, sub, j)
  }

  /** And the node begins and ends with the leaves `e`. */
  ghost predicate Edged(c: seq<AlexNode>, list: seq<AlexNode>, e: Ends, sub: Ends) {
    && c != [] && InOrder(c, list, sub)
    && (First(c[0], sub) != null ==> e.first == First(c[0], sub))
    && (Last(c[|c| - 1], sub) != null ==> e.last == Last(c[|c| - 1], sub))
  }

  // ---- Taking a leaf out

  /** Leaf `at` of the list gives way to the leaf beside it. */
  ghost predicate GivesWay(list: seq<AlexNode>, at: nat, kept: AlexNode) {
    LinksApart(list) && at < |list| && (Following(list, at) == kept || Prior(list, at) == kept)
  }

  function Moved(e: Ends, gone: AlexNode, kept: AlexNode): Ends {
    Ends(e.node, if e.first == gone then kept else e.first, if e.last == gone then kept else e.last)
  }

  /** Neighbours elsewhere stay neighbours. */
  lemma FollowsStill(list: seq<AlexNode>, at: nat, leaves: seq<AlexNode>, x: AlexNode, y: AlexNode)
    requires LinksApart(list) && at < |list| && Follows(list, x, y) && x != list[at] && y != list[at]
    ensures Follows(Substituted(list, at, leaves), x, y)
  {
    var r := Substituted(list, at, leaves);
    var i :| 0 <= i < |list| && list[i] == x && Following(list, i) == y;
    FollowsAt(r, if i < at then i else i - 1 + |leaves|);
  }

  /** What came before the leaf comes before the one to its right that it gives way to, and the other way round. */
  lemma FollowsOver(list: seq<AlexNode>, at: nat, kept: AlexNode, x: AlexNode)
    requires GivesWay(list, at, kept)
    ensures Follows(list, x, list[at]) && x != kept ==> Follows(Substituted(list, at, []), x, kept)
    ensures Follows(list, list[at], x) && x != kept ==> Follows(Substituted(list, at, []), kept, x)
  {
    var r := Substituted(list, at, []);
    if Follows(list, x, list[at]) && x != kept {
      var i :| 0 <= i < |list| && list[i] == x && Following(list, i) == list[at];
      OncePlaced(list, i + 1, at);
      FollowsAt(r, i);
    }
    if Follows(list, list[at], x) && x != kept {
      var i :| 0 <= i < |list| && list[i] == list[at] && Following(list, i) == x;
      OncePlaced(list, i, at);
      FollowsAt(r, at - 1);
    }
  }

  /** A node further up, under which the leaf and the one beside it lie below the same child. */
  lemma EdgedAbove(c: seq<AlexNode>, list: seq<AlexNode>, e: Ends, sub: Ends, at: nat, kept: AlexNode)
    requires Edged(c, list, e, sub) && GivesWay(list, at, kept) && list[at] !in c && kept !in c
    ensures Edged(c, Substituted(list, at, []), Moved(e, list[at], kept), Moved(sub, list[at], kept))
  {
    hide Substituted, Follows;
    var r, gone := Substituted(list, at, []), list[at];
    forall j | 0 < j < |c| ensures JointAt(c, r, Moved(sub, gone, kept), j) {
      assert JointAt(c, list, sub, j);
      var x, y := c[j - 1], c[j];
      JointAbove(list, x, y, sub, at, kept);
    }
  }

  lemma JointAbove(list: seq<AlexNode>, x: AlexNode, y: AlexNode, sub: Ends, at: nat, kept: AlexNode)
    requires Joint(list, x, y, sub) && GivesWay(list, at, kept)
    requires x != list[at] && x != kept && y != list[at] && y != kept
    ensures Joint(Substituted(list, at, []), x, y, Moved(sub, list[at], kept))
  {
    hide Substituted, Follows;
    var l, f := Last(x, sub), First(y, sub);
    if x != y && l != null && f != null {
      if l == list[at] {
        FollowsOver(list, at, kept, f);
      } else if f == list[at] {
        FollowsOver(list, at, kept, l);
      } else {
        FollowsStill(list, at, [], l, f);
      }
    }
  }

  /** The node whose pointers to the leaf now go to the one beside it. */
  lemma EdgedMerged(c: seq<AlexNode>, c': seq<AlexNode>, list: seq<AlexNode>, e: Ends, at: nat, kept: AlexNode)
    requires Edged(c, list, e, NoEnds) && GivesWay(list, at, kept) && list[at].isLeaf && kept.isLeaf && |c'| == |c|
    requires forall j :: 0 <= j < |c| ==> c'[j] == if c[j] == list[at] then kept else c[j]
    ensures Edged(c', Substituted(list, at, []), Moved(e, list[at], kept), NoEnds)
  {
    hide Substituted, Follows;
    var r, gone := Substituted(list, at, []), list[at];
    forall j | 0 < j < |c| ensures JointAt(c', r, NoEnds, j) {
      assert JointAt(c, list, NoEnds, j);
      JointMerged(list, c[j - 1], c[j], c'[j - 1], c'[j], at, kept);
    }
  }

  lemma JointMerged(list: seq<AlexNode>, x: AlexNode, y: AlexNode, x': AlexNode, y': AlexNode, at: nat, kept: AlexNode)
    requires Joint(list, x, y, NoEnds) && GivesWay(list, at, kept) && list[at].isLeaf && kept.isLeaf
    requires x' == (if x == list[at] then kept else x) && y' == (if y == list[at] then kept else y)
    ensures Joint(Substituted(list, at, []), x', y', NoEnds)
  {
    hide Substituted, Follows;
    if x != y && x.isLeaf && y.isLeaf && x' != y' {
      if x == list[at] {
        FollowsOver(list, at, kept, y);
      } else if y == list[at] {
        FollowsOver(list, at, kept, x);
      } else {
        FollowsStill(list, at, [], x, y);
      }
    }
  }

  /** The node that takes a leaf in place of a child model node. */
  lemma EdgedUp(c: seq<AlexNode>, c': seq<AlexNode>, list: seq<AlexNode>, e: Ends, sub: Ends, leaf: AlexNode)
    requires Edged(c, list, e, sub) && leaf.isLeaf && sub.first == sub.last == leaf && |c'| == |c|
    requires sub.node != null && !sub.node.isLeaf
    requires forall j :: 0 <= j < |c| ==> c'[j] == if c[j] == sub.node then leaf else c[j]
    ensures Edged(c', list, e, NoEnds)
  {
    hide Follows;
    forall j | 0 < j < |c| ensures JointAt(c', list, NoEnds, j) {
      assert JointAt(c, list, sub, j);
    }
  }

  // ---- One after the other

  /** Leaf `gone`, at place `at` of the list as it is then, gives way to `kept`. */
  datatype Merging = Merging(at: nat, gone: AlexNode, kept: AlexNode)

  /** The list after the first ones have given way. */
  ghost function AfterMergings(list: seq<AlexNode>, ms: seq<Merging>): seq<AlexNode> {
    if ms == [] then list
    else
      var l, m := AfterMergings(list, ms[..|ms| - 1]), ms[|ms| - 1];
      if m.at < |l| then Substituted(l, m.at, []) else l
  }

  ghost function EndsAfter(e: Ends, ms: seq<Merging>): Ends {
    if ms == [] then e
    else Moved(EndsAfter(e, ms[..|ms| - 1]), ms[|ms| - 1].gone, ms[|ms| - 1].kept)
  }

  /** Each of them an empty leaf beside the one it gives way to. */
  ghost predicate Mergings(list: seq<AlexNode>, ms: seq<Merging>) {
    ms != [] ==>
      var l, m := AfterMergings(list, ms[..|ms| - 1]), ms[|ms| - 1];
      Mergings(list, ms[..|ms| - 1]) && GivesWay(l, m.at, m.kept) && l[m.at] == m.gone && m.gone.keys == []
  }

  lemma NoMergings(list: seq<AlexNode>, e: Ends)
    ensures Mergings(list, []) && AfterMergings(list, []) == list && EndsAfter(e, []) == e
  {
  }

  lemma MergingMore(list: seq<AlexNode>, ms: seq<Merging>, m: Merging)
    requires Mergings(list, ms) && m.gone.keys == []
    requires GivesWay(AfterMergings(list, ms), m.at, m.kept) && AfterMergings(list, ms)[m.at] == m.gone
    ensures Mergings(list, ms + [m])
    ensures AfterMergings(list, ms + [m]) == Substituted(AfterMergings(list, ms), m.at, [])
    ensures forall e :: EndsAfter(e, ms + [m]) == Moved(EndsAfter(e, ms), m.gone, m.kept)
    ensures Links(AfterMergings(list, ms + [m])) <= Links(AfterMergings(list, ms))
  {
    assert (ms + [m])[..|ms|] == ms;
    FewerLinks(AfterMergings(list, ms), m.at);
  }

  lemma FewerLinks(list: seq<AlexNode>, at: nat)
    requires at < |list|
    ensures Links(Substituted(list, at, [])) <= Links(list)
  {
    var r := Substituted(list, at, []);
    forall x | x in r ensures x in list {
      var i :| 0 <= i < |r| && r[i] == x;
    }
  }

  /** No key leaves the list. */
  lemma {:induction false} MergingKeys(list: seq<AlexNode>, ms: seq<Merging>)
    requires Mergings(list, ms)
    ensures AllKeys(AfterMergings(list, ms)) == AllKeys(list) && Links(AfterMergings(list, ms)) <= Links(list)
  {
    hide AllKeys, Substituted;
    if ms != [] {
      MergingKeys(list, ms[..|ms| - 1]);
      NoKeysIn();
      KeysSubstituted(AfterMergings(list, ms[..|ms| - 1]), ms[|ms| - 1].at, []);
      FewerLinks(AfterMergings(list, ms[..|ms| - 1]), ms[|ms| - 1].at);
    }
  }

  lemma NoKeysIn()
    ensures AllKeys([]) == []
  {
  }

  /** A node further up. */
  lemma {:induction false} EdgedAboveAll(c: seq<AlexNode>, list: seq<AlexNode>, e: Ends, sub: Ends, ms: seq<Merging>)
    requires Edged(c, list, e, sub) && Mergings(list, ms) && forall m :: m in ms ==> m.gone !in c && m.kept !in c
    ensures Edged(c, AfterMergings(list, ms), EndsAfter(e, ms), EndsAfter(sub, ms))
  {
    hide Edged, Substituted;
    if ms != [] {
      var prior, m := ms[..|ms| - 1], ms[|ms| - 1];
      EdgedAboveAll(c, list, e, sub, prior);
      EdgedAbove(c, AfterMergings(list, prior), EndsAfter(e, prior), EndsAfter(sub, prior), m.at, m.kept);
    }
  }

  // ---- Repeating pointers

  lemma EdgedExpanded(c: seq<AlexNode>, c': seq<AlexNode>, f: nat, list: seq<AlexNode>, e: Ends, sub: Ends)
    requires Edged(c, list, e, sub) && f > 0 && |c'| == |c| * f
    requires forall j :: 0 <= j < |c'| ==> j / f < |c| && c'[j] == c[j / f]
    ensures Edged(c', list, e, sub)
  {
    hide Follows;
    MulAtMost(1, |c|, f);
    QuotientIs(|c'| - 1, f, |c| - 1);
    forall j | 0 < j < |c'| ensures JointAt(c', list, sub, j) {
      QuotientSteps(j, f);
      if j / f != (j - 1) / f {
        assert JointAt(c, list, sub, j / f);
      }
    }
  }

  lemma QuotientSteps(j: nat, f: nat)
    requires j > 0 && f > 0
    ensures j / f == (j - 1) / f || j / f == (j - 1) / f + 1
  {
    var q := (j - 1) / f;
    QuotientBelow(j - 1, f, q + 1);
    QuotientBelow(j, f, q + 2);
    QuotientBelow(j - 1, f, q);
    QuotientBelow(j, f, q);
    assert (q + 2) * f == (q + 1) * f + f;
  }

  // ---- New leaves in place of one

  /** Pointers to all of the leaves, in order. */
  ghost predicate SpreadOver(c: seq<AlexNode>, leaves: seq<AlexNode>) {
    && c != [] && leaves != [] && c[0] == leaves[0] && c[|c| - 1] == leaves[|leaves| - 1]
    && forall j :: 0 < j < |c| ==> SpreadAt(c, leaves, j)
  }

  ghost predicate SpreadAt(c: seq<AlexNode>, leaves: seq<AlexNode>, j: nat)
    requires 0 < j < |c|
  {
    c[j - 1] != c[j] ==> Follows(leaves, c[j - 1], c[j])
  }

  lemma SpreadMore(c: seq<AlexNode>, leaves: seq<AlexNode>, m: nat, x: AlexNode)
    requires m > 0 && (if leaves == [] then c == [] else SpreadOver(c, leaves))
    ensures SpreadOver(c + seq(m, _ => x), leaves + [x])
  {
    hide Follows;
    var d, all := c + seq(m, _ => x), leaves + [x];
    forall j | 0 < j < |d| ensures SpreadAt(d, all, j) {
      if j < |c| {
        assert SpreadAt(c, leaves, j);
        if d[j - 1] != d[j] {
          FollowsMore(leaves, x, d[j - 1], d[j]);
        }
      } else if j == |c| {
        FollowsAt(all, |leaves| - 1);
      }
    }
  }

  lemma FollowsMore(leaves: seq<AlexNode>, z: AlexNode, x: AlexNode, y: AlexNode)
    requires Follows(leaves, x, y)
    ensures Follows(leaves + [z], x, y)
  {
    var i :| 0 <= i < |leaves| && leaves[i] == x && Following(leaves, i) == y;
    FollowsAt(leaves + [z], i);
  }

  function Divided(e: Ends, gone: AlexNode, leaves: seq<AlexNode>): Ends
    requires leaves != []
  {
    Ends(e.node, if e.first == gone then leaves[0] else e.first,
         if e.last == gone then leaves[|leaves| - 1] else e.last)
  }

  lemma FollowsIn(list: seq<AlexNode>, at: nat, leaves: seq<AlexNode>, x: AlexNode, y: AlexNode)
    requires at < |list| && Follows(leaves, x, y)
    ensures Follows(Substituted(list, at, leaves), x, y)
  {
    var i :| 0 <= i < |leaves| && leaves[i] == x && Following(leaves, i) == y;
    FollowsAt(Substituted(list, at, leaves), at + i);
  }

  /** The first of the new leaves comes after what the old one came after, and so on. */
  lemma FollowsEnds(list: seq<AlexNode>, at: nat, leaves: seq<AlexNode>, x: AlexNode)
    requires LinksApart(list) && at < |list| && leaves != []
    ensures Follows(list, x, list[at]) ==> Follows(Substituted(list, at, leaves), x, leaves[0])
    ensures Follows(list, list[at], x) ==> Follows(Substituted(list, at, leaves), leaves[|leaves| - 1], x)
  {
    var r := Substituted(list, at, leaves);
    if Follows(list, x, list[at]) {
      var i :| 0 <= i < |list| && list[i] == x && Following(list, i) == list[at];
      OncePlaced(list, i + 1, at);
      FollowsAt(r, i);
    }
    if Follows(list, list[at], x) {
      var i :| 0 <= i < |list| && list[i] == list[at] && Following(list, i) == x;
      OncePlaced(list, i, at);
      FollowsAt(r, at + |leaves| - 1);
    }
  }

  /** The node whose leaf is divided. */
  lemma EdgedDivided(c: seq<AlexNode>, c': seq<AlexNode>, lo: nat, hi: nat, list: seq<AlexNode>, e: Ends, at: nat,
                     leaves: seq<AlexNode>)
    requires Edged(c, list, e, NoEnds) && LinksApart(list) && at < |list| && list[at].isLeaf && lo < hi <= |c| == |c'|
    requires forall j :: 0 <= j < |c| ==> (c[j] == list[at] <==> lo <= j < hi)
    requires forall j :: 0 <= j < |c| && !(lo <= j < hi) ==> c'[j] == c[j]
    requires SpreadOver(c'[lo..hi], leaves) && forall x :: x in leaves ==> x.isLeaf
    ensures Edged(c', Substituted(list, at, leaves), Divided(e, list[at], leaves), NoEnds)
  {
    hide Follows, Substituted;
    var r, d := Substituted(list, at, leaves), c'[lo..hi];
    assert c'[lo] == d[0] && c'[hi - 1] == d[hi - 1 - lo];
    forall j | 0 < j < |c| ensures JointAt(c', r, NoEnds, j) {
      assert JointAt(c, list, NoEnds, j);
      var x, y := c'[j - 1], c'[j];
      if lo < j < hi {
        assert SpreadAt(d, leaves, j - lo);
        if x != y {
          FollowsIn(list, at, leaves, x, y);
        }
      } else if j == hi {
        FollowsEnds(list, at, leaves, y);
      } else if j == lo {
        FollowsEnds(list, at, leaves, x);
      } else if Follows(list, x, y) {
        FollowsStill(list, at, leaves, x, y);
      }
    }
  }

  /** A node further up. */
  lemma EdgedAboveDivided(c: seq<AlexNode>, list: seq<AlexNode>, e: Ends, sub: Ends, at: nat, leaves: seq<AlexNode>)
    requires Edged(c, list, e, sub) && LinksApart(list) && at < |list| && list[at] !in c && leaves != []
    ensures Edged(c, Substituted(list, at, leaves), Divided(e, list[at], leaves), Divided(sub, list[at], leaves))
  {
    hide Substituted, Follows;
    var r, sub' := Substituted(list, at, leaves), Divided(sub, list[at], leaves);
    forall j | 0 < j < |c| ensures JointAt(c, r, sub', j) {
      assert JointAt(c, list, sub, j);
      JointDivided(list, c[j - 1], c[j], sub, at, leaves);
    }
  }

  lemma JointDivided(list: seq<AlexNode>, x: AlexNode, y: AlexNode, sub: Ends, at: nat, leaves: seq<AlexNode>)
    requires Joint(list, x, y, sub) && LinksApart(list) && at < |list| && leaves != []
    requires x != list[at] && y != list[at]
    ensures Joint(Substituted(list, at, leaves), x, y, Divided(sub, list[at], leaves))
  {
    hide Substituted, Follows;
    var l, f := Last(x, sub), First(y, sub);
    if x != y && l != null && f != null {
      if l == list[at] {
        FollowsEnds(list, at, leaves, f);
      } else if f == list[at] {
        FollowsEnds(list, at, leaves, l);
      } else {
        FollowsStill(list, at, leaves, l, f);
      }
    }
  }
}
