/** The fanout tree that decides how a full leaf is divided (include/alex/alex_fanout_tree.h): merging nodes upwards
    keeps every smallest part under exactly one node in use, so the nodes collected at the end tile the leaf. */
module FanoutTrees {
  import opened AlexModelNodes
  import LeafLists
  import LeafOrders
  import opened Numbers
  import opened Powers

  /** Flags of the nodes in use: `Pow2(l)` nodes on level `l`. */
  ghost predicate Levels(used: seq<seq<bool>>, depth: nat) {
    |used| == depth + 1 && forall l :: 0 <= l <= depth ==> |used[l]| == Pow2(l)
  }

  /** The node of level `l` over part `p` of the deepest level. */
  function Above(p: nat, depth: nat, l: nat): nat
    requires l <= depth
  {
    Over(p, Pow2(depth - l))
  }

  function Over(p: nat, m: nat): nat
    requires m > 0
  {
    p / m
  }

  lemma AboveIn(p: nat, depth: nat, l: nat)
    requires l <= depth && p < Pow2(depth)
    ensures Above(p, depth, l) < Pow2(l)
  {
    Pow2Add(l, depth - l);
    QuotientBelow(p, Pow2(depth - l), Pow2(l));
  }

  /** The node one level up is the one with half the number. */
  lemma AboveHalf(p: nat, depth: nat, l: nat)
    requires 0 < l <= depth
    ensures Above(p, depth, l - 1) == Above(p, depth, l) / 2
  {
    hide Pow2;
    var m, j := Pow2(depth - l), Above(p, depth, l);
    Pow2Double(depth - l);
    QuotientBelow(p, m, j);
    QuotientBelow(p, m, j + 1);
    var h := j / 2;
    MulAtMost(2 * h, j, m);
    MulAtMost(j + 1, 2 * h + 2, m);
    QuotientIs(p, 2 * m, h);
  }

  /** The node over part `p` on level `l` is in use, and no other node over it. */
  ghost predicate OnlyUsed(used: seq<seq<bool>>, depth: nat, p: nat, l: nat)
    requires Levels(used, depth) && l <= depth && p < Pow2(depth)
  {
    forall m :: 0 <= m <= depth ==> (Uses(used, m, Above(p, depth, m)) <==> m == l)
  }

  predicate Uses(used: seq<seq<bool>>, l: nat, id: nat) {
    l < |used| && id < |used[l]| && used[l][id]
  }

  ghost predicate Covers(used: seq<seq<bool>>, depth: nat) {
    Levels(used, depth) && forall p :: 0 <= p < Pow2(depth) ==> CoversAt(used, depth, p)
  }

  ghost predicate CoversAt(used: seq<seq<bool>>, depth: nat, p: nat)
    requires Levels(used, depth) && p < Pow2(depth)
  {
    exists l :: 0 <= l <= depth && OnlyUsed(used, depth, p, l)
  }

  /** The parent takes the place of its two children. */
  function MergePair(used: seq<seq<bool>>, level: nat, i: nat): seq<seq<bool>>
    requires 0 < level < |used| && 2 * i + 1 < |used[level]| && i < |used[level - 1]|
  {
    used[level := used[level][2 * i := false][2 * i + 1 := false]][level - 1 := used[level - 1][i := true]]
  }

  lemma PairUses(used: seq<seq<bool>>, level: nat, i: nat, l: nat, id: nat)
    requires 0 < level < |used| && 2 * i + 1 < |used[level]| && i < |used[level - 1]|
    ensures Uses(MergePair(used, level, i), l, id) <==>
            if l == level && id / 2 == i then false else (l == level - 1 && id == i) || Uses(used, l, id)
  {
  }

  lemma PairCovers(used: seq<seq<bool>>, depth: nat, level: nat, i: nat)
    requires Covers(used, depth) && 0 < level <= depth && 2 * i + 1 < Pow2(level)
    requires Uses(used, level, 2 * i) && Uses(used, level, 2 * i + 1)
    ensures i < Pow2(level - 1) && Covers(MergePair(used, level, i), depth)
  {
    hide Above, Uses, OnlyUsed;
    assert Pow2(level) == 2 * Pow2(level - 1);
    var used' := MergePair(used, level, i);
    assert Levels(used', depth);
    forall p | 0 <= p < Pow2(depth) ensures CoversAt(used', depth, p) {
      assert CoversAt(used, depth, p);
      var l :| 0 <= l <= depth && OnlyUsed(used, depth, p, l);
      PairOnly(used, depth, level, i, p, l);
    }
  }

  lemma PairOnly(used: seq<seq<bool>>, depth: nat, level: nat, i: nat, p: nat, l: nat)
    requires Levels(used, depth) && l <= depth && p < Pow2(depth)
    requires 0 < level <= depth && 2 * i + 1 < Pow2(level) && i < Pow2(level - 1)
    requires Levels(MergePair(used, level, i), depth)
    requires Uses(used, level, 2 * i) && Uses(used, level, 2 * i + 1) && OnlyUsed(used, depth, p, l)
    ensures OnlyUsed(MergePair(used, level, i), depth, p, if Above(p, depth, level) / 2 == i then level - 1 else l)
  {
    hide Above, MergePair, Uses;
    AboveHalf(p, depth, level);
    forall m | 0 <= m <= depth
      ensures Uses(MergePair(used, level, i), m, Above(p, depth, m)) <==>
              if m == level && Above(p, depth, m) / 2 == i then false
              else (m == level - 1 && Above(p, depth, m) == i) || Uses(used, m, Above(p, depth, m))
    {
      PairUses(used, level, i, m, Above(p, depth, m));
    }
    assert Uses(used, level, Above(p, depth, level)) <==> level == l;
  }

  /** Both nodes of pair `i` are in use, and merging them pays. */
  predicate Merges(used: seq<seq<bool>>, level: nat, i: nat, pays: (nat, nat) -> bool) {
    Uses(used, level, 2 * i) && Uses(used, level, 2 * i + 1) && pays(level, i)
  }

  /** After the first `n` pairs of a level. */
  function MergedLevel(used: seq<seq<bool>>, depth: nat, level: nat, n: nat, pays: (nat, nat) -> bool)
    : (r: seq<seq<bool>>)
    requires Levels(used, depth) && 0 < level <= depth && n <= Pow2(level - 1)
    ensures Levels(r, depth)
  {
    if n == 0 then used
    else
      var u := MergedLevel(used, depth, level, n - 1, pays);
      assert Pow2(level) == 2 * Pow2(level - 1);
      if Merges(u, level, n - 1, pays) then MergePair(u, level, n - 1) else u
  }

  /** Some of them merge. */
  predicate SomeMerge(used: seq<seq<bool>>, depth: nat, level: nat, n: nat, pays: (nat, nat) -> bool)
    requires Levels(used, depth) && 0 < level <= depth && n <= Pow2(level - 1)
  {
    n > 0 && (SomeMerge(used, depth, level, n - 1, pays)
              || Merges(MergedLevel(used, depth, level, n - 1, pays), level, n - 1, pays))
  }

  /** Level by level, up to one on which nothing merges. */
  function MergedUp(used: seq<seq<bool>>, depth: nat, level: nat, pays: (nat, nat) -> bool): (r: seq<seq<bool>>)
    requires Levels(used, depth) && level <= depth
    ensures Levels(r, depth)
    decreases level
  {
    if level == 0 then used
    else
      var u := MergedLevel(used, depth, level, Pow2(level - 1), pays);
      if SomeMerge(used, depth, level, Pow2(level - 1), pays) then MergedUp(u, depth, level - 1, pays) else u
  }

  /** Merges pairs of nodes in use, from the start level up, as long as some pair merges; costs decide which. */
  method MergeNodesUpwards(used0: seq<seq<bool>>, depth: nat, startLevel: nat, pays: (nat, nat) -> bool)
    returns (used: seq<seq<bool>>)
    requires Covers(used0, depth) && startLevel <= depth
    ensures Levels(used0, depth) && used == MergedUp(used0, depth, startLevel, pays) && Covers(used, depth)
  {
    hide Covers, Levels, MergedLevel, SomeMerge;
    CoversLevels(used0, depth);
    used := used0;
    var level: nat := startLevel;
    while level >= 1
      invariant level <= depth && Covers(used, depth) && Levels(used, depth)
      invariant MergedUp(used, depth, level, pays) == MergedUp(used0, depth, startLevel, pays)
    {
      var atLeastOneMerge;
      used, atLeastOneMerge := MergeLevel(used, depth, level, pays);
      if !atLeastOneMerge {
        return;
      }
      level := level - 1;
    }
  }

  /** The pairs of one level. */
  method MergeLevel(used0: seq<seq<bool>>, depth: nat, level: nat, pays: (nat, nat) -> bool)
    returns (used: seq<seq<bool>>, atLeastOneMerge: bool)
    requires Levels(used0, depth) && Covers(used0, depth) && 1 <= level <= depth
    ensures Levels(used, depth) && Covers(used, depth)
    ensures used == MergedLevel(used0, depth, level, Pow2(level - 1), pays)
    ensures atLeastOneMerge == SomeMerge(used0, depth, level, Pow2(level - 1), pays)
  {
    hide Covers;
    used, atLeastOneMerge := used0, false;
    assert Pow2(level) == 2 * Pow2(level - 1);
    for i := 0 to Pow2(level - 1)
      invariant Covers(used, depth) && Levels(used, depth)
      invariant used == MergedLevel(used0, depth, level, i, pays)
      invariant atLeastOneMerge == SomeMerge(used0, depth, level, i, pays)
    {
      if used[level][2 * i] && used[level][2 * i + 1] && pays(level, i) {
        PairCovers(used, depth, level, i);
        used := MergePair(used, level, i);
        CoversLevels(used, depth);
        atLeastOneMerge := true;
      }
    }
  }

  lemma CoversLevels(used: seq<seq<bool>>, depth: nat)
    requires Covers(used, depth)
    ensures Levels(used, depth)
  {
  }

  // ---- Collecting the nodes in use

  /** First smallest part under a node. */
  function First(x: FTNode, depth: nat): nat
    requires x.level <= depth
  {
    x.id * Pow2(depth - x.level)
  }

  function After(x: FTNode, depth: nat): nat
    requires x.level <= depth
  {
    First(x, depth) + Pow2(depth - x.level)
  }

  ghost predicate Under(x: FTNode, depth: nat, p: int)
    requires x.level <= depth
  {
    First(x, depth) <= p < After(x, depth)
  }

  lemma UnderIsAbove(x: FTNode, depth: nat, p: nat)
    requires x.level <= depth
    ensures Under(x, depth, p) <==> Above(p, depth, x.level) == x.id
  {
    var m := Pow2(depth - x.level);
    QuotientBelow(p, m, x.id);
    QuotientBelow(p, m, x.id + 1);
    assert (x.id + 1) * m == x.id * m + m;
  }

  /** In the order of their first parts. */
  ghost predicate Ascends(nodes: seq<FTNode>, depth: nat) {
    && (forall t :: 0 <= t < |nodes| ==> nodes[t].level <= depth)
    && forall s, t :: 0 <= s < t < |nodes| ==> First(nodes[s], depth) < First(nodes[t], depth)
  }

  /** Every smallest part is under exactly one of the nodes, and nothing else is. */
  ghost predicate Divided(nodes: seq<FTNode>, depth: nat)
    requires forall t :: 0 <= t < |nodes| ==> nodes[t].level <= depth
  {
    && (forall t :: 0 <= t < |nodes| ==> After(nodes[t], depth) <= Pow2(depth))
    && (forall p :: 0 <= p < Pow2(depth) ==> Reached(nodes, depth, p))
    && forall s, t, p :: 0 <= s < |nodes| && 0 <= t < |nodes| && Under(nodes[s], depth, p) && Under(nodes[t], depth, p)
                         ==> s == t
  }

  ghost predicate Reached(nodes: seq<FTNode>, depth: nat, p: nat)
    requires forall t :: 0 <= t < |nodes| ==> nodes[t].level <= depth
  {
    exists t :: 0 <= t < |nodes| && Under(nodes[t], depth, p)
  }

  lemma Disjoint(nodes: seq<FTNode>, depth: nat, s: nat, t: nat)
    requires Ascends(nodes, depth) && Divided(nodes, depth) && s < t < |nodes|
    ensures After(nodes[s], depth) <= First(nodes[t], depth)
  {
    hide Pow2, First;
    assert Under(nodes[t], depth, First(nodes[t], depth));
    assert !Under(nodes[s], depth, First(nodes[t], depth));
  }

  /** The node over the part behind node `t - 1` is node `t`. */
  lemma NextIs(nodes: seq<FTNode>, depth: nat, t: nat, e: nat, s: nat)
    requires Ascends(nodes, depth) && Divided(nodes, depth) && t <= |nodes| && s < |nodes| && Under(nodes[s], depth, e)
    requires e == if t == 0 then 0 else After(nodes[t - 1], depth)
    ensures s == t && First(nodes[t], depth) == e
  {
    hide Pow2, First, Divided;
    if s + 1 < t {
      Disjoint(nodes, depth, s, t - 1);
    }
    if t < s {
      Disjoint(nodes, depth, t, s);
    }
    if 0 < t < |nodes| {
      Disjoint(nodes, depth, t - 1, t);
    }
  }

  /** Nodes that divide the parts among them, in order, leave no gap and do not overlap. */
  lemma {:induction false} DividedCovered(nodes: seq<FTNode>, depth: nat, t: nat)
    requires Ascends(nodes, depth) && Divided(nodes, depth) && t <= |nodes|
    ensures Covered(nodes, depth, t) == if t < |nodes| then First(nodes[t], depth) else Pow2(depth)
  {
    hide Pow2, First, Under;
    if t > 0 {
      DividedCovered(nodes, depth, t - 1);
    }
    var e := Covered(nodes, depth, t);
    if e < Pow2(depth) {
      assert Reached(nodes, depth, e);
      var s :| 0 <= s < |nodes| && Under(nodes[s], depth, e);
      NextIs(nodes, depth, t, e, s);
    } else if 0 < t < |nodes| {
      Disjoint(nodes, depth, t - 1, t);
    }
  }

  /** So they tile the leaf. */
  lemma DividedTiles(nodes: seq<FTNode>, depth: nat)
    requires Ascends(nodes, depth) && Divided(nodes, depth)
    ensures Tiles(nodes, depth)
  {
    hide Pow2, First, Covered, Divided;
    DividedCovered(nodes, depth, |nodes|);
    forall t | 0 <= t < |nodes| ensures Covered(nodes, depth, t) == nodes[t].id * Pow2(depth - nodes[t].level) {
      DividedCovered(nodes, depth, t);
      FirstIs(nodes[t], depth);
    }
  }

  lemma FirstIs(x: FTNode, depth: nat)
    requires x.level <= depth
    ensures First(x, depth) == x.id * Pow2(depth - x.level)
  {
  }

  /** `nodes` are those in use, each once. */
  ghost predicate Lists(nodes: seq<FTNode>, used: seq<seq<bool>>) {
    && (forall t :: 0 <= t < |nodes| ==> Uses(used, nodes[t].level, nodes[t].id))
    && (forall s, t :: 0 <= s < t < |nodes| ==> !(nodes[s].level == nodes[t].level && nodes[s].id == nodes[t].id))
    && forall l: nat, id: nat :: Uses(used, l, id) ==> Listed(nodes, l, id)
  }

  ghost predicate Listed(nodes: seq<FTNode>, l: nat, id: nat) {
    exists t :: 0 <= t < |nodes| && nodes[t].level == l && nodes[t].id == id
  }

  lemma ListsDivided(nodes: seq<FTNode>, used: seq<seq<bool>>, depth: nat)
    requires Covers(used, depth) && Lists(nodes, used)
    ensures forall t :: 0 <= t < |nodes| ==> nodes[t].level <= depth && nodes[t].id < Pow2(nodes[t].level)
    ensures Divided(nodes, depth)
  {
    hide Pow2, First, Above, Under, OnlyUsed;
    forall t | 0 <= t < |nodes|
      ensures nodes[t].level <= depth && nodes[t].id < Pow2(nodes[t].level)
      ensures After(nodes[t], depth) <= Pow2(depth)
    {
      assert Uses(used, nodes[t].level, nodes[t].id);
      PartFits(nodes[t], depth);
    }
    forall p | 0 <= p < Pow2(depth) ensures Reached(nodes, depth, p) {
      assert CoversAt(used, depth, p);
      var l :| 0 <= l <= depth && OnlyUsed(used, depth, p, l);
      OnlyUses(used, depth, p, l, l);
      assert Listed(nodes, l, Above(p, depth, l));
      var t :| 0 <= t < |nodes| && nodes[t].level == l && nodes[t].id == Above(p, depth, l);
      UnderIsAbove(nodes[t], depth, p);
    }
    forall s, t, p | 0 <= s < |nodes| && 0 <= t < |nodes| && Under(nodes[s], depth, p) && Under(nodes[t], depth, p)
      ensures s == t
    {
      SameNode(nodes, used, depth, s, t, p);
    }
  }

  lemma PartFits(x: FTNode, depth: nat)
    requires x.level <= depth && x.id < Pow2(x.level)
    ensures After(x, depth) <= Pow2(depth)
  {
    hide Pow2;
    Pow2Add(x.level, depth - x.level);
    MulBelow(x.id, Pow2(x.level), Pow2(depth - x.level));
  }

  lemma OnlyUses(used: seq<seq<bool>>, depth: nat, p: nat, l: nat, m: nat)
    requires Levels(used, depth) && l <= depth && m <= depth && p < Pow2(depth) && OnlyUsed(used, depth, p, l)
    ensures Uses(used, m, Above(p, depth, m)) <==> m == l
  {
  }

  lemma SameNode(nodes: seq<FTNode>, used: seq<seq<bool>>, depth: nat, s: nat, t: nat, p: int)
    requires Covers(used, depth) && Lists(nodes, used) && s < |nodes| && t < |nodes|
    requires nodes[s].level <= depth && nodes[t].level <= depth
    requires nodes[s].id < Pow2(nodes[s].level)
    requires Under(nodes[s], depth, p) && Under(nodes[t], depth, p)
    ensures s == t
  {
    hide Pow2, Above, OnlyUsed;
    PartFits(nodes[s], depth);
    assert p >= 0;
    assert CoversAt(used, depth, p);
    var l :| 0 <= l <= depth && OnlyUsed(used, depth, p, l);
    UnderIsAbove(nodes[s], depth, p);
    UnderIsAbove(nodes[t], depth, p);
    OnlyUses(used, depth, p, l, nodes[s].level);
    OnlyUses(used, depth, p, l, nodes[t].level);
  }

  // ---- The loops

  /** The nodes in use on the levels below `l`, and the first `id` ones on level `l`. */
  ghost predicate Collected(nodes: seq<FTNode>, used: seq<seq<bool>>, l: nat, id: nat) {
    && (forall t :: 0 <= t < |nodes| ==>
          Uses(used, nodes[t].level, nodes[t].id) && Earlier(nodes[t].level, nodes[t].id, l, id))
    && (forall s, t :: 0 <= s < t < |nodes| ==> !(nodes[s].level == nodes[t].level && nodes[s].id == nodes[t].id))
    && forall m: nat, j: nat :: Uses(used, m, j) && Earlier(m, j, l, id) ==> Listed(nodes, m, j)
  }

  predicate Earlier(m: nat, j: nat, l: nat, id: nat) {
    m < l || (m == l && j < id)
  }

  lemma CollectNode(nodes: seq<FTNode>, used: seq<seq<bool>>, x: FTNode)
    requires Collected(nodes, used, x.level, x.id)
    ensures Uses(used, x.level, x.id) ==> Collected(nodes + [x], used, x.level, x.id + 1)
    ensures !Uses(used, x.level, x.id) ==> Collected(nodes, used, x.level, x.id + 1)
  {
    hide Uses;
    forall m: nat, j: nat | Uses(used, m, j) && Earlier(m, j, x.level, x.id + 1) ensures Listed(nodes + [x], m, j) {
      if m == x.level && j == x.id {
        assert (nodes + [x])[|nodes|] == x;
      } else {
        assert Listed(nodes, m, j);
        var t :| 0 <= t < |nodes| && nodes[t].level == m && nodes[t].id == j;
        assert (nodes + [x])[t] == nodes[t];
      }
    }
  }

  lemma CollectLevel(nodes: seq<FTNode>, used: seq<seq<bool>>, l: nat)
    requires l < |used| && Collected(nodes, used, l, |used[l]|)
    ensures Collected(nodes, used, l + 1, 0)
  {
  }

  lemma AllCollected(nodes: seq<FTNode>, used: seq<seq<bool>>)
    requires Collected(nodes, used, |used|, 0)
    ensures Lists(nodes, used)
  {
  }

  lemma NoneCollected(used: seq<seq<bool>>)
    ensures Collected([], used, 0, 0)
  {
  }

  /** Orders nodes by their first parts, which are all different. */
  method SortNodes(nodes: seq<FTNode>, depth: nat) returns (r: seq<FTNode>)
    requires forall t :: 0 <= t < |nodes| ==> nodes[t].level <= depth
    requires forall s, t :: 0 <= s < t < |nodes| ==> First(nodes[s], depth) != First(nodes[t], depth)
    ensures Ascends(r, depth) && forall x :: x in r <==> x in nodes
  {
    hide First;
    r := [];
    for i := 0 to |nodes|
      invariant Ascends(r, depth) && forall x :: x in r <==> x in nodes[..i]
    {
      assert forall x :: x in nodes[..i + 1] <==> x in nodes[..i] || x == nodes[i];
      var k := 0;
      while k < |r| && First(r[k], depth) < First(nodes[i], depth)
        invariant k <= |r| && forall t :: 0 <= t < k ==> First(r[t], depth) < First(nodes[i], depth)
      {
        k := k + 1;
      }
      if k < |r| {
        assert r[k] in nodes[..i];
      }
      InsertAscends(r, depth, k, nodes[i]);
      r := r[..k] + [nodes[i]] + r[k..];
    }
    assert nodes[..|nodes|] == nodes;
  }

  lemma InsertAscends(r: seq<FTNode>, depth: nat, k: nat, x: FTNode)
    requires Ascends(r, depth) && k <= |r| && x.level <= depth
    requires forall t :: 0 <= t < k ==> First(r[t], depth) < First(x, depth)
    requires k < |r| ==> First(x, depth) < First(r[k], depth)
    ensures var r' := r[..k] + [x] + r[k..];
            Ascends(r', depth) && forall y :: y in r' <==> y in r || y == x
  {
    hide First;
    var r' := r[..k] + [x] + r[k..];
    forall s, t | 0 <= s < t < |r'| ensures First(r'[s], depth) < First(r'[t], depth) {
      var i, j := if s < k then s else s - 1, if t < k then t else t - 1;
      assert s != k ==> r'[s] == r[i];
      assert t != k ==> r'[t] == r[j];
      assert k < |r| && j > k ==> First(r[k], depth) < First(r[j], depth);
    }
    InsertedNodes(r, k, x);
  }

  lemma InsertedNodes(r: seq<FTNode>, k: nat, x: FTNode)
    requires k <= |r|
    ensures forall y :: y in r[..k] + [x] + r[k..] <==> y in r || y == x
  {
    assert r == r[..k] + r[k..];
  }

  /** The same nodes in order. */
  lemma SortedLists(nodes: seq<FTNode>, r: seq<FTNode>, used: seq<seq<bool>>, depth: nat)
    requires Lists(nodes, used) && Ascends(r, depth) && forall x :: x in r <==> x in nodes
    ensures Lists(r, used)
  {
    hide Uses;
    forall t | 0 <= t < |r| ensures Uses(used, r[t].level, r[t].id) {
      assert r[t] in nodes;
    }
    forall l: nat, id: nat | Uses(used, l, id) ensures Listed(r, l, id) {
      assert Listed(nodes, l, id);
      var t :| 0 <= t < |nodes| && nodes[t].level == l && nodes[t].id == id;
      assert nodes[t] in r;
    }
  }

  lemma DifferentFirsts(nodes: seq<FTNode>, depth: nat)
    requires (forall t :: 0 <= t < |nodes| ==> nodes[t].level <= depth) && Divided(nodes, depth)
    ensures forall s, t :: 0 <= s < t < |nodes| ==> First(nodes[s], depth) != First(nodes[t], depth)
  {
    hide First;
    forall s, t | 0 <= s < t < |nodes| ensures First(nodes[s], depth) != First(nodes[t], depth) {
      assert Under(nodes[s], depth, First(nodes[s], depth)) && Under(nodes[t], depth, First(nodes[t], depth));
    }
  }

  /** The nodes in use, level by level, and then from left to right: they tile the leaf. */
  method CollectUsedNodes(used: seq<seq<bool>>, depth: nat, keys: seq<int>, lv: real, rv: real)
    returns (nodes: seq<FTNode>)
    requires Covers(used, depth) && lv < rv
    ensures Tiles(nodes, depth) && Lists(nodes, used)
    ensures forall t :: 0 <= t < |nodes| ==> nodes[t] == FanoutNode(keys, lv, rv, nodes[t].level, nodes[t].id)
  {
    hide Covers, FanoutNode, Pow2, Divided, Tiles, Lists;
    CoversLevels(used, depth);
    nodes := [];
    NoneCollected(used);
    for l := 0 to |used|
      invariant Collected(nodes, used, l, 0)
      invariant forall t :: 0 <= t < |nodes| ==> nodes[t] == FanoutNode(keys, lv, rv, nodes[t].level, nodes[t].id)
    {
      for id := 0 to |used[l]|
        invariant Collected(nodes, used, l, id)
        invariant forall t :: 0 <= t < |nodes| ==> nodes[t] == FanoutNode(keys, lv, rv, nodes[t].level, nodes[t].id)
      {
        var x := FanoutNode(keys, lv, rv, l, id);
        NodeIs(keys, lv, rv, l, id);
        CollectNode(nodes, used, x);
        if used[l][id] {
          nodes := nodes + [x];
        }
      }
      CollectLevel(nodes, used, l);
    }
    AllCollected(nodes, used);
    ListsDivided(nodes, used, depth);
    DifferentFirsts(nodes, depth);
    ghost var unsorted := nodes;
    nodes := SortNodes(nodes, depth);
    SortedLists(unsorted, nodes, used, depth);
    ListsDivided(nodes, used, depth);
    DividedTiles(nodes, depth);
    forall t | 0 <= t < |nodes| ensures nodes[t] == FanoutNode(keys, lv, rv, nodes[t].level, nodes[t].id) {
      assert nodes[t] in unsorted;
    }
  }

  lemma NodeIs(keys: seq<int>, lv: real, rv: real, l: nat, id: nat)
    requires lv < rv
    ensures FanoutNode(keys, lv, rv, l, id).level == l && FanoutNode(keys, lv, rv, l, id).id == id
  {
  }

  lemma WholeLevelCovers(used: seq<seq<bool>>, depth: nat)
    requires Levels(used, depth)
    requires forall l, id :: 0 <= l <= depth && 0 <= id < |used[l]| ==> used[l][id] == (l == depth)
    ensures Covers(used, depth)
  {
    hide Pow2, Above;
    forall p | 0 <= p < Pow2(depth) ensures CoversAt(used, depth, p) {
      forall m | 0 <= m <= depth ensures Uses(used, m, Above(p, depth, m)) <==> m == depth {
        AboveIn(p, depth, m);
      }
      assert OnlyUsed(used, depth, p, depth);
    }
  }

  /** All nodes of the deepest level in use. */
  function WholeLevel(depth: nat): (used: seq<seq<bool>>)
    ensures Levels(used, depth)
  {
    seq(depth + 1, l requires 0 <= l <= depth => seq(Pow2(l), _ => l == depth))
  }

  /** The nodes that are left when all on the best level are in use and those are merged upwards for which that pays. */
  ghost predicate Chosen(nodes: seq<FTNode>, bestLevel: nat, pays: (nat, nat) -> bool, keys: seq<int>, lv: real,
                         rv: real)
    requires lv < rv
  {
    && Tiles(nodes, bestLevel) && Lists(nodes, MergedUp(WholeLevel(bestLevel), bestLevel, bestLevel, pays))
    && forall t :: 0 <= t < |nodes| ==> nodes[t] == FanoutNode(keys, lv, rv, nodes[t].level, nodes[t].id)
  }

  /** The division of a leaf on the best level, with nodes merged upwards where that pays. */
  method BestFanout(bestLevel: nat, pays: (nat, nat) -> bool, keys: seq<int>, lv: real, rv: real)
    returns (nodes: seq<FTNode>)
    requires lv < rv
    ensures Chosen(nodes, bestLevel, pays, keys, lv, rv)
  {
    hide Covers, FanoutNode, Tiles, Pow2, Lists;
    var used := WholeLevel(bestLevel);
    WholeLevelCovers(used, bestLevel);
    used := MergeNodesUpwards(used, bestLevel, bestLevel, pays);
    nodes := CollectUsedNodes(used, bestLevel, keys, lv, rv);
  }

  /** Splits a leaf the way its fanout tree says. */
  method SplitByFanout(parent: AlexModelNode, bucket: nat, bestLevel: nat, pays: (nat, nat) -> bool,
                       ghost list: seq<LeafLists.AlexNode>, ghost at: nat, ghost e: LeafOrders.Ends)
    returns (ghost leaves: seq<LeafLists.AlexNode>, ghost nodes: seq<FTNode>, ghost start: nat)
    requires parent.Valid() && bucket < parent.children.Length && Sorted(parent.children[bucket].keys) && bestLevel >= 1
    requires LeafLists.Linked(list) && at < |list| && list[at] == parent.children[bucket] && list[at].isLeaf
    requires LeafOrders.Edged(parent.children[..], list, e, LeafOrders.NoEnds)
    modifies parent, parent.children, parent.children[..], LeafLists.Links(list)
    ensures parent.Valid() && LeafLists.AllKeys(leaves) == old(parent.children[bucket]).keys && leaves != []
    ensures forall x :: x in leaves ==> fresh(x) && x.isLeaf
    ensures forall k :: if old(parent.GetChildNode(k)) == old(parent.children[bucket])
                        then parent.GetChildNode(k) in leaves else parent.GetChildNode(k) == old(parent.GetChildNode(k))
    ensures var list' := LeafLists.Substituted(list, at, leaves);
            && LeafLists.Linked(list') && LeafLists.AllKeys(list') == LeafLists.AllKeys(list)
            && LeafOrders.Edged(parent.children[..], list', LeafOrders.Divided(e, list[at], leaves), LeafOrders.NoEnds)
    ensures old(parent.a) > 0.0 && old(parent.LeftEdge(bucket)) < old(parent.RightEdge(bucket))
    ensures var leaf, d := old(parent.children[bucket]), old(parent.children[bucket].duplicationFactor);
            && Chosen(nodes, bestLevel, pays, leaf.keys, old(parent.LeftEdge(bucket)), old(parent.RightEdge(bucket)))
            && DividedBy(leaves, parent.children[..], nodes, leaf.keys, bestLevel, start,
                         MaxNat(d, bestLevel) - bestLevel)
  {
    hide Pow2, Start, Tiles, FanoutNode, AlexModelNode.Valid, AlexModelNode.Boundary, AlexModelNode.GetChildNode;
    hide LeafLists.Linked, LeafOrders.Edged, LeafLists.Substituted, Lists, MergedUp, DividedBy;
    parent.Positive();
    var leaf := parent.children[bucket];
    var repeats := Pow2(leaf.duplicationFactor);
    var from := Start(bucket, repeats);
    parent.BoundariesGrow(from, from + repeats);
    var chosen := BestFanout(bestLevel, pays, leaf.keys, parent.Boundary(from), parent.Boundary(from + repeats));
    nodes := chosen;
    assert nodes != [] by {
      NoneCovered(nodes, bestLevel);
    }
    ghost var f;
    leaves, start, f := parent.SplitSideways(bucket, bestLevel, chosen, list, at, e);
  }
}
