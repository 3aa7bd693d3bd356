/** When the counter of used levels is what its comment says (include/learnindex/pgm_index_dynamic.hpp, line 66): one
    more than the last level that holds anything, or the lowest level's number when nothing is held. */
module UsedLevels {
  import opened DynamicPgm
  import opened Powers
  import PgmLevels

  ghost predicate Exact(s: State, minLevel: nat) {
    if s.used <= minLevel then
      s.used == minLevel && forall i :: 0 <= i < |s.levels| ==> s.levels[i] == []
    else
      && s.used - minLevel <= |s.levels| && s.levels[s.used - minLevel - 1] != []
      && forall i :: s.used - minLevel <= i < |s.levels| ==> s.levels[i] == []
  }

  /** Nothing is held above the counted levels. */
  lemma NothingAbove(s: State, minLevel: nat)
    requires Shape(s.levels, minLevel, s.used)
    ensures s.used - minLevel < |s.levels|
    ensures forall i :: s.used - minLevel <= i < |s.levels| ==> s.levels[i] == []
  {
    forall i | s.used - minLevel <= i < |s.levels| ensures s.levels[i] == [] {
      if i > 0 {
        assert LevelShape(s.levels[i], minLevel, s.used, i);
      }
    }
  }

  /** The buffer takes the item without a merge. */
  predicate Absorbs(s: State, minLevel: nat, key: int)
    requires s.levels != []
  {
    Held(s.levels[0], key) || |s.levels[0]| < Pow2(minLevel + 1) - 1
  }

  /** When the buffer takes an item, the counter is exact afterwards if and only if it was or counted no other level. */
  lemma ExactAfterBuffer(s: State, minLevel: nat, item: Item)
    requires Shape(s.levels, minLevel, s.used) && Absorbs(s, minLevel, item.first)
    ensures Exact(Inserted(s, minLevel, item), minLevel) <==> s.used <= minLevel + 1 || Exact(s, minLevel)
  {
    hide LevelShape, Place;
    NothingAbove(s, minLevel);
  }

  lemma {:induction false} TargetChosen(levels: seq<seq<Item>>, minLevel: nat, used: nat, i: nat)
    requires 1 <= i && minLevel + i <= used && used - minLevel < |levels|
    ensures var t := Target(levels, minLevel, used, i);
            && (forall j :: i <= j < t ==> NoRoom(levels, minLevel, j))
            && (minLevel + t < used ==> Slots(levels, minLevel, t) + |levels[t]| <= Pow2(minLevel + t))
    decreases used - i
  {
    if minLevel + i < used && Slots(levels, minLevel, i) + |levels[i]| > Pow2(minLevel + i) {
      TargetChosen(levels, minLevel, used, i + 1);
    }
  }

  /** How far up the merge of a full buffer reaches. */
  function MergeTarget(s: State, minLevel: nat): (i: nat)
    requires minLevel < s.used && s.used - minLevel < |s.levels|
    ensures 1 <= i <= s.used - minLevel
  {
    Target(s.levels, minLevel, s.used, 1)
  }

  function MergedSize(s: State, minLevel: nat, item: Item): nat
    requires minLevel < s.used && s.used - minLevel < |s.levels|
  {
    |Fold(WithNew(s.levels[0], item), s.levels[1..MergeTarget(s, minLevel)])|
  }

  lemma LandingIs(n: nat, minLevel: nat, i: nat)
    requires 1 <= i && minLevel + 1 <= CeilLog2(n) <= minLevel + i
    ensures 1 <= Landing(n, minLevel) <= i
    ensures Landing(n, minLevel) == i <==> i == 1 || n > Pow2(minLevel + i - 1)
  {
    if n > Pow2(minLevel + i - 1) && CeilLog2(n) < minLevel + i {
      Pow2Grows(CeilLog2(n), minLevel + i - 1);
    }
  }

  /** A merged run lands in the target if and only if it is too long for the level below. */
  lemma LandsInTarget(s: State, minLevel: nat, item: Item)
    requires Shape(s.levels, minLevel, s.used) && !Absorbs(s, minLevel, item.first)
    ensures var i, n := MergeTarget(s, minLevel), MergedSize(s, minLevel, item);
            && s.levels[i] == [] && n > 0 && 1 <= Landing(n, minLevel) <= i
            && (Landing(n, minLevel) == i <==> i == 1 || n > Pow2(minLevel + i - 1))
  {
    hide Target, Slots, Fold, LevelShape, Landing, CeilLog2;
    var i, n := MergeTarget(s, minLevel), MergedSize(s, minLevel, item);
    var run := WithNew(s.levels[0], item);
    TargetChosen(s.levels, minLevel, s.used, 1);
    TargetEmpty(s.levels, minLevel, s.used, i);
    MergedFits(run, s.levels, minLevel, s.used, i - 1, Fold(run, s.levels[1..i]));
    LandingIs(n, minLevel, i);
  }

  /** When the buffer overflows, the counter is exact afterwards if and only if it was, for a target below the last
      counted level, and the merged run lands in the target, for a target that is the last level or a new one. */
  lemma ExactAfterMerge(s: State, minLevel: nat, item: Item)
    requires Shape(s.levels, minLevel, s.used) && !Absorbs(s, minLevel, item.first)
    ensures minLevel < s.used < minLevel + |s.levels|
    ensures var i := MergeTarget(s, minLevel);
            Exact(Inserted(s, minLevel, item), minLevel) <==>
            if minLevel + i + 1 < s.used then Exact(s, minLevel)
            else i == 1 || MergedSize(s, minLevel, item) > Pow2(minLevel + i - 1)
  {
    hide LevelShape, Place, Landing, Fold, Target, Pow2;
    NothingAbove(s, minLevel);
    LandsInTarget(s, minLevel, item);
    var i := MergeTarget(s, minLevel);
    assert (s.levels + [[]])[1..i] == s.levels[1..i];
  }

  // ---- A run on which the counter is wrong

  /** The items that the keys `0..n` and their values make. */
  function Pairs(n: nat): (s: seq<Item>)
    ensures |s| == n && forall i :: 0 <= i < n ==> s[i] == Pair(i, i)
  {
    seq(n, i => Pair(i, i))
  }

  /** `n` levels of which at most the lowest two hold anything. */
  function Two(n: nat, buffer: seq<Item>, first: seq<Item>): (levels: seq<seq<Item>>)
    requires n >= 2
    ensures |levels| == n && levels[0] == buffer && levels[1] == first
    ensures forall i :: 2 <= i < n ==> levels[i] == []
  {
    [buffer, first] + seq(n - 2, _ => [])
  }

  lemma PairsGrow(j: nat)
    ensures Place(Pairs(j), j) == j && !Held(Pairs(j), j) && WithNew(Pairs(j), Pair(j, j)) == Pairs(j + 1)
  {
    PgmLevels.CountLEUnique(KeysOf(Pairs(j)), j - 1, j);
  }

  lemma {:induction false} TotalTwo(n: nat, buffer: seq<Item>, first: seq<Item>)
    requires n >= 2
    ensures TotalSize(Two(n, buffer, first)) == |buffer| + |first|
  {
    var levels := Two(n, buffer, first);
    if n == 2 {
      assert levels[..1] == [buffer] && levels[..1][..0] == [];
      assert TotalSize([buffer]) == |buffer|;
    } else {
      assert levels[..n - 1] == Two(n - 1, buffer, first);
      TotalTwo(n - 1, buffer, first);
    }
  }

  lemma {:induction false} MergedSame(a: seq<Item>)
    ensures Merged(a, a, false) == a
  {
    if a != [] {
      MergedSame(a[1..]);
    }
  }

  lemma BufferStep(s: State, minLevel: nat, n: nat, j: nat, first: seq<Item>)
    requires n >= 2 && s.levels == Two(n, Pairs(j), first) && Shape(s.levels, minLevel, s.used)
    requires j < Pow2(minLevel + 1) - 1
    ensures Inserted(s, minLevel, Pair(j, j)) ==
            State(Two(n, Pairs(j + 1), first), if s.used == minLevel then minLevel + 1 else s.used)
  {
    hide Place;
    PairsGrow(j);
    assert s.levels[0 := Pairs(j + 1)] == Two(n, Pairs(j + 1), first);
  }

  lemma FullLanding(minLevel: nat)
    ensures Landing(Pow2(minLevel + 1), minLevel) == 1
  {
    var e := CeilLog2(Pow2(minLevel + 1));
    if e > minLevel + 1 {
      Pow2Grows(minLevel + 1, e - 1);
    }
  }

  /** Merging a full buffer into the lowest level that holds nothing, or the same keys. */
  lemma MergeStep(minLevel: nat, n: nat, first: seq<Item>, i: nat)
    requires 1 <= i <= 2 && i < n && (if i == 1 then first == [] else first == Pairs(Pow2(minLevel + 1)))
    ensures MergedInto(Two(n, Pairs(Pow2(minLevel + 1) - 1), first), minLevel, Pairs(Pow2(minLevel + 1)), i) ==
            Two(n, [], Pairs(Pow2(minLevel + 1)))
  {
    hide Pow2, Landing;
    var run, levels := Pairs(Pow2(minLevel + 1)), Two(n, Pairs(Pow2(minLevel + 1) - 1), first);
    FullLanding(minLevel);
    if i == 1 {
      assert levels[1..1] == [];
    } else {
      assert levels[1..2] == [first] && levels[1..2][..0] == [];
      MergedSame(run);
    }
    assert Fold(run, levels[1..i]) == run;
  }

  /** The overflow of a buffer that holds all keys but the last. */
  lemma OverflowStep(s: State, minLevel: nat, n: nat, first: seq<Item>)
    requires n >= 4 && Shape(s.levels, minLevel, s.used)
    requires s.levels == Two(n, Pairs(Pow2(minLevel + 1) - 1), first)
    requires if s.used == minLevel + 1 then first == [] else
             s.used == minLevel + 2 && first == Pairs(Pow2(minLevel + 1))
    ensures Inserted(s, minLevel, Pair(Pow2(minLevel + 1) - 1, Pow2(minLevel + 1) - 1)) ==
            State(Two(n + 1, [], Pairs(Pow2(minLevel + 1))), s.used + 1)
  {
    hide Place, MergedInto;
    var b, i := Pow2(minLevel + 1), s.used - minLevel;
    PairsGrow(b - 1);
    assert Slots(s.levels, minLevel, 1) == b;
    assert Target(s.levels, minLevel, s.used, 1) == i;
    assert s.levels + [[]] == Two(n + 1, Pairs(b - 1), first);
    MergeStep(minLevel, n + 1, first, i);
  }

  lemma Shaped(d: DynamicPGMIndex)
    requires d.Valid()
    ensures Shape(d.levels, d.minLevel, d.usedLevels)
  {
  }

  /** Inserts the keys that fill the buffer and one more. */
  method InsertKeys(d: DynamicPGMIndex, ghost n: nat, ghost first: seq<Item>)
    requires d.Valid() && n >= 4 && d.levels == Two(n, Pairs(0), first) && Pow2(d.minLevel + 1) <= d.maxKey
    requires if d.usedLevels == d.minLevel then first == [] else
             d.usedLevels == d.minLevel + 2 && first == Pairs(Pow2(d.minLevel + 1))
    requires 2 * Pow2(d.minLevel + 1) + d.eps + d.epsRec + 2 <= PgmLevels.INT32_MAX
    modifies d
    ensures d.Valid() && d.levels == Two(n + 1, Pairs(0), Pairs(Pow2(d.minLevel + 1)))
    ensures d.usedLevels == if old(d.usedLevels) == d.minLevel then d.minLevel + 2 else d.minLevel + 3
  {
    hide Pow2, Shape, Inserted, Pairs, Two, DynamicPGMIndex.Valid, DynamicPGMIndex.Newest;
    var b := Pow2(d.minLevel + 1);
    OneFull(d.minLevel);
    for k := 0 to b - 1
      invariant d.Valid() && d.levels == Two(n, Pairs(k), first)
      invariant d.usedLevels == if old(d.usedLevels) == d.minLevel && k > 0 then d.minLevel + 1 else old(d.usedLevels)
    {
      Shaped(d);
      BufferStep(State(d.levels, d.usedLevels), d.minLevel, n, k, first);
      TotalTwo(n, Pairs(k), first);
      var done := d.Insert(Pair(k, k));
    }
    Shaped(d);
    OverflowStep(State(d.levels, d.usedLevels), d.minLevel, n, first);
    TotalTwo(n, Pairs(b - 1), first);
    var done := d.Insert(Pair(b - 1, b - 1));
    assert Pairs(0) == [];
  }

  lemma OneFull(minLevel: nat)
    ensures Pow2(minLevel + 1) >= 2
  {
  }

  /** Inserting as many keys as one merge takes, and then the same keys again, leaves the counter one too high. */
  method InsertTwice(minLevel: nat, minIndexedLevel: nat, eps: nat, epsRec: nat, maxKey: int)
    returns (d: DynamicPGMIndex)
    requires minLevel < minIndexedLevel && minLevel <= 27 && eps >= 1 && Pow2(minLevel + 1) <= maxKey
    requires 2 * Pow2(minLevel + 1) + eps + epsRec + 2 <= PgmLevels.INT32_MAX
    ensures d.Valid() && d.minLevel == minLevel && !Exact(State(d.levels, d.usedLevels), minLevel)
    ensures d.usedLevels == minLevel + 3 && d.levels[1] != []
    ensures forall i :: 2 <= i < |d.levels| ==> d.levels[i] == []
  {
    hide Pow2, Shape;
    d := new DynamicPGMIndex(minLevel, minIndexedLevel, eps, epsRec, maxKey);
    assert d.levels == Two(32 - minLevel, Pairs(0), []);
    InsertKeys(d, 32 - minLevel, []);
    InsertKeys(d, 33 - minLevel, Pairs(Pow2(minLevel + 1)));
  }
}
