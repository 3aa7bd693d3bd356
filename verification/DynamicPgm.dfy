/** The log-structured index: a sorted buffer and levels of doubling capacity, merged on overflow
    (include/learnindex/pgm_index_dynamic.hpp). */
module DynamicPgm {
  import opened Powers
  import opened Seqs
  import opened Wrappers
  import PgmIndex
  import PgmLevels

  /** A pair, or the tombstone of a key. */
  datatype Item = Item(first: int, second: int, flag: bool) {
    predicate Deleted() { flag }
  }

  function Pair(key: int, value: int): Item {
    Item(key, value, false)
  }

  function Tombstone(key: int): Item {
    Item(key, 0, true)
  }

  // ---- Sorted runs of items

  ghost predicate SortedRun(s: seq<Item>) {
    forall i, j :: 0 <= i < j < |s| ==> s[i].first < s[j].first
  }

  function FindIn(s: seq<Item>, k: int): Option<Item> {
    if s == [] then None
    else if s[0].first == k then Some(s[0])
    else FindIn(s[1..], k)
  }

  function Over(newer: Option<Item>, older: Option<Item>): Option<Item> {
    if newer.Some? then newer else older
  }

  lemma {:induction false} FindAt(s: seq<Item>, i: nat)
    requires SortedRun(s) && i < |s|
    ensures FindIn(s, s[i].first) == Some(s[i])
  {
    if i > 0 {
      FindAt(s[1..], i - 1);
    }
  }

  lemma {:induction false} FindAbsent(s: seq<Item>, k: int)
    requires forall i :: 0 <= i < |s| ==> s[i].first != k
    ensures FindIn(s, k) == None
  {
    if s != [] {
      FindAbsent(s[1..], k);
    }
  }

  lemma {:induction false} FindSplit(s: seq<Item>, t: seq<Item>, k: int)
    ensures FindIn(s + t, k) == Over(FindIn(s, k), FindIn(t, k))
  {
    if s == [] {
      assert s + t == t;
    } else {
      assert (s + t)[1..] == s[1..] + t;
      FindSplit(s[1..], t, k);
    }
  }

  /** What `merge` writes: the union by key, the first run's item winning; with `skipDeleted`, a tombstone that
      meets its key disappears together with it. */
  function Merged(a: seq<Item>, b: seq<Item>, skipDeleted: bool): (r: seq<Item>)
    ensures |r| <= |a| + |b|
    ensures !skipDeleted ==> |r| >= |a|
    decreases |a| + |b|
  {
    if a == [] then b
    else if b == [] then a
    else if b[0].first < a[0].first then [b[0]] + Merged(a, b[1..], skipDeleted)
    else if a[0].first < b[0].first then [a[0]] + Merged(a[1..], b, skipDeleted)
    else if skipDeleted && a[0].Deleted() then Merged(a[1..], b[1..], skipDeleted)
    else [a[0]] + Merged(a[1..], b[1..], skipDeleted)
  }

  ghost predicate AllAbove(s: seq<Item>, k: int) {
    forall i :: 0 <= i < |s| ==> k < s[i].first
  }

  lemma {:induction false} MergedAbove(a: seq<Item>, b: seq<Item>, skipDeleted: bool, k: int)
    requires AllAbove(a, k) && AllAbove(b, k)
    ensures AllAbove(Merged(a, b, skipDeleted), k)
    decreases |a| + |b|
  {
    if a != [] && b != [] {
      if b[0].first < a[0].first {
        MergedAbove(a, b[1..], skipDeleted, k);
      } else if a[0].first < b[0].first {
        MergedAbove(a[1..], b, skipDeleted, k);
      } else {
        MergedAbove(a[1..], b[1..], skipDeleted, k);
      }
    }
  }

  lemma SortedTail(s: seq<Item>)
    requires SortedRun(s) && s != []
    ensures SortedRun(s[1..]) && AllAbove(s[1..], s[0].first)
    ensures forall k {:trigger AllAbove(s, k)} :: k < s[0].first ==> AllAbove(s, k)
  {
  }

  lemma SortedCons(x: Item, s: seq<Item>)
    requires SortedRun(s) && AllAbove(s, x.first)
    ensures SortedRun([x] + s)
  {
  }

  lemma {:induction false} MergedSorted(a: seq<Item>, b: seq<Item>, skipDeleted: bool)
    requires SortedRun(a) && SortedRun(b)
    ensures SortedRun(Merged(a, b, skipDeleted))
    decreases |a| + |b|
  {
    hide SortedRun, AllAbove;
    if a != [] && b != [] {
      SortedTail(a);
      SortedTail(b);
      if b[0].first < a[0].first {
        MergedSorted(a, b[1..], skipDeleted);
        MergedAbove(a, b[1..], skipDeleted, b[0].first);
        SortedCons(b[0], Merged(a, b[1..], skipDeleted));
      } else if a[0].first < b[0].first {
        MergedSorted(a[1..], b, skipDeleted);
        MergedAbove(a[1..], b, skipDeleted, a[0].first);
        SortedCons(a[0], Merged(a[1..], b, skipDeleted));
      } else {
        MergedSorted(a[1..], b[1..], skipDeleted);
        MergedAbove(a[1..], b[1..], skipDeleted, a[0].first);
        SortedCons(a[0], Merged(a[1..], b[1..], skipDeleted));
      }
    }
  }

  /** Looking a key up in a merge is looking it up in the newer run first. When tombstones are dropped, a key that
      the newer run deletes and the older one holds is gone. */
  lemma {:induction false} MergedFind(a: seq<Item>, b: seq<Item>, skipDeleted: bool, k: int)
    requires SortedRun(a) && SortedRun(b)
    ensures FindIn(Merged(a, b, skipDeleted), k) ==
            if skipDeleted && FindIn(a, k).Some? && FindIn(a, k).value.Deleted() && FindIn(b, k).Some? then None
            else Over(FindIn(a, k), FindIn(b, k))
    decreases |a| + |b|
  {
    if a != [] && b != [] {
      if b[0].first < a[0].first {
        MergedFind(a, b[1..], skipDeleted, k);
        if k == b[0].first { FindAbsent(a, k); }
      } else if a[0].first < b[0].first {
        MergedFind(a[1..], b, skipDeleted, k);
        if k == a[0].first { FindAbsent(b, k); }
      } else {
        MergedFind(a[1..], b[1..], skipDeleted, k);
        if k == a[0].first {
          FindAbsent(a[1..], k);
          FindAbsent(b[1..], k);
        }
      }
    }
  }

  lemma MergedStep(a: seq<Item>, b: seq<Item>, i: nat, j: nat, skipDeleted: bool)
    requires i < |a| && j < |b|
    ensures Merged(a[i..], b[j..], skipDeleted) ==
            if b[j].first < a[i].first then [b[j]] + Merged(a[i..], b[j + 1..], skipDeleted)
            else if a[i].first < b[j].first then [a[i]] + Merged(a[i + 1..], b[j..], skipDeleted)
            else if skipDeleted && a[i].Deleted() then Merged(a[i + 1..], b[j + 1..], skipDeleted)
            else [a[i]] + Merged(a[i + 1..], b[j + 1..], skipDeleted)
  {
    assert a[i..][1..] == a[i + 1..] && b[j..][1..] == b[j + 1..];
  }

  lemma MergedRest(a: seq<Item>, b: seq<Item>, i: nat, j: nat, skipDeleted: bool)
    requires i <= |a| && j <= |b| && (i == |a| || j == |b|)
    ensures Merged(a[i..], b[j..], skipDeleted) == a[i..] + b[j..]
  {
  }

  lemma Shift(p: seq<Item>, x: Item, r: seq<Item>)
    ensures p + ([x] + r) == (p + [x]) + r
  {
  }

  /** Writes through the output position and moves it on. */
  method Write(out: array<Item>, at: nat, x: Item) returns (end: nat)
    requires at < out.Length
    modifies out
    ensures end == at + 1 && out[..end] == old(out[..at]) + [x]
  {
    out[at] := x;
    end := at + 1;
  }

  /** Merges `src[..n]` and `second` into `out`. */
  method Merge(skipDeleted: bool, src: array<Item>, n: nat, second: seq<Item>, out: array<Item>) returns (end: nat)
    requires src != out && n <= src.Length && n + |second| <= out.Length
    modifies out
    ensures end <= out.Length && out[..end] == Merged(src[..n], second, skipDeleted)
  {
    hide Merged;
    ghost var a := src[..n];
    var i, j := 0, 0;
    end := 0;
    assert a[0..] == a && second[0..] == second;
    while i < n && j < |second|
      invariant i <= n && j <= |second| && end <= i + j && src[..n] == a
      invariant Merged(a, second, skipDeleted) == out[..end] + Merged(a[i..], second[j..], skipDeleted)
    {
      MergedStep(a, second, i, j, skipDeleted);
      ghost var done := out[..end];
      if second[j].first < src[i].first {
        end := Write(out, end, second[j]);
        Shift(done, second[j], Merged(a[i..], second[j + 1..], skipDeleted));
        j := j + 1;
      } else if src[i].first < second[j].first {
        end := Write(out, end, src[i]);
        Shift(done, a[i], Merged(a[i + 1..], second[j..], skipDeleted));
        i := i + 1;
      } else if skipDeleted && src[i].Deleted() {
        i, j := i + 1, j + 1;
      } else {
        end := Write(out, end, src[i]);
        Shift(done, a[i], Merged(a[i + 1..], second[j + 1..], skipDeleted));
        i, j := i + 1, j + 1;
      }
    }
    MergedRest(a, second, i, j, skipDeleted);
    assert src[i..n] == a[i..];
    end := CopyBoth(src[i..n], second[j..], out, end);
  }

  method CopyBoth(run: seq<Item>, second: seq<Item>, out: array<Item>, at: nat) returns (end: nat)
    requires at + |run| + |second| <= out.Length
    modifies out
    ensures end == at + |run| + |second| && out[..end] == old(out[..at]) + (run + second)
  {
    end := Copy(run, out, at);
    end := Copy(second, out, end);
    Associate(old(out[..at]), run, second);
  }

  /** Merges one scratch buffer with a level into the other one: from `a` to `b` when `alternate`, else back. */
  method MergeAcross(alternate: bool, skipDeleted: bool, a: array<Item>, b: array<Item>, n: nat, second: seq<Item>)
    returns (end: nat)
    requires a != b && n + |second| <= a.Length && n + |second| <= b.Length
    modifies a, b
    ensures end <= n + |second|
    ensures alternate ==> b[..end] == Merged(old(a[..n]), second, skipDeleted)
    ensures !alternate ==> a[..end] == Merged(old(b[..n]), second, skipDeleted)
  {
    hide Merged;
    var src, out := if alternate then a else b, if alternate then b else a;
    MergedSmall(src[..n], second, skipDeleted);
    end := Merge(skipDeleted, src, n, second, out);
    assert |out[..end]| == end;
  }

  lemma MergedSmall(a: seq<Item>, b: seq<Item>, skipDeleted: bool)
    ensures |Merged(a, b, skipDeleted)| <= |a| + |b|
  {
  }

  /** Writes a buffer with a new item at position `at` to the start of `out`. */
  method MoveBuffer(buffer: seq<Item>, item: Item, at: nat, out: array<Item>)
    requires at <= |buffer| && |buffer| + 1 <= out.Length
    modifies out
    ensures out[..|buffer| + 1] == buffer[..at] + [item] + buffer[at..]
  {
    var it := Copy(buffer[..at], out, 0);
    out[it] := item;
    assert out[..it + 1] == buffer[..at] + [item];
    it := Copy(buffer[at..], out, it + 1);
  }

  /** `std::copy` of a run to position `at`. */
  method Copy(run: seq<Item>, out: array<Item>, at: nat) returns (end: nat)
    requires at + |run| <= out.Length
    modifies out
    ensures end == at + |run| && out[..end] == old(out[..at]) + run
  {
    end := at;
    for i := 0 to |run|
      invariant end == at + i && out[..end] == old(out[..at]) + run[..i]
    {
      out[end] := run[i];
      end := end + 1;
    }
  }

  // ---- Sizes

  /** Least exponent whose power of two reaches `n`. */
  function CeilLog2(n: nat): (e: nat)
    ensures n <= Pow2(e)
    ensures e > 0 ==> Pow2(e - 1) < n
  {
    if n <= 1 then 0 else 1 + CeilLog2((n + 1) / 2)
  }

  /** Items that must move when the levels below index `i` are merged: a full buffer, the new item, and them. */
  function Slots(levels: seq<seq<Item>>, minLevel: nat, i: nat): (n: nat)
    requires i <= |levels|
    ensures n >= Pow2(minLevel + 1)
  {
    if i <= 1 then Pow2(minLevel + 1) else Slots(levels, minLevel, i - 1) + |levels[i - 1]|
  }

  function TotalSize(levels: seq<seq<Item>>): nat {
    if levels == [] then 0 else TotalSize(levels[..|levels| - 1]) + |levels[|levels| - 1]|
  }

  /** A level above the buffer is empty, or more than half full and not over-full. */
  ghost predicate LevelShape(level: seq<Item>, minLevel: nat, used: nat, i: nat) {
    level == [] || (1 <= i && minLevel + i < used && Pow2(minLevel + i - 1) < |level| <= Pow2(minLevel + i))
  }

  ghost predicate Shape(levels: seq<seq<Item>>, minLevel: nat, used: nat) {
    && minLevel <= used && |levels| >= used - minLevel + 1 && |levels| >= 2
    && |levels[0]| <= Pow2(minLevel + 1) - 1
    && (used == minLevel ==> levels[0] == [])
    && forall i :: 1 <= i < |levels| ==> LevelShape(levels[i], minLevel, used, i)
  }

  lemma {:induction false} SlotsBound(levels: seq<seq<Item>>, minLevel: nat, used: nat, i: nat)
    requires Shape(levels, minLevel, used) && 1 <= i <= |levels|
    ensures Slots(levels, minLevel, i) <= Pow2(minLevel + i)
  {
    if i > 1 {
      SlotsBound(levels, minLevel, used, i - 1);
      assert LevelShape(levels[i - 1], minLevel, used, i - 1);
    }
  }

  /** The level an overflow is merged into: the lowest one with room for everything below it, or a new one. */
  ghost predicate Chosen(levels: seq<seq<Item>>, minLevel: nat, used: nat, i: nat) {
    && 1 <= i < |levels| && minLevel + i <= used
    && (minLevel + i < used ==> Slots(levels, minLevel, i) + |levels[i]| <= Pow2(minLevel + i))
    && forall j :: 1 <= j < i ==> NoRoom(levels, minLevel, j)
  }

  ghost predicate NoRoom(levels: seq<seq<Item>>, minLevel: nat, j: nat)
    requires j < |levels|
  {
    Slots(levels, minLevel, j) + |levels[j]| > Pow2(minLevel + j)
  }

  /** The target is always empty, and large enough. Since merging stops below it, and it is below the end of the
      used levels, no merge ever reaches the last used level, so tombstones are never dropped. */
  lemma TargetEmpty(levels: seq<seq<Item>>, minLevel: nat, used: nat, i: nat)
    requires Shape(levels, minLevel, used) && Chosen(levels, minLevel, used, i)
    ensures levels[i] == []
    ensures Slots(levels, minLevel, i) <= Pow2(minLevel + i)
  {
    SlotsBound(levels, minLevel, used, i);
    assert LevelShape(levels[i], minLevel, used, i);
    assert Pow2(minLevel + i) == 2 * Pow2(minLevel + i - 1);
    if i > 1 {
      assert NoRoom(levels, minLevel, i - 1);
    }
  }

  lemma {:induction false} SlotsTotal(levels: seq<seq<Item>>, minLevel: nat, i: nat)
    requires 1 <= i <= |levels| && |levels[0]| == Pow2(minLevel + 1) - 1
    ensures Slots(levels, minLevel, i) <= TotalSize(levels[..i]) + 1
    ensures TotalSize(levels[..i]) <= TotalSize(levels)
  {
    assert levels[..i][..i - 1] == levels[..i - 1];
    if i > 1 {
      SlotsTotal(levels, minLevel, i - 1);
    } else {
      assert TotalSize(levels[..0]) == 0;
    }
    TotalPrefix(levels, i);
  }

  lemma {:induction false} TotalPrefix(levels: seq<seq<Item>>, i: nat)
    requires i <= |levels|
    ensures TotalSize(levels[..i]) <= TotalSize(levels)
    decreases |levels| - i
  {
    if i < |levels| {
      assert levels[..i + 1][..i] == levels[..i];
      TotalPrefix(levels, i + 1);
    } else {
      assert levels[..i] == levels;
    }
  }

  // ---- Newest item of a key

  function NewestIn(levels: seq<seq<Item>>, k: int): Option<Item> {
    if levels == [] then None
    else Over(NewestIn(levels[..|levels| - 1], k), FindIn(levels[|levels| - 1], k))
  }

  lemma {:induction false} NewestSplit(ls: seq<seq<Item>>, ms: seq<seq<Item>>, k: int)
    ensures NewestIn(ls + ms, k) == Over(NewestIn(ls, k), NewestIn(ms, k))
  {
    if ms == [] {
      assert ls + ms == ls;
    } else {
      assert (ls + ms)[..|ls + ms| - 1] == ls + ms[..|ms| - 1];
      NewestSplit(ls, ms[..|ms| - 1], k);
    }
  }

  lemma {:induction false} NewestEmpty(ls: seq<seq<Item>>, k: int)
    requires forall i :: 0 <= i < |ls| ==> ls[i] == []
    ensures NewestIn(ls, k) == None
  {
    if ls != [] {
      NewestEmpty(ls[..|ls| - 1], k);
    }
  }

  lemma {:induction false} NewestRest(ls: seq<seq<Item>>, i: nat, k: int)
    requires i <= |ls| && forall j :: i <= j < |ls| ==> ls[j] == []
    ensures NewestIn(ls, k) == NewestIn(ls[..i], k)
  {
    if i < |ls| {
      NewestRest(ls[..|ls| - 1], i, k);
      assert ls[..|ls| - 1][..i] == ls[..i];
    } else {
      assert ls[..i] == ls;
    }
  }

  /** Only one level holds anything. */
  lemma NewestSingle(ls: seq<seq<Item>>, t: nat, k: int)
    requires t < |ls| && forall i :: 0 <= i < |ls| && i != t ==> ls[i] == []
    ensures NewestIn(ls, k) == FindIn(ls[t], k)
  {
    NewestSplit(ls[..t + 1], ls[t + 1..], k);
    assert ls == ls[..t + 1] + ls[t + 1..];
    NewestEmpty(ls[t + 1..], k);
    assert ls[..t + 1][..t] == ls[..t];
    NewestEmpty(ls[..t], k);
  }

  /** The runs `ls` merged into `acc`, newest first. */
  function Fold(acc: seq<Item>, ls: seq<seq<Item>>): (r: seq<Item>)
    ensures |r| >= |acc|
  {
    if ls == [] then acc else Merged(Fold(acc, ls[..|ls| - 1]), ls[|ls| - 1], false)
  }

  lemma {:induction false} FoldSorted(acc: seq<Item>, ls: seq<seq<Item>>)
    requires SortedRun(acc) && forall i :: 0 <= i < |ls| ==> SortedRun(ls[i])
    ensures SortedRun(Fold(acc, ls))
  {
    if ls != [] {
      FoldSorted(acc, ls[..|ls| - 1]);
      MergedSorted(Fold(acc, ls[..|ls| - 1]), ls[|ls| - 1], false);
    }
  }

  /** Newest-first search agrees with the merge of the levels. */
  lemma {:induction false} FoldFind(acc: seq<Item>, ls: seq<seq<Item>>, k: int)
    requires SortedRun(acc) && forall i :: 0 <= i < |ls| ==> SortedRun(ls[i])
    ensures FindIn(Fold(acc, ls), k) == Over(FindIn(acc, k), NewestIn(ls, k))
  {
    if ls != [] {
      FoldFind(acc, ls[..|ls| - 1], k);
      FoldSorted(acc, ls[..|ls| - 1]);
      MergedFind(Fold(acc, ls[..|ls| - 1]), ls[|ls| - 1], false, k);
    }
  }

  lemma {:induction false} FoldSize(acc: seq<Item>, levels: seq<seq<Item>>, minLevel: nat, i: nat)
    requires 1 <= i <= |levels| && |acc| == Pow2(minLevel + 1)
    ensures |Fold(acc, levels[1..i])| <= Slots(levels, minLevel, i)
  {
    if i > 1 {
      assert levels[1..i][..|levels[1..i]| - 1] == levels[1..i - 1];
      FoldSize(acc, levels, minLevel, i - 1);
    }
  }

  ghost predicate KeysBelow(s: seq<Item>, maxKey: int) {
    forall i :: 0 <= i < |s| ==> s[i].first < maxKey
  }

  lemma {:induction false} MergedBelow(a: seq<Item>, b: seq<Item>, skipDeleted: bool, maxKey: int)
    requires KeysBelow(a, maxKey) && KeysBelow(b, maxKey)
    ensures KeysBelow(Merged(a, b, skipDeleted), maxKey)
    decreases |a| + |b|
  {
    if a != [] && b != [] {
      MergedBelow(a, b[1..], skipDeleted, maxKey);
      MergedBelow(a[1..], b, skipDeleted, maxKey);
      MergedBelow(a[1..], b[1..], skipDeleted, maxKey);
    }
  }

  lemma {:induction false} FoldBelow(acc: seq<Item>, ls: seq<seq<Item>>, maxKey: int)
    requires KeysBelow(acc, maxKey) && forall i :: 0 <= i < |ls| ==> KeysBelow(ls[i], maxKey)
    ensures KeysBelow(Fold(acc, ls), maxKey)
  {
    if ls != [] {
      FoldBelow(acc, ls[..|ls| - 1], maxKey);
      MergedBelow(Fold(acc, ls[..|ls| - 1]), ls[|ls| - 1], false, maxKey);
    }
  }

  function KeysOf(s: seq<Item>): (keys: seq<int>)
    ensures |keys| == |s| && forall i :: 0 <= i < |s| ==> keys[i] == s[i].first
  {
    seq(|s|, i requires 0 <= i < |s| => s[i].first)
  }

  /** A buffer with a new item at its place. */
  lemma InsertedRun(s: seq<Item>, at: nat, item: Item, maxKey: int)
    requires SortedRun(s) && KeysBelow(s, maxKey) && at <= |s| && item.first < maxKey
    requires forall i :: 0 <= i < at ==> s[i].first < item.first
    requires forall i :: at <= i < |s| ==> item.first < s[i].first
    ensures var r := s[..at] + [item] + s[at..]; SortedRun(r) && KeysBelow(r, maxKey)
    ensures forall k :: FindIn(s[..at] + [item] + s[at..], k) == if k == item.first then Some(item) else FindIn(s, k)
  {
    forall k ensures FindIn(s[..at] + [item] + s[at..], k) == if k == item.first then Some(item) else FindIn(s, k) {
      InsertedFind(s, at, item, k);
    }
  }

  lemma InsertedFind(s: seq<Item>, at: nat, item: Item, k: int)
    requires at <= |s| && forall i :: 0 <= i < at ==> s[i].first < item.first
    ensures FindIn(s[..at] + [item] + s[at..], k) == if k == item.first then Some(item) else FindIn(s, k)
  {
    FindSplit(s[..at] + [item], s[at..], k);
    FindSplit(s[..at], [item], k);
    FindSplit(s[..at], s[at..], k);
    assert s[..at] + s[at..] == s;
    assert [item][1..] == [];
    if k == item.first {
      FindAbsent(s[..at], k);
    }
  }

  lemma ReplacedRun(s: seq<Item>, at: nat, item: Item, maxKey: int)
    requires SortedRun(s) && KeysBelow(s, maxKey) && at < |s| && s[at].first == item.first
    ensures var r := s[at := item];
            && SortedRun(r) && KeysBelow(r, maxKey)
            && forall k :: FindIn(r, k) == if k == item.first then Some(item) else FindIn(s, k)
  {
    var r := s[at := item];
    FindAt(r, at);
    forall k ensures FindIn(r, k) == if k == item.first then Some(item) else FindIn(s, k) {
      if k != item.first {
        ReplacedOthers(s, at, item, k);
      }
    }
  }

  lemma ReplacedOthers(s: seq<Item>, at: nat, item: Item, k: int)
    requires at < |s| && s[at].first == item.first != k
    ensures FindIn(s[at := item], k) == FindIn(s, k)
  {
    var a, b := s[..at], s[at + 1..];
    assert s == a + ([s[at]] + b) && s[at := item] == a + ([item] + b);
    FindSplit(a, [s[at]] + b, k);
    FindSplit(a, [item] + b, k);
  }

  /** `std::lower_bound` on the items `lo..hi`. */
  method LowerBound(s: seq<Item>, lo: nat, hi: nat, key: int) returns (r: nat)
    requires SortedRun(s) && lo <= hi <= |s|
    ensures lo <= r <= hi
    ensures forall i :: lo <= i < r ==> s[i].first < key
    ensures forall i :: r <= i < hi ==> key <= s[i].first
  {
    var l, h := lo, hi;
    while l < h
      invariant lo <= l <= h <= hi
      invariant forall i :: lo <= i < l ==> s[i].first < key
      invariant forall i :: h <= i < hi ==> key <= s[i].first
    {
      var mid := l + (h - l) / 2;
      if s[mid].first < key {
        l := mid + 1;
      } else {
        h := mid;
      }
    }
    return l;
  }

  /** Every run is sorted and its keys stay below the largest value of the key type, which is reserved. */
  ghost predicate Runs(levels: seq<seq<Item>>, maxKey: int) {
    forall i :: 0 <= i < |levels| ==> SortedRun(levels[i]) && KeysBelow(levels[i], maxKey)
  }

  /** A level that is long enough to have an index, and is not empty, has one that was built on its keys. */
  ghost predicate Indexed(level: seq<Item>, l: nat, pgms: seq<PgmIndex.Index>, minIndexedLevel: nat, eps: nat,
                          epsRec: nat, maxKey: int) {
    l >= minIndexedLevel && level != [] ==>
      l - minIndexedLevel < |pgms|
      && PgmIndex.IndexOf(pgms[l - minIndexedLevel], KeysOf(level), eps, epsRec, maxKey)
  }

  // ---- What an insertion does to the levels

  datatype State = State(levels: seq<seq<Item>>, used: nat)

  /** Where a key belongs in a sorted run. */
  function Place(s: seq<Item>, key: int): (at: nat)
    ensures at <= |s|
  {
    PgmLevels.CountLT(KeysOf(s), key)
  }

  predicate Held(s: seq<Item>, key: int) {
    Place(s, key) < |s| && s[Place(s, key)].first == key
  }

  function WithNew(s: seq<Item>, item: Item): seq<Item> {
    var at := Place(s, item.first);
    s[..at] + [item] + s[at..]
  }

  /** The first level, from index `i` on, with room for what must move; or the first unused one. */
  function Target(levels: seq<seq<Item>>, minLevel: nat, used: nat, i: nat): (t: nat)
    requires 1 <= i && minLevel + i <= used && used - minLevel < |levels|
    ensures i <= t && minLevel + t <= used
    decreases used - i
  {
    if minLevel + i >= used || Slots(levels, minLevel, i) + |levels[i]| <= Pow2(minLevel + i) then i
    else Target(levels, minLevel, used, i + 1)
  }

  /** The level, counted from the lowest, that a merged run of `n` items goes to. */
  function Landing(n: nat, minLevel: nat): nat {
    if CeilLog2(n) > minLevel + 1 then CeilLog2(n) - minLevel else 1
  }

  /** The buffer's run and the levels below `i`, merged and moved to the level that their size calls for. */
  function MergedInto(levels: seq<seq<Item>>, minLevel: nat, run: seq<Item>, i: nat): seq<seq<Item>>
    requires 1 <= i < |levels|
  {
    var merged := Fold(run, levels[1..i]);
    seq(|levels|, j requires 0 <= j < |levels| =>
      if j == Landing(|merged|, minLevel) then merged else if j < i then [] else levels[j])
  }

  /** The state after an insertion: over the same key in the buffer, into the buffer, or by a merge. */
  function Inserted(s: State, minLevel: nat, item: Item): State
    requires Shape(s.levels, minLevel, s.used)
  {
    var buffer := s.levels[0];
    if Held(buffer, item.first) then
      State(s.levels[0 := buffer[Place(buffer, item.first) := item]], s.used)
    else if |buffer| < Pow2(minLevel + 1) - 1 then
      State(s.levels[0 := WithNew(buffer, item)], if s.used == minLevel then minLevel + 1 else s.used)
    else
      var i := Target(s.levels, minLevel, s.used, 1);
      if minLevel + i == s.used then
        State(MergedInto(s.levels + [[]], minLevel, WithNew(buffer, item), i), s.used + 1)
      else
        State(MergedInto(s.levels, minLevel, WithNew(buffer, item), i), s.used)
  }

  lemma PlaceIs(s: seq<Item>, at: nat, key: int)
    requires SortedRun(s) && at <= |s|
    requires forall i :: 0 <= i < at ==> s[i].first < key
    requires forall i :: at <= i < |s| ==> key <= s[i].first
    ensures at == Place(s, key)
  {
    PgmLevels.CountLEUnique(KeysOf(s), key - 1, at);
  }

  lemma {:induction false} TargetIs(levels: seq<seq<Item>>, minLevel: nat, used: nat, i: nat, t: nat)
    requires 1 <= i <= t && minLevel + t <= used && used - minLevel < |levels|
    requires forall j :: i <= j < t ==> NoRoom(levels, minLevel, j)
    requires minLevel + t < used ==> Slots(levels, minLevel, t) + |levels[t]| <= Pow2(minLevel + t)
    ensures Target(levels, minLevel, used, i) == t
    decreases t - i
  {
    if i < t {
      assert NoRoom(levels, minLevel, i);
      TargetIs(levels, minLevel, used, i + 1, t);
    }
  }

  class DynamicPGMIndex {
    const minLevel: nat
    const minIndexedLevel: nat
    const eps: nat
    const epsRec: nat
    const maxKey: int
    var usedLevels: nat
    var levels: seq<seq<Item>>          // level minLevel + i at position i
    var pgms: seq<PgmIndex.Index>       // index of level minIndexedLevel + i at position i

    ghost predicate Valid()
      reads this
    {
      && eps >= 1 && minLevel < minIndexedLevel
      && Shape(levels, minLevel, usedLevels) && Runs(levels, maxKey)
      && |pgms| == (if usedLevels > minIndexedLevel then usedLevels - minIndexedLevel else 0)
      && forall i :: 0 <= i < |levels| ==> Indexed(levels[i], minLevel + i, pgms, minIndexedLevel, eps, epsRec, maxKey)
    }

    /** The newest item stored under a key. */
    ghost function Newest(k: int): Option<Item>
      reads this
    {
      NewestIn(levels, k)
    }

    /** The value a key maps to, if it was inserted and not erased since. */
    ghost function Value(k: int): Option<int>
      reads this
    {
      var n := Newest(k);
      if n.Some? && !n.value.Deleted() then Some(n.value.second) else None
    }

    constructor (minLevel: nat, minIndexedLevel: nat, eps: nat, epsRec: nat, maxKey: int)
      requires minLevel < minIndexedLevel && minLevel <= 30 && eps >= 1
      ensures Valid() && forall k :: Value(k) == None
      ensures this.minLevel == minLevel && this.maxKey == maxKey && this.eps == eps && this.epsRec == epsRec
      ensures usedLevels == minLevel && levels == seq(32 - minLevel, _ => [])
    {
      this.minLevel, this.minIndexedLevel := minLevel, minIndexedLevel;
      this.eps, this.epsRec, this.maxKey := eps, epsRec, maxKey;
      usedLevels := minLevel;
      levels := seq(32 - minLevel, _ => []);
      pgms := [];
      new;
      forall k ensures Newest(k) == None {
        NewestEmpty(levels, k);
      }
    }

    /** Inserts or overwrites; only an index over more than 2^31 positions can fail. */
    method InsertOrAssign(key: int, value: int) returns (r: Result<(), PgmLevels.IndexError>)
      requires Valid() && key < maxKey
      modifies this
      ensures r.Failure? ==> old(TotalSize(levels)) + eps + epsRec + 2 > PgmLevels.INT32_MAX
      ensures r.Success? ==> Valid()
      ensures r.Success? ==> forall k :: Value(k) == if k == key then Some(value) else old(Value(k))
    {
      r := Insert(Pair(key, value));
    }

    method Erase(key: int) returns (r: Result<(), PgmLevels.IndexError>)
      requires Valid() && key < maxKey
      modifies this
      ensures r.Failure? ==> old(TotalSize(levels)) + eps + epsRec + 2 > PgmLevels.INT32_MAX
      ensures r.Success? ==> Valid()
      ensures r.Success? ==> forall k :: Value(k) == if k == key then None else old(Value(k))
    {
      r := Insert(Tombstone(key));
    }

    /** Inserts an item: over the same key in the buffer, into the buffer, or by merging the full buffer down. */
    method Insert(newItem: Item) returns (r: Result<(), PgmLevels.IndexError>)
      requires Valid() && newItem.first < maxKey
      modifies this
      ensures r.Failure? ==> old(TotalSize(levels)) + eps + epsRec + 2 > PgmLevels.INT32_MAX
      ensures r.Success? ==> Valid()
      ensures r.Success? ==> State(levels, usedLevels) == Inserted(old(State(levels, usedLevels)), minLevel, newItem)
      ensures r.Success? ==> forall k :: Newest(k) == if k == newItem.first then Some(newItem) else old(Newest(k))
    {
      hide Slots, PgmIndex.IndexOf, SortedRun, KeysBelow, TotalSize, LevelShape, Indexed, MergedInto, Target, Place;
      var buffer := levels[0];
      var at := LowerBound(buffer, 0, |buffer|, newItem.first);
      PlaceIs(buffer, at, newItem.first);
      if at != |buffer| && buffer[at].first == newItem.first {
        ReplacedRun(buffer, at, newItem, maxKey);
        SetBuffer(buffer[at := newItem], newItem, usedLevels);
        return Success(());
      }
      AboveFrom(buffer, at, newItem.first);
      if |buffer| < Pow2(minLevel + 1) - 1 {
        InsertedRun(buffer, at, newItem, maxKey);
        SetBuffer(buffer[..at] + [newItem] + buffer[at..], newItem,
                  if usedLevels == minLevel then minLevel + 1 else usedLevels);
        return Success(());
      }
      var i, slotsRequired := ChooseTarget();
      if minLevel + i == usedLevels {
        AddLevel(i);
      }
      r := PairwiseMerge(newItem, i - 1, slotsRequired, at);
    }

    method SetBuffer(run: seq<Item>, ghost item: Item, used: nat)
      requires Valid() && SortedRun(run) && KeysBelow(run, maxKey) && |run| <= Pow2(minLevel + 1) - 1
      requires if usedLevels == minLevel && used != usedLevels then used == minLevel + 1 else
               used == usedLevels && (used > minLevel || levels[0] != [])
      requires forall k :: FindIn(run, k) == if k == item.first then Some(item) else FindIn(levels[0], k)
      modifies this
      ensures Valid() && levels == old(levels)[0 := run] && usedLevels == used
      ensures forall k :: Newest(k) == if k == item.first then Some(item) else old(Newest(k))
    {
      hide PgmIndex.IndexOf, SortedRun, KeysBelow, LevelShape, Runs, NewestIn, FindIn;
      BufferReplaced(levels, run, item, minLevel, usedLevels, used, maxKey);
      levels, usedLevels := levels[0 := run], used;
      forall k ensures Newest(k) == if k == item.first then Some(item) else old(Newest(k)) {
        assert NewestIn(old(levels)[0 := run], k) == if k == item.first then Some(item) else NewestIn(old(levels), k);
      }
      forall i | 0 <= i < |levels|
        ensures Indexed(levels[i], minLevel + i, pgms, minIndexedLevel, eps, epsRec, maxKey)
      {
        if i > 0 {
          assert Indexed(old(levels)[i], minLevel + i, pgms, minIndexedLevel, eps, epsRec, maxKey);
        }
      }
    }

    /** The level a full buffer is merged into. */
    method ChooseTarget() returns (i: nat, slotsRequired: nat)
      requires Valid() && |levels[0]| == Pow2(minLevel + 1) - 1
      ensures 1 <= i < |levels| && minLevel + i <= usedLevels
      ensures Chosen(levels, minLevel, usedLevels, i) && levels[i] == []
      ensures usedLevels - minLevel < |levels| && i == Target(levels, minLevel, usedLevels, 1)
      ensures slotsRequired == Slots(levels, minLevel, i) <= Pow2(minLevel + i)
      ensures slotsRequired <= TotalSize(levels) + 1
    {
      hide PgmIndex.IndexOf, SortedRun, KeysBelow, TotalSize, Indexed, Slots;
      slotsRequired := Pow2(minLevel + 1);
      i := 1;
      SlotsStart(levels, minLevel);
      while minLevel + i < usedLevels
        invariant 1 <= i < |levels| && minLevel + i <= usedLevels
        invariant slotsRequired == Slots(levels, minLevel, i)
        invariant forall j :: 1 <= j < i ==> NoRoom(levels, minLevel, j)
      {
        assert LevelShape(levels[i], minLevel, usedLevels, i);
        var slotsLeft := Pow2(minLevel + i) - |levels[i]|;
        if slotsRequired <= slotsLeft {
          break;
        }
        SlotsNext(levels, minLevel, i);
        slotsRequired := slotsRequired + |levels[i]|;
        i := i + 1;
      }
      TargetEmpty(levels, minLevel, usedLevels, i);
      TargetIs(levels, minLevel, usedLevels, 1, i);
      SlotsTotal(levels, minLevel, i);
    }

    method AddLevel(i: nat)
      requires Valid() && minLevel + i == usedLevels && 1 <= i < |levels|
      modifies this
      ensures Valid() && levels == old(levels) + [[]] && usedLevels == old(usedLevels) + 1
      ensures Slots(levels, minLevel, i) == old(Slots(levels, minLevel, i))
      ensures forall k :: Newest(k) == old(Newest(k))
    {
      hide PgmIndex.IndexOf, SortedRun, KeysBelow, NewestIn, Pow2;
      SlotsAppend(levels, minLevel, i);
      NewestAppendEmpty(levels);
      EmptyRun(maxKey);
      forall j | 1 <= j < |levels| ensures LevelShape(levels[j], minLevel, usedLevels + 1, j) {
        assert LevelShape(levels[j], minLevel, usedLevels, j);
      }
      usedLevels := usedLevels + 1;
      levels := levels + [[]];
      if minLevel + i >= minIndexedLevel && minLevel + i - minIndexedLevel >= |pgms| {
        pgms := pgms + [PgmIndex.Index(0, 0, [])];
      }
      ShorterIndexed(old(levels), minLevel, old(pgms), pgms, minIndexedLevel, eps, epsRec, maxKey);
    }

    /** Empties a level and forgets its index. */
    method ClearLevel(i: nat)
      requires i < |levels| && (minLevel + i >= minIndexedLevel ==> minLevel + i - minIndexedLevel < |pgms|)
      modifies this`levels, this`pgms
      ensures levels == old(levels)[i := []]
      ensures SameFrom(old(pgms), pgms, minIndexedLevel, minLevel + i + 1)
    {
      levels := levels[i := []];
      if minLevel + i >= minIndexedLevel {
        pgms := pgms[minLevel + i - minIndexedLevel := PgmIndex.Index(0, 0, [])];
      }
    }

    /** Merges the levels `1..limit` one after the other into the run held in one of the scratch buffers. Level `i`
        is merged from `tmpA` into `tmpB` when `i` has the parity `mod`, and back otherwise. */
    method MergeLevels(limit: nat, mod: nat, tmpA: array<Item>, tmpB: array<Item>, ghost run: seq<Item>,
                       ghost orig: seq<seq<Item>>)
      returns (actualSize: nat)
      requires |run| == Pow2(minLevel + 1) && levels == orig && limit + 1 < |orig|
      requires minLevel + limit + 1 < usedLevels
      requires |pgms| == (if usedLevels > minIndexedLevel then usedLevels - minIndexedLevel else 0)
      requires tmpA != tmpB && tmpA.Length == tmpB.Length == Slots(orig, minLevel, limit + 1) >= |run| && mod < 2
      requires (if mod == 1 then tmpA else tmpB)[..|run|] == run
      modifies this`levels, this`pgms, tmpA, tmpB
      ensures |levels| == |orig|
      ensures forall j :: 0 <= j < |levels| ==> levels[j] == if 1 <= j <= limit then [] else orig[j]
      ensures SameFrom(old(pgms), pgms, minIndexedLevel, minLevel + limit + 1)
      ensures actualSize <= tmpA.Length
      ensures Fold(run, orig[1..limit + 1]) == (if (limit + 1) % 2 == mod then tmpA else tmpB)[..actualSize]
    {
      hide Slots, Fold, Merged, Pow2;
      actualSize := Pow2(minLevel + 1);
      FoldNone(run, orig);
      var i := 1;
      ghost var inA := mod == 1;
      while i <= limit
        invariant 1 <= i <= limit + 1 && inA == (i % 2 == mod)
        invariant |levels| == |orig| && actualSize <= tmpA.Length
        invariant inA ==> Fold(run, orig[1..i]) == tmpA[..actualSize]
        invariant !inA ==> Fold(run, orig[1..i]) == tmpB[..actualSize]
        invariant forall j :: 0 <= j < |levels| ==> levels[j] == if 1 <= j < i then [] else orig[j]
        invariant SameFrom(old(pgms), pgms, minIndexedLevel, minLevel + i)
      {
        var alternate := i % 2 == mod;
        // only the last used level may drop tombstones, and the merge stops below it
        var canDeletePermanently := minLevel + i == usedLevels - 1;
        assert !canDeletePermanently;
        FoldNext(run, orig, minLevel, i, limit + 1);
        actualSize := MergeAcross(alternate, canDeletePermanently, tmpA, tmpB, actualSize, levels[i]);
        ClearLevel(i);
        i := i + 1;
        inA := !inA;
      }
    }

    /** Merges the buffer with the new item and the levels up to `upTo` and empties them. Two scratch buffers
        alternate; the parity of `upTo` makes the last merge end in `tmpB`, because the target is empty and so is
        not merged. */
    method MergeDown(newItem: Item, upTo: nat, sizeHint: nat, at: nat) returns (merged: seq<Item>)
      requires Valid() && at <= |levels[0]| && |levels[0]| == Pow2(minLevel + 1) - 1
      requires upTo + 1 < |levels| && minLevel + upTo + 1 < usedLevels && levels[upTo + 1] == []
      requires sizeHint == Slots(levels, minLevel, upTo + 1)
      modifies this`levels, this`pgms
      ensures merged == Fold(old(levels)[0][..at] + [newItem] + old(levels)[0][at..], old(levels)[1..upTo + 1])
      ensures |levels| == |old(levels)|
      ensures forall j :: 0 <= j < |levels| ==> levels[j] == if 1 <= j <= upTo then [] else old(levels)[j]
      ensures SameFrom(old(pgms), pgms, minIndexedLevel, minLevel + upTo + 1)
    {
      hide Slots, PgmIndex.IndexOf, SortedRun, KeysBelow, NewestIn, Fold, Merged, Shape, LevelShape, Indexed, Pow2;
      hide Runs;
      var buffer, target := levels[0], upTo + 1;
      SlotsStart(levels, minLevel);
      SlotsGrow(levels, minLevel, 1, target);
      var tmpA := new Item[sizeHint](_ => newItem);
      var tmpB := new Item[sizeHint + |levels[target]|](_ => newItem);

      // the new item joins the buffer in sorted order
      var mod := upTo % 2;
      ghost var run := buffer[..at] + [newItem] + buffer[at..];
      MoveBuffer(buffer, newItem, at, if mod == 1 then tmpA else tmpB);

      // the levels follow, from the newest
      var limit := if levels[target] == [] then upTo else upTo + 1;
      var actualSize := MergeLevels(limit, mod, tmpA, tmpB, run, levels);
      merged := tmpB[..actualSize];
    }

    /** Builds the index of a level that has one. */
    method IndexLevel(merged: seq<Item>, level: nat) returns (r: Result<(), PgmLevels.IndexError>)
      requires eps >= 1 && SortedRun(merged) && KeysBelow(merged, maxKey)
      requires level >= minIndexedLevel ==> level - minIndexedLevel < |pgms|
      modifies this`pgms
      ensures r.Failure? ==> |merged| + eps + epsRec + 1 > PgmLevels.INT32_MAX
      ensures r.Success? ==> Indexed(merged, level, pgms, minIndexedLevel, eps, epsRec, maxKey)
      ensures |pgms| == old(|pgms|)
      ensures forall j :: 0 <= j < |pgms| && minIndexedLevel + j != level ==> pgms[j] == old(pgms)[j]
    {
      hide PgmIndex.IndexOf;
      if level >= minIndexedLevel {
        MergedKeys(merged, maxKey);
        var built := PgmIndex.Build(KeysOf(merged), eps, epsRec, maxKey);
        if built.Failure? {
          return Failure(built.error);
        }
        pgms := pgms[level - minIndexedLevel := built.value];
      }
      return Success(());
    }

    /** Merges and stores the result in the level its size calls for. */
    method PairwiseMerge(newItem: Item, upTo: nat, sizeHint: nat, at: nat) returns (r: Result<(), PgmLevels.IndexError>)
      requires Valid() && newItem.first < maxKey
      requires upTo + 1 < |levels| && minLevel + upTo + 1 < usedLevels && levels[upTo + 1] == []
      requires |levels[0]| == Pow2(minLevel + 1) - 1 && at <= |levels[0]|
      requires forall i :: 0 <= i < at ==> levels[0][i].first < newItem.first
      requires forall i :: at <= i < |levels[0]| ==> newItem.first < levels[0][i].first
      requires sizeHint == Slots(levels, minLevel, upTo + 1) <= Pow2(minLevel + upTo + 1)
      modifies this
      ensures r.Failure? ==> sizeHint + eps + epsRec + 1 > PgmLevels.INT32_MAX
      ensures r.Success? ==> Valid() && usedLevels == old(usedLevels)
      ensures r.Success? ==> levels == MergedInto(old(levels), minLevel,
          old(levels)[0][..at] + [newItem] + old(levels)[0][at..], upTo + 1)
      ensures r.Success? ==> forall k :: Newest(k) == if k == newItem.first then Some(newItem) else old(Newest(k))
    {
      hide Slots, PgmIndex.IndexOf, SortedRun, KeysBelow, NewestIn, Fold, Shape, Runs, Indexed, CeilLog2, Pow2;
      hide MergedInto;
      ghost var orig := levels;
      ghost var run := orig[0][..at] + [newItem] + orig[0][at..];
      var merged := MergeDown(newItem, upTo, sizeHint, at);
      ghost var cleared := pgms;
      MergedFits(run, orig, minLevel, usedLevels, upTo, merged);
      var level := if CeilLog2(|merged|) > minLevel + 1 then CeilLog2(|merged|) else minLevel + 1;
      levels := levels[0 := []];
      levels := levels[level - minLevel := merged];
      MergeDone(orig, levels, run, merged, minLevel, usedLevels, upTo, level - minLevel, newItem, at, maxKey);
      MovedIs(orig, levels, merged, run, minLevel, upTo);
      var indexed := IndexLevel(merged, level);
      if indexed.Failure? {
        return indexed;
      }
      MovedIndexed(orig, levels, merged, minLevel, upTo, level - minLevel, old(pgms), cleared, pgms,
                   minIndexedLevel, eps, epsRec, maxKey);
      return Success(());
    }

    /** Looks the key up in one level, in the range its index gives. */
    method FindInLevel(i: nat, key: int) returns (r: Option<Item>)
      requires Valid() && key < maxKey && i < |levels| && levels[i] != []
      ensures r == FindIn(levels[i], key)
    {
      hide Shape, PgmIndex.IndexOf;
      var level := levels[i];
      var first, last := 0, |level|;
      assert Indexed(level, minLevel + i, pgms, minIndexedLevel, eps, epsRec, maxKey);
      if minLevel + i >= minIndexedLevel {
        var range := PgmIndex.Search(pgms[minLevel + i - minIndexedLevel], eps, epsRec, key, KeysOf(level), maxKey);
        first, last := range.lo, range.hi;
      }
      var it := LowerBound(level, first, last, key);
      BoundInRange(level, key, first, last, it, minLevel + i < minIndexedLevel);
      if it != |level| && level[it].first == key {
        FindAt(level, it);
        return Some(level[it]);
      }
      return None;
    }

    /** Looks the key up level by level, newest first. */
    method Find(key: int) returns (r: Option<int>)
      requires Valid() && key < maxKey
      ensures r == Value(key)
    {
      hide Shape, Runs, Indexed, FindIn;
      var i := 0;
      LevelsReach();
      while minLevel + i < usedLevels
        invariant 0 <= i <= |levels| && minLevel + i <= usedLevels
        invariant NewestIn(levels[..i], key) == None
      {
        assert levels[..i + 1][..i] == levels[..i];
        if levels[i] == [] {
          FindAbsent([], key);
          i := i + 1;
          continue;
        }
        var found := FindInLevel(i, key);
        if found.Some? {
          NewestSplit(levels[..i + 1], levels[i + 1..], key);
          assert levels == levels[..i + 1] + levels[i + 1..];
          return if found.value.Deleted() then None else Some(found.value.second);
        }
        i := i + 1;
      }
      RestEmpty(i, key);
      return None;
    }

    lemma LevelsReach()
      requires Valid()
      ensures 0 <= usedLevels - minLevel <= |levels|
    {
    }

    lemma RestEmpty(i: nat, key: int)
      requires Valid() && minLevel + i == usedLevels && i <= |levels|
      ensures NewestIn(levels, key) == NewestIn(levels[..i], key)
    {
      hide Runs, Indexed, NewestIn, Pow2;
      forall j | i <= j < |levels| ensures levels[j] == [] {
        if j > 0 {
          assert LevelShape(levels[j], minLevel, usedLevels, j);
        }
      }
      NewestRest(levels, i, key);
    }
  }

  lemma ShorterIndexed(levels: seq<seq<Item>>, minLevel: nat, pgms: seq<PgmIndex.Index>, pgms': seq<PgmIndex.Index>,
                       minIndexedLevel: nat, eps: nat, epsRec: nat, maxKey: int)
    requires pgms <= pgms'
    requires forall i :: 0 <= i < |levels| ==>
             Indexed(levels[i], minLevel + i, pgms, minIndexedLevel, eps, epsRec, maxKey)
    ensures forall i :: 0 <= i < |levels| ==>
            Indexed(levels[i], minLevel + i, pgms', minIndexedLevel, eps, epsRec, maxKey)
  {
    hide PgmIndex.IndexOf;
    forall i | 0 <= i < |levels|
      ensures Indexed(levels[i], minLevel + i, pgms', minIndexedLevel, eps, epsRec, maxKey)
    {
      assert Indexed(levels[i], minLevel + i, pgms, minIndexedLevel, eps, epsRec, maxKey);
    }
  }

  lemma AboveFrom(s: seq<Item>, at: nat, k: int)
    requires SortedRun(s) && at <= |s| && (at < |s| ==> s[at].first != k)
    requires forall i :: at <= i < |s| ==> k <= s[i].first
    ensures forall i :: at <= i < |s| ==> k < s[i].first
  {
  }

  /** Replacing the buffer by one that differs in one key. */
  lemma BufferReplaced(levels: seq<seq<Item>>, run: seq<Item>, item: Item, minLevel: nat, used: nat, used': nat,
                       maxKey: int)
    requires Shape(levels, minLevel, used) && Runs(levels, maxKey)
    requires SortedRun(run) && KeysBelow(run, maxKey) && |run| <= Pow2(minLevel + 1) - 1
    requires used' == used > minLevel
             || (used == minLevel && (used' == minLevel + 1 || (used' == used && levels[0] != [])))
    requires forall k :: FindIn(run, k) == if k == item.first then Some(item) else FindIn(levels[0], k)
    ensures Shape(levels[0 := run], minLevel, used') && Runs(levels[0 := run], maxKey)
    ensures forall k :: NewestIn(levels[0 := run], k) == if k == item.first then Some(item) else NewestIn(levels, k)
  {
    var levels' := levels[0 := run];
    forall i | 1 <= i < |levels'| ensures LevelShape(levels'[i], minLevel, used', i) {
      assert LevelShape(levels[i], minLevel, used, i);
    }
    forall k ensures NewestIn(levels', k) == if k == item.first then Some(item) else NewestIn(levels, k) {
      NewestHead(levels, k);
      NewestHead(levels', k);
      assert levels'[1..] == levels[1..];
    }
  }

  lemma NewestHead(levels: seq<seq<Item>>, k: int)
    requires levels != []
    ensures NewestIn(levels, k) == Over(FindIn(levels[0], k), NewestIn(levels[1..], k))
  {
    assert levels == [levels[0]] + levels[1..];
    NewestSplit([levels[0]], levels[1..], k);
    assert [levels[0]][..0] == [];
  }

  lemma NewestAppendEmpty(levels: seq<seq<Item>>)
    ensures forall k :: NewestIn(levels + [[]], k) == NewestIn(levels, k)
  {
    assert (levels + [[]])[..|levels|] == levels;
  }

  lemma SlotsStart(levels: seq<seq<Item>>, minLevel: nat)
    requires |levels| >= 1
    ensures Slots(levels, minLevel, 1) == Pow2(minLevel + 1)
  {
  }

  lemma SlotsNext(levels: seq<seq<Item>>, minLevel: nat, i: nat)
    requires 1 <= i < |levels|
    ensures Slots(levels, minLevel, i + 1) == Slots(levels, minLevel, i) + |levels[i]|
  {
  }

  lemma {:induction false} SlotsAppend(levels: seq<seq<Item>>, minLevel: nat, i: nat)
    requires 1 <= i <= |levels|
    ensures Slots(levels + [[]], minLevel, i) == Slots(levels, minLevel, i)
  {
    if i > 1 {
      SlotsAppend(levels, minLevel, i - 1);
    }
  }

  lemma FoldNone(run: seq<Item>, levels: seq<seq<Item>>)
    requires levels != []
    ensures Fold(run, levels[1..1]) == run
  {
  }

  lemma FoldNext(run: seq<Item>, levels: seq<seq<Item>>, minLevel: nat, i: nat, target: nat)
    requires 1 <= i < target < |levels| && |run| == Pow2(minLevel + 1)
    ensures Fold(run, levels[1..i + 1]) == Merged(Fold(run, levels[1..i]), levels[i], false)
    ensures |Fold(run, levels[1..i])| + |levels[i]| <= Slots(levels, minLevel, target)
  {
    assert levels[1..i + 1][..i - 1] == levels[1..i];
    FoldSize(run, levels, minLevel, i);
    SlotsGrow(levels, minLevel, i + 1, target);
  }

  lemma {:induction false} SlotsGrow(levels: seq<seq<Item>>, minLevel: nat, i: nat, j: nat)
    requires 1 <= i <= j <= |levels|
    ensures Slots(levels, minLevel, i) <= Slots(levels, minLevel, j)
  {
    if i < j {
      SlotsGrow(levels, minLevel, i, j - 1);
    }
  }

  /** The merged run belongs at or under the chosen target and over every level that was merged into it, in size. */
  lemma MergedFits(run: seq<Item>, orig: seq<seq<Item>>, minLevel: nat, used: nat, upTo: nat, merged: seq<Item>)
    requires upTo + 1 < |orig| && |run| == Pow2(minLevel + 1) && merged == Fold(run, orig[1..upTo + 1])
    requires Slots(orig, minLevel, upTo + 1) <= Pow2(minLevel + upTo + 1)
    ensures minLevel + 1 <= CeilLog2(|merged|) <= minLevel + upTo + 1
    ensures Pow2(CeilLog2(|merged|) - 1) < |merged| <= Slots(orig, minLevel, upTo + 1)
  {
    FoldSize(run, orig, minLevel, upTo + 1);
    var e := CeilLog2(|merged|);
    if e < minLevel + 1 {
      Pow2Grows(e, minLevel);
    }
    if e > minLevel + upTo + 1 {
      Pow2Grows(minLevel + upTo + 1, e - 1);
    }
  }

  /** What `levels` is after the levels up to `upTo` were merged from `orig` into position `t`. */
  ghost predicate Moved(orig: seq<seq<Item>>, levels: seq<seq<Item>>, merged: seq<Item>, upTo: nat, t: nat) {
    && |levels| == |orig| && upTo + 1 < |orig| && orig[upTo + 1] == [] && 1 <= t <= upTo + 1
    && forall j :: 0 <= j < |levels| ==> levels[j] == if j == t then merged else if j <= upTo then [] else orig[j]
  }

  lemma MovedIs(orig: seq<seq<Item>>, levels: seq<seq<Item>>, merged: seq<Item>, run: seq<Item>, minLevel: nat,
                upTo: nat)
    requires Moved(orig, levels, merged, upTo, Landing(|merged|, minLevel)) && merged == Fold(run, orig[1..upTo + 1])
    ensures levels == MergedInto(orig, minLevel, run, upTo + 1)
  {
    hide Fold, Landing;
  }

  lemma MovedShape(orig: seq<seq<Item>>, levels: seq<seq<Item>>, merged: seq<Item>, minLevel: nat, used: nat, upTo: nat,
                   t: nat, maxKey: int)
    requires Shape(orig, minLevel, used) && Runs(orig, maxKey) && Moved(orig, levels, merged, upTo, t)
    requires minLevel + upTo + 1 < used && SortedRun(merged) && KeysBelow(merged, maxKey)
    requires Pow2(minLevel + t - 1) < |merged| <= Pow2(minLevel + t)
    ensures Shape(levels, minLevel, used) && Runs(levels, maxKey)
  {
    hide SortedRun, KeysBelow, Pow2;
    forall i | 1 <= i < |levels| ensures LevelShape(levels[i], minLevel, used, i) {
      assert LevelShape(orig[i], minLevel, used, i);
    }
    assert SortedRun([]) && KeysBelow([], maxKey) by { EmptyRun(maxKey); }
  }

  /** The indexes of level `l` and of those above it are the same. */
  ghost predicate SameFrom(pgms: seq<PgmIndex.Index>, pgms': seq<PgmIndex.Index>, minIndexedLevel: nat, l: nat) {
    |pgms'| == |pgms| && forall j :: 0 <= j < |pgms| && minIndexedLevel + j >= l ==> pgms'[j] == pgms[j]
  }

  lemma MovedIndexed(orig: seq<seq<Item>>, levels: seq<seq<Item>>, merged: seq<Item>, minLevel: nat, upTo: nat, t: nat,
                     pgms: seq<PgmIndex.Index>, cleared: seq<PgmIndex.Index>, pgms': seq<PgmIndex.Index>,
                     minIndexedLevel: nat, eps: nat, epsRec: nat, maxKey: int)
    requires Moved(orig, levels, merged, upTo, t) && minLevel < minIndexedLevel
    requires forall i :: 0 <= i < |orig| ==> Indexed(orig[i], minLevel + i, pgms, minIndexedLevel, eps, epsRec, maxKey)
    requires SameFrom(pgms, cleared, minIndexedLevel, minLevel + upTo + 1)
    requires |pgms'| == |cleared|
    requires forall j :: 0 <= j < |cleared| && minIndexedLevel + j != minLevel + t ==> pgms'[j] == cleared[j]
    requires Indexed(merged, minLevel + t, pgms', minIndexedLevel, eps, epsRec, maxKey)
    ensures forall i :: 0 <= i < |levels| ==>
            Indexed(levels[i], minLevel + i, pgms', minIndexedLevel, eps, epsRec, maxKey)
  {
    hide PgmIndex.IndexOf;
    forall i | 0 <= i < |levels|
      ensures Indexed(levels[i], minLevel + i, pgms', minIndexedLevel, eps, epsRec, maxKey)
    {
      assert Indexed(orig[i], minLevel + i, pgms, minIndexedLevel, eps, epsRec, maxKey);
      if i != t && i > upTo && minLevel + i >= minIndexedLevel && levels[i] != [] {
        var j := minLevel + i - minIndexedLevel;
        assert pgms'[j] == cleared[j] == pgms[j];
      }
    }
  }

  lemma EmptyRun(maxKey: int)
    ensures SortedRun([]) && KeysBelow([], maxKey)
  {
  }

  lemma AroundOne(levels: seq<seq<Item>>, i: nat)
    requires 1 <= i < |levels|
    ensures levels[1..] == levels[1..i] + ([levels[i]] + levels[i + 1..])
  {
  }

  lemma MovedNewest(orig: seq<seq<Item>>, levels: seq<seq<Item>>, run: seq<Item>, merged: seq<Item>, upTo: nat,
                    t: nat, k: int)
    requires Moved(orig, levels, merged, upTo, t) && merged == Fold(run, orig[1..upTo + 1])
    requires SortedRun(run) && forall i :: 0 <= i < |orig| ==> SortedRun(orig[i])
    ensures NewestIn(levels, k) == Over(FindIn(run, k), NewestIn(orig[1..], k))
  {
    hide NewestIn, FindIn, Fold, SortedRun;
    var head, tail, middle := levels[..upTo + 2], levels[upTo + 2..], orig[1..upTo + 1];
    assert levels == head + tail && tail == orig[upTo + 2..];
    NewestSplit(head, tail, k);
    NewestSingle(head, t, k);
    FoldFind(run, middle, k);
    AroundOne(orig, upTo + 1);
    NewestSplit(middle, [[]] + tail, k);
    NewestSplit([[]], tail, k);
    NewestEmpty([[]], k);
  }

  /** The state after a merge. */
  lemma MergeDone(orig: seq<seq<Item>>, levels: seq<seq<Item>>, run: seq<Item>, merged: seq<Item>, minLevel: nat,
                  used: nat, upTo: nat, t: nat, item: Item, at: nat, maxKey: int)
    requires Shape(orig, minLevel, used) && Runs(orig, maxKey) && Moved(orig, levels, merged, upTo, t)
    requires minLevel + upTo + 1 < used && item.first < maxKey
    requires at <= |orig[0]| && run == orig[0][..at] + [item] + orig[0][at..]
    requires forall i :: 0 <= i < at ==> orig[0][i].first < item.first
    requires forall i :: at <= i < |orig[0]| ==> item.first < orig[0][i].first
    requires merged == Fold(run, orig[1..upTo + 1])
    requires Pow2(minLevel + t - 1) < |merged| <= Pow2(minLevel + t)
    ensures Shape(levels, minLevel, used) && Runs(levels, maxKey)
    ensures SortedRun(merged) && KeysBelow(merged, maxKey)
    ensures forall k :: NewestIn(levels, k) == if k == item.first then Some(item) else NewestIn(orig, k)
  {
    hide NewestIn, FindIn, Fold, SortedRun, KeysBelow, LevelShape, Pow2;
    InsertedRun(orig[0], at, item, maxKey);
    var middle := orig[1..upTo + 1];
    FoldSorted(run, middle);
    FoldBelow(run, middle, maxKey);
    MovedShape(orig, levels, merged, minLevel, used, upTo, t, maxKey);
    forall k ensures NewestIn(levels, k) == if k == item.first then Some(item) else NewestIn(orig, k) {
      MovedNewest(orig, levels, run, merged, upTo, t, k);
      NewestHead(orig, k);
    }
  }

  lemma MergedKeys(merged: seq<Item>, maxKey: int)
    requires SortedRun(merged) && KeysBelow(merged, maxKey)
    ensures merged == [] || PgmIndex.Input(KeysOf(merged), maxKey)
  {
  }

  lemma BoundInRange(level: seq<Item>, key: int, first: nat, last: nat, it: nat, whole: bool)
    requires SortedRun(level) && first <= it <= last <= |level|
    requires forall i :: first <= i < it ==> level[i].first < key
    requires forall i :: it <= i < last ==> key <= level[i].first
    requires whole ==> first == 0 && last == |level|
    requires !whole ==> first <= PgmLevels.CountLT(KeysOf(level), key) <= last
    ensures if it != |level| && level[it].first == key then true else FindIn(level, key) == None
  {
    var keys := KeysOf(level);
    PgmLevels.CountLESplits(keys, key - 1);
    if !whole {
      PgmLevels.CountLEUnique(keys, key - 1, it);
    }
    if it == |level| || level[it].first != key {
      forall i | 0 <= i < |level| ensures level[i].first != key {
        assert keys[i] == level[i].first;
      }
      FindAbsent(level, key);
    }
  }
}
