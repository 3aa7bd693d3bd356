/** A sorted array with gaps: a gap repeats the key to its right, so that the array can be searched as it is. */
module GappedArrays {
  import opened Seqs

  datatype Item = Item(key: int, payload: int)

  datatype Slot = Slot(key: int, payload: int, filled: bool)

  // ---- The invariant

  /** Key of the slot to the right; the sentinel after the last one. */
  function Next(v: seq<Slot>, i: nat, sentinel: int): int
    requires i < |v|
  {
    if i + 1 < |v| then v[i + 1].key else sentinel
  }

  ghost predicate SlotOk(v: seq<Slot>, i: nat, sentinel: int)
    requires i < |v|
  {
    && v[i].key <= Next(v, i, sentinel)
    && (if v[i].filled then v[i].key < sentinel else v[i].key == Next(v, i, sentinel))
  }

  ghost predicate Gapped(v: seq<Slot>, sentinel: int) {
    forall i :: 0 <= i < |v| ==> SlotOk(v, i, sentinel)
  }

  lemma {:induction false} GappedSorted(v: seq<Slot>, sentinel: int, i: nat, j: nat)
    requires Gapped(v, sentinel) && i <= j < |v|
    ensures v[i].key <= v[j].key <= sentinel
    decreases |v| - i
  {
    assert SlotOk(v, i, sentinel);
    if i < j {
      GappedSorted(v, sentinel, i + 1, j);
    } else if i + 1 < |v| {
      GappedSorted(v, sentinel, i + 1, i + 1);
    }
  }

  /** What `validate_structure` checks of keys and bitmap. */
  ghost predicate Validated(v: seq<Slot>, sentinel: int) {
    && (forall i :: 0 <= i < |v| - 1 ==> v[i].key <= v[i + 1].key && (v[i].key < v[i + 1].key ==> v[i].filled))
    && (v != [] ==> (v[|v| - 1].key == sentinel <==> !v[|v| - 1].filled))
  }

  /** On keys below the sentinel, the invariant is the one the node validates. */
  lemma GappedIsValidated(v: seq<Slot>, sentinel: int)
    requires forall i :: 0 <= i < |v| ==> v[i].key <= sentinel && (v[i].filled ==> v[i].key < sentinel)
    ensures Gapped(v, sentinel) <==> Validated(v, sentinel)
  {
    if Gapped(v, sentinel) {
      forall i | 0 <= i < |v| ensures SlotOk(v, i, sentinel) {
      }
      forall i | 0 <= i < |v| - 1 ensures v[i].key <= v[i + 1].key && (v[i].key < v[i + 1].key ==> v[i].filled) {
        assert SlotOk(v, i, sentinel);
      }
      if v != [] {
        assert SlotOk(v, |v| - 1, sentinel);
      }
    }
  }

  // ---- The items

  function ItemOf(s: Slot): (c: seq<Item>)
    ensures |c| <= 1
  {
    if s.filled then [Item(s.key, s.payload)] else []
  }

  /** The items in the slots `[a, b)`. */
  function Part(v: seq<Slot>, a: nat, b: nat): (c: seq<Item>)
    requires a <= b <= |v|
    ensures |c| <= b - a
    decreases b - a
  {
    if a == b then [] else Part(v, a, b - 1) + ItemOf(v[b - 1])
  }

  function Items(v: seq<Slot>): (c: seq<Item>)
    ensures |c| <= |v|
  {
    Part(v, 0, |v|)
  }

  lemma {:induction false} PartCut(v: seq<Slot>, a: nat, m: nat, b: nat)
    requires a <= m <= b <= |v|
    ensures Part(v, a, b) == Part(v, a, m) + Part(v, m, b)
    decreases b - m
  {
    hide ItemOf;
    if m < b {
      PartCut(v, a, m, b - 1);
      Associate(Part(v, a, m), Part(v, m, b - 1), ItemOf(v[b - 1]));
    }
  }

  /** Equal slots hold equal items, also `d` slots further on. */
  lemma {:induction false} PartSame(v: seq<Slot>, v': seq<Slot>, a: nat, b: nat, d: int)
    requires a <= b <= |v| && 0 <= a + d && b + d <= |v'| && forall i :: a <= i < b ==> v[i] == v'[i + d]
    ensures Part(v, a, b) == Part(v', a + d, b + d)
    decreases b - a
  {
    if a < b {
      PartSame(v, v', a, b - 1, d);
      assert v[b - 1] == v'[b - 1 + d];
    }
  }

  lemma PartKept(v: seq<Slot>, v': seq<Slot>, a: nat, b: nat)
    requires a <= b <= |v| && b <= |v'| && forall i :: a <= i < b ==> v'[i] == v[i]
    ensures Part(v', a, b) == Part(v, a, b)
  {
    PartSame(v, v', a, b, 0);
  }

  lemma {:induction false} PartGaps(v: seq<Slot>, a: nat, b: nat)
    requires a <= b <= |v| && forall i :: a <= i < b ==> !v[i].filled
    ensures Part(v, a, b) == []
    decreases b - a
  {
    if a < b {
      PartGaps(v, a, b - 1);
    }
  }

  lemma PartOne(v: seq<Slot>, p: nat)
    requires p < |v|
    ensures Part(v, p, p + 1) == ItemOf(v[p])
  {
    assert Part(v, p, p) == [];
  }

  /** All slots full means as many items as slots, and a gap means less. */
  lemma {:induction false} PartFull(v: seq<Slot>, a: nat, b: nat)
    requires a <= b <= |v|
    ensures |Part(v, a, b)| == b - a <==> forall i :: a <= i < b ==> v[i].filled
    decreases b - a
  {
    if a < b {
      PartFull(v, a, b - 1);
    }
  }

  lemma {:induction false} PartFrom(v: seq<Slot>, a: nat, b: nat, i: nat) returns (j: nat)
    requires a <= b <= |v| && i < |Part(v, a, b)|
    ensures a <= j < b && v[j].filled && Part(v, a, b)[i] == Item(v[j].key, v[j].payload)
    decreases b - a
  {
    if i < |Part(v, a, b - 1)| {
      j := PartFrom(v, a, b - 1, i);
    } else {
      j := b - 1;
    }
  }

  ghost predicate Ascending(c: seq<Item>) {
    forall i, j :: 0 <= i < j < |c| ==> c[i].key <= c[j].key
  }

  ghost predicate KeysAtMost(c: seq<Item>, k: int) {
    forall i :: 0 <= i < |c| ==> c[i].key <= k
  }

  ghost predicate KeysAtLeast(c: seq<Item>, k: int) {
    forall i :: 0 <= i < |c| ==> c[i].key >= k
  }

  lemma PartAtMost(v: seq<Slot>, a: nat, b: nat, k: int)
    requires a <= b <= |v| && forall i :: a <= i < b ==> v[i].key <= k
    ensures KeysAtMost(Part(v, a, b), k)
  {
    forall i | 0 <= i < |Part(v, a, b)| ensures Part(v, a, b)[i].key <= k {
      var j := PartFrom(v, a, b, i);
    }
  }

  lemma PartAtLeast(v: seq<Slot>, a: nat, b: nat, k: int)
    requires a <= b <= |v| && forall i :: a <= i < b ==> v[i].key >= k
    ensures KeysAtLeast(Part(v, a, b), k)
  {
    forall i | 0 <= i < |Part(v, a, b)| ensures Part(v, a, b)[i].key >= k {
      var j := PartFrom(v, a, b, i);
    }
  }

  lemma {:induction false} PartAscending(v: seq<Slot>, sentinel: int, b: nat)
    requires Gapped(v, sentinel) && b <= |v|
    ensures Ascending(Part(v, 0, b))
  {
    if b > 0 {
      PartAscending(v, sentinel, b - 1);
      forall i | 0 <= i < b - 1 ensures v[i].key <= v[b - 1].key {
        GappedSorted(v, sentinel, i, b - 1);
      }
      PartAtMost(v, 0, b - 1, v[b - 1].key);
    }
  }

  // ---- What the operations do to the items

  /** Number of leading items not above `k`: all of them, in a sorted sequence. */
  function UpperRank(c: seq<Item>, k: int): (n: nat)
    ensures n <= |c|
  {
    if c == [] || c[0].key > k then 0 else 1 + UpperRank(c[1..], k)
  }

  /** The items with `x` after those with its key and before the greater ones. */
  function WithItem(c: seq<Item>, x: Item): seq<Item> {
    c[..UpperRank(c, x.key)] + [x] + c[UpperRank(c, x.key)..]
  }

  lemma {:induction false} UpperRankSplit(a: seq<Item>, b: seq<Item>, k: int)
    requires KeysAtMost(a, k) && KeysAtLeast(b, k + 1)
    ensures UpperRank(a + b, k) == |a|
  {
    if a == [] {
      assert a + b == b;
    } else {
      assert (a + b)[1..] == a[1..] + b;
      UpperRankSplit(a[1..], b, k);
    }
  }

  lemma WithItemSplit(a: seq<Item>, b: seq<Item>, x: Item)
    requires KeysAtMost(a, x.key) && KeysAtLeast(b, x.key + 1)
    ensures WithItem(a + b, x) == a + [x] + b
  {
    UpperRankSplit(a, b, x.key);
  }

  /** One item more, in order, behind the ones with its key. */
  lemma WithItemMeans(c: seq<Item>, x: Item)
    requires Ascending(c)
    ensures Ascending(WithItem(c, x)) && multiset(WithItem(c, x)) == multiset(c) + multiset{x}
    ensures KeysAtMost(c[..UpperRank(c, x.key)], x.key) && KeysAtLeast(c[UpperRank(c, x.key)..], x.key + 1)
  {
    hide UpperRank;
    RankBounds(c, x.key);
    var n := UpperRank(c, x.key);
    assert c == c[..n] + c[n..];
    InsertAscending(c, n, x);
  }

  lemma InsertAscending(c: seq<Item>, n: nat, x: Item)
    requires Ascending(c) && n <= |c| && KeysAtMost(c[..n], x.key) && KeysAtLeast(c[n..], x.key + 1)
    ensures Ascending(c[..n] + [x] + c[n..])
  {
    assert forall i :: 0 <= i < n ==> c[..n][i] == c[i];
    assert forall i :: n <= i < |c| ==> c[n..][i - n] == c[i];
  }

  lemma {:induction false} RankBounds(c: seq<Item>, k: int)
    requires Ascending(c)
    ensures KeysAtMost(c[..UpperRank(c, k)], k) && KeysAtLeast(c[UpperRank(c, k)..], k + 1)
  {
    if c != [] && c[0].key <= k {
      RankBounds(c[1..], k);
      var n := UpperRank(c[1..], k);
      assert c[..n + 1] == [c[0]] + c[1..][..n];
      assert c[n + 1..] == c[1..][n..];
    }
  }

  /** The items with keys outside `[lo, hi)`. */
  function Without(c: seq<Item>, lo: int, hi: int): seq<Item> {
    if c == [] then []
    else (if lo <= c[0].key < hi then [] else [c[0]]) + Without(c[1..], lo, hi)
  }

  lemma WithoutNothing(lo: int, hi: int)
    ensures Without([], lo, hi) == []
  {
  }

  lemma WithoutFirst(c: seq<Item>, lo: int, hi: int)
    requires c != []
    ensures Without(c, lo, hi) == (if lo <= c[0].key < hi then [] else [c[0]]) + Without(c[1..], lo, hi)
  {
  }

  lemma {:induction false} WithoutConcat(a: seq<Item>, b: seq<Item>, lo: int, hi: int)
    ensures Without(a + b, lo, hi) == Without(a, lo, hi) + Without(b, lo, hi)
  {
    hide Without;
    if a == [] {
      WithoutNothing(lo, hi);
      assert a + b == b;
    } else {
      Tail(a, b);
      WithoutFirst(a, lo, hi);
      WithoutFirst(a + b, lo, hi);
      WithoutConcat(a[1..], b, lo, hi);
      Associate(if lo <= a[0].key < hi then [] else [a[0]], Without(a[1..], lo, hi), Without(b, lo, hi));
    }
  }

  lemma {:induction false} WithoutAll(c: seq<Item>, lo: int, hi: int)
    requires KeysAtLeast(c, lo) && KeysAtMost(c, hi - 1)
    ensures Without(c, lo, hi) == []
  {
    if c != [] {
      WithoutAll(c[1..], lo, hi);
    }
  }

  lemma {:induction false} WithoutNone(c: seq<Item>, lo: int, hi: int)
    requires KeysAtMost(c, lo - 1) || KeysAtLeast(c, hi)
    ensures Without(c, lo, hi) == c
  {
    if c != [] {
      WithoutNone(c[1..], lo, hi);
      assert c == [c[0]] + c[1..];
    }
  }

  /** Exactly the items with keys in the range are gone. */
  lemma {:induction false} WithoutMeans(c: seq<Item>, lo: int, hi: int, x: Item)
    ensures multiset(Without(c, lo, hi))[x] == if lo <= x.key < hi then 0 else multiset(c)[x]
  {
    if c != [] {
      WithoutMeans(c[1..], lo, hi, x);
      assert c == [c[0]] + c[1..];
    }
  }

  /** Taking out the middle of three parts. */
  lemma WithoutMiddle(a: seq<Item>, m: seq<Item>, b: seq<Item>, lo: int, hi: int)
    requires KeysAtMost(a, lo - 1) && KeysAtLeast(m, lo) && KeysAtMost(m, hi - 1) && KeysAtLeast(b, hi)
    ensures Without(a + m + b, lo, hi) == a + b
  {
    hide Without;
    WithoutConcat(a + m, b, lo, hi);
    WithoutConcat(a, m, lo, hi);
    WithoutNone(a, lo, hi);
    WithoutAll(m, lo, hi);
    WithoutNone(b, lo, hi);
  }
}
