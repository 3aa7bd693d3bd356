/** The data node of ALEX: keys and payloads in gapped arrays with an occupancy bitmap, searched and filled under the
    guidance of a model that may be any function of the key (include/alex/alex_nodes.h). */
module AlexDataNodes {
  import opened GappedArrays
  import opened AlexBitmaps
  import opened Seqs

  /** The slots of the three arrays. */
  ghost function Zip(ks: seq<int>, ps: seq<int>, bs: seq<bool>): (v: seq<Slot>)
    requires |ks| == |ps| <= |bs|
    ensures |v| == |ks| && forall i :: 0 <= i < |v| ==> v[i] == Slot(ks[i], ps[i], bs[i])
  {
    seq(|ks|, i requires 0 <= i < |ks| => Slot(ks[i], ps[i], bs[i]))
  }

  function MaxOf(a: int, b: int): int {
    if a >= b then a else b
  }

  function MinReal(a: real, b: real): real {
    if a <= b then a else b
  }

  function MaxReal(a: real, b: real): real {
    if a >= b then a else b
  }

  const MAX_DENSITY := 0.8
  const INIT_DENSITY := 0.7
  const MIN_DENSITY := 0.6

  /** Slots for `n` items at a density, at least one more than there are items. */
  function CapacityFor(n: nat, density: real): (c: nat)
    requires density > 0.0
    ensures c > n
  {
    MaxOf((n as real / density).Floor, n + 1)
  }

  // ---- The invariant and the items under the changes that the operations make

  /** `u` is the first position with a key above `k`. */
  ghost predicate UpperBound(v: seq<Slot>, k: int, u: nat) {
    && u <= |v| && (forall i :: 0 <= i < u ==> v[i].key <= k) && (forall i :: u <= i < |v| ==> v[i].key > k)
  }

  /** In a gapped array the slot before an upper bound is occupied. */
  lemma BeforeBoundFilled(v: seq<Slot>, sentinel: int, k: int, u: nat)
    requires Gapped(v, sentinel) && UpperBound(v, k, u) && u > 0 && k < sentinel
    ensures v[u - 1].filled
  {
    assert SlotOk(v, u - 1, sentinel);
  }

  /** Where an item goes: between the parts before and after its upper bound. */
  lemma PutAt(v: seq<Slot>, u: nat, x: Item)
    requires UpperBound(v, x.key, u)
    ensures WithItem(Items(v), x) == Part(v, 0, u) + [x] + Part(v, u, |v|)
  {
    hide Part, WithItem;
    PartCut(v, 0, u, |v|);
    PartAtMost(v, 0, u, x.key);
    PartAtLeast(v, u, |v|, x.key + 1);
    WithItemSplit(Part(v, 0, u), Part(v, u, |v|), x);
  }

  /** `v'` is `v` with `s` in the gap at `p` and the gaps before it, from the upper bound on, under its key. */
  ghost predicate InGap(v: seq<Slot>, v': seq<Slot>, u: nat, p: nat, s: Slot) {
    && UpperBound(v, s.key, u) && s.filled && u <= p < |v| == |v'| && v'[p] == s
    && (forall i :: u <= i <= p ==> !v[i].filled)
    && (forall i :: 0 <= i < u || p < i < |v| ==> v'[i] == v[i])
    && (forall i :: u <= i < p ==> v'[i].key == s.key && !v'[i].filled)
  }

  lemma InGapTidy(v: seq<Slot>, v': seq<Slot>, sentinel: int, u: nat, p: nat, s: Slot)
    requires Gapped(v, sentinel) && InGap(v, v', u, p, s) && s.key < sentinel
    ensures Gapped(v', sentinel)
  {
    if u > 0 {
      BeforeBoundFilled(v, sentinel, s.key, u);
    }
    forall i | 0 <= i < |v| ensures SlotOk(v', i, sentinel) {
      assert SlotOk(v, i, sentinel);
    }
  }

  lemma InGapItems(v: seq<Slot>, v': seq<Slot>, u: nat, p: nat, s: Slot)
    requires InGap(v, v', u, p, s)
    ensures Items(v') == WithItem(Items(v), Item(s.key, s.payload))
  {
    hide Part, UpperBound, WithItem;
    PutAt(v, u, Item(s.key, s.payload));
    PartCut(v', 0, p, |v|);
    PartCut(v', p, p + 1, |v|);
    PartOne(v', p);
    PartKept(v, v', p + 1, |v|);
    PartCut(v', 0, u, p);
    PartKept(v, v', 0, u);
    PartGaps(v', u, p);
    PartCut(v, u, p + 1, |v|);
    PartGaps(v, u, p + 1);
  }

  /** `v'` is `v` with `s` at `u` and the slots from `u` to the gap one further right. */
  ghost predicate ShiftedRight(v: seq<Slot>, v': seq<Slot>, u: nat, gap: nat, s: Slot) {
    && UpperBound(v, s.key, u) && s.filled && u <= gap < |v| == |v'| && v'[u] == s
    && !v[gap].filled && (forall i :: u <= i < gap ==> v[i].filled)
    && (forall i :: 0 <= i < u || gap < i < |v| ==> v'[i] == v[i])
    && (forall i :: u < i <= gap ==> v'[i] == v[i - 1])
  }

  lemma ShiftedRightTidy(v: seq<Slot>, v': seq<Slot>, sentinel: int, u: nat, gap: nat, s: Slot)
    requires Gapped(v, sentinel) && ShiftedRight(v, v', u, gap, s) && s.key < sentinel
    ensures Gapped(v', sentinel)
  {
    if u > 0 {
      BeforeBoundFilled(v, sentinel, s.key, u);
    }
    forall i | 0 <= i < |v| ensures SlotOk(v', i, sentinel) {
      assert SlotOk(v, i, sentinel);
      if u < i <= gap {
        assert SlotOk(v, i - 1, sentinel);
      }
    }
  }

  lemma ShiftedRightItems(v: seq<Slot>, v': seq<Slot>, u: nat, gap: nat, s: Slot)
    requires ShiftedRight(v, v', u, gap, s)
    ensures Items(v') == WithItem(Items(v), Item(s.key, s.payload))
  {
    ShiftedRightTail(v, v', u, gap, s);
    PutAt(v, u, Item(s.key, s.payload));
    PartCut(v', 0, u, |v|);
    PartKept(v, v', 0, u);
    PartCut(v', u, u + 1, |v|);
    PartOne(v', u);
    hide Part, UpperBound, WithItem, ShiftedRight;
    Associate(Part(v, 0, u), [Item(s.key, s.payload)], Part(v, u, |v|));
  }

  lemma ShiftedRightTail(v: seq<Slot>, v': seq<Slot>, u: nat, gap: nat, s: Slot)
    requires ShiftedRight(v, v', u, gap, s)
    ensures Part(v', u + 1, |v|) == Part(v, u, |v|)
  {
    hide Part, UpperBound;
    PartCut(v', u + 1, gap + 1, |v|);
    PartSame(v, v', u, gap, 1);
    PartKept(v, v', gap + 1, |v|);
    PartCut(v, u, gap, |v|);
    PartCut(v, gap, gap + 1, |v|);
    PartGaps(v, gap, gap + 1);
  }

  /** `v'` is `v` with `s` before `u` and the slots between the gap and `u` one further left. */
  ghost predicate ShiftedLeft(v: seq<Slot>, v': seq<Slot>, u: nat, gap: nat, s: Slot) {
    && UpperBound(v, s.key, u) && s.filled && gap + 1 < u <= |v| == |v'| && v'[u - 1] == s
    && !v[gap].filled && (forall i :: gap < i < u ==> v[i].filled)
    && (forall i :: 0 <= i < gap || u <= i < |v| ==> v'[i] == v[i])
    && (forall i :: gap <= i < u - 1 ==> v'[i] == v[i + 1])
  }

  lemma ShiftedLeftLast(v: seq<Slot>, v': seq<Slot>, u: nat, gap: nat, s: Slot)
    requires ShiftedLeft(v, v', u, gap, s)
    ensures LastOf(v', s.key, u - 1)
  {
  }

  lemma ShiftedRightLast(v: seq<Slot>, v': seq<Slot>, u: nat, gap: nat, s: Slot)
    requires ShiftedRight(v, v', u, gap, s)
    ensures LastOf(v', s.key, u)
  {
  }

  /** Moving the slots and then storing the new one in place of the last of them. */
  lemma ShiftedLeftIs(v: seq<Slot>, m: seq<Slot>, v': seq<Slot>, u: nat, gap: nat, q: nat, s: Slot)
    requires UpperBound(v, s.key, u) && s.filled && gap + 1 < u <= |v| == |m| == |v'|
    requires !v[gap].filled && forall i :: gap < i < u ==> v[i].filled
    requires forall i :: 0 <= i < gap || u <= i < |v| ==> m[i] == v[i]
    requires forall i :: gap <= i < u - 1 ==> m[i] == v[i + 1]
    requires q <= u - 1 && (forall i :: 0 <= i < q || u - 1 < i < |v| ==> v'[i] == m[i]) && v'[u - 1] == s
    requires forall i :: q <= i < u - 1 ==> !m[i].filled
    ensures ShiftedLeft(v, v', u, gap, s)
  {
    assert m[u - 2] == v[u - 1];
  }

  lemma ShiftedLeftTidy(v: seq<Slot>, v': seq<Slot>, sentinel: int, u: nat, gap: nat, s: Slot)
    requires Gapped(v, sentinel) && ShiftedLeft(v, v', u, gap, s) && s.key < sentinel
    ensures Gapped(v', sentinel)
  {
    assert SlotOk(v, gap, sentinel);
    forall i | 0 <= i < |v| ensures SlotOk(v', i, sentinel) {
      assert SlotOk(v, i, sentinel);
      if gap <= i < u - 1 {
        assert SlotOk(v, i + 1, sentinel);
      }
    }
  }

  lemma ShiftedLeftItems(v: seq<Slot>, v': seq<Slot>, u: nat, gap: nat, s: Slot)
    requires ShiftedLeft(v, v', u, gap, s)
    ensures Items(v') == WithItem(Items(v), Item(s.key, s.payload))
  {
    hide Part, UpperBound, WithItem;
    ShiftedLeftHead(v, v', u, gap, s);
    PutAt(v, u, Item(s.key, s.payload));
    PartCut(v', 0, u, |v|);
    PartKept(v, v', u, |v|);
    PartCut(v', 0, u - 1, u);
    PartOne(v', u - 1);
  }

  lemma ShiftedLeftHead(v: seq<Slot>, v': seq<Slot>, u: nat, gap: nat, s: Slot)
    requires ShiftedLeft(v, v', u, gap, s)
    ensures Part(v', 0, u - 1) == Part(v, 0, u)
  {
    hide Part, UpperBound;
    PartCut(v', 0, gap, u - 1);
    PartKept(v, v', 0, gap);
    PartSame(v, v', gap + 1, u, -1);
    PartCut(v, 0, gap, u);
    PartCut(v, gap, gap + 1, u);
    PartGaps(v, gap, gap + 1);
  }

  /** `v'` is `v` with gaps in `[q, p)`, for the key after them. */
  ghost predicate Cleared(v: seq<Slot>, v': seq<Slot>, sentinel: int, q: nat, p: nat) {
    && q < p <= |v| == |v'| && (q > 0 ==> v[q - 1].filled)
    && (forall i :: 0 <= i < q || p <= i < |v| ==> v'[i] == v[i])
    && (forall i :: q <= i < p ==> !v'[i].filled && v'[i].key == Next(v, p - 1, sentinel))
  }

  lemma ClearedTidy(v: seq<Slot>, v': seq<Slot>, sentinel: int, q: nat, p: nat)
    requires Gapped(v, sentinel) && Cleared(v, v', sentinel, q, p)
    ensures Gapped(v', sentinel)
  {
    if q > 0 {
      GappedSorted(v, sentinel, q - 1, p - 1);
      assert SlotOk(v, p - 1, sentinel);
    }
    forall i | 0 <= i < |v| ensures SlotOk(v', i, sentinel) {
      assert SlotOk(v, i, sentinel);
    }
  }

  lemma ClearedItems(v: seq<Slot>, v': seq<Slot>, sentinel: int, q: nat, p: nat)
    requires Cleared(v, v', sentinel, q, p)
    ensures Items(v') == Part(v, 0, q) + Part(v, p, |v|)
  {
    hide Part;
    PartCut(v', 0, q, |v|);
    PartCut(v', q, p, |v|);
    PartKept(v, v', 0, q);
    PartKept(v, v', p, |v|);
    PartGaps(v', q, p);
  }

  // ---- Placing items by a model

  /** A finished prefix: tidy up to its last slot, which the last item so far occupies; nothing behind it. */
  ghost predicate Placed(v: seq<Slot>, n: nat, items: seq<Item>, i: nat, sentinel: int) {
    && n <= |v| && i <= |items| && Part(v, 0, n) == items[..i] && (n > 0 <==> i > 0)
    && (n > 0 ==> v[n - 1] == Slot(items[i - 1].key, items[i - 1].payload, true))
    && (forall j :: 0 <= j < n - 1 ==> v[j].key <= v[j + 1].key && (!v[j].filled ==> v[j].key == v[j + 1].key))
    && (forall j :: 0 <= j < n ==> v[j].key < sentinel)
    && (forall j :: n <= j < |v| ==> !v[j].filled)
  }

  /** The next item at `p`, and the gaps before it under its key. */
  lemma PlacedNext(v: seq<Slot>, v': seq<Slot>, n: nat, p: nat, items: seq<Item>, i: nat, sentinel: int)
    requires Placed(v, n, items, i, sentinel) && i < |items| && Ascending(items) && items[i].key < sentinel
    requires n <= p < |v| == |v'|
    requires forall j :: 0 <= j < n || p < j < |v| ==> v'[j] == v[j]
    requires forall j :: n <= j < p ==> v'[j].filled == v[j].filled && v'[j].key == items[i].key
    requires v'[p] == Slot(items[i].key, items[i].payload, true)
    ensures Placed(v', p + 1, items, i + 1, sentinel)
  {
    hide Part;
    PlacedItems(v, v', n, p, items[i]);
    assert items[..i + 1] == items[..i] + [items[i]];
  }

  lemma PlacedItems(v: seq<Slot>, v': seq<Slot>, n: nat, p: nat, x: Item)
    requires n <= p < |v| == |v'| && (forall j :: 0 <= j < n ==> v'[j] == v[j])
             && (forall j :: n <= j < p ==> !v'[j].filled)
    requires v'[p] == Slot(x.key, x.payload, true)
    ensures Part(v', 0, p + 1) == Part(v, 0, n) + [x]
  {
    hide Part;
    PartCut(v', 0, n, p + 1);
    PartCut(v', n, p, p + 1);
    PartKept(v, v', 0, n);
    PartGaps(v', n, p);
    PartOne(v', p);
  }

  /** All items placed, and the sentinel in the gaps behind them. */
  lemma PlacedAll(v: seq<Slot>, n: nat, items: seq<Item>, sentinel: int)
    requires Placed(v, n, items, |items|, sentinel) && forall j :: n <= j < |v| ==> v[j].key == sentinel
    ensures Gapped(v, sentinel) && Items(v) == items
  {
    hide Part, Gapped;
    PlacedTidy(v, n, items, sentinel);
    PartCut(v, 0, n, |v|);
    PartGaps(v, n, |v|);
    assert items[..|items|] == items;
  }

  lemma PlacedTidy(v: seq<Slot>, n: nat, items: seq<Item>, sentinel: int)
    requires Placed(v, n, items, |items|, sentinel) && forall j :: n <= j < |v| ==> v[j].key == sentinel
    ensures Gapped(v, sentinel)
  {
    hide Part;
    forall j | 0 <= j < |v| ensures SlotOk(v, j, sentinel) {
    }
  }

  ghost predicate Arrays(ks: array<int>, ps: array<int>, bs: array<bool>, capacity: nat)
    reads bs
  {
    ks != ps && ks.Length == ps.Length == capacity && Bitmap(bs[..], capacity)
  }

  /** The next item at `p`: overwrites the gaps in `[start, p)` with its key and stores it. */
  method PlaceNext(ks: array<int>, ps: array<int>, bs: array<bool>, start: nat, p: nat, x: Item, ghost items: seq<Item>,
                   ghost i: nat, ghost sentinel: int)
    requires Arrays(ks, ps, bs, ks.Length) && start <= p < ks.Length
    requires Placed(Zip(ks[..], ps[..], bs[..]), start, items, i, sentinel)
    requires i < |items| && x == items[i] && Ascending(items) && x.key < sentinel
    modifies ks, ps, bs
    ensures Arrays(ks, ps, bs, ks.Length) && Placed(Zip(ks[..], ps[..], bs[..]), p + 1, items, i + 1, sentinel)
    ensures SameBelow(old(Zip(ks[..], ps[..], bs[..])), Zip(ks[..], ps[..], bs[..]), start)
    ensures Zip(ks[..], ps[..], bs[..])[p] == Slot(x.key, x.payload, true)
  {
    hide Items, Ascending, Placed;
    ghost var v := Zip(ks[..], ps[..], bs[..]);
    for j := start to p
      invariant forall k :: 0 <= k < start || j <= k < ks.Length ==> ks[k] == old(ks[k])
      invariant forall k :: start <= k < j ==> ks[k] == x.key
      invariant ps[..] == old(ps[..]) && bs[..] == old(bs[..])
    {
      ks[j] := x.key;
    }
    ks[p], ps[p], bs[p] := x.key, x.payload, true;
    PlacedNext(v, Zip(ks[..], ps[..], bs[..]), start, p, items, i, sentinel);
  }

  /** The slot of item `i`: the one that the model predicts or the first one after the previous item, but far enough
      from the end for the rest. */
  function Spot(items: seq<Item>, capacity: nat, model: int -> int, i: nat): int
    requires i < |items|
  {
    MinOf(MaxOf(model(items[i].key), if i == 0 then 0 else Spot(items, capacity, model, i - 1) + 1),
          capacity - (|items| - i))
  }

  lemma {:induction false} SpotRange(items: seq<Item>, capacity: nat, model: int -> int, i: nat)
    requires i < |items| < capacity
    ensures i <= Spot(items, capacity, model, i) <= capacity - (|items| - i)
    ensures i > 0 ==> Spot(items, capacity, model, i - 1) < Spot(items, capacity, model, i)
  {
    if i > 0 {
      SpotRange(items, capacity, model, i - 1);
    }
  }

  lemma {:induction false} SpotsAscend(items: seq<Item>, capacity: nat, model: int -> int, i: nat, j: nat)
    requires i <= j < |items| < capacity
    ensures 0 <= Spot(items, capacity, model, i) <= Spot(items, capacity, model, j) < capacity
  {
    SpotRange(items, capacity, model, i);
    SpotRange(items, capacity, model, j);
    if i < j {
      SpotsAscend(items, capacity, model, i, j - 1);
    }
  }

  /** From the first item that comes too close to the end, all are packed. */
  lemma {:induction false} SpotsPacked(items: seq<Item>, capacity: nat, model: int -> int, i: nat, j: nat)
    requires i <= j < |items| < capacity && Spot(items, capacity, model, i) == capacity - (|items| - i)
    ensures Spot(items, capacity, model, j) == capacity - (|items| - j)
  {
    if i < j {
      SpotsPacked(items, capacity, model, i, j - 1);
    }
  }

  /** The first `i` items are in their slots. */
  ghost predicate InPlace(v: seq<Slot>, items: seq<Item>, model: int -> int, i: nat) {
    i <= |items| < |v| && forall j :: 0 <= j < i ==> InSpot(v, items, model, j)
  }

  ghost predicate InSpot(v: seq<Slot>, items: seq<Item>, model: int -> int, j: nat)
    requires j < |items| < |v|
  {
    var p := Spot(items, |v|, model, j);
    0 <= p < |v| && v[p] == Slot(items[j].key, items[j].payload, true)
  }

  ghost predicate SameBelow(v: seq<Slot>, v': seq<Slot>, n: nat) {
    |v'| == |v| && forall j :: 0 <= j < n && j < |v| ==> v'[j] == v[j]
  }

  /** The place behind the first `i` items. */
  function Behind(items: seq<Item>, capacity: nat, model: int -> int, i: nat): int
    requires i <= |items|
  {
    if i == 0 then 0 else Spot(items, capacity, model, i - 1) + 1
  }

  lemma InPlaceSame(v: seq<Slot>, v': seq<Slot>, items: seq<Item>, model: int -> int, i: nat, n: nat)
    requires InPlace(v, items, model, i) && n >= Behind(items, |v|, model, i) && SameBelow(v, v', n)
    ensures InPlace(v', items, model, i)
  {
    forall j | 0 <= j < i ensures InSpot(v', items, model, j) {
      assert InSpot(v, items, model, j);
      SpotsAscend(items, |v|, model, j, i - 1);
    }
  }

  lemma InPlaceMore(v: seq<Slot>, v': seq<Slot>, items: seq<Item>, model: int -> int, i: nat, start: nat)
    requires InPlace(v, items, model, i) && i < |items| && start == Behind(items, |v|, model, i)
    requires SameBelow(v, v', start) && InSpot(v', items, model, i)
    ensures InPlace(v', items, model, i + 1)
  {
    InPlaceSame(v, v', items, model, i, start);
  }

  /** The next item where it belongs. */
  method PlaceSpot(ks: array<int>, ps: array<int>, bs: array<bool>, start: nat, p: nat, items: seq<Item>, i: nat,
                   ghost model: int -> int, ghost sentinel: int)
    requires Arrays(ks, ps, bs, ks.Length) && start <= p < ks.Length && |items| < ks.Length
    requires Placed(Zip(ks[..], ps[..], bs[..]), start, items, i, sentinel)
    requires i < |items| && Ascending(items) && items[i].key < sentinel
    requires InPlace(Zip(ks[..], ps[..], bs[..]), items, model, i) && start == Behind(items, ks.Length, model, i)
    requires p == Spot(items, ks.Length, model, i)
    modifies ks, ps, bs
    ensures Arrays(ks, ps, bs, ks.Length) && Placed(Zip(ks[..], ps[..], bs[..]), p + 1, items, i + 1, sentinel)
    ensures InPlace(Zip(ks[..], ps[..], bs[..]), items, model, i + 1)
    ensures Behind(items, ks.Length, model, i + 1) == p + 1
  {
    hide Items, Ascending, Placed, InPlace, Spot, SameBelow;
    ghost var v := Zip(ks[..], ps[..], bs[..]);
    PlaceNext(ks, ps, bs, start, p, items[i], items, i, sentinel);
    InPlaceMore(v, Zip(ks[..], ps[..], bs[..]), items, model, i, start);
  }

  /** The loop of `bulk_load` and `resize`: every item goes to the slot that the model predicts or to the first one
      after the previous item, until the rest has to be packed at the end. */
  method PlaceAll(items: seq<Item>, capacity: nat, model: int -> int, sentinel: int)
    returns (ks: array<int>, ps: array<int>, bs: array<bool>)
    requires items != [] && |items| < capacity && Ascending(items)
    requires forall i :: 0 <= i < |items| ==> items[i].key < sentinel
    ensures fresh(ks) && fresh(ps) && fresh(bs) && Arrays(ks, ps, bs, capacity)
    ensures Gapped(Zip(ks[..], ps[..], bs[..]), sentinel) && Items(Zip(ks[..], ps[..], bs[..])) == items
    ensures InPlace(Zip(ks[..], ps[..], bs[..]), items, model, |items|)
  {
    hide Items, Ascending, Gapped, Placed, InPlace, Spot, SameBelow;
    ks, ps := new int[capacity](_ => 0), new int[capacity](_ => 0);
    bs := new bool[64 * Words(capacity)](_ => false);
    var last: int := -1;
    var remaining := |items|;
    NothingPlaced(Zip(ks[..], ps[..], bs[..]), items, sentinel);
    NoneInPlace(Zip(ks[..], ps[..], bs[..]), items, model);
    var i := 0;
    while i < |items|
      invariant 0 <= i <= |items| && remaining == |items| - i && -1 <= last < capacity
      invariant remaining <= capacity - (last + 1) && last + 1 == Behind(items, capacity, model, i)
      invariant Arrays(ks, ps, bs, capacity) && Placed(Zip(ks[..], ps[..], bs[..]), last + 1, items, i, sentinel)
      invariant InPlace(Zip(ks[..], ps[..], bs[..]), items, model, i)
    {
      var position := MaxOf(model(items[i].key), last + 1);
      SpotIs(items, capacity, model, i, last + 1);
      if capacity - position < remaining {
        PackRest(ks, ps, bs, last + 1, items, i, model, sentinel);
        last, i, remaining := capacity - 1, |items|, 0;
        break;
      }
      PlaceSpot(ks, ps, bs, last + 1, position, items, i, model, sentinel);
      last := position;
      remaining := remaining - 1;
      i := i + 1;
    }
    ghost var v := Zip(ks[..], ps[..], bs[..]);
    FillEnd(ks, ps, bs, last + 1, items, sentinel);
    InPlaceSame(v, Zip(ks[..], ps[..], bs[..]), items, model, |items|, last + 1);
  }

  lemma NoneInPlace(v: seq<Slot>, items: seq<Item>, model: int -> int)
    requires |items| < |v|
    ensures InPlace(v, items, model, 0)
  {
  }

  lemma SpotIs(items: seq<Item>, capacity: nat, model: int -> int, i: nat, behind: nat)
    requires i < |items| && behind == Behind(items, capacity, model, i)
    ensures Spot(items, capacity, model, i) == MinOf(MaxOf(model(items[i].key), behind), capacity - (|items| - i))
  {
  }

  /** Packs the items from `i` on into the last slots. */
  method PackRest(ks: array<int>, ps: array<int>, bs: array<bool>, start: nat, items: seq<Item>, i: nat,
                  ghost model: int -> int, ghost sentinel: int)
    requires Arrays(ks, ps, bs, ks.Length) && i < |items| < ks.Length && start + (|items| - i) <= ks.Length
    requires Ascending(items)
    requires Placed(Zip(ks[..], ps[..], bs[..]), start, items, i, sentinel)
    requires forall j :: 0 <= j < |items| ==> items[j].key < sentinel
    requires InPlace(Zip(ks[..], ps[..], bs[..]), items, model, i) && start == Behind(items, ks.Length, model, i)
    requires Spot(items, ks.Length, model, i) == ks.Length - (|items| - i)
    modifies ks, ps, bs
    ensures Arrays(ks, ps, bs, ks.Length)
    ensures Placed(Zip(ks[..], ps[..], bs[..]), ks.Length, items, |items|, sentinel)
    ensures InPlace(Zip(ks[..], ps[..], bs[..]), items, model, |items|)
    ensures Behind(items, ks.Length, model, |items|) == ks.Length
  {
    hide Items, Ascending, Placed, InPlace, Spot, SameBelow;
    var pos := ks.Length - (|items| - i);
    PlaceSpot(ks, ps, bs, start, pos, items, i, model, sentinel);
    for j := i + 1 to |items|
      invariant pos == ks.Length - (|items| - j) - 1
      invariant Arrays(ks, ps, bs, ks.Length) && Placed(Zip(ks[..], ps[..], bs[..]), pos + 1, items, j, sentinel)
      invariant InPlace(Zip(ks[..], ps[..], bs[..]), items, model, j)
    {
      pos := pos + 1;
      SpotsPacked(items, ks.Length, model, i, j - 1);
      SpotsPacked(items, ks.Length, model, i, j);
      PlaceSpot(ks, ps, bs, pos, pos, items, j, model, sentinel);
    }
    SpotsPacked(items, ks.Length, model, i, |items| - 1);
  }

  /** Puts the sentinel into the gaps behind the last item. */
  method FillEnd(ks: array<int>, ps: array<int>, bs: array<bool>, start: nat, ghost items: seq<Item>, sentinel: int)
    requires Arrays(ks, ps, bs, ks.Length) && start <= ks.Length
    requires Placed(Zip(ks[..], ps[..], bs[..]), start, items, |items|, sentinel)
    modifies ks
    ensures Arrays(ks, ps, bs, ks.Length)
    ensures Gapped(Zip(ks[..], ps[..], bs[..]), sentinel) && Items(Zip(ks[..], ps[..], bs[..])) == items
    ensures SameBelow(old(Zip(ks[..], ps[..], bs[..])), Zip(ks[..], ps[..], bs[..]), start)
  {
    hide Items, Gapped, Placed;
    ghost var v := Zip(ks[..], ps[..], bs[..]);
    for j := start to ks.Length
      invariant forall k :: 0 <= k < start ==> ks[k] == old(ks[k])
      invariant forall k :: start <= k < j ==> ks[k] == sentinel
      invariant Arrays(ks, ps, bs, ks.Length) && ps[..] == old(ps[..]) && bs[..] == old(bs[..])
    {
      ks[j] := sentinel;
    }
    PlacedSame(v, Zip(ks[..], ps[..], bs[..]), start, items, |items|, sentinel);
    PlacedAll(Zip(ks[..], ps[..], bs[..]), start, items, sentinel);
  }

  lemma NothingPlaced(v: seq<Slot>, items: seq<Item>, sentinel: int)
    requires forall j :: 0 <= j < |v| ==> !v[j].filled
    ensures Placed(v, 0, items, 0, sentinel)
  {
  }

  /** Keys behind the finished prefix do not matter. */
  lemma PlacedSame(v: seq<Slot>, v': seq<Slot>, n: nat, items: seq<Item>, i: nat, sentinel: int)
    requires Placed(v, n, items, i, sentinel) && |v'| == |v|
    requires forall j :: 0 <= j < n ==> v'[j] == v[j]
    requires forall j :: n <= j < |v| ==> v'[j].filled == v[j].filled
    ensures Placed(v', n, items, i, sentinel)
  {
    PartKept(v, v', 0, n);
  }

  /** What a node is tuned to. */
  datatype Tuning = Tuning(capacity: nat, expansion: real, contraction: real, model: int -> int)

  /** For `n` items at a density. */
  function TunedFor(n: nat, density: real, model: int -> int): Tuning
    requires density > 0.0
  {
    var c := CapacityFor(n, density);
    Tuning(c, ExpansionThreshold(c, n), c as real * MIN_DENSITY, model)
  }

  /** After deletes: anew, if few enough items are left. */
  function TunedAfterErase(t: Tuning, n: nat, model: int -> int): Tuning {
    if n > 0 && n as real < t.contraction then TunedFor(n, MAX_DENSITY, model) else t
  }

  /** Why an insert does not go ahead, or 0. */
  function Verdict(t: Tuning, n: nat, maxSlots: nat, periodicCheck: bool, significant: bool, catastrophic: bool): int {
    if periodicCheck && catastrophic then 2
    else if n as real < t.expansion then 0
    else if significant then 1
    else if catastrophic then 2
    else if n as real > maxSlots as real * MIN_DENSITY then 3
    else 0
  }

  /** After an insert that goes ahead: anew, if there were too many items. */
  function TunedForInsert(t: Tuning, n: nat, model: int -> int): Tuning {
    if n > 0 && n as real >= t.expansion then TunedFor(n, MIN_DENSITY, model) else t
  }

  /** The last slot with a key. */
  ghost predicate LastOf(v: seq<Slot>, key: int, p: int) {
    0 <= p < |v| && v[p].key == key && v[p].filled && forall i :: p < i < |v| ==> v[i].key > key
  }

  /** Where an insert wants to put a key: its upper bound, or within the gaps there as close to the prediction as
      possible. */
  ghost predicate Wants(v: seq<Slot>, key: int, predicted: nat, pos: nat) {
    exists bound :: UpperBound(v, key, bound) && WantsFrom(v, predicted, bound, pos)
  }

  ghost predicate WantsFrom(v: seq<Slot>, predicted: nat, bound: nat, pos: nat)
    requires bound <= |v|
  {
    if predicted <= bound || bound == |v| || v[bound].filled then pos == bound
    else bound <= pos <= predicted && pos < |v| && (forall i :: bound <= i <= pos ==> !v[i].filled)
         && (pos == predicted || (pos + 1 < |v| && v[pos + 1].filled))
  }

  /** Between `pos` and the gap all slots moved by one, and no other item did. */
  ghost predicate MovedTo(v: seq<Slot>, v': seq<Slot>, pos: nat, gap: nat, at: int, s: Slot) {
    if gap >= pos then at == pos && ShiftedRight(v, v', pos, gap, s)
    else at == pos - 1 && ShiftedLeft(v, v', pos, gap, s)
  }

  /** A put that wants slot `pos`: into the gap there with every other item where it was, or with the slots up to the
      nearest gap moved towards it. */
  ghost predicate PutTo(v: seq<Slot>, v': seq<Slot>, bits: seq<bool>, pos: nat, at: int, s: Slot) {
    if pos < |v| && !v[pos].filled then at == pos && OthersStay(v, v', pos)
    else exists gap: nat :: WentTo(v, v', bits, pos, gap, at, s)
  }

  ghost predicate WentTo(v: seq<Slot>, v': seq<Slot>, bits: seq<bool>, pos: nat, gap: nat, at: int, s: Slot) {
    v != [] && Nearest(bits, |v|, MinOf(pos, |v| - 1), gap) && MovedTo(v, v', pos, gap, at, s)
  }

  /** A key went where it wants to be. */
  ghost predicate AsWanted(v: seq<Slot>, v': seq<Slot>, bits: seq<bool>, s: Slot, predicted: nat, at: int) {
    forall pos: nat :: Wants(v, s.key, predicted, pos) ==> PutTo(v, v', bits, pos, at, s)
  }

  lemma PutAsWanted(v: seq<Slot>, v': seq<Slot>, bits: seq<bool>, s: Slot, predicted: nat, bound: nat, pos: nat,
                    at: int)
    requires UpperBound(v, s.key, bound) && WantsFrom(v, predicted, bound, pos)
    requires PutTo(v, v', bits, pos, at, s)
    ensures AsWanted(v, v', bits, s, predicted, at)
  {
    hide PutTo;
    forall p: nat | Wants(v, s.key, predicted, p) ensures PutTo(v, v', bits, p, at, s) {
      var b :| UpperBound(v, s.key, b) && WantsFrom(v, predicted, b, p);
      OneBound(v, s.key, b, bound);
      OneWanted(v, predicted, bound, p, pos);
    }
  }

  lemma OneBound(v: seq<Slot>, key: int, b: nat, bound: nat)
    requires UpperBound(v, key, b) && UpperBound(v, key, bound)
    ensures b == bound
  {
    assert b < |v| ==> v[b].key > key;
    assert bound < |v| ==> v[bound].key > key;
  }

  lemma OneWanted(v: seq<Slot>, predicted: nat, bound: nat, p: nat, pos: nat)
    requires bound <= |v| && WantsFrom(v, predicted, bound, p) && WantsFrom(v, predicted, bound, pos)
    ensures p == pos
  {
    assert p == bound || p == predicted || (p + 1 < |v| && v[p + 1].filled);
    assert pos == bound || pos == predicted || (pos + 1 < |v| && v[pos + 1].filled);
  }

  lemma BoundLast(v: seq<Slot>, key: int, bound: nat)
    requires UpperBound(v, key, bound) && bound > 0 && v[bound - 1].key == key && v[bound - 1].filled
    ensures LastOf(v, key, bound - 1)
  {
  }

  /** All items but the one in slot `pos` are where they were. */
  ghost predicate OthersStay(v: seq<Slot>, v': seq<Slot>, pos: nat) {
    |v'| == |v| && forall i :: 0 <= i < |v| && i != pos && v[i].filled ==> v'[i] == v[i]
  }

  /** The items with keys outside of the range are where they were. */
  ghost predicate RestStays(v: seq<Slot>, v': seq<Slot>, startKey: int, last: int) {
    |v'| == |v| && forall i :: 0 <= i < |v| && !(startKey <= v[i].key <= last) && v[i].filled ==> v'[i] == v[i]
  }

  /** The node. Its arrays are replaced when it is resized; its model may predict anything. */
  class AlexDataNode {
    var keySlots: array<int>
    var payloadSlots: array<int>
    var bitmap: array<bool>
    var dataCapacity: nat
    var numKeys: nat
    var expansionThreshold: real
    var contractionThreshold: real
    var model: int -> int
    const maxSlots: nat
    const sentinel: int
    const allowDuplicates: bool

    function Tuned(): Tuning
      reads this
    {
      Tuning(dataCapacity, expansionThreshold, contractionThreshold, model)
    }

    ghost predicate Shaped()
      reads this, keySlots, payloadSlots, bitmap
    {
      Arrays(keySlots, payloadSlots, bitmap, dataCapacity)
    }

    ghost function Slots(): (v: seq<Slot>)
      requires Shaped()
      reads this, keySlots, payloadSlots, bitmap
      ensures |v| == dataCapacity
    {
      Zip(keySlots[..], payloadSlots[..], bitmap[..])
    }

    /** The invariant between operations. */
    ghost predicate Valid()
      reads this, keySlots, payloadSlots, bitmap
    {
      Shaped() && Gapped(Slots(), sentinel) && numKeys == |Items(Slots())|
      && 0.0 < expansionThreshold <= dataCapacity as real
    }

    /** The stored pairs in key order. */
    ghost function Contents(): seq<Item>
      requires Shaped()
      reads this, keySlots, payloadSlots, bitmap
    {
      Items(Slots())
    }

    // ---- Searches

    function PredictPosition(key: int): (p: nat)
      requires dataCapacity >= 1
      reads this
      ensures p < dataCapacity
    {
      MaxOf(MinOf(model(key), dataCapacity - 1), 0)
    }

    /** Doubles the distance from the guess until it spans the first greater key, then bisects. */
    method ExponentialSearchUpperBound(m: nat, key: int) returns (u: nat)
      requires Shaped() && Gapped(Slots(), sentinel) && m < dataCapacity
      ensures UpperBound(Slots(), key, u)
    {
      SlotsSorted();
      var bound := 1;
      var l, r;
      if keySlots[m] > key {
        var size := m;
        while bound < size && keySlots[m - bound] > key
          invariant bound >= 1 && bound / 2 <= size
          invariant forall i :: m - bound / 2 <= i < dataCapacity ==> keySlots[i] > key
          decreases size - bound
        {
          bound := bound * 2;
        }
        l, r := m - MinOf(bound, size), m - bound / 2;
      } else {
        var size := dataCapacity - m;
        while bound < size && keySlots[m + bound] <= key
          invariant bound >= 1 && bound / 2 < size
          invariant forall i :: 0 <= i <= m + bound / 2 ==> keySlots[i] <= key
          decreases size - bound
        {
          bound := bound * 2;
        }
        l, r := m + bound / 2, m + MinOf(bound, size);
      }
      u := BinarySearchUpperBound(l, r, key);
    }

    method BinarySearchUpperBound(l0: nat, r0: nat, key: int) returns (l: nat)
      requires Shaped() && Gapped(Slots(), sentinel) && l0 <= r0 <= dataCapacity
      requires forall i :: 0 <= i < l0 ==> keySlots[i] <= key
      requires forall i :: r0 <= i < dataCapacity ==> keySlots[i] > key
      ensures UpperBound(Slots(), key, l)
    {
      SlotsSorted();
      l := l0;
      var r := r0;
      while l < r
        invariant l <= r <= dataCapacity
        invariant forall i :: 0 <= i < l ==> keySlots[i] <= key
        invariant forall i :: r <= i < dataCapacity ==> keySlots[i] > key
      {
        var mid := l + (r - l) / 2;
        if keySlots[mid] <= key {
          l := mid + 1;
        } else {
          r := mid;
        }
      }
    }

    /** The first key not below `key` is the first one above `key - 1`. */
    method ExponentialSearchLowerBound(m: nat, key: int) returns (u: nat)
      requires Shaped() && Gapped(Slots(), sentinel) && m < dataCapacity
      ensures UpperBound(Slots(), key - 1, u)
    {
      SlotsSorted();
      var bound := 1;
      var l, r;
      if keySlots[m] >= key {
        var size := m;
        while bound < size && keySlots[m - bound] >= key
          invariant bound >= 1 && bound / 2 <= size
          invariant forall i :: m - bound / 2 <= i < dataCapacity ==> keySlots[i] >= key
          decreases size - bound
        {
          bound := bound * 2;
        }
        l, r := m - MinOf(bound, size), m - bound / 2;
      } else {
        var size := dataCapacity - m;
        while bound < size && keySlots[m + bound] < key
          invariant bound >= 1 && bound / 2 < size
          invariant forall i :: 0 <= i <= m + bound / 2 ==> keySlots[i] < key
          decreases size - bound
        {
          bound := bound * 2;
        }
        l, r := m + bound / 2, m + MinOf(bound, size);
      }
      u := BinarySearchLowerBound(l, r, key);
    }

    method BinarySearchLowerBound(l0: nat, r0: nat, key: int) returns (l: nat)
      requires Shaped() && Gapped(Slots(), sentinel) && l0 <= r0 <= dataCapacity
      requires forall i :: 0 <= i < l0 ==> keySlots[i] < key
      requires forall i :: r0 <= i < dataCapacity ==> keySlots[i] >= key
      ensures UpperBound(Slots(), key - 1, l)
    {
      SlotsSorted();
      l := l0;
      var r := r0;
      while l < r
        invariant l <= r <= dataCapacity
        invariant forall i :: 0 <= i < l ==> keySlots[i] < key
        invariant forall i :: r <= i < dataCapacity ==> keySlots[i] >= key
      {
        var mid := l + (r - l) / 2;
        if keySlots[mid] >= key {
          r := mid;
        } else {
          l := mid + 1;
        }
      }
    }

    lemma SlotsSorted()
      requires Shaped() && Gapped(Slots(), sentinel)
      ensures forall i, j :: 0 <= i <= j < dataCapacity ==> keySlots[i] <= keySlots[j]
    {
      forall i, j | 0 <= i <= j < dataCapacity ensures keySlots[i] <= keySlots[j] {
        GappedSorted(Slots(), sentinel, i, j);
      }
    }

    /** The last slot with the key, always an occupied one, or -1 when the key is not stored. */
    method FindKey(key: int) returns (pos: int)
      requires Valid() && key < sentinel
      ensures pos == -1 <==> !HasKey(Contents(), key)
      ensures pos != -1 ==> 0 <= pos < dataCapacity && bitmap[pos] && keySlots[pos] == key
      ensures pos != -1 ==> forall i :: pos < i < dataCapacity ==> keySlots[i] > key
    {
      hide Part, Gapped, HasKey;
      var u := ExponentialSearchUpperBound(PredictPosition(key), key);
      pos := u as int - 1;
      if pos < 0 || keySlots[pos] != key {
        KeyAbsent(Slots(), key, sentinel, u);
        return -1;
      }
      BeforeBoundFilled(Slots(), sentinel, key, u);
      KeyPresent(Slots(), pos);
    }

    /** Where to put a key: its upper bound, or a gap nearer to the prediction in the run of gaps that starts there. */
    method FindInsertPosition(key: int) returns (pos: nat, bound: nat)
      requires Shaped() && Gapped(Slots(), sentinel) && key < sentinel
      ensures UpperBound(Slots(), key, bound) && bound <= pos <= dataCapacity
      ensures pos == bound || (pos < dataCapacity && forall i :: bound <= i <= pos ==> !bitmap[i])
      ensures WantsFrom(Slots(), PredictPosition(key), bound, pos)
    {
      hide Part, Gapped;
      var predicted := PredictPosition(key);
      bound := ExponentialSearchUpperBound(predicted, key);
      if predicted <= bound || bitmap[bound] {
        return bound, bound;
      }
      var next := NextFilled(bitmap, dataCapacity, bound, true);
      pos := MinOf(predicted, next - 1);
    }

    // ---- Inserts

    /** Stores the pair at `pos` and overwrites the gaps before it with its key. */
    method InsertElementAt(key: int, payload: int, pos: nat) returns (ghost q: nat)
      requires Shaped() && pos < dataCapacity
      modifies keySlots, payloadSlots, bitmap
      ensures Shaped() && q <= pos && (q > 0 ==> Slots()[q - 1].filled)
      ensures Slots()[pos] == Slot(key, payload, true)
      ensures forall i :: 0 <= i < q || pos < i < dataCapacity ==> Slots()[i] == old(Slots())[i]
      ensures forall i :: q <= i < pos ==> Slots()[i].key == key && !Slots()[i].filled && !old(Slots())[i].filled
    {
      keySlots[pos] := key;
      payloadSlots[pos] := payload;
      bitmap[pos] := true;
      ghost var bits := bitmap[..];
      var p: int := pos - 1;
      while p >= 0 && !bitmap[p]
        invariant -1 <= p < pos && bitmap[..] == bits
        invariant forall i :: p < i < pos ==> !bits[i] && keySlots[i] == key
        invariant forall i :: 0 <= i <= p || pos < i < dataCapacity ==> keySlots[i] == old(keySlots[i])
        invariant keySlots[pos] == key && payloadSlots[pos] == payload
        invariant forall i :: 0 <= i < dataCapacity && i != pos ==> payloadSlots[i] == old(payloadSlots[i])
      {
        keySlots[p] := key;
        p := p - 1;
      }
      q := p + 1;
    }

    /** Stores the pair in the gap at `pos`, which the upper bound of its key and only gaps lead up to. */
    method InsertInGap(key: int, payload: int, pos: nat, ghost u: nat)
      requires Shaped() && Gapped(Slots(), sentinel) && key < sentinel && UpperBound(Slots(), key, u)
      requires u <= pos < dataCapacity && forall i :: u <= i <= pos ==> !bitmap[i]
      modifies keySlots, payloadSlots, bitmap
      ensures Shaped() && Gapped(Slots(), sentinel)
      ensures Contents() == WithItem(old(Contents()), Item(key, payload))
      ensures Slots()[pos] == Slot(key, payload, true) && LastOf(Slots(), key, pos)
      ensures OthersStay(old(Slots()), Slots(), pos)
    {
      hide Part, Gapped, WithItem;
      ghost var v := Slots();
      ghost var q := InsertElementAt(key, payload, pos);
      GapStart(v, sentinel, key, u, q, Slots(), pos);
      InGapTidy(v, Slots(), sentinel, u, pos, Slot(key, payload, true));
      InGapItems(v, Slots(), u, pos, Slot(key, payload, true));
    }

    /** Moves the slots between `pos` and the nearest gap by one to make room; returns where the pair went. */
    method InsertUsingShifts(key: int, payload: int, pos: nat) returns (at: nat, ghost gap: nat)
      requires Shaped() && Gapped(Slots(), sentinel) && key < sentinel && UpperBound(Slots(), key, pos)
      requires pos <= dataCapacity && (pos < dataCapacity ==> bitmap[pos])
      requires exists i :: 0 <= i < dataCapacity && !bitmap[i]
      modifies keySlots, payloadSlots, bitmap
      ensures Shaped() && Gapped(Slots(), sentinel)
      ensures Contents() == WithItem(old(Contents()), Item(key, payload))
      ensures at < dataCapacity && Slots()[at] == Slot(key, payload, true) && LastOf(Slots(), key, at)
      ensures Nearest(old(bitmap[..]), dataCapacity, MinOf(pos, dataCapacity - 1), gap)
      ensures MovedTo(old(Slots()), Slots(), pos, gap, at, Slot(key, payload, true))
    {
      hide Part, Gapped, WithItem, UpperBound, Zip, LastOf, ShiftedRight, ShiftedLeft;
      SlotsAre();
      var closest := ClosestGap(bitmap, dataCapacity, pos);
      NearestPacked(bitmap[..], dataCapacity, MinOf(pos, dataCapacity - 1), closest);
      gap := closest;
      if closest >= pos {
        at := pos;
        InsertShiftingRight(key, payload, pos, closest);
      } else {
        GapNotBefore(Slots(), sentinel, key, pos);
        at := pos - 1;
        InsertShiftingLeft(key, payload, pos, closest);
      }
    }

    method InsertShiftingRight(key: int, payload: int, pos: nat, gap: nat)
      requires Shaped() && Gapped(Slots(), sentinel) && key < sentinel && UpperBound(Slots(), key, pos)
      requires pos <= gap < dataCapacity && !bitmap[gap] && forall i :: pos <= i < gap ==> bitmap[i]
      modifies keySlots, payloadSlots, bitmap
      ensures Shaped() && Gapped(Slots(), sentinel)
      ensures Contents() == WithItem(old(Contents()), Item(key, payload))
      ensures Slots()[pos] == Slot(key, payload, true)
      ensures LastOf(Slots(), key, pos) && ShiftedRight(old(Slots()), Slots(), pos, gap, Slot(key, payload, true))
    {
      hide Part, Gapped, WithItem, UpperBound, Zip, Shaped;
      ghost var v, s := Slots(), Slot(key, payload, true);
      SlotsAre();
      GapNotBefore(v, sentinel, key, pos);
      ShiftRight(gap, pos);
      assert pos > 0 ==> Slots()[pos - 1].filled;
      ghost var q := InsertElementAt(key, payload, pos);
      ShiftedRightTidy(v, Slots(), sentinel, pos, gap, s);
      ShiftedRightItems(v, Slots(), pos, gap, s);
      ShiftedRightLast(v, Slots(), pos, gap, s);
    }

    method InsertShiftingLeft(key: int, payload: int, pos: nat, gap: nat)
      requires Shaped() && Gapped(Slots(), sentinel) && key < sentinel && UpperBound(Slots(), key, pos)
      requires gap + 1 < pos <= dataCapacity && !bitmap[gap] && forall i :: gap < i < pos ==> bitmap[i]
      modifies keySlots, payloadSlots, bitmap
      ensures Shaped() && Gapped(Slots(), sentinel)
      ensures Contents() == WithItem(old(Contents()), Item(key, payload))
      ensures Slots()[pos - 1] == Slot(key, payload, true)
      ensures LastOf(Slots(), key, pos - 1) && ShiftedLeft(old(Slots()), Slots(), pos, gap, Slot(key, payload, true))
    {
      hide Part, Gapped, WithItem, UpperBound, Zip, Shaped, ShiftedLeft;
      ghost var v, s := Slots(), Slot(key, payload, true);
      SlotsAre();
      ShiftLeft(gap, pos);
      ghost var m := Slots();
      ghost var q := InsertElementAt(key, payload, pos - 1);
      ShiftedLeftIs(v, m, Slots(), pos, gap, q, s);
      ShiftedLeftTidy(v, Slots(), sentinel, pos, gap, s);
      ShiftedLeftItems(v, Slots(), pos, gap, s);
      ShiftedLeftLast(v, Slots(), pos, gap, s);
    }

    lemma SlotsAre()
      requires Shaped()
      ensures 1 <= dataCapacity == keySlots.Length == payloadSlots.Length <= bitmap.Length
      ensures forall i :: 0 <= i < dataCapacity ==> Slots()[i] == Slot(keySlots[i], payloadSlots[i], bitmap[i])
    {
    }

    /** Occupies the gap and moves the slots from `pos` to it one to the right. */
    method ShiftRight(gap: nat, pos: nat)
      requires Shaped() && pos <= gap < dataCapacity && forall i :: pos <= i < gap ==> Slots()[i].filled
      modifies keySlots, payloadSlots, bitmap
      ensures Shaped()
      ensures forall i :: 0 <= i < pos || gap < i < dataCapacity ==> Slots()[i] == old(Slots())[i]
      ensures forall i :: pos < i <= gap ==> Slots()[i] == old(Slots())[i - 1]
    {
      bitmap[gap] := true;
      ghost var bits := bitmap[..];
      for i := gap downto pos
        invariant bitmap[..] == bits
        invariant forall j :: 0 <= j <= i || gap < j < dataCapacity ==>
                    keySlots[j] == old(keySlots[j]) && payloadSlots[j] == old(payloadSlots[j])
        invariant forall j :: i < j <= gap ==>
                    keySlots[j] == old(keySlots[j - 1]) && payloadSlots[j] == old(payloadSlots[j - 1])
      {
        keySlots[i + 1] := keySlots[i];
        payloadSlots[i + 1] := payloadSlots[i];
      }
    }

    /** Occupies the gap and moves the slots between it and `pos` one to the left. */
    method ShiftLeft(gap: nat, pos: nat)
      requires Shaped() && gap + 1 < pos <= dataCapacity && forall i :: gap < i < pos ==> Slots()[i].filled
      modifies keySlots, payloadSlots, bitmap
      ensures Shaped()
      ensures forall i :: 0 <= i < gap || pos <= i < dataCapacity ==> Slots()[i] == old(Slots())[i]
      ensures forall i :: gap <= i < pos - 1 ==> Slots()[i] == old(Slots())[i + 1]
    {
      bitmap[gap] := true;
      ghost var bits := bitmap[..];
      for i := gap to pos - 1
        invariant bitmap[..] == bits
        invariant forall j :: 0 <= j < gap || i <= j < dataCapacity ==>
                    keySlots[j] == old(keySlots[j]) && payloadSlots[j] == old(payloadSlots[j])
        invariant forall j :: gap <= j < i ==>
                    keySlots[j] == old(keySlots[j + 1]) && payloadSlots[j] == old(payloadSlots[j + 1])
      {
        keySlots[i] := keySlots[i + 1];
        payloadSlots[i] := payloadSlots[i + 1];
      }
    }

    // ---- Building, resizing and the insert operation

    /** `bulk_load` into a fresh node: the values in key order, placed by a model trained for them. */
    constructor BulkLoad(values: seq<Item>, trained: int -> int, maxSlots: nat, sentinel: int, allowDuplicates: bool)
      requires Ascending(values) && forall i :: 0 <= i < |values| ==> values[i].key < sentinel
      ensures Valid() && Contents() == values && this.sentinel == sentinel && this.allowDuplicates == allowDuplicates
      ensures fresh(keySlots) && fresh(payloadSlots) && fresh(bitmap) && this.maxSlots == maxSlots
      ensures values != [] ==> InPlace(Slots(), values, trained, |values|) && numKeys == |values|
      ensures values != [] ==> Tuned() == TunedFor(|values|, INIT_DENSITY, trained)
      ensures values == [] ==> Tuned() == Tuning(CapacityFor(0, INIT_DENSITY),
                                                         CapacityFor(0, INIT_DENSITY) as real, 0.0, trained)
    {
      hide Ascending, Gapped, Part, Zip, InPlace;
      this.maxSlots, this.sentinel, this.allowDuplicates := maxSlots, sentinel, allowDuplicates;
      var capacity := CapacityFor(|values|, INIT_DENSITY);
      model, dataCapacity, numKeys := trained, capacity, |values|;
      var ks, ps, bs;
      if values == [] {
        ks, ps := new int[capacity](_ => sentinel), new int[capacity](_ => 0);
        bs := new bool[64 * Words(capacity)](_ => false);
        expansionThreshold, contractionThreshold := capacity as real, 0.0;
        AllGaps(Zip(ks[..], ps[..], bs[..]), ks[..], ps[..], bs[..], sentinel);
      } else {
        ks, ps, bs := PlaceAll(values, capacity, trained, sentinel);
        expansionThreshold := ExpansionThreshold(capacity, |values|);
        contractionThreshold := capacity as real * MIN_DENSITY;
      }
      keySlots, payloadSlots, bitmap := ks, ps, bs;
    }

    /** Moves everything to arrays for another density, placed by a model that may be trained anew. */
    method Resize(targetDensity: real, newModel: int -> int)
      requires Valid() && targetDensity > 0.0
      modifies this
      ensures Valid() && Contents() == old(Contents()) && numKeys == old(numKeys)
      ensures numKeys > 0 ==> fresh(keySlots) && fresh(payloadSlots) && fresh(bitmap)
      ensures numKeys > 0 ==> Tuned() == TunedFor(numKeys, targetDensity, newModel)
      ensures numKeys > 0 ==> numKeys as real < expansionThreshold
      ensures numKeys > 0 ==> InPlace(Slots(), Contents(), newModel, numKeys)
      ensures numKeys == 0 ==> keySlots == old(keySlots) && payloadSlots == old(payloadSlots) && bitmap == old(bitmap)
      ensures numKeys == 0 ==> Tuned() == old(Tuned()) && Slots() == old(Slots())
    {
      hide Ascending, Gapped, Part, Zip, Arrays, CapacityFor, InPlace, ExpansionThreshold;
      if numKeys == 0 {
        return;
      }
      PartAscending(Slots(), sentinel, dataCapacity);
      ItemsBelow(Slots(), sentinel);
      var newCapacity := CapacityFor(numKeys, targetDensity);
      model := newModel;
      var items := CollectItems();
      var ks, ps, bs := PlaceAll(items, newCapacity, model, sentinel);
      dataCapacity := newCapacity;
      keySlots, payloadSlots, bitmap := ks, ps, bs;
      expansionThreshold := ExpansionThreshold(dataCapacity, numKeys);
      contractionThreshold := dataCapacity as real * MIN_DENSITY;
    }

    /** What the node's iterator visits: the occupied slots from the left. */
    method CollectItems() returns (items: seq<Item>)
      requires Shaped()
      ensures items == Contents()
    {
      items := [];
      ghost var v := Slots();
      for i := 0 to dataCapacity
        invariant items == Part(v, 0, i)
      {
        if bitmap[i] {
          items := items + [Item(keySlots[i], payloadSlots[i])];
        }
      }
    }

    /** Inserts a pair: 0 and its slot, or the reason why not, with everything as it was; for a key that is there
        already and may not repeat, its slot. What the cost model finds and what a retrained model predicts are
        inputs. */
    method Insert(key: int, payload: int, periodicCheck: bool, significant: bool, catastrophic: bool,
                  newModel: int -> int)
      returns (fail: int, position: int)
      requires Valid() && key < sentinel
      modifies this, keySlots, payloadSlots, bitmap
      ensures Valid()
      ensures var verdict := Verdict(old(Tuned()), old(numKeys), maxSlots, periodicCheck, significant, catastrophic);
              && fail == (if verdict != 0 then verdict
                          else if !allowDuplicates && HasKey(old(Contents()), key) then -1 else 0)
              && Tuned() == if verdict != 0 then old(Tuned()) else TunedForInsert(old(Tuned()), old(numKeys), newModel)
      ensures fail == 0 ==> Contents() == WithItem(old(Contents()), Item(key, payload)) && numKeys == old(numKeys) + 1
      ensures fail == 0 ==> LastOf(Slots(), key, position) && Slots()[position] == Slot(key, payload, true)
      ensures fail == 0 && old(numKeys) as real < old(expansionThreshold) ==>
                AsWanted(old(Slots()), Slots(), old(bitmap[..]), Slot(key, payload, true), old(PredictPosition(key)),
                         position)
      ensures fail != 0 ==> Contents() == old(Contents()) && numKeys == old(numKeys)
      ensures fail == -1 ==> LastOf(Slots(), key, position)
      ensures fail > 0 ==> position == -1 && Slots() == old(Slots())
    {
      hide Ascending, Gapped, Part, Zip, Arrays, CapacityFor, WithItem, HasKey, UpperBound, LastOf, InPlace, AsWanted;
      hide ExpansionThreshold;
      if periodicCheck && catastrophic {
        return 2, -1;
      }
      if numKeys as real >= expansionThreshold {
        if significant {
          return 1, -1;
        }
        if catastrophic {
          return 2, -1;
        }
        if numKeys as real > maxSlots as real * MIN_DENSITY {
          return 3, -1;
        }
        Resize(MIN_DENSITY, newModel);
      }
      fail, position := InsertWithRoom(key, payload);
    }

    /** An insert below the expansion threshold, where there is a gap. */
    method InsertWithRoom(key: int, payload: int) returns (fail: int, position: int)
      requires Valid() && key < sentinel && numKeys as real < expansionThreshold
      modifies this, keySlots, payloadSlots, bitmap
      ensures Valid() && keySlots == old(keySlots) && payloadSlots == old(payloadSlots) && bitmap == old(bitmap)
      ensures Tuned() == old(Tuned())
      ensures fail == if !allowDuplicates && HasKey(old(Contents()), key) then -1 else 0
      ensures fail == 0 ==> Contents() == WithItem(old(Contents()), Item(key, payload)) && numKeys == old(numKeys) + 1
      ensures fail == 0 ==> LastOf(Slots(), key, position) && Slots()[position] == Slot(key, payload, true)
      ensures fail == 0 ==> AsWanted(old(Slots()), Slots(), old(bitmap[..]), Slot(key, payload, true),
                                     old(PredictPosition(key)), position)
      ensures fail != 0 ==> Contents() == old(Contents()) && numKeys == old(numKeys) && LastOf(Slots(), key, position)
    {
      hide Ascending, Gapped, Part, Arrays, WithItem, HasKey, UpperBound, LastOf, WantsFrom, PutTo;
      ghost var v := Slots();
      var pos, bound := FindInsertPosition(key);
      BoundRange(v, key, bound);
      SlotsAre();
      if !allowDuplicates && bound > 0 && keySlots[bound - 1] == key {
        BeforeBoundFilled(v, sentinel, key, bound);
        KeyPresent(v, bound - 1);
        BoundLast(v, key, bound);
        return -1, bound - 1;
      }
      if bound == 0 || keySlots[bound - 1] != key {
        KeyAbsent(v, key, sentinel, bound);
      }
      WithItemSize(Contents(), Item(key, payload));
      position := InsertAt(key, payload, pos, bound);
      PutAsWanted(v, Slots(), old(bitmap[..]), Slot(key, payload, true), old(PredictPosition(key)), bound, pos,
                  position);
      numKeys := numKeys + 1;
      fail := 0;
    }

    /** Stores the pair into the gap at `pos`, or makes room there. */
    method InsertAt(key: int, payload: int, pos: nat, ghost bound: nat) returns (position: int)
      requires Shaped() && Gapped(Slots(), sentinel) && key < sentinel && UpperBound(Slots(), key, bound)
      requires bound <= pos <= dataCapacity && |Contents()| < dataCapacity
      requires pos == bound || (pos < dataCapacity && forall i :: bound <= i <= pos ==> !bitmap[i])
      modifies keySlots, payloadSlots, bitmap
      ensures Shaped() && Gapped(Slots(), sentinel)
      ensures Contents() == WithItem(old(Contents()), Item(key, payload))
      ensures LastOf(Slots(), key, position) && Slots()[position] == Slot(key, payload, true)
      ensures PutTo(old(Slots()), Slots(), old(bitmap[..]), pos, position, Slot(key, payload, true))
    {
      hide Ascending, Gapped, Part, WithItem, UpperBound, LastOf, MovedTo, Nearest, OthersStay;
      ghost var v, bits := Slots(), bitmap[..];
      SlotsAre();
      if pos < dataCapacity && !bitmap[pos] {
        InsertInGap(key, payload, pos, bound);
        position := pos;
      } else {
        PartFull(Slots(), 0, dataCapacity);
        ghost var gap;
        position, gap := InsertUsingShifts(key, payload, pos);
        assert WentTo(v, Slots(), bits, pos, gap, position, Slot(key, payload, true));
      }
    }

    // ---- Deletes

    /** Erases the pair in an occupied slot; the gaps before it and the slot take the key to its right. */
    method EraseOneAt(pos: nat, newModel: int -> int)
      requires Valid() && pos < dataCapacity && bitmap[pos]
      modifies this, keySlots, payloadSlots, bitmap
      ensures Valid()
      ensures var c, r := old(Contents()), |Part(old(Slots()), 0, pos)|;
              r < |c| && c[r] == old(Item(keySlots[pos], payloadSlots[pos])) && Contents() == c[..r] + c[r + 1..]
      ensures numKeys == old(numKeys) - 1 && Tuned() == TunedAfterErase(old(Tuned()), numKeys, newModel)
      ensures if 0 < numKeys && numKeys as real < old(contractionThreshold)
              then InPlace(Slots(), Contents(), newModel, numKeys) else OthersStay(old(Slots()), Slots(), pos)
    {
      hide Gapped, Part, Zip, Arrays;
      ghost var v := Slots();
      SlotsAre();
      var nextKey := NextKey(pos + 1);
      ghost var q := ClearDown(pos, nextKey);
      ClearedTidy(v, Slots(), sentinel, q, pos + 1);
      ClearedItems(v, Slots(), sentinel, q, pos + 1);
      OneErased(v, q, pos);
      numKeys := numKeys - 1;
      if numKeys as real < contractionThreshold {
        Resize(MAX_DENSITY, newModel);
      }
    }

    function NextKey(pos: nat): (k: int)
      requires Shaped() && 1 <= pos <= dataCapacity
      reads this, keySlots, payloadSlots, bitmap
      ensures k == Next(Slots(), pos - 1, sentinel)
    {
      if pos == dataCapacity then sentinel else keySlots[pos]
    }

    /** Frees the slot and gives it and the gaps before it another key. */
    method ClearDown(pos: nat, nextKey: int) returns (ghost q: nat)
      requires Shaped() && pos < dataCapacity && nextKey == Next(Slots(), pos, sentinel)
      modifies keySlots, bitmap
      ensures Shaped() && q <= pos && Cleared(old(Slots()), Slots(), sentinel, q, pos + 1)
      ensures forall i :: q <= i < pos ==> !old(Slots())[i].filled
    {
      hide Zip;
      SlotsAre();
      keySlots[pos] := nextKey;
      bitmap[pos] := false;
      ghost var bits := bitmap[..];
      var p: int := pos - 1;
      while p >= 0 && !bitmap[p]
        invariant -1 <= p < pos && bitmap[..] == bits
        invariant forall i :: p < i < pos ==> !bits[i]
        invariant forall i :: p < i <= pos ==> keySlots[i] == nextKey
        invariant forall i :: 0 <= i <= p || pos < i < dataCapacity ==> keySlots[i] == old(keySlots[i])
      {
        keySlots[p] := nextKey;
        p := p - 1;
      }
      q := p + 1;
      SlotsAre();
    }

    /** Erases all pairs with the key. */
    method Erase(key: int, newModel: int -> int) returns (erased: nat)
      requires Valid() && key < sentinel
      modifies this, keySlots, payloadSlots, bitmap
      ensures Valid() && Contents() == Without(old(Contents()), key, key + 1)
      ensures erased == |old(Contents())| - |Contents()| && numKeys == old(numKeys) - erased
      ensures Tuned() == if HasKey(old(Contents()), key) then TunedAfterErase(old(Tuned()), numKeys, newModel)
                         else old(Tuned())
      ensures if HasKey(old(Contents()), key) && 0 < numKeys && numKeys as real < old(contractionThreshold)
              then InPlace(Slots(), Contents(), newModel, numKeys) else RestStays(old(Slots()), Slots(), key, key)
    {
      hide Gapped, Part, Arrays, Without, UpperBound, InPlace, RestStays;
      SlotsAre();
      var pos := ExponentialSearchUpperBound(PredictPosition(key), key);
      BoundRange(Slots(), key, pos);
      if pos == 0 || keySlots[pos - 1] != key {
        NothingBetween(Slots(), sentinel, key, key, pos);
        KeyAbsent(Slots(), key, sentinel, pos);
        AllStay(Slots(), key, key);
        return 0;
      }
      BeforeBoundFilled(Slots(), sentinel, key, pos);
      KeyPresent(Slots(), pos - 1);
      erased := EraseDown(pos, key, key, newModel);
    }

    /** Erases the pairs with keys from `startKey` to `endKey`, which counts if `inclusive`. */
    method EraseRange(startKey: int, endKey: int, inclusive: bool, newModel: int -> int) returns (erased: nat)
      requires Valid()
      modifies this, keySlots, payloadSlots, bitmap
      ensures Valid() && Contents() == Without(old(Contents()), startKey, if inclusive then endKey + 1 else endKey)
      ensures erased == |old(Contents())| - |Contents()| && numKeys == old(numKeys) - erased
      ensures var last, low := if inclusive then endKey else endKey - 1, old(Slots())[0].key;
              && Tuned() == (if low <= last then TunedAfterErase(old(Tuned()), numKeys, newModel) else old(Tuned()))
              && if low <= last && 0 < numKeys && numKeys as real < old(contractionThreshold)
                 then InPlace(Slots(), Contents(), newModel, numKeys)
                 else RestStays(old(Slots()), Slots(), startKey, last)
    {
      hide Gapped, Part, Arrays, Without, UpperBound, InPlace, RestStays;
      SlotsAre();
      var pos;
      if inclusive {
        pos := ExponentialSearchUpperBound(PredictPosition(endKey), endKey);
      } else {
        pos := ExponentialSearchLowerBound(PredictPosition(endKey), endKey);
      }
      ghost var last := if inclusive then endKey else endKey - 1;
      BoundRange(Slots(), last, pos);
      BoundFirst(Slots(), last, pos);
      if pos == 0 {
        NothingBetween(Slots(), sentinel, startKey, last, pos);
        AllStay(Slots(), startKey, last);
        return 0;
      }
      erased := EraseDown(pos, startKey, last, newModel);
    }

    /** Erases downwards from the upper bound of `last` for as long as the keys are at least `startKey`. */
    method EraseDown(bound: nat, startKey: int, ghost last: int, newModel: int -> int) returns (erased: nat)
      requires Valid() && UpperBound(Slots(), last, bound) && bound > 0
      modifies this, keySlots, payloadSlots, bitmap
      ensures Valid() && Contents() == Without(old(Contents()), startKey, last + 1)
      ensures erased == |old(Contents())| - |Contents()| && numKeys == old(numKeys) - erased
      ensures Tuned() == TunedAfterErase(old(Tuned()), numKeys, newModel)
      ensures if 0 < numKeys && numKeys as real < old(contractionThreshold)
              then InPlace(Slots(), Contents(), newModel, numKeys) else RestStays(old(Slots()), Slots(), startKey, last)
    {
      hide Gapped, Part, Arrays, Without, UpperBound, InPlace, ExpansionThreshold;
      ghost var v := Slots();
      BoundRange(v, last, bound);
      var nextKey := NextKey(bound);
      ghost var q;
      erased, q := ClearRange(bound, startKey, nextKey);
      RangeErased(v, Slots(), sentinel, startKey, last, q, bound);
      RangeStays(v, Slots(), startKey, last, q, bound);
      numKeys := numKeys - erased;
      if numKeys as real < contractionThreshold {
        Resize(MAX_DENSITY, newModel);
      }
    }

    method ClearSlot(pos: nat, nextKey: int)
      requires Shaped() && pos < dataCapacity
      modifies keySlots, bitmap
      ensures Shaped() && Slots()[pos] == Slot(nextKey, old(payloadSlots[pos]), false)
      ensures forall i :: 0 <= i < dataCapacity && i != pos ==> Slots()[i] == old(Slots())[i]
    {
      keySlots[pos] := nextKey;
      bitmap[pos] := false;
    }

    method ClearRange(bound: nat, startKey: int, nextKey: int) returns (erased: nat, ghost q: nat)
      requires Shaped() && 1 <= bound <= dataCapacity
      modifies keySlots, bitmap
      ensures Shaped() && q <= bound && erased == |Part(old(Slots()), q, bound)|
      ensures forall i :: 0 <= i < q || bound <= i < dataCapacity ==> Slots()[i] == old(Slots())[i]
      ensures forall i :: q <= i < bound ==>
              !Slots()[i].filled && Slots()[i].key == nextKey && old(Slots())[i].key >= startKey
      ensures q > 0 ==> old(Slots())[q - 1].key < startKey
    {
      hide Part, ItemOf, Zip;
      ghost var v := Slots();
      SlotsAre();
      PartGaps(v, bound, bound);
      var pos: int := bound - 1;
      erased := 0;
      while pos >= 0 && keySlots[pos] >= startKey
        invariant -1 <= pos < bound && Shaped()
        invariant erased == |Part(v, pos + 1, bound)|
        invariant forall i :: 0 <= i <= pos || bound <= i < dataCapacity ==> Slots()[i] == v[i]
        invariant forall i :: pos < i < bound ==>
                  !Slots()[i].filled && Slots()[i].key == nextKey && v[i].key >= startKey
      {
        SlotsAre();
        PartCut(v, pos, pos + 1, bound);
        PartOne(v, pos);
        ItemOfSize(v[pos]);
        erased := erased + if bitmap[pos] then 1 else 0;
        ClearSlot(pos, nextKey);
        pos := pos - 1;
      }
      q := pos + 1;
    }
  }

  lemma ItemOfSize(s: Slot)
    ensures |ItemOf(s)| == if s.filled then 1 else 0
  {
  }

  function ExpansionThreshold(capacity: nat, n: nat): (t: real)
    requires n < capacity
    ensures n as real < t <= capacity as real
  {
    MinReal(MaxReal(capacity as real * MAX_DENSITY, (n + 1) as real), capacity as real)
  }

  lemma AllGaps(v: seq<Slot>, ks: seq<int>, ps: seq<int>, bs: seq<bool>, sentinel: int)
    requires |ks| == |ps| <= |bs| && v == Zip(ks, ps, bs)
    requires (forall i :: 0 <= i < |ks| ==> ks[i] == sentinel) && (forall i :: 0 <= i < |bs| ==> !bs[i])
    ensures Gapped(v, sentinel) && Items(v) == []
  {
    PartGaps(v, 0, |v|);
  }

  lemma ItemsBelow(v: seq<Slot>, sentinel: int)
    requires Gapped(v, sentinel)
    ensures forall i :: 0 <= i < |Items(v)| ==> Items(v)[i].key < sentinel
  {
    forall i | 0 <= i < |Items(v)| ensures Items(v)[i].key < sentinel {
      var j := PartFrom(v, 0, |v|, i);
      assert SlotOk(v, j, sentinel);
    }
  }

  lemma BoundRange(v: seq<Slot>, key: int, u: nat)
    requires UpperBound(v, key, u)
    ensures u <= |v|
  {
  }

  lemma BoundFirst(v: seq<Slot>, last: int, u: nat)
    requires UpperBound(v, last, u) && v != []
    ensures u == 0 <==> v[0].key > last
  {
  }

  lemma AllStay(v: seq<Slot>, lo: int, last: int)
    ensures RestStays(v, v, lo, last)
  {
  }

  lemma RangeStays(v: seq<Slot>, v': seq<Slot>, lo: int, last: int, q: nat, u: nat)
    requires UpperBound(v, last, u) && q <= u <= |v| == |v'|
    requires forall i :: 0 <= i < q || u <= i < |v| ==> v'[i] == v[i]
    requires forall i :: q <= i < u ==> v[i].key >= lo
    ensures RestStays(v, v', lo, last)
  {
  }

  lemma WithItemSize(c: seq<Item>, x: Item)
    ensures |WithItem(c, x)| == |c| + 1
  {
  }

  lemma OneErased(v: seq<Slot>, q: nat, p: nat)
    requires q <= p < |v| && v[p].filled && forall i :: q <= i < p ==> !v[i].filled
    ensures var c, r := Items(v), |Part(v, 0, p)|;
            && r < |c| && c[r] == Item(v[p].key, v[p].payload)
            && Part(v, 0, q) + Part(v, p + 1, |v|) == c[..r] + c[r + 1..]
  {
    hide Part;
    PartCut(v, 0, p, |v|);
    PartCut(v, p, p + 1, |v|);
    PartOne(v, p);
    PartCut(v, 0, q, p);
    PartGaps(v, q, p);
    assert Part(v, 0, q) == Part(v, 0, p);
    TakeOut(Part(v, 0, p), Item(v[p].key, v[p].payload), Part(v, p + 1, |v|));
  }

  lemma NothingBetween(v: seq<Slot>, sentinel: int, lo: int, last: int, u: nat)
    requires Gapped(v, sentinel) && UpperBound(v, last, u) && (u == 0 || (lo == last && v[u - 1].key != lo))
    ensures Without(Items(v), lo, last + 1) == Items(v)
  {
    if u > 0 {
      forall i | 0 <= i < u ensures v[i].key <= lo - 1 {
        GappedSorted(v, sentinel, i, u - 1);
      }
    }
    hide Part;
    PartAtMost(v, 0, u, lo - 1);
    PartAtLeast(v, u, |v|, last + 1);
    PartCut(v, 0, u, |v|);
    WithoutMiddle(Part(v, 0, u), [], Part(v, u, |v|), lo, last + 1);
    assert Part(v, 0, u) + [] + Part(v, u, |v|) == Items(v);
  }

  lemma RangeErased(v: seq<Slot>, v': seq<Slot>, sentinel: int, lo: int, last: int, q: nat, u: nat)
    requires Gapped(v, sentinel) && UpperBound(v, last, u) && q <= u <= |v| == |v'| && u > 0
    requires forall i :: 0 <= i < q || u <= i < |v| ==> v'[i] == v[i]
    requires forall i :: q <= i < u ==> !v'[i].filled && v'[i].key == Next(v, u - 1, sentinel) && v[i].key >= lo
    requires q > 0 ==> v[q - 1].key < lo
    ensures Gapped(v', sentinel) && Items(v') == Without(Items(v), lo, last + 1)
    ensures |Items(v)| == |Items(v')| + |Part(v, q, u)|
  {
    RangeParts(v, sentinel, lo, last, q, u);
    RangeCleared(v, v', sentinel, lo, q, u);
    hide Part, Gapped, UpperBound, KeysAtMost, KeysAtLeast, Without;
    PartCut(v, 0, q, |v|);
    PartCut(v, q, u, |v|);
    WithoutMiddle(Part(v, 0, q), Part(v, q, u), Part(v, u, |v|), lo, last + 1);
    Associate(Part(v, 0, q), Part(v, q, u), Part(v, u, |v|));
  }

  lemma RangeCleared(v: seq<Slot>, v': seq<Slot>, sentinel: int, lo: int, q: nat, u: nat)
    requires Gapped(v, sentinel) && q <= u <= |v| == |v'| && u > 0
    requires forall i :: 0 <= i < q || u <= i < |v| ==> v'[i] == v[i]
    requires forall i :: q <= i < u ==> !v'[i].filled && v'[i].key == Next(v, u - 1, sentinel) && v[i].key >= lo
    requires q > 0 ==> v[q - 1].key < lo
    ensures Gapped(v', sentinel) && Items(v') == Part(v, 0, q) + Part(v, u, |v|)
  {
    if q < u {
      if q > 0 {
        assert SlotOk(v, q - 1, sentinel);
      }
      ClearedTidy(v, v', sentinel, q, u);
      ClearedItems(v, v', sentinel, q, u);
    } else {
      assert v' == v;
      PartCut(v, 0, q, |v|);
    }
  }

  lemma RangeParts(v: seq<Slot>, sentinel: int, lo: int, last: int, q: nat, u: nat)
    requires Gapped(v, sentinel) && UpperBound(v, last, u) && q <= u <= |v|
    requires forall i :: q <= i < u ==> v[i].key >= lo
    requires q > 0 ==> v[q - 1].key < lo
    ensures KeysAtMost(Part(v, 0, q), lo - 1) && KeysAtLeast(Part(v, q, u), lo)
    ensures KeysAtMost(Part(v, q, u), last) && KeysAtLeast(Part(v, u, |v|), last + 1)
  {
    if q > 0 {
      forall i | 0 <= i < q ensures v[i].key <= lo - 1 {
        GappedSorted(v, sentinel, i, q - 1);
      }
    }
    PartAtMost(v, 0, q, lo - 1);
    PartAtLeast(v, q, u, lo);
    PartAtMost(v, q, u, last);
    PartAtLeast(v, u, |v|, last + 1);
  }

  ghost predicate HasKey(c: seq<Item>, key: int) {
    exists i :: 0 <= i < |c| && c[i].key == key
  }

  lemma KeyAbsent(v: seq<Slot>, key: int, sentinel: int, u: nat)
    requires Gapped(v, sentinel) && UpperBound(v, key, u) && (u == 0 || v[u - 1].key != key)
    ensures !HasKey(Items(v), key)
  {
    forall i | 0 <= i < |Items(v)| ensures Items(v)[i].key != key {
      var j := PartFrom(v, 0, |v|, i);
      if j < u {
        GappedSorted(v, sentinel, j, u - 1);
      }
    }
  }

  lemma KeyPresent(v: seq<Slot>, p: nat)
    requires p < |v| && v[p].filled
    ensures HasKey(Items(v), v[p].key)
  {
    hide Part;
    PartCut(v, 0, p, |v|);
    PartCut(v, p, p + 1, |v|);
    PartOne(v, p);
    assert Items(v)[|Part(v, 0, p)|].key == v[p].key;
  }

  lemma GapNotBefore(v: seq<Slot>, sentinel: int, key: int, u: nat)
    requires Gapped(v, sentinel) && UpperBound(v, key, u) && key < sentinel
    ensures u > 0 ==> v[u - 1].filled
  {
    if u > 0 {
      BeforeBoundFilled(v, sentinel, key, u);
    }
  }

  /** The gaps before a position in the run of gaps at `u` begin at `u`. */
  lemma GapStart(v: seq<Slot>, sentinel: int, key: int, u: nat, q: nat, v': seq<Slot>, pos: nat)
    requires Gapped(v, sentinel) && UpperBound(v, key, u) && key < sentinel && q <= pos && u <= pos < |v| == |v'|
    requires forall i :: u <= i <= pos ==> !v[i].filled
    requires forall i :: 0 <= i < q ==> v'[i] == v[i]
    requires (forall i :: q <= i < pos ==> !v[i].filled) && (q > 0 ==> v'[q - 1].filled)
    ensures q == u
  {
    if u > 0 {
      BeforeBoundFilled(v, sentinel, key, u);
    }
  }
}
