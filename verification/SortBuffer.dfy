/** The slotted buffer of a tree node: entries stay where they are, and their order is a permutation of slot numbers
    kept in the upper twelve nibbles of one 64-bit header word (src/sortbuffer.h). */
module SortBuffers {
  import opened Bits
  import opened Entries
  import opened Powers

  const SLOTS := 12
  const BUF_SIZE := 112
  const VALUE_SIZE := 8

  // Nibbles of the header: prefix bytes, suffix bytes, entries, capacity, then the sorted slots.
  const PREFIX := 0
  const SUFFIX := 1
  const ENTRIES := 2
  const MAX_ENTRIES := 3
  const SORTED := 4

  // ---- Key compression

  /** The key with the high bytes of `prefix` and the given suffix of `s` bytes. */
  function Join(prefix: nat, suffix: nat, s: nat): nat {
    Quotient(prefix, Pow2(8 * s)) * Pow2(8 * s) + suffix
  }

  /** What is stored of a key. */
  function Suffix(key: nat, s: nat): nat {
    LowBits(key, 8 * s)
  }

  /** Compression is lossless for keys that share the high bytes. */
  lemma JoinSuffix(prefix: nat, key: nat, s: nat)
    requires Quotient(prefix, Pow2(8 * s)) == Quotient(key, Pow2(8 * s))
    ensures Join(prefix, Suffix(key, s), s) == key
  {
    CommuteProduct(key / Pow2(8 * s), Pow2(8 * s));
  }

  /** A stored key read back with the prefix of `target` compares with `target` as the suffixes do. */
  lemma JoinCompare(target: nat, x: nat, s: nat)
    ensures Join(target, x, s) < target <==> x < Suffix(target, s)
    ensures Join(target, x, s) == target <==> x == Suffix(target, s)
  {
    JoinSuffix(target, target, s);
  }

  // ---- The order

  /** The header's nibbles `d` hold a permutation of the slots in which the slots that can never be used, those from
      the capacity up, stand together right after the sorted ones. */
  ghost predicate Ordered(d: seq<nat>) {
    && |d| == 16 && IsDigits(d) && d[ENTRIES] <= d[MAX_ENTRIES] <= SLOTS && 1 <= d[SUFFIX] <= 8
    && (forall i :: SORTED <= i < 16 ==> d[i] < SLOTS)
    && (forall i, j :: SORTED <= i < j < 16 ==> d[i] != d[j])
    && (forall i :: SORTED <= i < 16 ==>
          (d[ENTRIES] <= i - SORTED < d[ENTRIES] + SLOTS - d[MAX_ENTRIES] <==> d[MAX_ENTRIES] <= d[i]))
  }

  /** The nibbles after the slot at the top has come down to sorted position `pos`. */
  function Inserted(d: seq<nat>, pos: nat): seq<nat>
    requires |d| == 16 && pos < SLOTS
  {
    (d[..SORTED + pos] + [d[15]] + d[SORTED + pos..15])[ENTRIES := d[ENTRIES] + 1]
  }

  function Removed(d: seq<nat>, pos: nat): seq<nat>
    requires |d| == 16 && pos < SLOTS && d[ENTRIES] > 0
  {
    (d[..SORTED + pos] + d[SORTED + pos + 1..] + [d[SORTED + pos]])[ENTRIES := d[ENTRIES] - 1]
  }

  /** The nibbles after the sorted positions from `start` on have gone to the top. */
  function Truncated(d: seq<nat>, start: nat): seq<nat>
    requires |d| == 16 && start <= d[ENTRIES] <= SLOTS
  {
    (d[..SORTED + start] + d[SORTED + d[ENTRIES]..] + d[SORTED + start..SORTED + d[ENTRIES]])[ENTRIES := start]
  }

  /** With room left, the slot at the top of the permutation is free and usable. */
  lemma TopSlotFree(d: seq<nat>)
    requires Ordered(d) && d[ENTRIES] < d[MAX_ENTRIES]
    ensures d[15] < d[MAX_ENTRIES]
    ensures forall i :: SORTED <= i < SORTED + d[ENTRIES] ==> d[i] != d[15]
  {
  }

  lemma InsertedOrdered(d: seq<nat>, pos: nat)
    requires Ordered(d) && pos <= d[ENTRIES] < d[MAX_ENTRIES]
    ensures Ordered(Inserted(d, pos))
  {
    var e := Inserted(d, pos);
    forall i | 0 <= i < 16
      ensures e[i] == if i == ENTRIES then d[ENTRIES] + 1 else if i < SORTED + pos then d[i]
                      else if i == SORTED + pos then d[15] else d[i - 1]
    {
    }
    hide Inserted;
  }

  lemma RemovedOrdered(d: seq<nat>, pos: nat)
    requires Ordered(d) && pos < d[ENTRIES]
    ensures Ordered(Removed(d, pos))
  {
    var e := Removed(d, pos);
    forall i | 0 <= i < 16
      ensures e[i] == if i == ENTRIES then d[ENTRIES] - 1 else if i < SORTED + pos then d[i]
                      else if i < 15 then d[i + 1] else d[SORTED + pos]
    {
    }
    hide Removed;
  }

  lemma TruncatedAt(d: seq<nat>, start: nat, i: nat)
    requires |d| == 16 && start <= d[ENTRIES] <= SLOTS && i < 16
    ensures |Truncated(d, start)| == 16
    ensures Truncated(d, start)[i] ==
            if i == ENTRIES then start
            else if i < SORTED + start then d[i]
            else if i < 16 - (d[ENTRIES] - start) then d[i + (d[ENTRIES] - start)]
            else d[i - (16 - (d[ENTRIES] - start)) + SORTED + start]
  {
  }

  lemma TruncatedOrdered(d: seq<nat>, start: nat)
    requires Ordered(d) && start <= d[ENTRIES]
    ensures Ordered(Truncated(d, start))
  {
    var e, c := Truncated(d, start), d[ENTRIES] - start;
    TruncatedAt(d, start, 0);
    TruncatedAt(d, start, ENTRIES);
    forall i {:trigger e[i]} | 0 <= i < 16
      ensures (i < SORTED + start && i != ENTRIES ==> e[i] == d[i])
      ensures (SORTED + start <= i < 16 - c ==> e[i] == d[i + c])
      ensures (16 - c <= i ==> e[i] == d[i - (16 - c) + SORTED + start])
    {
      TruncatedAt(d, start, i);
    }
    hide Truncated;
    RotatedOrdered(d, e, start, c);
  }

  lemma RotatedOrdered(d: seq<nat>, e: seq<nat>, start: nat, c: nat)
    requires Ordered(d) && start + c == d[ENTRIES] && |e| == 16 && e[ENTRIES] == start
    requires forall i {:trigger e[i]} :: 0 <= i < SORTED + start && i != ENTRIES ==> e[i] == d[i]
    requires forall i {:trigger e[i]} :: SORTED + start <= i < 16 - c ==> e[i] == d[i + c]
    requires forall i {:trigger e[i]} :: 16 - c <= i < 16 ==> e[i] == d[i - (16 - c) + SORTED + start]
    ensures Ordered(e)
  {
    RotatedDistinct(d, e, start, c);
    assert e[MAX_ENTRIES] == d[MAX_ENTRIES] && e[PREFIX] == d[PREFIX] && e[SUFFIX] == d[SUFFIX];
    forall i {:trigger e[i]} | SORTED <= i < 16
      ensures e[i] < SLOTS
      ensures start <= i - SORTED < start + SLOTS - d[MAX_ENTRIES] <==> d[MAX_ENTRIES] <= e[i]
    {
      assert e[i] == d[Back(start, c, i)];
    }
  }

  /** Where the nibble at `i` was before the `c` nibbles from sorted position `start` went to the top. */
  function Back(start: nat, c: nat, i: nat): int {
    if i < SORTED + start then i else if i < 16 - c then i + c else i - (16 - c) + SORTED + start
  }

  lemma RotatedDistinct(d: seq<nat>, e: seq<nat>, start: nat, c: nat)
    requires Ordered(d) && start + c == d[ENTRIES] && |e| == 16
    requires forall i {:trigger e[i]} :: SORTED <= i < 16 ==> e[i] == d[Back(start, c, i)]
    ensures forall i, j :: SORTED <= i < j < 16 ==> e[i] != e[j]
  {
    forall i, j | SORTED <= i < j < 16 ensures e[i] != e[j] {
      assert Back(start, c, i) != Back(start, c, j);
    }
  }

  // ---- The header word under these changes

  lemma SetNibble(d: seq<nat>, k: nat, x: nat)
    requires |d| == 16 && k < 16
    ensures Val(d[k := x]) == Val(d) + Pow2(4 * k) * x - Pow2(4 * k) * d[k]
  {
    var lo, hi := d[..k], d[k + 1..];
    assert d == lo + ([d[k]] + hi) && d[k := x] == lo + ([x] + hi);
    ValConcat(lo, [d[k]] + hi);
    ValConcat(lo, [x] + hi);
    assert ([d[k]] + hi)[1..] == hi && ([x] + hi)[1..] == hi;
    SpreadProduct(Pow2(4 * k), d[k], 16 * Val(hi));
    SpreadProduct(Pow2(4 * k), x, 16 * Val(hi));
  }

  lemma SpreadProduct(m: nat, a: nat, b: nat)
    ensures m * (a + b) == m * a + m * b
  {
  }

  lemma Pow2Eight()
    ensures Pow2(4 * ENTRIES) == 256
  {
    assert Pow2(8) == 2 * Pow2(7) == 4 * Pow2(6) == 8 * Pow2(5) == 16 * Pow2(4);
  }

  lemma OrderedDigits(d: seq<nat>)
    requires Ordered(d)
    ensures |d| == 16 && IsDigits(d) && d[ENTRIES] <= d[MAX_ENTRIES] <= SLOTS && 1 <= d[SUFFIX] <= 8
  {
  }

  lemma InsertedHeader(d: seq<nat>, pos: nat)
    requires Ordered(d) && pos <= d[ENTRIES] < d[MAX_ENTRIES]
    ensures CircularLshift(Val(d), 16 + 4 * pos, 4) + 256 == Val(Inserted(d, pos))
  {
    hide Val, CircularLshift, Ordered;
    OrderedDigits(d);
    LshiftNibbles(d, SORTED + pos, 1);
    var e := d[..SORTED + pos] + d[15..] + d[SORTED + pos..15];
    assert e == d[..SORTED + pos] + [d[15]] + d[SORTED + pos..15];
    SetNibble(e, ENTRIES, d[ENTRIES] + 1);
    Pow2Eight();
  }

  lemma RemovedHeader(d: seq<nat>, pos: nat)
    requires Ordered(d) && pos < d[ENTRIES]
    ensures CircularRshift(Val(d), 16 + 4 * pos, 4) == Val(Removed(d, pos)) + 256
  {
    hide Val, CircularRshift, Ordered;
    OrderedDigits(d);
    RshiftNibbles(d, SORTED + pos, 1);
    var e := d[..SORTED + pos] + d[SORTED + pos + 1..] + d[SORTED + pos..SORTED + pos + 1];
    assert e == d[..SORTED + pos] + d[SORTED + pos + 1..] + [d[SORTED + pos]];
    SetNibble(e, ENTRIES, d[ENTRIES] - 1);
    Pow2Eight();
  }

  lemma TruncatedHeader(d: seq<nat>, start: nat)
    requires Ordered(d) && start <= d[ENTRIES]
    ensures CircularRshift(Val(d), 16 + 4 * start, 4 * (d[ENTRIES] - start)) + 256 * start
            == Val(Truncated(d, start)) + 256 * d[ENTRIES]
  {
    hide Val, CircularRshift, Ordered;
    OrderedDigits(d);
    RshiftNibbles(d, SORTED + start, d[ENTRIES] - start);
    var e := d[..SORTED + start] + d[SORTED + d[ENTRIES]..] + d[SORTED + start..SORTED + d[ENTRIES]];
    SetNibble(e, ENTRIES, start);
    Pow2Eight();
  }

  /** The nibbles of a fresh node: slots in descending order. */
  function FreshDigits(s: nat): seq<nat>
    requires 1 <= s <= 8
  {
    [8 - s, s, 0, BUF_SIZE / (VALUE_SIZE + s), 11, 10, 9, 8, 7, 6, 5, 4, 3, 2, 1, 0]
  }

  /** The nibbles of a fresh node that has been filled with `n` entries from the back. */
  function FilledDigits(s: nat, n: nat): seq<nat>
    requires 1 <= s <= 8 && n <= SLOTS
  {
    var d := FreshDigits(s);
    (d[..SORTED] + d[16 - n..] + d[SORTED..16 - n])[ENTRIES := n]
  }

  /** Position `k` of a filled node holds its `k`-th entry, the last one written first. */
  lemma FilledAt(s: nat, n: nat, i: nat)
    requires 1 <= s <= 8 && n <= SLOTS && i < 16
    ensures |FilledDigits(s, n)| == 16
    ensures FilledDigits(s, n)[i] == if i == ENTRIES then n else if i < SORTED then FreshDigits(s)[i]
                                     else if i < SORTED + n then n - 1 - (i - SORTED) else 15 - (i - n)
  {
    var d := FreshDigits(s);
    assert forall i :: SORTED <= i < 16 ==> d[i] == 15 - i;
  }

  lemma FilledOrdered(s: nat, n: nat)
    requires 1 <= s <= 8 && n <= BUF_SIZE / (VALUE_SIZE + s)
    ensures Ordered(FilledDigits(s, n))
  {
    var e := FilledDigits(s, n);
    forall i | 0 <= i < 16
      ensures e[i] == if i == ENTRIES then n else if i < SORTED then FreshDigits(s)[i]
                      else if i < SORTED + n then n - 1 - (i - SORTED) else 15 - (i - n)
    {
      FilledAt(s, n, i);
    }
    FilledAt(s, n, 0);
    hide FilledDigits;
  }

  lemma FilledHeader(s: nat, n: nat)
    requires 1 <= s <= 8 && n <= BUF_SIZE / (VALUE_SIZE + s)
    ensures CircularLshift(Val(FreshDigits(s)) + 256 * n, 16, 4 * n) == Val(FilledDigits(s, n))
  {
    hide Val, CircularLshift, FreshDigits;
    FreshMeta(s);
    var d := FreshDigits(s)[ENTRIES := n];
    SetNibble(FreshDigits(s), ENTRIES, n);
    Pow2Eight();
    LshiftNibbles(d, SORTED, n);
    assert d[..SORTED] + d[16 - n..] + d[SORTED..16 - n] == FilledDigits(s, n);
  }

  /** Keys grow from the front of the buffer and values from its back; within the capacity they never meet. */
  lemma SlotsFit(s: nat, i: nat, j: nat)
    requires 1 <= s <= 8 && i < BUF_SIZE / (VALUE_SIZE + s) && j < BUF_SIZE / (VALUE_SIZE + s)
    ensures i * s + s <= BUF_SIZE - (j + 1) * VALUE_SIZE
  {
    var max := BUF_SIZE / (VALUE_SIZE + s);
    assert max * (VALUE_SIZE + s) <= BUF_SIZE;
    assert max * (VALUE_SIZE + s) == max * VALUE_SIZE + max * s;
    assert (i + 1) * s <= max * s;
    assert (i + 1) * s == i * s + s;
  }

  /** The entries in sorted order. */
  ghost function Sorted(d: seq<nat>, slots: seq<Entry>): (c: seq<Entry>)
    requires Ordered(d) && |slots| == SLOTS
    ensures |c| == d[ENTRIES] && forall k :: 0 <= k < |c| ==> c[k] == slots[d[SORTED + k]]
  {
    seq(d[ENTRIES], k requires 0 <= k < d[ENTRIES] => slots[d[SORTED + k]])
  }

  lemma InsertedSorted(d: seq<nat>, slots: seq<Entry>, pos: nat, x: Entry)
    requires Ordered(d) && |slots| == SLOTS && pos <= d[ENTRIES] < d[MAX_ENTRIES]
    ensures Ordered(Inserted(d, pos))
    ensures Sorted(Inserted(d, pos), slots[d[15] := x]) == Sorted(d, slots)[..pos] + [x] + Sorted(d, slots)[pos..]
  {
    InsertedOrdered(d, pos);
    TopSlotFree(d);
    var e, c, r := Inserted(d, pos), Sorted(d, slots), Sorted(Inserted(d, pos), slots[d[15] := x]);
    var t := c[..pos] + [x] + c[pos..];
    forall k | 0 <= k < |t| ensures r[k] == t[k] {
      assert e[SORTED + k] == if k < pos then d[SORTED + k] else if k == pos then d[15] else d[SORTED + k - 1];
    }
  }

  lemma RemovedSorted(d: seq<nat>, slots: seq<Entry>, pos: nat)
    requires Ordered(d) && |slots| == SLOTS && pos < d[ENTRIES]
    ensures Ordered(Removed(d, pos))
    ensures Sorted(Removed(d, pos), slots) == Sorted(d, slots)[..pos] + Sorted(d, slots)[pos + 1..]
  {
    RemovedOrdered(d, pos);
    var e, c, r := Removed(d, pos), Sorted(d, slots), Sorted(Removed(d, pos), slots);
    var t := c[..pos] + c[pos + 1..];
    forall k | 0 <= k < |t| ensures r[k] == t[k] {
      assert e[SORTED + k] == if k < pos then d[SORTED + k] else d[SORTED + k + 1];
    }
  }

  lemma TruncatedSorted(d: seq<nat>, slots: seq<Entry>, start: nat)
    requires Ordered(d) && |slots| == SLOTS && start <= d[ENTRIES]
    ensures Ordered(Truncated(d, start))
    ensures Sorted(Truncated(d, start), slots) == Sorted(d, slots)[..start]
  {
    TruncatedOrdered(d, start);
    TruncatedAt(d, start, ENTRIES);
    forall i | SORTED <= i < SORTED + start ensures Truncated(d, start)[i] == d[i] {
      TruncatedAt(d, start, i);
    }
  }

  lemma FreshMeta(s: nat)
    requires 1 <= s <= 8
    ensures |FreshDigits(s)| == 16 && IsDigits(FreshDigits(s)) && FreshDigits(s)[ENTRIES] == 0
    ensures FreshDigits(s)[SUFFIX] == s && FreshDigits(s)[MAX_ENTRIES] == BUF_SIZE / (VALUE_SIZE + s)
  {
  }

  /** A buffer filled from the back reads in order. */
  lemma FilledSorted(s: nat, slots: seq<Entry>, c: seq<Entry>)
    requires 1 <= s <= 8 && |slots| == SLOTS && |c| <= BUF_SIZE / (VALUE_SIZE + s)
    requires forall k :: 0 <= k < |c| ==> slots[k] == c[|c| - 1 - k]
    ensures Ordered(FilledDigits(s, |c|)) && Sorted(FilledDigits(s, |c|), slots) == c
    ensures FilledDigits(s, |c|)[SUFFIX] == s && FilledDigits(s, |c|)[MAX_ENTRIES] == BUF_SIZE / (VALUE_SIZE + s)
  {
    var n, e := |c|, FilledDigits(s, |c|);
    FilledOrdered(s, n);
    FilledAt(s, n, ENTRIES);
    FilledAt(s, n, MAX_ENTRIES);
    FilledAt(s, n, SUFFIX);
    forall i | SORTED <= i < SORTED + n ensures e[i] == n - 1 - (i - SORTED) {
      FilledAt(s, n, i);
    }
    hide FilledDigits;
  }

  lemma EmptyVal()
    ensures Val([]) == 0
  {
  }

  /** Appending a nibble at the low end. */
  lemma PushNibble(digits: seq<nat>, x: nat)
    requires IsDigits(digits) && |digits| < SLOTS && x < 16
    ensures Or(Shl(Val(digits), 4), x) == Val([x] + digits)
  {
    hide Or, Shl;
    var v := Val(digits);
    ValBound(digits);
    assert ([x] + digits)[1..] == digits;
    Pow2Grows(4 * |digits|, 44);
    assert Pow2(4) == 16 by { Pow2Four(0); }
    Pow2Add(44, 20);
    Pow2Grows(4, 20);
    ShlSmall(v);
    OrCommutes(v * 16, x);
    OrDisjoint(x, v, 4);
  }

  lemma ShlSmall(v: nat)
    requires v < Pow2(44)
    ensures Shl(v, 4) == v * 16
  {
    assert Pow2(4) == 16 by { Pow2Four(0); }
    Pow2Add(44, 4);
    Pow2Grows(48, 64);
    DivMod(v * 16, 0, v * 16, Pow2(64));
  }

  lemma SetMeta(d: seq<nat>, n: nat)
    requires |d| == 16 && d[ENTRIES] == 0
    ensures Val(d[..SORTED][ENTRIES := n]) == Val(d[..SORTED]) + 256 * n
  {
    var m := d[..SORTED];
    assert m[ENTRIES..] == [d[ENTRIES]] + m[MAX_ENTRIES..];
    var lo, hi := m[..ENTRIES], m[MAX_ENTRIES..];
    assert m == lo + ([0] + hi) && m[ENTRIES := n] == lo + ([n] + hi);
    ValConcat(lo, [0] + hi);
    ValConcat(lo, [n] + hi);
    assert ([0] + hi)[1..] == hi && ([n] + hi)[1..] == hi;
    Pow2Eight();
  }

  ghost predicate Permutes(p: seq<nat>) {
    && (forall i :: 0 <= i < |p| ==> p[i] < |p|)
    && (forall i, j :: 0 <= i < j < |p| ==> p[i] != p[j])
  }

  /** The slots from `n` to `i`, in descending order. */
  ghost function DownTo(i: nat, n: nat): (f: seq<nat>)
    requires n <= i <= SLOTS
    ensures |f| == i - n && IsDigits(f) && forall k :: 0 <= k < |f| ==> f[k] == i - 1 - k
  {
    seq(i - n, k requires 0 <= k < i - n => i - 1 - k)
  }

  lemma DownNext(i: nat, n: nat)
    requires n <= i < SLOTS
    ensures [i] + DownTo(i, n) == DownTo(i + 1, n)
  {
  }

  /** The slots that `n` entries leave free, in descending order. */
  ghost function FreeSlots(n: nat): (f: seq<nat>)
    requires n <= SLOTS
    ensures |f| == SLOTS - n && IsDigits(f) && forall k :: 0 <= k < |f| ==> f[k] == SLOTS - 1 - k
  {
    DownTo(SLOTS, n)
  }

  lemma SuffixNext(s: seq<nat>, i: nat, f: seq<nat>)
    requires i < |s|
    ensures [s[i]] + (s[i + 1..] + f) == s[i..] + f
  {
  }

  lemma DigitsSuffix(s: seq<nat>, i: nat, f: seq<nat>)
    requires i <= |s| <= SLOTS && Permutes(s) && IsDigits(f)
    ensures IsDigits(s[i..] + f)
  {
  }

  /** Shifts in the free slots in ascending order, then the used ones from the last to the first. */
  method PackIndex(sortedIndex: seq<nat>) returns (w: nat)
    requires |sortedIndex| <= SLOTS && Permutes(sortedIndex)
    ensures w == Val(sortedIndex + FreeSlots(|sortedIndex|))
  {
    hide Val, Or, Shl;
    var entries := |sortedIndex|;
    w := 0;
    EmptyVal();
    for i := entries to SLOTS
      invariant w == Val(DownTo(i, entries))
    {
      PushNibble(DownTo(i, entries), i);
      DownNext(i, entries);
      w := Or(Shl(w, 4), i);
    }
    ghost var free := FreeSlots(entries);
    assert sortedIndex[entries..] + free == free;
    for i := entries downto 0
      invariant w == Val(sortedIndex[i..] + free)
    {
      DigitsSuffix(sortedIndex, i + 1, free);
      PushNibble(sortedIndex[i + 1..] + free, sortedIndex[i]);
      SuffixNext(sortedIndex, i, free);
      w := Or(Shl(w, 4), sortedIndex[i]);
    }
  }

  /** The nibbles once the used slots are those of a permutation. */
  ghost function TakenOver(d: seq<nat>, p: seq<nat>): seq<nat>
    requires |d| == 16 && |p| <= SLOTS
  {
    d[..SORTED][ENTRIES := |p|] + (p + FreeSlots(|p|))
  }

  lemma PackHeader(d: seq<nat>, p: seq<nat>)
    requires |d| == 16 && IsDigits(d) && d[ENTRIES] == 0 && |p| <= SLOTS
    ensures LowBits(Val(d), 16) + 256 * |p| + Pow2(16) * Val(p + FreeSlots(|p|)) == Val(TakenOver(d, p))
  {
    hide Val, LowBits, Pow2;
    ValSplit(d, SORTED);
    SetMeta(d, |p|);
    ValConcat(d[..SORTED][ENTRIES := |p|], p + FreeSlots(|p|));
  }

  /** The entries then read in the order of the permutation. */
  lemma TakenOverMeans(d: seq<nat>, p: seq<nat>, slots: seq<Entry>, src: seq<Entry>)
    requires |d| == 16 && IsDigits(d) && |p| == |src| <= d[MAX_ENTRIES] <= SLOTS && 1 <= d[SUFFIX] <= 8 && Permutes(p)
    requires |slots| == SLOTS && forall i :: 0 <= i < |src| ==> slots[i] == src[i]
    ensures var t := TakenOver(d, p);
            && Ordered(t) && t[MAX_ENTRIES] == d[MAX_ENTRIES] && t[SUFFIX] == d[SUFFIX] && |Sorted(t, slots)| == |src|
            && forall k :: 0 <= k < |src| ==> Sorted(t, slots)[k] == src[p[k]]
  {
    var t := TakenOver(d, p);
    assert t[SORTED..] == p + FreeSlots(|p|);
    forall i | 0 <= i < 16 ensures t[i] < 16 {
      assert i >= SORTED ==> t[i] == (p + FreeSlots(|p|))[i - SORTED];
    }
    TakenOverOrdered(t, p);
  }

  lemma TakenOverOrdered(d: seq<nat>, sortedIndex: seq<nat>)
    requires |d| == 16 && IsDigits(d) && d[ENTRIES] == |sortedIndex| <= d[MAX_ENTRIES] <= SLOTS && 1 <= d[SUFFIX] <= 8
    requires d[SORTED..] == sortedIndex + FreeSlots(|sortedIndex|) && Permutes(sortedIndex)
    ensures Ordered(d)
    ensures forall i :: SORTED <= i < SORTED + |sortedIndex| ==> d[i] == sortedIndex[i - SORTED]
  {
    var n := |sortedIndex|;
    forall i {:trigger d[i]} | SORTED <= i < 16
      ensures i < SORTED + n ==> d[i] == sortedIndex[i - SORTED]
      ensures i >= SORTED + n ==> d[i] == SLOTS - 1 - (i - SORTED - n)
    {
      assert d[i] == d[SORTED..][i - SORTED];
    }
  }

  class SortBuffer {
    var header: nat
    const slots: array<Entry>
    /** The header's nibbles. */
    ghost var d: seq<nat>

    ghost predicate Valid()
      reads this, slots
    {
      Ordered(d) && header == Val(d) && slots.Length == SLOTS
    }

    ghost function Contents(): (c: seq<Entry>)
      requires Valid()
      reads this, slots
    {
      Sorted(d, slots[..])
    }

    ghost function Capacity(): nat
      requires Valid()
      reads this, slots
    {
      d[MAX_ENTRIES]
    }

    ghost function SuffixBytes(): nat
      requires Valid()
      reads this, slots
    {
      d[SUFFIX]
    }

    /** A node's buffer as allocated: empty, with a capacity that the suffix length allows. */
    constructor (suffixLen: nat)
      requires 1 <= suffixLen <= 8
      ensures Valid() && Contents() == [] && fresh(slots)
      ensures SuffixBytes() == suffixLen && Capacity() == BUF_SIZE / (VALUE_SIZE + suffixLen)
      ensures d == FreshDigits(suffixLen)
    {
      slots := new Entry[SLOTS](_ => Entry(0, 0));
      hide Val, FreshDigits;
      FreshMeta(suffixLen);
      d := FreshDigits(suffixLen);
      header := Val(FreshDigits(suffixLen));
      new;
      FilledOrdered(suffixLen, 0);
      assert FilledDigits(suffixLen, 0) == FreshDigits(suffixLen);
    }

    /** Slot of the `k`-th entry in sorted order. */
    function Index(k: nat): (i: nat)
      requires Valid() && k < SLOTS
      reads this, slots
      ensures i == d[SORTED + k] && i < SLOTS
    {
      NibbleOf(d, SORTED + k);
      Nibble(header, SORTED + k)
    }

    function Entries(): (n: nat)
      requires Valid()
      reads this, slots
      ensures n == d[ENTRIES] == |Contents()|
    {
      NibbleOf(d, ENTRIES);
      Nibble(header, ENTRIES)
    }

    function SuffixLength(): (n: nat)
      requires Valid()
      reads this, slots
      ensures n == d[SUFFIX]
    {
      NibbleOf(d, SUFFIX);
      Nibble(header, SUFFIX)
    }

    /** The `k`-th key in sorted order, with the high bytes of `prefix`. */
    function SortKey(k: nat, prefix: nat): nat
      requires Valid() && k < Entries()
      reads this, slots
    {
      Join(prefix, slots[Index(k)].key, SuffixLength())
    }

    /** Binary search for a key that shares the node's prefix. */
    method Find(target: nat) returns (pos: nat, find: bool)
      requires Valid() && Ascending(Contents())
      ensures pos == Rank(Contents(), Suffix(target, SuffixBytes()))
      ensures find <==> Has(Contents(), Suffix(target, SuffixBytes()))
    {
      hide Join, Suffix, Ordered, Rank;
      ghost var t, c := Suffix(target, SuffixBytes()), Contents();
      var left, right := 0, Entries() as int - 1;
      while left <= right
        invariant 0 <= left <= right + 1 <= |c|
        invariant forall i :: 0 <= i < left ==> c[i].key < t
        invariant forall i :: right < i < |c| ==> t < c[i].key
      {
        var middle := (left + right) / 2;
        var midKey := SortKey(middle, target);
        JoinCompare(target, c[middle].key, SuffixBytes());
        if midKey == target {
          RankIs(c, t, middle);
          return middle, true;
        } else if midKey > target {
          right := middle - 1;
        } else {
          left := middle + 1;
        }
      }
      RankIs(c, t, left);
      return left, false;
    }

    /** Linear search for the last entry not above a key that shares the node's prefix. */
    method FindLE(target: nat) returns (pos: int, find: bool)
      requires Valid() && Ascending(Contents())
      ensures pos == RankLE(Contents(), Suffix(target, SuffixBytes())) - 1
      ensures find <==> Has(Contents(), Suffix(target, SuffixBytes()))
    {
      hide Join, Suffix, Ordered, Rank;
      ghost var t, c := Suffix(target, SuffixBytes()), Contents();
      for i := 0 to Entries()
        invariant forall j :: 0 <= j < i ==> c[j].key < t
      {
        var curKey := SortKey(i, target);
        JoinCompare(target, c[i].key, SuffixBytes());
        if curKey == target {
          RankIs(c, t, i);
          return i, true;
        } else if curKey > target {
          RankIs(c, t, i);
          return i - 1, false;
        }
      }
      RankIs(c, t, |c|);
      return Entries() as int - 1, false;
    }

    /** Writes the entry to the free slot at the top of the order and rotates that slot down to `pos`. */
    method Put(pos: nat, newKey: nat, value: int)
      requires Valid() && pos <= |Contents()| < Capacity()
      modifies this, slots
      ensures Valid() && Capacity() == old(Capacity()) && SuffixBytes() == old(SuffixBytes())
      ensures Contents() == old(Contents()[..pos]) + [Entry(Suffix(newKey, SuffixBytes()), value)]
              + old(Contents()[pos..])
    {
      hide Val, CircularLshift, Suffix;
      TopSlotFree(d);
      var targetIdx := Index(11);
      var x := Entry(Suffix(newKey, SuffixLength()), value);
      InsertedSorted(d, slots[..], pos, x);
      InsertedHeader(d, pos);
      slots[targetIdx] := x;
      header := CircularLshift(header, 16 + 4 * pos, 4);
      header := header + 256;
      d := Inserted(d, pos);
      assert slots[..] == old(slots[..])[targetIdx := x];
    }

    method Update(pos: nat, value: int)
      requires Valid() && pos < |Contents()|
      modifies slots
      ensures Valid()
      ensures Contents() == old(Contents())[pos := Entry(old(Contents())[pos].key, value)]
    {
      var idx := Index(pos);
      slots[idx] := slots[idx].(value := value);
      assert forall i :: SORTED <= i < 16 && i != SORTED + pos ==> d[i] != d[SORTED + pos];
    }

    /** Rotates the slot at `pos` up to the top, where it is the next one to be used. */
    method Delete(pos: nat)
      requires Valid() && pos < |Contents()|
      modifies this
      ensures Valid() && Capacity() == old(Capacity()) && SuffixBytes() == old(SuffixBytes())
      ensures Contents() == old(Contents()[..pos]) + old(Contents()[pos + 1..])
      ensures d[15] == old(d[SORTED + pos])
    {
      hide Val, CircularRshift;
      RemovedSorted(d, slots[..], pos);
      RemovedHeader(d, pos);
      header := CircularRshift(header, 16 + 4 * pos, 4);
      header := header - 256;
      d := Removed(d, pos);
    }

    /** Copies the entries from `start` on into a fresh buffer, from its back to its front. */
    method CopyData(dest: SortBuffer, start: nat)
      requires Valid() && dest.Valid() && dest != this && dest.slots != slots
      requires dest.d == FreshDigits(SuffixBytes()) && start <= |Contents()|
      requires Capacity() <= BUF_SIZE / (VALUE_SIZE + SuffixBytes())
      modifies dest, dest.slots
      ensures Valid() && Contents() == old(Contents())
      ensures dest.Valid() && dest.Contents() == Contents()[start..]
      ensures dest.Capacity() == old(dest.Capacity()) && dest.SuffixBytes() == SuffixBytes()
    {
      hide Val, CircularLshift, Ordered, FilledDigits, FreshDigits;
      ghost var c, s := Contents(), SuffixBytes();
      var n := Entries();
      OrderedDigits(d);
      FreshMeta(s);
      var i := start;
      while i < n
        invariant start <= i <= n && dest.d == old(dest.d) && dest.header == old(dest.header)
        invariant unchanged(this, slots)
        invariant forall k :: n - i <= k < n - start ==> dest.slots[k] == c[n - 1 - k]
      {
        var slot := slots[Index(i)];
        dest.slots[n - 1 - i] := slot;
        i := i + 1;
      }
      ghost var count := n - start;
      FilledSorted(s, dest.slots[..], c[start..]);
      FilledHeader(s, count);
      dest.header := dest.header + 256 * (n - start);
      dest.header := CircularLshift(dest.header, 16, 4 * (n - start));
      dest.d := FilledDigits(s, count);
    }

    /** Takes over an unsorted buffer with its sorted index: the used slots in that order, then all the others in
        descending order. */
    method FromKVBuffer(src: seq<Entry>, sortedIndex: seq<nat>)
      requires Valid() && d == FreshDigits(SuffixBytes()) && |src| <= Capacity()
      requires |sortedIndex| == |src| && Permutes(sortedIndex)
      modifies this, slots
      ensures Valid() && Capacity() == old(Capacity()) && SuffixBytes() == old(SuffixBytes())
      ensures |Contents()| == |src| && forall k :: 0 <= k < |src| ==> Contents()[k] == src[sortedIndex[k]]
    {
      hide Val, Or, Shl, FreshDigits, TakenOver, Ordered, LowBits, Pow2;
      OrderedDigits(d);
      FreshMeta(SuffixBytes());
      var entries := |src|;
      forall i | 0 <= i < entries {
        slots[i] := src[i];
      }
      var newSortedIndex := PackIndex(sortedIndex);
      PackHeader(d, sortedIndex);
      TakenOverMeans(d, sortedIndex, slots[..], src);
      header := LowBits(header, 16) + 256 * entries + Pow2(16) * newSortedIndex;
      d := TakenOver(d, sortedIndex);
    }

    /** Keeps the first `start` entries; the slots of the others become free. */
    method DeleteData(start: nat)
      requires Valid() && start <= |Contents()|
      modifies this
      ensures Valid() && Capacity() == old(Capacity()) && SuffixBytes() == old(SuffixBytes())
      ensures Contents() == old(Contents()[..start])
    {
      hide Val, CircularRshift;
      TruncatedSorted(d, slots[..], start);
      TruncatedHeader(d, start);
      TruncatedAt(d, start, MAX_ENTRIES);
      TruncatedAt(d, start, SUFFIX);
      var n := Entries();
      header := CircularRshift(header, 16 + 4 * start, 4 * (n - start));
      header := header + 256 * start - 256 * n;
      d := Truncated(d, start);
    }
  }
}
