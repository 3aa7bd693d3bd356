/** The occupancy bitmap of an ALEX data node, in words of 64 bits, and the searches that go through it word by word
    (include/alex/alex_nodes.h). Bit `i` stands for slot `i`; the bits behind the last slot are zero. */
module AlexBitmaps {

  /** Number of words for `capacity` slots. */
  function Words(capacity: nat): nat {
    (capacity + 63) / 64
  }

  ghost predicate Bitmap(bits: seq<bool>, capacity: nat) {
    capacity >= 1 && |bits| == 64 * Words(capacity) && forall i :: capacity <= i < |bits| ==> !bits[i]
  }

  function MinOf(a: int, b: int): int {
    if a <= b then a else b
  }

  /** Position of the first zero bit from `from` on in `[from, end)`, what `_tzcnt_u64` of the complement gives; `end`
      if there is none. */
  function FirstGap(bits: seq<bool>, from: nat, end: nat): (g: nat)
    requires from <= end <= |bits|
    ensures from <= g <= end && (g < end ==> !bits[g]) && forall i :: from <= i < g ==> bits[i]
    decreases end - from
  {
    if from == end || !bits[from] then from else FirstGap(bits, from + 1, end)
  }

  /** Position of the last zero bit in `[from, end)`, what `_lzcnt_u64` of the complement gives; `from - 1` if there is
      none. */
  function LastGap(bits: seq<bool>, from: nat, end: nat): (g: int)
    requires from <= end <= |bits|
    ensures from - 1 <= g < end && (g >= from ==> !bits[g]) && forall i :: g < i < end ==> bits[i]
    decreases end - from
  {
    if from == end || !bits[end - 1] then end - 1 else LastGap(bits, from, end - 1)
  }

  function FirstSet(bits: seq<bool>, from: nat, end: nat): (g: nat)
    requires from <= end <= |bits|
    ensures from <= g <= end && (g < end ==> bits[g]) && forall i :: from <= i < g ==> !bits[i]
    decreases end - from
  {
    if from == end || bits[from] then from else FirstSet(bits, from + 1, end)
  }

  function PopCount(bits: seq<bool>, from: nat, end: nat): (n: nat)
    requires from <= end <= |bits|
    ensures n <= end - from
    decreases end - from
  {
    if from == end then 0 else (if bits[from] then 1 else 0) + PopCount(bits, from + 1, end)
  }

  lemma {:induction false} PopCountFull(bits: seq<bool>, from: nat, end: nat)
    requires from <= end <= |bits|
    ensures PopCount(bits, from, end) == end - from <==> forall i :: from <= i < end ==> bits[i]
    decreases end - from
  {
    if from < end {
      PopCountFull(bits, from + 1, end);
    }
  }

  lemma {:induction false} PopCountTail(bits: seq<bool>, from: nat, mid: nat, end: nat)
    requires from <= mid <= end <= |bits| && forall i :: mid <= i < end ==> !bits[i]
    ensures PopCount(bits, from, end) == PopCount(bits, from, mid)
    decreases end - from
  {
    if from < mid {
      PopCountTail(bits, from + 1, mid, end);
    } else if from < end {
      PopCountTail(bits, from + 1, from + 1, end);
    }
  }

  /** `~word == 0`. */
  predicate FullWord(bits: seq<bool>, w: nat)
    requires 64 * w + 64 <= |bits|
    ensures FullWord(bits, w) <==> forall i :: 64 * w <= i < 64 * w + 64 ==> bits[i]
  {
    FirstGap(bits, 64 * w, 64 * w + 64) == 64 * w + 64
  }

  function Distance(i: int, p: int): nat {
    if i <= p then p - i else i - p
  }

  ghost predicate Gap(bits: seq<bool>, capacity: nat, g: int) {
    0 <= g < capacity <= |bits| && !bits[g]
  }

  /** `g` is the gap nearest to `p`, the left one of two at the same distance. */
  ghost predicate Nearest(bits: seq<bool>, capacity: nat, p: nat, g: int) {
    && Gap(bits, capacity, g)
    && forall j :: Gap(bits, capacity, j) && j != g ==>
         Distance(g, p) < Distance(j, p) || (Distance(g, p) == Distance(j, p) && g < j)
  }

  /** All slots strictly between `lo` and `hi` are occupied. */
  ghost predicate Packed(bits: seq<bool>, capacity: nat, lo: int, hi: int) {
    forall i :: lo < i < hi && 0 <= i < capacity && i < |bits| ==> bits[i]
  }

  lemma LeftNearest(bits: seq<bool>, capacity: nat, p: nat, l: int, hi: int)
    requires Gap(bits, capacity, l) && l <= p && Packed(bits, capacity, l, hi) && p <= hi
    requires p - l <= hi - p || capacity <= hi
    ensures Nearest(bits, capacity, p, l)
  {
  }

  lemma RightNearest(bits: seq<bool>, capacity: nat, p: nat, lo: int, r: int)
    requires Gap(bits, capacity, r) && p <= r && Packed(bits, capacity, lo, r) && lo <= p
    requires r - p < p - lo || lo < 0
    ensures Nearest(bits, capacity, p, r)
  {
  }

  /** What makes shifting towards the nearest gap possible: everything up to it is occupied. */
  lemma NearestPacked(bits: seq<bool>, capacity: nat, p: nat, g: int)
    requires Nearest(bits, capacity, p, g) && p < capacity
    ensures g <= p ==> forall i :: g < i <= p ==> bits[i]
    ensures g >= p ==> forall i :: p <= i < g ==> bits[i]
  {
    forall i | g < i <= p || p <= i < g ensures bits[i] {
      if !bits[i] {
        assert Gap(bits, capacity, i);
      }
    }
  }

  /** `closest_gap`: -1 if there is no gap, and the nearest one otherwise. */
  method ClosestGap(bitmap: array<bool>, capacity: nat, pos0: nat) returns (g: int)
    requires Bitmap(bitmap[..], capacity) && pos0 <= capacity
    ensures g == -1 <==> forall i :: 0 <= i < capacity ==> bitmap[i]
    ensures g != -1 ==> Nearest(bitmap[..], capacity, MinOf(pos0, capacity - 1), g)
  {
    ghost var bits := bitmap[..];
    var pos := MinOf(pos0, capacity - 1);
    var w := pos / 64;
    var bitPos := pos - 64 * w;
    var bitmapSize := Words(capacity);
    PopCountFull(bits, 64 * (bitmapSize - 1), capacity);
    PopCountTail(bits, 64 * (bitmapSize - 1), capacity, 64 * bitmapSize);
    if FullWord(bitmap[..], w)
       || (w == bitmapSize - 1 && PopCount(bitmap[..], 64 * w, 64 * w + 64) == capacity - 64 * (bitmapSize - 1))
    {
      g := SearchAdjacent(bitmap, capacity, pos, w, bitPos, bitmapSize);
    } else {
      g := SearchWithin(bitmap, capacity, pos, w, bitPos, bitmapSize);
    }
  }

  /** No gap in the word of `pos`: goes to the words on both sides, one further at a time. */
  method SearchAdjacent(bitmap: array<bool>, capacity: nat, pos: nat, w: nat, bitPos: nat, bitmapSize: nat)
    returns (g: int)
    requires Bitmap(bitmap[..], capacity) && pos < capacity && bitmapSize == Words(capacity)
    requires w == pos / 64 && bitPos == pos - 64 * w
    requires Packed(bitmap[..], capacity, 64 * w - 1, 64 * w + 64)
    ensures g == -1 <==> forall i :: 0 <= i < capacity ==> bitmap[i]
    ensures g != -1 ==> Nearest(bitmap[..], capacity, pos, g)
  {
    ghost var bits := bitmap[..];
    var rightmost := (capacity - 1) / 64;
    var maxLeft, maxRight := w, rightmost - w;
    var maxBoth := MinOf(maxLeft, maxRight);
    var d := 1;
    while d <= maxBoth
      invariant 1 <= d <= maxBoth + 1
      invariant Packed(bits, capacity, 64 * (w - d + 1) - 1, 64 * (w + d))
    {
      g := SearchPair(bitmap, capacity, pos, w, bitPos, bitmapSize, d);
      if g != -1 {
        return;
      }
      d := d + 1;
    }
    if maxLeft > maxRight {
      var i := w - d;
      while i >= 0
        invariant -1 <= i <= w - d
        invariant Packed(bits, capacity, 64 * (i + 1) - 1, capacity)
      {
        if !FullWord(bitmap[..], i) {
          g := LastGap(bitmap[..], 64 * i, 64 * i + 64);
          LeftNearest(bits, capacity, pos, g, capacity);
          return;
        }
        i := i - 1;
      }
    } else {
      var i := w + d;
      while i <= rightmost
        invariant w + d <= i <= rightmost + 1 || i == w + d
        invariant Packed(bits, capacity, -1, 64 * i)
      {
        if !FullWord(bitmap[..], i) {
          g := FirstGap(bitmap[..], 64 * i, 64 * i + 64);
          if g >= capacity {
            return -1;
          }
          RightNearest(bits, capacity, pos, -1, g);
          return;
        }
        i := i + 1;
      }
    }
    return -1;
  }

  /** The nearer of the first gaps on both sides; the left one at equal distance and when there is no right one. */
  method Nearer(bits: seq<bool>, capacity: nat, pos: nat, left: int, right: int) returns (g: int)
    requires Gap(bits, capacity, left) && left <= pos <= right && Packed(bits, capacity, left, right)
    requires right < capacity ==> Gap(bits, capacity, right)
    ensures Nearest(bits, capacity, pos, g)
  {
    if pos - left <= right - pos || right >= capacity {
      LeftNearest(bits, capacity, pos, left, right);
      return left;
    }
    RightNearest(bits, capacity, pos, left, right);
    return right;
  }

  /** Only the word on the left holds a gap: the next word on the right could hold a nearer one. */
  method LeftWord(bitmap: array<bool>, capacity: nat, pos: nat, w: nat, bitPos: nat, bitmapSize: nat, d: nat)
    returns (g: int)
    requires Bitmap(bitmap[..], capacity) && pos < capacity && bitmapSize == Words(capacity)
    requires w == pos / 64 && bitPos == pos - 64 * w && 1 <= d <= w && w + d <= (capacity - 1) / 64
    requires Packed(bitmap[..], capacity, 64 * (w - d + 1) - 1, 64 * (w + d + 1)) && !FullWord(bitmap[..], w - d)
    ensures Nearest(bitmap[..], capacity, pos, g)
  {
    ghost var bits := bitmap[..];
    g := LastGap(bitmap[..], 64 * (w - d), 64 * (w - d) + 64);
    if bitPos > 32 && w + d + 1 < bitmapSize && !FullWord(bitmap[..], w + d + 1) {
      var right := FirstGap(bitmap[..], 64 * (w + d + 1), 64 * (w + d + 1) + 64);
      g := Nearer(bitmap[..], capacity, pos, g, right);
    } else {
      LeftNearest(bits, capacity, pos, g, if bitPos > 32 then 64 * (w + d + 2) else 64 * (w + d + 1));
    }
  }

  /** Only the word on the right holds a gap: the next word on the left could hold a nearer one. */
  method RightWord(bitmap: array<bool>, capacity: nat, pos: nat, w: nat, bitPos: nat, d: nat, right: nat)
    returns (g: int)
    requires Bitmap(bitmap[..], capacity) && pos < capacity && Gap(bitmap[..], capacity, right)
    requires w == pos / 64 && bitPos == pos - 64 * w && 1 <= d <= w && 64 * (w + d) <= right < 64 * (w + d) + 64
    requires Packed(bitmap[..], capacity, 64 * (w - d) - 1, right)
    ensures Nearest(bitmap[..], capacity, pos, g)
  {
    ghost var bits := bitmap[..];
    if bitPos < 32 && w - d > 0 && !FullWord(bitmap[..], w - d - 1) {
      var left := LastGap(bitmap[..], 64 * (w - d - 1), 64 * (w - d - 1) + 64);
      g := Nearer(bitmap[..], capacity, pos, left, right);
    } else {
      RightNearest(bits, capacity, pos, if bitPos < 32 then 64 * (w - d - 1) - 1 else 64 * (w - d) - 1, right);
      g := right;
    }
  }

  /** The two words at distance `d`, and the next one on the other side where it could hold a nearer gap; -1 if
      neither holds one. */
  method SearchPair(bitmap: array<bool>, capacity: nat, pos: nat, w: nat, bitPos: nat, bitmapSize: nat, d: nat)
    returns (g: int)
    requires Bitmap(bitmap[..], capacity) && pos < capacity && bitmapSize == Words(capacity)
    requires w == pos / 64 && bitPos == pos - 64 * w && 1 <= d <= w && w + d <= (capacity - 1) / 64
    requires Packed(bitmap[..], capacity, 64 * (w - d + 1) - 1, 64 * (w + d))
    ensures g != -1 ==> Nearest(bitmap[..], capacity, pos, g)
    ensures g == -1 ==> Packed(bitmap[..], capacity, 64 * (w - d) - 1, 64 * (w + d + 1))
  {
    var leftFull, rightFull := FullWord(bitmap[..], w - d), FullWord(bitmap[..], w + d);
    if !leftFull && !rightFull {
      var left := LastGap(bitmap[..], 64 * (w - d), 64 * (w - d) + 64);
      var right := FirstGap(bitmap[..], 64 * (w + d), 64 * (w + d) + 64);
      g := Nearer(bitmap[..], capacity, pos, left, right);
      return;
    } else if !leftFull {
      g := LeftWord(bitmap, capacity, pos, w, bitPos, bitmapSize, d);
      return;
    } else if !rightFull {
      var right := FirstGap(bitmap[..], 64 * (w + d), 64 * (w + d) + 64);
      if right < capacity {
        g := RightWord(bitmap, capacity, pos, w, bitPos, d, right);
        return;
      }
    }
    return -1;
  }

  /** The word of `pos` holds a gap: looks there and in the next word on each side. */
  method SearchWithin(bitmap: array<bool>, capacity: nat, pos: nat, w: nat, bitPos: nat, bitmapSize: nat)
    returns (g: int)
    requires Bitmap(bitmap[..], capacity) && pos < capacity && bitmapSize == Words(capacity)
    requires w == pos / 64 && bitPos == pos - 64 * w
    requires exists i :: 64 * w <= i < 64 * w + 64 && i < capacity && !bitmap[i]
    ensures Nearest(bitmap[..], capacity, pos, g)
  {
    ghost var bits := bitmap[..];
    var right, left := 64, 64;
    var inRight := FirstGap(bitmap[..], pos, 64 * w + 64);
    if inRight < 64 * w + 64 {
      right := inRight - 64 * w - bitPos;
    } else if w + 1 < bitmapSize {
      right := 64 + (FirstGap(bitmap[..], 64 * (w + 1), 64 * (w + 1) + 64) - 64 * (w + 1)) - bitPos;
    }
    var inLeft := LastGap(bitmap[..], 64 * w, pos);
    if inLeft >= 64 * w {
      left := bitPos - (inLeft - 64 * w);
    } else if w > 0 {
      left := bitPos + (63 - (LastGap(bitmap[..], 64 * (w - 1), 64 * (w - 1) + 64) - 64 * (w - 1))) + 1;
    }
    if right < left && pos + right < capacity {
      g := pos + right;
      RightNearest(bits, capacity, pos, if w > 0 || inLeft >= 0 then pos - left else -1, g);
    } else {
      g := pos - left;
      LeftNearest(bits, capacity, pos, g,
                  if inRight < 64 * w + 64 || w + 1 < bitmapSize then pos + right else capacity);
    }
  }

  /** `get_next_filled_position`: the first occupied slot from `pos` on, or after it; `capacity` if there is none. A
      search that is not exclusive starts at a slot. */
  method NextFilled(bitmap: array<bool>, capacity: nat, pos0: nat, exclusive: bool) returns (r: nat)
    requires Bitmap(bitmap[..], capacity) && pos0 < capacity
    ensures var from := if exclusive then pos0 + 1 else pos0;
            from <= r <= capacity && (r < capacity ==> bitmap[r]) && forall i :: from <= i < r ==> !bitmap[i]
  {
    ghost var bits := bitmap[..];
    var pos := pos0;
    if exclusive {
      pos := pos + 1;
      if pos == capacity {
        return capacity;
      }
    }
    var cur := pos / 64;
    var bit := FirstSet(bitmap[..], pos, 64 * cur + 64);
    while bit == 64 * cur + 64
      invariant pos / 64 <= cur < Words(capacity) && pos <= bit && 64 * cur <= bit <= 64 * cur + 64
      invariant bit < 64 * cur + 64 ==> bits[bit]
      invariant forall i :: pos <= i < bit ==> !bits[i]
      decreases Words(capacity) - cur
    {
      cur := cur + 1;
      if cur >= Words(capacity) {
        return capacity;
      }
      bit := FirstSet(bitmap[..], 64 * cur, 64 * cur + 64);
    }
    assert bits[bit];
    return bit;
  }
}
