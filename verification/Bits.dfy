/** 64-bit words as natural numbers, their bitwise operations, and their sixteen nibbles. */
module Bits {
  import opened Numbers
  import opened Powers
  import opened Seqs

  // ---- Bitwise operations, bit by bit

  function Or(a: nat, b: nat): nat
    decreases a + b
  {
    if a == 0 && b == 0 then 0
    else (if a % 2 == 1 || b % 2 == 1 then 1 else 0) + 2 * Or(a / 2, b / 2)
  }

  function Xor(a: nat, b: nat): nat
    decreases a + b
  {
    if a == 0 && b == 0 then 0
    else (if a % 2 != b % 2 then 1 else 0) + 2 * Xor(a / 2, b / 2)
  }

  /** Or of words without a common bit is their sum. */
  lemma {:induction false} OrDisjoint(a: nat, b: nat, s: nat)
    requires a < Pow2(s)
    ensures Or(a, b * Pow2(s)) == a + b * Pow2(s)
  {
    if s == 0 {
      OrZero(b);
    } else {
      var c := b * Pow2(s - 1);
      assert b * Pow2(s) == 2 * c;
      OrDisjoint(a / 2, b, s - 1);
    }
  }

  lemma {:induction false} OrZero(b: nat)
    ensures Or(0, b) == b
    decreases b
  {
    if b > 0 {
      OrZero(b / 2);
    }
  }

  /** Xor with its own low bits clears them. */
  lemma {:induction false} XorLow(lo: nat, hi: nat, s: nat)
    requires lo < Pow2(s)
    ensures Xor(lo + hi * Pow2(s), lo) == hi * Pow2(s)
  {
    if s == 0 {
      XorZero(hi);
    } else {
      var c := hi * Pow2(s - 1);
      assert hi * Pow2(s) == 2 * c;
      assert (lo + 2 * c) / 2 == lo / 2 + c && (lo + 2 * c) % 2 == lo % 2;
      XorLow(lo / 2, hi, s - 1);
      if lo + 2 * c == 0 {
        assert c == 0;
      }
    }
  }

  lemma {:induction false} XorZero(b: nat)
    ensures Xor(b, 0) == b
    decreases b
  {
    if b > 0 {
      XorZero(b / 2);
    }
  }

  /** Left shift of a 64-bit word; shifting by the width or more gives zero. */
  function Shl(a: nat, n: nat): nat {
    (a * Pow2(n)) % Pow2(64)
  }

  function Shr(a: nat, n: nat): nat {
    Quotient(a, Pow2(n))
  }

  function Quotient(a: nat, m: nat): nat
    requires m > 0
  {
    a / m
  }

  /** `_bzhi_u64`: the low `n` bits. */
  function LowBits(a: nat, n: nat): nat {
    a % Pow2(n)
  }

  function CircularLshift(src: nat, startPos: nat, count: nat): nat
    requires startPos <= 64 && count <= 64
  {
    var dst := LowBits(src, startPos);
    var needRotate := Xor(src, dst);
    Or(dst, Or(Shl(needRotate, count), Shl(Shr(needRotate, 64 - count), startPos)))
  }

  function CircularRshift(src: nat, startPos: nat, count: nat): nat
    requires startPos + count <= 64
  {
    var dst := LowBits(src, startPos);
    var needRotate := Xor(src, dst);
    Or(dst, Or(Shl(needRotate, 64 - startPos - count), Shl(Shr(needRotate, count + startPos), startPos)))
  }

  // ---- Nibbles

  ghost predicate IsDigits(d: seq<nat>) {
    forall i :: 0 <= i < |d| ==> d[i] < 16
  }

  /** The number with the given nibbles, least significant first. */
  function Val(d: seq<nat>): nat {
    if d == [] then 0 else d[0] + 16 * Val(d[1..])
  }

  /** Nibble `k` of a word. */
  function Nibble(h: nat, k: nat): (n: nat)
    ensures n < 16
  {
    Shr(h, 4 * k) % 16
  }

  lemma {:induction false} ValBound(d: seq<nat>)
    requires IsDigits(d)
    ensures Val(d) < Pow2(4 * |d|)
  {
    if d != [] {
      ValBound(d[1..]);
      Pow2Four(4 * |d| - 4);
    }
  }

  lemma {:induction false} ValConcat(d: seq<nat>, e: seq<nat>)
    ensures Val(d + e) == Val(d) + Pow2(4 * |d|) * Val(e)
  {
    hide Pow2;
    if d == [] {
      assert Pow2(0) == 1 by { Pow2Zero(); }
      assert d + e == e;
    } else {
      assert (d + e)[1..] == d[1..] + e;
      ValConcat(d[1..], e);
      Pow2Four(4 * |d| - 4);
      ScaleSum(Val(d[1..]), Pow2(4 * |d| - 4), Val(e));
    }
  }

  lemma ScaleSum(a: nat, p: nat, v: nat)
    ensures 16 * (a + p * v) == 16 * a + (16 * p) * v
  {
  }

  lemma DivMod(a: nat, q: nat, r: nat, m: nat)
    requires m > 0 && a == r + m * q && r < m
    ensures a / m == q && a % m == r
  {
    assert (q + 1) * m == q * m + m == m * q + m;
    QuotientIs(a, m, q);
  }

  lemma ValSplit(d: seq<nat>, k: nat)
    requires IsDigits(d) && k <= |d|
    ensures Val(d) == Val(d[..k]) + Pow2(4 * k) * Val(d[k..])
    ensures LowBits(Val(d), 4 * k) == Val(d[..k]) && Shr(Val(d), 4 * k) == Val(d[k..])
  {
    assert d == d[..k] + d[k..];
    ValConcat(d[..k], d[k..]);
    ValBound(d[..k]);
    DivMod(Val(d), Val(d[k..]), Val(d[..k]), Pow2(4 * k));
  }

  lemma NibbleOf(d: seq<nat>, k: nat)
    requires IsDigits(d) && k < |d|
    ensures Nibble(Val(d), k) == d[k]
  {
    ValSplit(d, k);
    DivMod(Val(d[k..]), Val(d[k + 1..]), d[k], 16);
    assert d[k..][1..] == d[k + 1..];
  }

  // ---- The rotations on nibbles

  /** Rotating the region above `start` one nibble or more to the left: the top `c` nibbles come down to `start`. */
  lemma LshiftNibbles(d: seq<nat>, p: nat, c: nat)
    requires IsDigits(d) && |d| == 16 && p + c <= 16
    ensures CircularLshift(Val(d), 4 * p, 4 * c) == Val(d[..p] + d[16 - c..] + d[p..16 - c])
  {
    hide Pow2, Val, Or, Xor, Shl, Shr, LowBits;
    var lo, mid, top := d[..p], d[p..16 - c], d[16 - c..];
    assert d == lo + (mid + top);
    RotateParts(Val(d), lo, mid, top);
    ShiftUp(lo, mid, top);
    ShiftDown(lo, mid, top);
    Assemble(lo, top, mid);
  }

  /** Splitting a word at nibble `|lo|`. */
  lemma RotateParts(h: nat, lo: seq<nat>, mid: seq<nat>, top: seq<nat>)
    requires IsDigits(lo) && IsDigits(mid) && IsDigits(top) && h == Val(lo + (mid + top))
    ensures LowBits(h, 4 * |lo|) == Val(lo)
    ensures Xor(h, Val(lo)) == Val(mid + top) * Pow2(4 * |lo|)
  {
    hide Pow2, Val, Xor, LowBits, Shr;
    var d := lo + (mid + top);
    Cut(lo, mid + top);
    ValSplit(d, |lo|);
    ValBound(lo);
    CommuteProduct(Pow2(4 * |lo|), Val(mid + top));
    XorLow(Val(lo), Val(mid + top), 4 * |lo|);
  }

  lemma ShiftUp(lo: seq<nat>, mid: seq<nat>, top: seq<nat>)
    requires IsDigits(lo) && IsDigits(mid) && IsDigits(top) && |lo| + |mid| + |top| == 16
    ensures Shl(Val(mid + top) * Pow2(4 * |lo|), 4 * |top|) == Val(mid) * Pow2(4 * (|lo| + |top|))
  {
    hide Pow2, Val;
    var l, m, t := 4 * |lo|, 4 * |mid|, 4 * |top|;
    ValConcat(mid, top);
    ValBound(mid);
    Pow2Add(l, t);
    Pow2Add(m, l + t);
    assert m + (l + t) == 64;
    UpArithmetic(Val(mid), Val(top), Pow2(m), Pow2(l), Pow2(t));
  }

  lemma UpArithmetic(a: nat, b: nat, m: nat, l: nat, t: nat)
    requires a < m && l >= 1 && t >= 1
    ensures m * (l * t) > 0
    ensures ((a + m * b) * l * t) % (m * (l * t)) == a * (l * t)
  {
    var x := l * t;
    assert x >= 1;
    Regroup(a + m * b, l, t);
    Expand(a, m, b, x);
    ScaleLess(a, m, x);
    DivMod((a + m * b) * x, b, a * x, m * x);
  }

  lemma Regroup(a: nat, b: nat, c: nat)
    ensures a * b * c == a * (b * c)
  {
  }

  lemma Expand(a: nat, m: nat, b: nat, x: nat)
    ensures (a + m * b) * x == a * x + (m * x) * b
  {
    assert (a + m * b) * x == a * x + m * b * x;
    assert m * b * x == (m * x) * b;
  }

  lemma ScaleLess(a: nat, m: nat, x: nat)
    requires a < m && x >= 1
    ensures a * x < m * x
  {
  }

  lemma ShiftDown(lo: seq<nat>, mid: seq<nat>, top: seq<nat>)
    requires IsDigits(lo) && IsDigits(mid) && IsDigits(top) && |lo| + |mid| + |top| == 16
    ensures Shr(Val(mid + top) * Pow2(4 * |lo|), 64 - 4 * |top|) == Val(top)
    ensures Shl(Val(top), 4 * |lo|) == Val(top) * Pow2(4 * |lo|)
  {
    hide Pow2, Val;
    var l, m, t := 4 * |lo|, 4 * |mid|, 4 * |top|;
    ValConcat(mid, top);
    ValBound(mid);
    ValBound(top);
    Pow2Add(m, l);
    Pow2Add(t, l);
    assert 64 - t == m + l;
    DownArithmetic(Val(mid), Val(top), Pow2(m), Pow2(l));
    ScaleLess(Val(top), Pow2(t), Pow2(l));
    Pow2Grows(t + l, 64);
    DivMod(Val(top) * Pow2(l), 0, Val(top) * Pow2(l), Pow2(64));
  }

  lemma DownArithmetic(a: nat, b: nat, m: nat, l: nat)
    requires a < m && l >= 1
    ensures m * l > 0
    ensures ((a + m * b) * l) / (m * l) == b
  {
    assert m * l >= 1;
    Expand(a, m, b, l);
    ScaleLess(a, m, l);
    DivMod((a + m * b) * l, b, a * l, m * l);
  }

  /** Putting rotated parts back together. */
  lemma Assemble(lo: seq<nat>, a: seq<nat>, b: seq<nat>)
    requires IsDigits(lo) && IsDigits(a) && IsDigits(b)
    ensures Or(Val(lo), Or(Val(b) * Pow2(4 * (|lo| + |a|)), Val(a) * Pow2(4 * |lo|))) == Val(lo + a + b)
  {
    hide Pow2, Val, Or;
    ValBound(lo);
    ValBound(a);
    Pow2Add(4 * |lo|, 4 * |a|);
    assert 4 * |lo| + 4 * |a| == 4 * (|lo| + |a|);
    var x, y := Val(a), Val(b);
    var l, m := Pow2(4 * |lo|), Pow2(4 * |a|);
    OrCommutes(y * (l * m), x * l);
    ScaleLess(x, m, l);
    CommuteProduct(l, m);
    OrDisjoint(x * l, y, 4 * (|lo| + |a|));
    Factor(x, y, l, m);
    ValConcat(a, b);
    OrDisjoint(Val(lo), x + m * y, 4 * |lo|);
    ValConcat(lo, a + b);
    CommuteProduct(l, x + m * y);
    assert lo + a + b == lo + (a + b);
  }

  lemma CommuteProduct(a: nat, b: nat)
    ensures a * b == b * a
  {
  }

  lemma Factor(x: nat, y: nat, l: nat, m: nat)
    ensures x * l + y * (l * m) == (x + m * y) * l
  {
    assert y * (l * m) == (m * y) * l;
  }

  lemma {:induction false} OrCommutes(a: nat, b: nat)
    ensures Or(a, b) == Or(b, a)
    decreases a + b
  {
    if !(a == 0 && b == 0) {
      OrCommutes(a / 2, b / 2);
    }
  }

  /** Rotating the region above `start` to the right: its lowest `c` nibbles go to the top. */
  lemma RshiftNibbles(d: seq<nat>, p: nat, c: nat)
    requires IsDigits(d) && |d| == 16 && p + c <= 16
    ensures CircularRshift(Val(d), 4 * p, 4 * c) == Val(d[..p] + d[p + c..] + d[p..p + c])
  {
    hide Pow2, Val, Or, Xor, Shl, Shr, LowBits;
    var lo, mid, top := d[..p], d[p..p + c], d[p + c..];
    assert d == lo + (mid + top);
    assert 64 - 4 * p - 4 * c == 4 * |top| && 4 * c + 4 * p == 64 - 4 * |top|;
    RotateParts(Val(d), lo, mid, top);
    ShiftUp(lo, mid, top);
    ShiftDown(lo, mid, top);
    Assemble(lo, top, mid);
  }
}
