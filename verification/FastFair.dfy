/** A leaf page of the FAST/FAIR B+ tree, one 8-byte store at a time: readers take no lock and may see the page after
    any of the stores of an insert, a removal or a split (include/fast-fair/btree.h). */
module FastFair {

  /** Pointers are numbers; zero is the null pointer. */
  datatype Record = Record(key: int, ptr: nat)

  const NULL: nat := 0

  // ---- What a reader sees

  /** The pointer to the left of slot `i`; a leaf has a null leftmost pointer. */
  function Prev(s: seq<Record>, i: nat): nat
    requires i <= |s|
  {
    if i == 0 then NULL else s[i - 1].ptr
  }

  /** A slot counts if its pointer is not the one to its left. */
  predicate Visible(s: seq<Record>, i: nat)
    requires i < |s|
  {
    s[i].ptr != NULL && s[i].ptr != Prev(s, i)
  }

  /** `linear_search` in a leaf from left to right, from slot `i` on: stops at a null pointer, but not in slot 0. */
  function Forward(s: seq<Record>, k: int, i: nat): nat
    requires i <= |s|
    decreases |s| - i
  {
    if i == |s| || (i > 0 && s[i].ptr == NULL) then NULL
    else if s[i].key == k && Visible(s, i) then s[i].ptr
    else Forward(s, k, i + 1)
  }

  /** `linear_search` in a leaf from right to left, over the slots below `i`. */
  function Backward(s: seq<Record>, k: int, i: nat): nat
    requires i <= |s|
  {
    if i == 0 then NULL
    else if s[i - 1].key == k && Visible(s, i - 1) then s[i - 1].ptr
    else Backward(s, k, i - 1)
  }

  /** The walk of `count` to a null pointer, upwards or downwards. */
  function Walk(s: seq<Record>, c: int, forward: bool): int
    requires -1 <= c <= |s|
    decreases if forward then |s| - c else c + 1
  {
    if c < 0 || c == |s| || s[c].ptr == NULL then c else Walk(s, if forward then c + 1 else c - 1, forward)
  }

  /** `count`, where a reader from the right starts: from behind the last index, or from slot 0 if that leads
      nowhere. */
  function Count(s: seq<Record>, lastIndex: int, forward: bool): int
    requires -1 <= lastIndex < |s|
  {
    var c := Walk(s, lastIndex + 1, forward);
    if c < 0 then Walk(s, 0, true) else c
  }

  /** `n` entries and a null pointer behind them, behind slot 0 too if there is none. */
  ghost predicate Ends(s: seq<Record>, n: nat) {
    n < |s| && s[n].ptr == NULL && (n == 0 ==> |s| > 1 && s[1].ptr == NULL)
  }

  /** A page at rest: `n` entries in key order with pointers that are not null and differ from their neighbours'. */
  ghost predicate Fair(s: seq<Record>, n: nat) {
    && Ends(s, n) && (forall i :: 0 <= i < n ==> Visible(s, i))
    && (forall i, j :: 0 <= i < j < n ==> s[i].key < s[j].key)
  }

  /** The pointer stored under a key among the first `n` entries. */
  ghost predicate Maps(s: seq<Record>, n: nat, k: int, p: nat)
    requires n <= |s|
  {
    if p == NULL then forall j :: 0 <= j < n ==> s[j].key != k
    else exists j :: 0 <= j < n && s[j] == Record(k, p)
  }

  /** The search from the left finds the entry of the key in a page at rest. */
  lemma {:induction false} ForwardFinds(s: seq<Record>, n: nat, k: int, i: nat)
    requires Fair(s, n) && i <= n
    ensures forall j :: i <= j < n && s[j].key == k ==> Forward(s, k, i) == s[j].ptr
    ensures (forall j :: i <= j < n ==> s[j].key != k) ==> Forward(s, k, i) == NULL
    decreases n - i
  {
    if i < n {
      assert Visible(s, i);
      ForwardFinds(s, n, k, i + 1);
    }
  }

  lemma {:induction false} BackwardFinds(s: seq<Record>, n: nat, k: int, i: nat)
    requires Fair(s, n) && i <= n
    ensures forall j :: 0 <= j < i && s[j].key == k ==> Backward(s, k, i) == s[j].ptr
    ensures (forall j :: 0 <= j < i ==> s[j].key != k) ==> Backward(s, k, i) == NULL
  {
    if i > 0 {
      assert Visible(s, i - 1);
      BackwardFinds(s, n, k, i - 1);
    }
  }

  /** In a page at rest both directions agree on the stored mapping. */
  lemma ReadersAgree(s: seq<Record>, n: nat, k: int)
    requires Fair(s, n)
    ensures Forward(s, k, 0) == Backward(s, k, n) && Maps(s, n, k, Forward(s, k, 0))
    ensures Count(s, n - 1, true) == Count(s, n - 1, false) == n
  {
    ForwardFinds(s, n, k, 0);
    BackwardFinds(s, n, k, n);
    if j :| 0 <= j < n && s[j].key == k {
      assert Visible(s, j);
      assert s[j] == Record(k, s[j].ptr);
    }
  }

  // ---- Pages between two stores

  /** The page `a` of `n` entries with a slot `j` pushed in that repeats the pointer to its left. */
  ghost predicate Hidden(a: seq<Record>, n: nat, s: seq<Record>, j: nat) {
    && j <= n < n + 1 < |s| && n < |a| && s[n + 1].ptr == NULL && s[j].ptr == Prev(s, j)
    && (forall i :: 0 <= i < j ==> s[i] == a[i]) && (forall i :: j <= i < n ==> s[i + 1] == a[i])
  }

  /** The same entries. */
  ghost predicate Alike(a: seq<Record>, n: nat, s: seq<Record>) {
    n <= |a| && Ends(s, n) && forall i :: 0 <= i < n ==> s[i] == a[i]
  }

  lemma {:induction false} ForwardAlike(a: seq<Record>, n: nat, s: seq<Record>, k: int, i: nat)
    requires Fair(a, n) && Alike(a, n, s) && i <= n
    ensures Forward(s, k, i) == Forward(a, k, i)
    decreases n - i
  {
    if i < n {
      assert Visible(a, i);
      ForwardAlike(a, n, s, k, i + 1);
    }
  }

  lemma {:induction false} BackwardAlike(a: seq<Record>, n: nat, s: seq<Record>, k: int, i: nat)
    requires Alike(a, n, s) && i <= n
    ensures Backward(s, k, i) == Backward(a, k, i)
  {
    if i > 0 {
      BackwardAlike(a, n, s, k, i - 1);
    }
  }

  /** Behind the hidden slot the search from the left is one slot late. */
  lemma {:induction false} ForwardBehind(a: seq<Record>, n: nat, s: seq<Record>, j: nat, k: int, i: nat)
    requires Fair(a, n) && Hidden(a, n, s, j) && j <= i <= n
    ensures Forward(s, k, i + 1) == Forward(a, k, i)
    decreases n - i
  {
    if i < n {
      assert Visible(a, i) && s[i + 1] == a[i];
      assert Prev(s, i + 1) == Prev(a, i);
      ForwardBehind(a, n, s, j, k, i + 1);
    }
  }

  /** A hidden slot changes nothing for a search from the left. */
  lemma {:induction false} ForwardHidden(a: seq<Record>, n: nat, s: seq<Record>, j: nat, k: int, i: nat)
    requires Fair(a, n) && Hidden(a, n, s, j) && i <= j
    ensures Forward(s, k, i) == Forward(a, k, i)
    decreases j - i
  {
    if i < j {
      assert Visible(a, i);
      ForwardHidden(a, n, s, j, k, i + 1);
    } else {
      if j > 0 {
        assert Visible(a, j - 1);
      }
      ForwardBehind(a, n, s, j, k, j);
    }
  }

  /** Nor for one from the right, which starts one slot further on. */
  lemma {:induction false} BackwardHidden(a: seq<Record>, n: nat, s: seq<Record>, j: nat, k: int, i: nat)
    requires Hidden(a, n, s, j) && i <= n
    ensures i <= j ==> Backward(s, k, i) == Backward(a, k, i)
    ensures i >= j ==> Backward(s, k, i + 1) == Backward(a, k, i)
  {
    if i > 0 {
      BackwardHidden(a, n, s, j, k, i - 1);
      if i > j {
        assert s[i - 1 + 1] == a[i - 1];
        assert Prev(s, i) == Prev(a, i - 1);
      }
    }
  }

  // ---- Whole runs of stores

  /** A reader from the left sees in `s` what it sees in `a`. */
  ghost predicate ReadsLike(s: seq<Record>, a: seq<Record>) {
    s != [] && a != [] && forall k :: Forward(s, k, 0) == Forward(a, k, 0)
  }

  /** A reader from the right that starts below slot `m` sees in `s` what it sees in the `n` entries of `a`. */
  ghost predicate ReadsBackLike(s: seq<Record>, m: nat, a: seq<Record>, n: nat)
    requires n <= |a|
  {
    m <= |s| && forall k :: Backward(s, k, m) == Backward(a, k, n)
  }

  lemma AlikeReads(a: seq<Record>, n: nat, s: seq<Record>)
    requires Fair(a, n) && Alike(a, n, s)
    ensures ReadsLike(s, a)
  {
    forall k ensures Forward(s, k, 0) == Forward(a, k, 0) {
      ForwardAlike(a, n, s, k, 0);
    }
  }

  lemma HiddenReads(a: seq<Record>, n: nat, s: seq<Record>, j: nat)
    requires Fair(a, n) && Hidden(a, n, s, j)
    ensures ReadsLike(s, a)
  {
    forall k ensures Forward(s, k, 0) == Forward(a, k, 0) {
      ForwardHidden(a, n, s, j, k, 0);
    }
  }

  /** A reader from the right starts below slot `n`, as long as the last index is the one before it. */
  ghost predicate CountsTo(s: seq<Record>, n: nat) {
    n < |s| && s[n].ptr == NULL && Count(s, n - 1, false) == n
  }

  lemma HiddenReadsBack(a: seq<Record>, n: nat, s: seq<Record>, j: nat)
    requires Hidden(a, n, s, j)
    ensures ReadsBackLike(s, n + 1, a, n)
  {
    forall k ensures Backward(s, k, n + 1) == Backward(a, k, n) {
      BackwardHidden(a, n, s, j, k, n);
    }
  }

  /** The page after the insert of `x` at `p`. */
  function Inserted(a: seq<Record>, n: nat, p: nat, x: Record): seq<Record>
    requires p <= n <= |a|
  {
    a[..p] + [x] + a[p..n]
  }

  /** Position of a new key: behind the last key not above it. */
  function Place(a: seq<Record>, n: nat, key: int): (p: nat)
    requires n <= |a|
    ensures p <= n && (p > 0 ==> a[p - 1].key <= key) && forall i :: p <= i < n ==> key < a[i].key
  {
    if n == 0 || a[n - 1].key <= key then n else Place(a, n - 1, key)
  }

  /** The key of `x` is new and its pointer is neither null nor a neighbour's. */
  ghost predicate Takes(a: seq<Record>, n: nat, x: Record)
    requires n <= |a|
  {
    && x.ptr != NULL && (forall i :: 0 <= i < n ==> a[i].key != x.key)
    && Prev(a, Place(a, n, x.key)) != x.ptr
    && (Place(a, n, x.key) < n ==> a[Place(a, n, x.key)].ptr != x.ptr)
  }

  /** The page is one to which `x` can be added without a split. */
  ghost predicate Accepts(a: seq<Record>, n: nat, x: Record) {
    Fair(a, n) && n + 1 < |a| && Takes(a, n, x)
  }

  /** A page with the entries of the old one and `x`. */
  ghost predicate Grown(a: seq<Record>, n: nat, x: Record, s: seq<Record>) {
    && n + 1 < |s| && n <= |a| && Ends(s, n + 1)
    && s[..n + 1] == Inserted(a, n, Place(a, n, x.key), x)
  }

  lemma GrownAt(a: seq<Record>, n: nat, x: Record, s: seq<Record>, p: nat)
    requires Grown(a, n, x, s) && p == Place(a, n, x.key)
    ensures p <= n
    ensures forall i {:trigger s[i]} :: 0 <= i <= n ==> s[i] == if i < p then a[i] else if i == p then x else a[i - 1]
  {
    forall i {:trigger s[i]} | 0 <= i <= n ensures s[i] == if i < p then a[i] else if i == p then x else a[i - 1] {
      assert s[i] == s[..n + 1][i];
    }
  }

  lemma GrownFair(a: seq<Record>, n: nat, x: Record, s: seq<Record>)
    requires Accepts(a, n, x) && Grown(a, n, x, s)
    ensures Fair(s, n + 1)
  {
    var p := Place(a, n, x.key);
    GrownAt(a, n, x, s, p);
    forall i | 0 <= i <= n ensures Visible(s, i) {
      if i < p {
        assert Visible(a, i);
      } else if i > p {
        assert Visible(a, i - 1);
      }
    }
  }

  lemma ForwardHit(s: seq<Record>, n: nat, j: nat)
    requires Fair(s, n) && j < n
    ensures Forward(s, s[j].key, 0) == s[j].ptr
  {
    ForwardFinds(s, n, s[j].key, 0);
  }

  lemma ForwardMiss(s: seq<Record>, n: nat, k: int)
    requires Fair(s, n) && forall j :: 0 <= j < n ==> s[j].key != k
    ensures Forward(s, k, 0) == NULL
  {
    ForwardFinds(s, n, k, 0);
  }

  lemma BackwardHit(s: seq<Record>, n: nat, j: nat)
    requires Fair(s, n) && j < n
    ensures Backward(s, s[j].key, n) == s[j].ptr
  {
    BackwardFinds(s, n, s[j].key, n);
  }

  lemma BackwardMiss(s: seq<Record>, n: nat, k: int)
    requires Fair(s, n) && forall j :: 0 <= j < n ==> s[j].key != k
    ensures Backward(s, k, n) == NULL
  {
    BackwardFinds(s, n, k, n);
  }

  /** After the insert a reader finds the new pointer under the new key, and the old ones under all others. */
  lemma GrownReads(a: seq<Record>, n: nat, x: Record, s: seq<Record>, k: int)
    requires Accepts(a, n, x) && Grown(a, n, x, s)
    ensures Forward(s, k, 0) == if k == x.key then x.ptr else Forward(a, k, 0)
  {
    hide Inserted, Forward, Visible, Place, Fair, Prev;
    var p := Place(a, n, x.key);
    GrownAt(a, n, x, s, p);
    GrownFair(a, n, x, s);
    if k == x.key {
      ForwardHit(s, n + 1, p);
    } else if j :| 0 <= j < n && a[j].key == k {
      ForwardHit(a, n, j);
      ForwardHit(s, n + 1, if j < p then j else j + 1);
    } else {
      ForwardMiss(a, n, k);
      ForwardMiss(s, n + 1, k);
    }
  }

  lemma {:induction false} ForwardBlind(s: seq<Record>, n: nat, k: int, i: nat)
    requires i <= n < |s| && n > 0 && s[n].ptr == NULL
    requires forall j :: i <= j < n && s[j].key == k ==> !Visible(s, j)
    ensures Forward(s, k, i) == NULL
    decreases n - i
  {
    if i < n {
      ForwardBlind(s, n, k, i + 1);
    }
  }

  /** A reader of `s` finds the new entry and all those of `a`. */
  ghost predicate ReadsWith(a: seq<Record>, x: Record, s: seq<Record>) {
    a != [] && s != [] && forall k :: Forward(s, k, 0) == if k == x.key then x.ptr else Forward(a, k, 0)
  }

  /** An insertion is right if and only if the pointer is not a neighbour's. */
  lemma InsertionReads(a: seq<Record>, n: nat, x: Record, s: seq<Record>)
    requires Fair(a, n) && n + 1 < |a| && x.ptr != NULL && (forall i :: 0 <= i < n ==> a[i].key != x.key)
    requires Grown(a, n, x, s)
    ensures ReadsWith(a, x, s) <==> Accepts(a, n, x)
  {
    hide Forward, Fair, Inserted, Place;
    var p := Place(a, n, x.key);
    GrownAt(a, n, x, s, p);
    if Accepts(a, n, x) {
      forall k ensures Forward(s, k, 0) == if k == x.key then x.ptr else Forward(a, k, 0) {
        GrownReads(a, n, x, s, k);
      }
    } else if Prev(a, p) == x.ptr {
      OnlySlot(a, n, x, s, p, p);
      ForwardBlind(s, n + 1, x.key, 0);
      assert Forward(s, x.key, 0) != x.ptr;
    } else {
      OnlySlot(a, n, x, s, p, p + 1);
      ForwardBlind(s, n + 1, a[p].key, 0);
      NotNull(a, n);
      ForwardHit(a, n, p);
      assert Forward(s, a[p].key, 0) != Forward(a, a[p].key, 0);
    }
  }

  /** A key has one slot after an insert. */
  lemma OnlySlot(a: seq<Record>, n: nat, x: Record, s: seq<Record>, p: nat, i: nat)
    requires Fair(a, n) && n + 1 < |s| && p <= n && i <= n && (forall i :: 0 <= i < n ==> a[i].key != x.key)
    requires forall i {:trigger s[i]} :: 0 <= i <= n ==> s[i] == if i < p then a[i] else if i == p then x else a[i - 1]
    ensures forall j :: 0 <= j <= n && s[j].key == s[i].key ==> j == i
  {
  }

  /** The shift of an insert has come down to slot `j`, which still holds what was copied one slot up. */
  ghost predicate Shifting(a: seq<Record>, n: nat, s: seq<Record>, j: nat) {
    && j <= n < n + 1 < |s| && |s| == |a| && s[n + 1].ptr == NULL
    && (forall i :: 0 <= i < j ==> s[i] == a[i]) && (forall i :: j <= i < n ==> s[i + 1] == a[i])
    && s[j] == a[j]
  }

  lemma ShiftStart(a: seq<Record>, n: nat, s: seq<Record>)
    requires Fair(a, n) && 0 < n < n + 1 < |a| && s == a[n + 1 := a[n + 1].(ptr := a[n].ptr)]
    ensures ReadsLike(s, a) && Shifting(a, n, s, n) && s[0] == a[0] && s[n - 1] == a[n - 1]
  {
    AlikeReads(a, n, s);
  }

  /** The two stores that copy the entry below slot `j` one slot up. */
  lemma ShiftStep(a: seq<Record>, n: nat, s: seq<Record>, j: nat)
    requires Fair(a, n) && Shifting(a, n, s, j) && 0 < j
    ensures j < |s| && j < |a|
    ensures var t := s[j := s[j].(ptr := s[j - 1].ptr)];
            var u := t[j := t[j].(key := s[j - 1].key)];
            && ReadsLike(t, a) && ReadsLike(u, a) && Shifting(a, n, u, j - 1) && t[0] == u[0] == a[0]
            && (j > 1 ==> u[j - 2] == a[j - 2])
  {
    var t := s[j := s[j].(ptr := s[j - 1].ptr)];
    var u := t[j := t[j].(key := s[j - 1].key)];
    HiddenReads(a, n, t, j);
    HiddenReads(a, n, u, j);
  }

  lemma AcceptsFair(a: seq<Record>, n: nat, x: Record)
    requires Accepts(a, n, x)
    ensures Fair(a, n) && n + 1 < |a|
  {
  }

  /** The three stores that fill the freed slot. */
  lemma FillSteps(a: seq<Record>, n: nat, s: seq<Record>, j: nat, x: Record)
    requires Accepts(a, n, x) && Shifting(a, n, s, j) && (j > 0 ==> a[j - 1].key <= x.key)
    requires forall t :: j <= t < n ==> x.key < a[t].key
    ensures j < |s| && (j > 0 ==> a[j - 1] == s[j - 1])
    ensures var t := s[j := s[j].(ptr := if j > 0 then s[j - 1].ptr else NULL)];
            var u := t[j := t[j].(key := x.key)];
            var v := u[j := u[j].(ptr := x.ptr)];
            && ReadsLike(t, a) && ReadsLike(u, a) && Grown(a, n, x, v) && ReadsLike(v, v)
            && (n > 0 && x.key > a[0].key ==> t[0] == u[0] == v[0] == a[0])
  {
    var t := s[j := s[j].(ptr := if j > 0 then s[j - 1].ptr else NULL)];
    var u := t[j := t[j].(key := x.key)];
    PlaceIs(a, n, x.key, j);
    HiddenReads(a, n, t, j);
    HiddenReads(a, n, u, j);
    FilledSlot(a, n, u, j, x);
    assert u[j := x] == u[j := u[j].(ptr := x.ptr)];
  }

  /** The page once `x` is stored in the freed slot. */
  lemma FilledSlot(a: seq<Record>, n: nat, s: seq<Record>, j: nat, x: Record)
    requires Fair(a, n) && Hidden(a, n, s, j) && |s| == |a| && j == Place(a, n, x.key)
    ensures Grown(a, n, x, s[j := x])
  {
    var t := s[j := x];
    assert forall i :: j <= i < n ==> t[i + 1] == a[i];
    forall i | 0 <= i < n + 1 ensures t[i] == Inserted(a, n, j, x)[i] {
      if i > j {
        assert t[i - 1 + 1] == a[i - 1];
      }
    }
  }

  lemma {:induction false} PlaceIs(a: seq<Record>, n: nat, key: int, p: nat)
    requires p <= n <= |a| && (p > 0 ==> a[p - 1].key <= key) && forall i :: p <= i < n ==> key < a[i].key
    ensures Place(a, n, key) == p
  {
    if n > p {
      PlaceIs(a, n - 1, key, p);
    }
  }

  // ---- Removal

  /** The page without entry `r`. */
  function Without(a: seq<Record>, n: nat, r: nat): (s: seq<Record>)
    requires r < n <= |a|
    ensures |s| == n + 1 && (forall i :: 0 <= i < r ==> s[i] == a[i]) && (forall i :: r < i < n ==> s[i - 1] == a[i])
    ensures s[n - 1].ptr == NULL && s[n].ptr == NULL
  {
    a[..r] + a[r + 1..n] + [Record(0, NULL), Record(0, NULL)]
  }

  lemma WithoutAt(a: seq<Record>, n: nat, r: nat)
    requires r < n <= |a|
    ensures var s := Without(a, n, r);
            forall i {:trigger s[i]} :: 0 <= i < n - 1 ==> s[i] == if i < r then a[i] else a[i + 1]
  {
    var s := Without(a, n, r);
    forall i {:trigger s[i]} | 0 <= i < n - 1 ensures s[i] == if i < r then a[i] else a[i + 1] {
      if i >= r {
        assert s[i + 1 - 1] == a[i + 1];
      }
    }
  }

  lemma OthersDiffer(a: seq<Record>, n: nat, r: nat)
    requires Fair(a, n) && r < n
    ensures n <= |a| && forall j :: 0 <= j < n && j != r ==> a[j].key != a[r].key
  {
  }

  /** The entries on both sides of entry `r` do not share a pointer. */
  ghost predicate Parted(a: seq<Record>, n: nat, r: nat)
    requires r < n <= |a|
  {
    r + 1 == n || Prev(a, r) != a[r + 1].ptr
  }

  lemma WithoutFair(a: seq<Record>, n: nat, r: nat)
    requires Fair(a, n) && r < n && Parted(a, n, r)
    ensures Fair(Without(a, n, r), n - 1)
  {
    var s := Without(a, n, r);
    WithoutAt(a, n, r);
    forall i | 0 <= i < n - 1 ensures Visible(s, i) {
      assert Visible(a, i) && Visible(a, i + 1);
    }
  }

  /** A key without a visible slot is not found. */
  lemma {:induction false} BackwardBlind(s: seq<Record>, k: int, i: nat)
    requires i <= |s| && forall j :: 0 <= j < i && s[j].key == k ==> !Visible(s, j)
    ensures Backward(s, k, i) == NULL
  {
    if i > 0 {
      BackwardBlind(s, k, i - 1);
    }
  }

  /** Entries that share a pointer around a removed one lose the second of them. */
  lemma NextLost(a: seq<Record>, n: nat, r: nat)
    requires Fair(a, n) && r < n && !Parted(a, n, r)
    ensures a[r + 1].key != a[r].key && Backward(a, a[r + 1].key, n) != NULL
    ensures Backward(Without(a, n, r), a[r + 1].key, n - 1) == NULL
  {
    var s := Without(a, n, r);
    WithoutAt(a, n, r);
    assert Visible(a, r + 1);
    BackwardHit(a, n, r + 1);
    forall j | 0 <= j < n - 1 && s[j].key == a[r + 1].key ensures !Visible(s, j) {
      assert j == r;
    }
    BackwardBlind(s, a[r + 1].key, n - 1);
  }

  /** A reader of the page without entry `r` misses its key and finds all others. */
  ghost predicate ReadsWithout(a: seq<Record>, n: nat, r: nat)
    requires r < n <= |a|
  {
    forall k :: Backward(Without(a, n, r), k, n - 1) == if k == a[r].key then NULL else Backward(a, k, n)
  }

  /** A removal is right if and only if the entries on both sides do not share a pointer. */
  lemma RemovalReads(a: seq<Record>, n: nat, r: nat)
    requires Fair(a, n) && r < n
    ensures ReadsWithout(a, n, r) <==> Parted(a, n, r)
  {
    hide Backward, Without, Visible;
    if Parted(a, n, r) {
      WithoutFair(a, n, r);
      forall k ensures Backward(Without(a, n, r), k, n - 1) == if k == a[r].key then NULL else Backward(a, k, n) {
        WithoutReads(a, n, r, k);
      }
    } else {
      NextLost(a, n, r);
      var k := a[r + 1].key;
      assert Backward(Without(a, n, r), k, n - 1) != Backward(a, k, n);
    }
  }

  /** After the removal a reader finds nothing under the key and the old pointers under all others. */
  lemma WithoutReads(a: seq<Record>, n: nat, r: nat, k: int)
    requires Fair(a, n) && r < n && Fair(Without(a, n, r), n - 1)
    ensures Backward(Without(a, n, r), k, n - 1) == if k == a[r].key then NULL else Backward(a, k, n)
  {
    hide Backward, Visible, Without, Fair;
    OthersDiffer(a, n, r);
    var s := Without(a, n, r);
    WithoutAt(a, n, r);
    if k == a[r].key {
      BackwardMiss(s, n - 1, k);
    } else if j :| 0 <= j < n && a[j].key == k {
      BackwardHit(a, n, j);
      BackwardHit(s, n - 1, if j < r then j else j - 1);
    } else {
      BackwardMiss(a, n, k);
      BackwardMiss(s, n - 1, k);
    }
  }

  /** A reader that still counts the removed entry starts in the slot that has become null. */
  lemma AlikeReadsBack(a: seq<Record>, n: nat, s: seq<Record>)
    requires Alike(a, n, s)
    ensures ReadsBackLike(s, n + 1, a, n)
  {
    forall k ensures Backward(s, k, n + 1) == Backward(a, k, n) {
      BackwardAlike(a, n, s, k, n);
    }
  }

  // ---- Split

  /** A search that goes on to the sibling when it finds nothing and the key is not below the sibling's first one. */
  function Chain(ps: seq<seq<Record>>, k: int): nat
    requires forall i :: 0 <= i < |ps| ==> ps[i] != []
  {
    if ps == [] then NULL
    else
      var r := Forward(ps[0], k, 0);
      if r != NULL then r
      else if |ps| > 1 && k >= ps[1][0].key then Chain(ps[1..], k)
      else NULL
  }

  /** `b` holds the entries of `a` from `m` on. */
  ghost predicate UpperHalf(a: seq<Record>, n: nat, m: nat, b: seq<Record>) {
    && 0 < m < n <= |a| && Fair(b, n - m) && forall i :: m <= i < n ==> b[i - m] == a[i]
  }

  lemma LowerFair(a: seq<Record>, n: nat, m: nat)
    requires Fair(a, n) && 0 < m < n
    ensures Fair(a[m := a[m].(ptr := NULL)], m)
  {
    var s := a[m := a[m].(ptr := NULL)];
    forall i | 0 <= i < m ensures Visible(s, i) {
      assert Visible(a, i);
    }
  }

  /** Neither linking the new sibling nor cutting the page off changes what any search finds. */
  lemma SplitUnseen(a: seq<Record>, n: nat, m: nat, b: seq<Record>, rest: seq<seq<Record>>, k: int)
    requires Fair(a, n) && UpperHalf(a, n, m, b) && (forall i :: 0 <= i < |rest| ==> rest[i] != [])
    requires rest != [] ==> a[n - 1].key < rest[0][0].key
    ensures Chain([a] + rest, k) == Chain([a, b] + rest, k) == Chain([a[m := a[m].(ptr := NULL)], b] + rest, k)
  {
    var low := a[m := a[m].(ptr := NULL)];
    LowerFair(a, n, m);
    ForwardFinds(a, n, k, 0);
    ForwardFinds(low, m, k, 0);
    ForwardFinds(b, n - m, k, 0);
    HalfReads(a, n, m, b, k);
    hide Forward, Fair;
    assert b[m - m] == a[m];
    assert ([a] + rest)[1..] == rest;
    assert ([a, b] + rest)[1..] == [b] + rest && ([low, b] + rest)[1..] == [b] + rest;
    assert ([b] + rest)[1..] == rest;
  }

  /** The page finds what its halves find; what the upper half finds is not below its first key. */
  lemma HalfReads(a: seq<Record>, n: nat, m: nat, b: seq<Record>, k: int)
    requires Fair(a, n) && UpperHalf(a, n, m, b)
    ensures var low := a[m := a[m].(ptr := NULL)];
            && Forward(a, k, 0) == (if k < a[m].key then Forward(low, k, 0) else Forward(b, k, 0))
            && (k >= a[m].key ==> Forward(low, k, 0) == NULL)
    ensures k > a[n - 1].key ==> Forward(a, k, 0) == Forward(b, k, 0) == NULL
  {
    var low := a[m := a[m].(ptr := NULL)];
    LowerFair(a, n, m);
    ForwardFinds(a, n, k, 0);
    ForwardFinds(low, m, k, 0);
    ForwardFinds(b, n - m, k, 0);
    hide Forward;
    if j :| 0 <= j < n && a[j].key == k {
      assert j < m ==> low[j] == a[j];
      assert j >= m ==> b[j - m] == a[j];
    } else {
      assert forall i :: 0 <= i < n - m ==> b[i] == a[i + m];
    }
  }

  type Counter = c: nat | c < 256

  predicate IsForward(counter: Counter) {
    counter % 2 == 0
  }

  /** Adding to the 8-bit counter wraps around. */
  function Bump(counter: Counter, d: nat): Counter
    requires d <= 2
  {
    if counter + d >= 256 then counter + d - 256 else counter + d
  }

  /** A page as a reader finds it: its slots, the sibling linked at that moment, and the slots and link of that one. */
  datatype Sight = Sight(records: seq<Record>, next: Page?, nextRecords: seq<Record>, nextNext: Page?)

  /** The same sibling with the same slots and link. */
  ghost predicate SameBeyond(s: Sight, t: Sight) {
    s.next == t.next && s.nextRecords == t.nextRecords && s.nextNext == t.nextNext
  }

  /** The chain of pages that a reader goes through from a page seen like this, whose sibling was `oldNext` with `rest`
      from there on. */
  ghost function Path(s: Sight, oldNext: Page?, rest: seq<seq<Record>>): seq<seq<Record>> {
    [s.records] + (if s.next == oldNext then rest
                   else if s.next == null then []
                   else if s.nextNext == oldNext then [s.nextRecords] + rest else [s.nextRecords])
  }

  ghost predicate Solid(ps: seq<seq<Record>>) {
    forall i :: 0 <= i < |ps| ==> ps[i] != []
  }

  /** Searches through the one chain find what they find through the other. */
  ghost predicate SameFinds(p: seq<seq<Record>>, q: seq<seq<Record>>) {
    Solid(p) && Solid(q) && forall k :: Chain(p, k) == Chain(q, k)
  }

  /** One after the other, searches find what `a` holds, and from one point on what `b` holds. */
  ghost predicate OneSwitch(t: seq<seq<seq<Record>>>, a: seq<seq<Record>>, b: seq<seq<Record>>) {
    exists w: nat :: w <= |t| && SwitchesAt(t, a, b, w)
  }

  ghost predicate SwitchesAt(t: seq<seq<seq<Record>>>, a: seq<seq<Record>>, b: seq<seq<Record>>, w: nat) {
    forall i :: 0 <= i < |t| ==> SameFinds(t[i], if i < w then a else b)
  }

  /** The chains through a page that is seen like this. */
  ghost function Views(ss: seq<Sight>, oldNext: Page?, rest: seq<seq<Record>>): (t: seq<seq<seq<Record>>>)
    ensures |t| == |ss| && forall i :: 0 <= i < |t| ==> t[i] == Path(ss[i], oldNext, rest)
  {
    seq(|ss|, i requires 0 <= i < |ss| => Path(ss[i], oldNext, rest))
  }

  /** The chains through a page whose sibling is seen like this. */
  ghost function Behind(c: seq<Record>, ss: seq<Sight>, rest: seq<seq<Record>>): (t: seq<seq<seq<Record>>>)
    ensures |t| == |ss| && forall i :: 0 <= i < |t| ==> t[i] == [c, ss[i].records] + rest
  {
    seq(|ss|, i requires 0 <= i < |ss| => [c, ss[i].records] + rest)
  }

  /** What was seen of a page since its sight number `from`, and of the sibling it got in the meantime. */
  ghost function TraceOf(p: Page, from: nat, oldNext: Page?, rest: seq<seq<Record>>): seq<seq<seq<Record>>>
    requires from <= |p.seen|
    reads p, p.records, if p.sibling == null then {} else {p.sibling}
  {
    Views(p.seen[from..], oldNext, rest)
    + (if p.sibling == oldNext || p.sibling == null then [] else Behind(p.records[..], p.sibling.seen, rest))
  }

  ghost function NowOf(p: Page, oldNext: Page?, rest: seq<seq<Record>>): seq<seq<Record>>
    reads p, p.records, if p.sibling == null then {} else {p.sibling, p.sibling.records}
  {
    if p.sibling == oldNext || p.sibling == null then [p.records[..]] + rest
    else [p.records[..], p.sibling.records[..]] + rest
  }

  lemma FrontReads(s: seq<Record>, a: seq<Record>, rest: seq<seq<Record>>)
    requires ReadsLike(s, a) && Solid(rest)
    ensures SameFinds([s] + rest, [a] + rest)
  {
    forall k ensures Chain([s] + rest, k) == Chain([a] + rest, k) {
      assert ([s] + rest)[1..] == rest && ([a] + rest)[1..] == rest;
    }
  }

  lemma SecondReads(c: seq<Record>, s: seq<Record>, a: seq<Record>, rest: seq<seq<Record>>)
    requires c != [] && ReadsLike(s, a) && s[0].key == a[0].key && Solid(rest)
    ensures SameFinds([c, s] + rest, [c, a] + rest)
  {
    hide ReadsLike, Chain;
    FrontReads(s, a, rest);
    var p, q := [s] + rest, [a] + rest;
    assert [c, s] + rest == [c] + p && [c, a] + rest == [c] + q;
    SameFront(c, p, q);
  }

  lemma SameThrough(p: seq<seq<Record>>, q: seq<seq<Record>>, r: seq<seq<Record>>)
    requires SameFinds(p, q) && SameFinds(q, r)
    ensures SameFinds(p, r)
  {
  }

  /** With a new sibling linked in front of the old one. */
  lemma PathOver(s: Sight, oldNext: Page?, rest: seq<seq<Record>>)
    requires s.next != oldNext && s.next != null && s.nextNext == oldNext
    ensures Path(s, oldNext, rest) == [s.records, s.nextRecords] + rest
  {
  }

  lemma SplitSeen(a: seq<Record>, n: nat, m: nat, b: seq<Record>, rest: seq<seq<Record>>)
    requires Fair(a, n) && UpperHalf(a, n, m, b) && (forall i :: 0 <= i < |rest| ==> rest[i] != [])
    requires rest != [] ==> a[n - 1].key < rest[0][0].key
    ensures a != [] && b != []
    ensures var low := a[m := a[m].(ptr := NULL)];
            && (forall k :: Chain([a] + rest, k) == Chain([a, b] + rest, k) == Chain([low, b] + rest, k))
            && SameFinds([a, b] + rest, [a] + rest) && SameFinds([low, b] + rest, [a] + rest)
  {
    hide Chain, Fair;
    UpperAt(a, n, m, b);
    FairRange(a, n);
    var low := a[m := a[m].(ptr := NULL)];
    forall k ensures Chain([a] + rest, k) == Chain([a, b] + rest, k) == Chain([low, b] + rest, k) {
      SplitUnseen(a, n, m, b, rest, k);
    }
  }

  /** An insert of `key` into the page `a` of `n` entries, seen at first like `look`; `apart` if its sibling is another
      page. */
  datatype Insertion = Insertion(a: seq<Record>, n: nat, key: int, look: Sight, apart: bool)

  ghost function InsertOf(look: Sight, n: nat, key: int, apart: bool): Insertion {
    Insertion(look.records, n, key, look, apart)
  }

  /** A reader sees `read`; the first slot has not changed if the key belongs behind it, nor has the sibling. */
  ghost predicate ShownAt(s: Sight, read: seq<Record>, c: Insertion) {
    && ReadsLike(s.records, read) && (c.n > 0 && c.a != [] && c.key > c.a[0].key ==> s.records[0] == c.a[0])
    && (c.apart ==> SameBeyond(s, c.look))
  }

  ghost predicate Shown(seen: seq<Sight>, from: nat, to: nat, read: seq<Record>, c: Insertion) {
    from <= to <= |seen| && forall i :: from <= i < to ==> ShownAt(seen[i], read, c)
  }

  lemma ShownMore(seen: seq<Sight>, from: nat, s: Sight, read: seq<Record>, c: Insertion)
    requires Shown(seen, from, |seen|, read, c) && ShownAt(s, read, c)
    ensures Shown(seen + [s], from, |seen| + 1, read, c)
  {
  }

  lemma ShownStill(seen: seq<Sight>, from: nat, to: nat, s: Sight, read: seq<Record>, c: Insertion)
    requires Shown(seen, from, to, read, c)
    ensures Shown(seen + [s], from, to, read, c)
  {
  }

  lemma ShownReads(seen: seq<Sight>, from: nat, to: nat, read: seq<Record>, c: Insertion)
    requires Shown(seen, from, to, read, c)
    ensures from <= to <= |seen| && forall i :: from <= i < to ==> ReadsLike(seen[i].records, read)
  {
  }

  /** As long as the key belongs behind it, the first entry of a page stays in place. */
  ghost predicate FirstKept(seen: seq<Sight>, from: nat, a: seq<Record>, n: int, key: int) {
    n > 0 && a != [] && key > a[0].key ==>
      forall i :: from <= i < |seen| ==> seen[i].records != [] && seen[i].records[0] == a[0]
  }

  lemma InsertFirstKept(seen: seq<Sight>, from: nat, w: nat, a: seq<Record>, b: seq<Record>, c: Insertion)
    requires Shown(seen, from, w, a, c) && Shown(seen, w, |seen|, b, c) && c.a == a
    ensures FirstKept(seen, from, a, c.n, c.key)
  {
    forall i | from <= i < |seen| ensures ShownAt(seen[i], if i < w then a else b, c) {
    }
  }

  lemma LowFirstKept(seen: seq<Sight>, from: nat, mid: nat, w: nat, a: seq<Record>, low: seq<Record>, t: seq<Record>,
                     c: Insertion)
    requires forall i :: from <= i < mid <= |seen| ==> seen[i].records != [] && a != [] && seen[i].records[0] == a[0]
    requires Shown(seen, mid, w, low, c) && Shown(seen, w, |seen|, t, c) && c.a == low && c.n > 0 && low != []
    requires a != [] && low[0] == a[0]
    ensures forall n :: FirstKept(seen, from, a, n, c.key)
  {
    forall i | mid <= i < |seen| ensures ShownAt(seen[i], if i < w then low else t, c) {
    }
  }

  /** A page that has been split in the middle. */
  ghost predicate SplitUp(a: seq<Record>, n: nat, low: seq<Record>, b: seq<Record>, rest: seq<seq<Record>>) {
    && n >= 2 && Fair(a, n) && UpperHalf(a, n, n / 2, b) && low == a[n / 2 := a[n / 2].(ptr := NULL)]
    && Solid(rest) && (rest != [] ==> a[n - 1].key < rest[0][0].key)
  }

  lemma SplitUpMeans(a: seq<Record>, n: nat, low: seq<Record>, b: seq<Record>, rest: seq<seq<Record>>)
    requires SplitUp(a, n, low, b, rest)
    ensures 0 < n / 2 < n < |a| == |low| && n - n / 2 < |b| && b[n - n / 2 - 1] == a[n - 1] && b[0] == a[n / 2]
    ensures low[0] == a[0] && low[n / 2 - 1].key < b[0].key && Solid(rest)
    ensures SameFinds([low, b] + rest, [a] + rest)
  {
    hide SameFinds;
    SplitEnds(a, n, n / 2, low, b);
    SplitSeen(a, n, n / 2, b, rest);
  }

  /** The pair has gone to the lower page. */
  lemma LowDone(a: seq<Record>, n: nat, low: seq<Record>, b: seq<Record>, x: Record, t: seq<Record>,
                rest: seq<seq<Record>>, seen: seq<Sight>, from: nat, mid: nat, w: nat, oldNext: Page?, c: Insertion)
    requires SplitUp(a, n, low, b, rest) && Accepts(low, n / 2, x) && Grown(low, n / 2, x, t) && x.key < b[0].key
    requires from <= mid <= |seen| && forall i :: from <= i < mid ==>
               && SameFinds(Path(seen[i], oldNext, rest), [a] + rest)
               && seen[i].records != [] && seen[i].records[0] == a[0]
    requires Shown(seen, mid, w, low, c) && Shown(seen, w, |seen|, t, c) && c.apart
    requires c.a == low && c.n == n / 2 && c.key == x.key
    requires c.look.next != null && c.look.next != oldNext && c.look.nextNext == oldNext && c.look.nextRecords == b
    ensures OneSwitch(Views(seen[from..], oldNext, rest), [a] + rest, [t, b] + rest)
    ensures FirstKept(seen, from, a, n, x.key)
    ensures n / 2 < |t| && t[n / 2].key < b[0].key && (x.key > a[0].key ==> t[0] == a[0])
    ensures n - n / 2 < |b| && (rest != [] ==> b[n - n / 2 - 1].key < rest[0][0].key)
    ensures forall k :: Chain([t, b] + rest, k) == if k == x.key then x.ptr else Chain([a] + rest, k)
  {
    SplitUpMeans(a, n, low, b, rest);
    hide SplitUp, Accepts, Grown, SameFinds, Path, Shown, OneSwitch;
    GrownEnds(low, n / 2, x, t);
    ChainLow(low, t, b, rest, n / 2, x);
    SameMeans([low, b] + rest, [a] + rest);
    LowTrace(seen, from, mid, w, [a] + rest, oldNext, low, t, b, c, rest);
    LowFirstKept(seen, from, mid, w, a, low, t, c);
  }

  lemma SameMeans(p: seq<seq<Record>>, q: seq<seq<Record>>)
    requires SameFinds(p, q)
    ensures Solid(p) && Solid(q) && forall k :: Chain(p, k) == Chain(q, k)
  {
  }

  /** The pair has gone to the upper page. */
  lemma HighDone(a: seq<Record>, n: nat, low: seq<Record>, b: seq<Record>, x: Record, t: seq<Record>,
                 rest: seq<seq<Record>>, seen: seq<Sight>, from: nat, upper: seq<Sight>, w: nat, oldNext: Page?,
                 c: Insertion)
    requires SplitUp(a, n, low, b, rest) && Accepts(b, n - n / 2, x) && Grown(b, n - n / 2, x, t) && x.key > b[0].key
    requires rest != [] ==> x.key < rest[0][0].key
    requires from <= |seen| && forall i :: from <= i < |seen| ==>
               && SameFinds(Path(seen[i], oldNext, rest), [a] + rest)
               && seen[i].records != [] && seen[i].records[0] == a[0]
    requires Shown(upper, 0, w, b, c) && Shown(upper, w, |upper|, t, c)
    requires c.a == b && c.n == n - n / 2 && c.key == x.key
    ensures OneSwitch(Views(seen[from..], oldNext, rest) + Behind(low, upper, rest), [a] + rest, [low, t] + rest)
    ensures FirstKept(seen, from, a, n, x.key) && |low| == |a| > n / 2 && t != [] && low[n / 2 - 1].key < t[0].key
    ensures low[0] == a[0] && n - n / 2 < |t| && (rest != [] ==> t[n - n / 2].key < rest[0][0].key)
    ensures forall k :: Chain([low, t] + rest, k) == if k == x.key then x.ptr else Chain([a] + rest, k)
  {
    var m := n / 2;
    SplitUpMeans(a, n, low, b, rest);
    BelowNothing(a, n, m, low, x.key);
    hide SplitUp, Accepts, Grown, SameFinds, Path, Shown, OneSwitch, Forward;
    GrownEnds(b, n - m, x, t);
    UpperFirst(b, n - m, x, t);
    ChainHigh(low, b, t, rest, n - m, x);
    SameMeans([low, b] + rest, [a] + rest);
    HighTrace(seen, from, [a] + rest, oldNext, low, b, t, upper, w, c, rest);
    SplitFirstKept(seen, from, a, x.key);
  }

  ghost function Prefixed(c: seq<seq<Record>>, t: seq<seq<seq<Record>>>): (p: seq<seq<seq<Record>>>)
    ensures |p| == |t| && forall i :: 0 <= i < |p| ==> p[i] == c + t[i]
  {
    seq(|t|, i requires 0 <= i < |t| => c + t[i])
  }

  /** What readers that start at the first page can go through since sight number `from` of page `at`, where `c` is what
      the pages held. */
  ghost function Trace(pages: seq<Page>, at: nat, from: nat, oldNext: Page?, c: seq<seq<Record>>)
    : seq<seq<seq<Record>>>
    requires at < |pages| == |c| && from <= |pages[at].seen|
    reads pages[at], pages[at].records, if pages[at].sibling == null then {} else {pages[at].sibling}
  {
    Prefixed(c[..at], TraceOf(pages[at], from, oldNext, c[at + 1..]))
  }

  /** All chains start with this key. */
  ghost predicate Starts(t: seq<seq<seq<Record>>>, key: int) {
    forall i :: 0 <= i < |t| ==> StartsAt(t[i], key)
  }

  ghost predicate StartsAt(p: seq<seq<Record>>, key: int) {
    p != [] && p[0] != [] && p[0][0].key == key
  }

  lemma TraceHere(pages: seq<Page>, from: nat, oldNext: Page?, c: seq<seq<Record>>)
    requires pages != [] && |pages| == |c| && from <= |pages[0].seen|
    ensures Trace(pages, 0, from, oldNext, c) == TraceOf(pages[0], from, oldNext, c[1..])
  {
    var t := TraceOf(pages[0], from, oldNext, c[1..]);
    assert forall i :: 0 <= i < |t| ==> c[..0] + t[i] == t[i];
  }

  lemma TraceStarts(p: Page, from: nat, oldNext: Page?, rest: seq<seq<Record>>, a: seq<Record>, n: int, key: int)
    requires from <= |p.seen| && FirstKept(p.seen, from, a, n, key) && n > 0 && a != [] && key > a[0].key
    requires p.records.Length > 0 && p.records[0].key == a[0].key
    ensures Starts(TraceOf(p, from, oldNext, rest), a[0].key)
  {
    var v := Views(p.seen[from..], oldNext, rest);
    forall i | 0 <= i < |v| ensures StartsAt(v[i], a[0].key) {
      assert p.seen[from..][i] == p.seen[from + i];
    }
  }

  /** Seen from the page in front. */
  lemma TraceFurther(pages: seq<Page>, at: nat, from: nat, oldNext: Page?, c: seq<Record>, d: seq<seq<Record>>,
                     d': seq<seq<Record>>)
    requires |pages| == |d| + 1 && at < |d| && from <= |pages[1..][at].seen| && c != [] && Solid(d) && Solid(d')
    requires d != [] && d' != [] && d'[0][0].key == d[0][0].key
    requires OneSwitch(Trace(pages[1..], at, from, oldNext, d), d, d')
    requires Starts(Trace(pages[1..], at, from, oldNext, d), d[0][0].key)
    ensures OneSwitch(Trace(pages, at + 1, from, oldNext, [c] + d), [c] + d, [c] + d')
    ensures Starts(Trace(pages, at + 1, from, oldNext, [c] + d), c[0].key)
  {
    hide Chain, SameFinds, Trace;
    TraceShifted(pages, at, from, oldNext, c, d);
    SwitchFurther(Trace(pages[1..], at, from, oldNext, d), Trace(pages, at + 1, from, oldNext, [c] + d), c, d, d');
  }

  lemma TraceShifted(pages: seq<Page>, at: nat, from: nat, oldNext: Page?, c: seq<Record>, d: seq<seq<Record>>)
    requires |pages| == |d| + 1 && at < |d| && from <= |pages[1..][at].seen|
    ensures var t, t' := Trace(pages[1..], at, from, oldNext, d), Trace(pages, at + 1, from, oldNext, [c] + d);
            |t'| == |t| && forall i :: 0 <= i < |t| ==> t'[i] == [c] + t[i]
  {
    hide Chain;
    assert ([c] + d)[..at + 1] == [c] + d[..at] && ([c] + d)[at + 1 + 1..] == d[at + 1..];
    var t, t' := Trace(pages[1..], at, from, oldNext, d), Trace(pages, at + 1, from, oldNext, [c] + d);
    forall i | 0 <= i < |t| ensures t'[i] == [c] + t[i] {
    }
  }

  lemma SwitchFurther(t: seq<seq<seq<Record>>>, t': seq<seq<seq<Record>>>, c: seq<Record>, d: seq<seq<Record>>,
                      d': seq<seq<Record>>)
    requires c != [] && Solid(d) && Solid(d') && d != [] && d' != [] && d'[0][0].key == d[0][0].key
    requires |t'| == |t| && forall i :: 0 <= i < |t| ==> t'[i] == [c] + t[i]
    requires OneSwitch(t, d, d') && Starts(t, d[0][0].key)
    ensures OneSwitch(t', [c] + d, [c] + d') && Starts(t', c[0].key)
  {
    hide Chain, SameFinds;
    var w: nat :| w <= |t| && SwitchesAt(t, d, d', w);
    forall i | 0 <= i < |t'|
      ensures SameFinds(t'[i], if i < w then [c] + d else [c] + d') && StartsAt(t'[i], c[0].key)
    {
      assert StartsAt(t[i], d[0][0].key) && SameFinds(t[i], if i < w then d else d');
      SameFront(c, t[i], if i < w then d else d');
    }
    assert SwitchesAt(t', [c] + d, [c] + d', w);
  }

  lemma SameFront(c: seq<Record>, p: seq<seq<Record>>, q: seq<seq<Record>>)
    requires SameFinds(p, q) && p != [] && q != [] && p[0][0].key == q[0][0].key && c != []
    ensures SameFinds([c] + p, [c] + q)
  {
    forall k ensures Chain([c] + p, k) == Chain([c] + q, k) {
      assert ([c] + p)[1..] == p && ([c] + q)[1..] == q;
      assert ([c] + p)[1] == p[0] && ([c] + q)[1] == q[0];
    }
  }

  lemma TraceIs(p: Page, from: nat, oldNext: Page?, rest: seq<seq<Record>>)
    requires from <= |p.seen| && p.sibling != oldNext && p.sibling != null
    ensures TraceOf(p, from, oldNext, rest) ==
            Views(p.seen[from..], oldNext, rest) + Behind(p.records[..], p.sibling.seen, rest)
    ensures p.sibling.seen == [] ==> TraceOf(p, from, oldNext, rest) == Views(p.seen[from..], oldNext, rest)
  {
  }

  lemma SplitFirstKept(seen: seq<Sight>, from: nat, a: seq<Record>, key: int)
    requires a != [] && forall i :: from <= i < |seen| ==> seen[i].records != [] && seen[i].records[0] == a[0]
    ensures forall n :: FirstKept(seen, from, a, n, key)
  {
  }

  lemma PageIs(p: Page)
    requires PageOk(p)
    ensures p.records.Length >= 3 && 0 <= p.lastIndex + 1 < p.records.Length && Fair(p.records[..], p.lastIndex + 1)
  {
  }

  lemma PagesAre(p: Page, q: Page, rest: seq<seq<Record>>)
    requires p.records.Length >= 3 && q.records.Length >= 3
    requires 0 <= p.lastIndex && Fair(p.records[..], p.lastIndex + 1)
    requires 0 <= q.lastIndex && Fair(q.records[..], q.lastIndex + 1)
    requires p.lastIndex < p.records.Length && p.records[p.lastIndex].key < q.records[0].key
    requires rest != [] ==> rest[0] != [] && q.lastIndex < q.records.Length
                            && q.records[q.lastIndex].key < rest[0][0].key
    ensures PageOk(p) && PageOk(q) && Before(p, q) && EndsBelow(q, rest)
  {
  }

  lemma ShownIs(seen: seq<Sight>, from: nat, to: nat, read: seq<Record>, c: Insertion, i: nat)
    requires Shown(seen, from, to, read, c) && from <= i < to
    ensures i < |seen| && ShownAt(seen[i], read, c)
  {
  }

  /** An insert without a split, as seen through the page. */
  lemma InsertTrace(seen: seq<Sight>, from: nat, w: nat, a: seq<Record>, b: seq<Record>, c: Insertion,
                    rest: seq<seq<Record>>)
    requires Shown(seen, from, w, a, c) && Shown(seen, w, |seen|, b, c) && c.apart && Solid(rest)
    ensures from <= |seen| && OneSwitch(Views(seen[from..], c.look.next, rest), [a] + rest, [b] + rest)
  {
    hide Shown, ReadsLike, SameFinds;
    ShownReads(seen, from, w, a, c);
    var t := Views(seen[from..], c.look.next, rest);
    forall i | 0 <= i < |t| ensures SameFinds(t[i], if i < w - from then [a] + rest else [b] + rest) {
      assert seen[from..][i] == seen[from + i];
      ShownIs(seen, if i < w - from then from else w, if i < w - from then w else |seen|, if i < w - from then a else b,
              c, from + i);
      FrontReads(seen[from + i].records, if i < w - from then a else b, rest);
    }
    assert SwitchesAt(t, [a] + rest, [b] + rest, w - from);
  }

  /** An insert into the lower page after a split. */
  lemma LowTrace(seen: seq<Sight>, from: nat, mid: nat, w: nat, old_: seq<seq<Record>>, oldNext: Page?,
                 low: seq<Record>, t: seq<Record>, b: seq<Record>, c: Insertion, rest: seq<seq<Record>>)
    requires from <= mid <= |seen| && Solid(rest) && b != [] && SameFinds([low, b] + rest, old_)
    requires forall i :: from <= i < mid ==> SameFinds(Path(seen[i], oldNext, rest), old_)
    requires Shown(seen, mid, w, low, c) && Shown(seen, w, |seen|, t, c) && c.apart
    requires c.look.next != null && c.look.next != oldNext && c.look.nextNext == oldNext && c.look.nextRecords == b
    ensures OneSwitch(Views(seen[from..], oldNext, rest), old_, [t, b] + rest)
  {
    hide Shown, ReadsLike, SameFinds, Path;
    ShownReads(seen, mid, w, low, c);
    var v := Views(seen[from..], oldNext, rest);
    forall i | 0 <= i < |v| ensures SameFinds(v[i], if i < w - from then old_ else [t, b] + rest) {
      assert seen[from..][i] == seen[from + i];
      if from + i >= mid {
        var read := if from + i < w then low else t;
        ShownIs(seen, if from + i < w then mid else w, if from + i < w then w else |seen|, read, c, from + i);
        var s := seen[from + i].records;
        PathOver(seen[from + i], oldNext, rest);
        FrontReads(s, read, [b] + rest);
        assert [s, b] + rest == [s] + ([b] + rest) && [read, b] + rest == [read] + ([b] + rest);
        if from + i < w {
          SameThrough(v[i], [low, b] + rest, old_);
        }
      }
    }
    assert SwitchesAt(v, old_, [t, b] + rest, w - from);
  }

  /** An insert into the upper page after a split. */
  lemma HighTrace(seen: seq<Sight>, from: nat, old_: seq<seq<Record>>, oldNext: Page?, low: seq<Record>, b: seq<Record>,
                  t: seq<Record>, upper: seq<Sight>, w: nat, c: Insertion, rest: seq<seq<Record>>)
    requires from <= |seen| && Solid(rest) && low != [] && b != [] && SameFinds([low, b] + rest, old_)
    requires forall i :: from <= i < |seen| ==> SameFinds(Path(seen[i], oldNext, rest), old_)
    requires Shown(upper, 0, w, b, c) && Shown(upper, w, |upper|, t, c)
    requires c.a == b && c.n > 0 && c.key > b[0].key && t != [] && t[0] == b[0]
    ensures OneSwitch(Views(seen[from..], oldNext, rest) + Behind(low, upper, rest), old_, [low, t] + rest)
  {
    hide Shown, ReadsLike, SameFinds, Path;
    ShownReads(upper, 0, w, b, c);
    var v, h := Views(seen[from..], oldNext, rest), Behind(low, upper, rest);
    var n := |seen| - from;
    forall i | 0 <= i < |v + h| ensures SameFinds((v + h)[i], if i < n + w then old_ else [low, t] + rest) {
      if i < n {
        assert seen[from..][i] == seen[from + i];
      } else {
        var j := i - n;
        var read := if j < w then b else t;
        ShownIs(upper, if j < w then 0 else w, if j < w then w else |upper|, read, c, j);
        SecondReads(low, upper[j].records, read, rest);
        if j < w {
          SameThrough(h[j], [low, b] + rest, old_);
        }
      }
    }
    assert SwitchesAt(v + h, old_, [low, t] + rest, n + w);
  }

  lemma NoneShown(seen: seq<Sight>, read: seq<Record>, c: Insertion)
    ensures Shown(seen, |seen|, |seen|, read, c)
  {
  }

  class Page {
    const records: array<Record>
    var switchCounter: Counter
    var lastIndex: int
    var sibling: Page?
    /** What readers can reach after every store to a slot or to the link. */
    ghost var seen: seq<Sight>

    constructor (cardinality: nat)
      requires cardinality >= 3
      ensures Fair(records[..], 0) && lastIndex == -1 && records.Length == cardinality && fresh(records)
    {
      records := new Record[cardinality](_ => Record(0, NULL));
      switchCounter, lastIndex, sibling, seen := 0, -1, null, [];
    }

    method StorePtr(i: nat, p: nat)
      requires i < records.Length
      modifies records, this`seen
      ensures records[..] == old(records[..])[i := old(records[i]).(ptr := p)]
      ensures seen == old(seen) + [Look()] && (SiblingApart() ==> SameBeyond(Look(), old(Look())))
    {
      records[i] := records[i].(ptr := p);
      seen := seen + [Look()];
    }

    method StoreKey(i: nat, k: int)
      requires i < records.Length
      modifies records, this`seen
      ensures records[..] == old(records[..])[i := old(records[i]).(key := k)]
      ensures seen == old(seen) + [Look()] && (SiblingApart() ==> SameBeyond(Look(), old(Look())))
    {
      records[i] := records[i].(key := k);
      seen := seen + [Look()];
    }

    method StoreLink(next: Page)
      modifies this`sibling, this`seen
      ensures sibling == next && seen == old(seen) + [Look()]
    {
      sibling := next;
      seen := seen + [Look()];
    }

    /** The page as a reader finds it now, and the page it goes on to. */
    ghost function Look(): (s: Sight)
      reads this, records, if sibling == null then {} else {sibling, sibling.records}
      ensures s.records == records[..] && s.next == sibling
    {
      Sight(records[..], sibling, if sibling == null then [] else sibling.records[..],
            if sibling == null then null else sibling.sibling)
    }

    /** The sibling is another page. */
    ghost predicate SiblingApart()
      reads this
    {
      sibling != null ==> sibling != this && sibling.records != records
    }

    /** `insert_key`: after every store up to number `w` readers see the old page, and from then on the new one. */
    method InsertKey(key: int, ptr: nat, numEntries: nat) returns (n: nat, ghost w: nat)
      requires Accepts(records[..], numEntries, Record(key, ptr))
      modifies this, records
      ensures n == numEntries + 1 && lastIndex == numEntries && sibling == old(sibling)
      ensures switchCounter == if IsForward(old(switchCounter)) then old(switchCounter) else Bump(old(switchCounter), 1)
      ensures Grown(old(records[..]), numEntries, Record(key, ptr), records[..]) && Fair(records[..], n)
      ensures old(seen) <= seen && |old(seen)| <= w < |seen| && seen[|seen| - 1].records == records[..]
      ensures forall i :: |old(seen)| <= i < w ==> ReadsLike(seen[i].records, old(records[..]))
      ensures forall i :: w <= i < |seen| ==> ReadsLike(seen[i].records, records[..])
      ensures Shown(seen, |old(seen)|, w, old(records[..]), InsertOf(old(Look()), numEntries, key, old(SiblingApart())))
      ensures Shown(seen, w, |seen|, records[..], InsertOf(old(Look()), numEntries, key, old(SiblingApart())))
    {
      hide ReadsLike, Forward, Accepts, Grown, Place, Fair, Bump, Shown;
      ghost var a, x := records[..], Record(key, ptr);
      AcceptsMeans(a, numEntries, x);
      if !IsForward(switchCounter) {
        switchCounter := Bump(switchCounter, 1);
      }
      if numEntries == 0 {
        w := InsertFirst(key, ptr);
      } else {
        w := InsertShifting(key, ptr, numEntries);
      }
      GrownFair(a, numEntries, x, records[..]);
      ghost var c := InsertOf(old(Look()), numEntries, key, old(SiblingApart()));
      ShownReads(seen, |old(seen)|, w, a, c);
      ShownReads(seen, w, |seen|, records[..], c);
      lastIndex := numEntries;
      n := numEntries + 1;
    }

    method InsertFirst(key: int, ptr: nat) returns (ghost w: nat)
      requires Accepts(records[..], 0, Record(key, ptr))
      modifies this`seen, records
      ensures Grown(old(records[..]), 0, Record(key, ptr), records[..])
      ensures old(seen) <= seen && |old(seen)| <= w < |seen| && seen[|seen| - 1].records == records[..]
      ensures Shown(seen, |old(seen)|, w, old(records[..]), InsertOf(old(Look()), 0, key, old(SiblingApart())))
      ensures Shown(seen, w, |seen|, records[..], InsertOf(old(Look()), 0, key, old(SiblingApart())))
    {
      hide ReadsLike, Look;
      ghost var a, x := records[..], Record(key, ptr);
      StoreKey(0, key);
      AlikeReads(a, 0, records[..]);
      w := |seen|;
      StorePtr(0, ptr);
      ghost var s := records[..];
      StorePtr(1, NULL);
      GrownFair(a, 0, x, records[..]);
      AlikeReads(records[..], 1, s);
      AlikeReads(records[..], 1, records[..]);
    }

    method InsertShifting(key: int, ptr: nat, numEntries: nat) returns (ghost w: nat)
      requires Accepts(records[..], numEntries, Record(key, ptr)) && numEntries > 0
      modifies this`seen, records
      ensures Grown(old(records[..]), numEntries, Record(key, ptr), records[..])
      ensures old(seen) <= seen && |old(seen)| <= w == |seen| - 1 && seen[w].records == records[..]
      ensures Shown(seen, |old(seen)|, w, old(records[..]), InsertOf(old(Look()), numEntries, key, old(SiblingApart())))
      ensures Shown(seen, w, |seen|, records[..], InsertOf(old(Look()), numEntries, key, old(SiblingApart())))
    {
      hide ReadsLike, Forward, Grown, Place, Visible, Shown, Look, Shifting, Accepts, Fair;
      ghost var a, x := records[..], Record(key, ptr);
      ghost var from, c := |seen|, InsertOf(Look(), numEntries, key, SiblingApart());
      AcceptsFair(a, numEntries, x);
      var j := ShiftUp(key, numEntries);
      FillSteps(a, numEntries, records[..], j, x);
      ghost var log := seen;
      StorePtr(j, if j > 0 then records[j - 1].ptr else NULL);
      ShownMore(log, from, Look(), a, c);
      log := seen;
      StoreKey(j, key);
      ShownMore(log, from, Look(), a, c);
      w, log := |seen|, seen;
      StorePtr(j, ptr);
      ShownStill(log, from, w, Look(), a, c);
      NoneShown(log, records[..], c);
      ShownMore(log, w, Look(), records[..], c);
    }

    /** Copies the entries with greater keys one slot up, pointer before key, from the last one down. */
    method ShiftUp(key: int, numEntries: nat) returns (j: nat)
      requires Fair(records[..], numEntries) && 0 < numEntries && numEntries + 1 < records.Length
      modifies this`seen, records
      ensures Shifting(old(records[..]), numEntries, records[..], j) && (j > 0 ==> old(records[..])[j - 1].key <= key)
      ensures forall t :: j <= t < numEntries ==> key < old(records[..])[t].key
      ensures old(seen) <= seen
      ensures Shown(seen, |old(seen)|, |seen|, old(records[..]),
                    InsertOf(old(Look()), numEntries, key, old(SiblingApart())))
      ensures old(SiblingApart()) ==> SameBeyond(Look(), old(Look()))
    {
      hide ReadsLike, Forward, Visible, Shown, Look, Shifting, Fair;
      ghost var a := records[..];
      ghost var from, c, log := |seen|, InsertOf(Look(), numEntries, key, SiblingApart()), seen;
      NoneShown(seen, a, c);
      StorePtr(numEntries + 1, records[numEntries].ptr);
      ShiftStart(a, numEntries, records[..]);
      ShownMore(log, from, Look(), a, c);
      j := numEntries;
      while j > 0 && key < records[j - 1].key
        invariant j <= numEntries && Shifting(a, numEntries, records[..], j) && |a| == records.Length
        invariant j > 0 ==> records[j - 1] == a[j - 1]
        invariant forall t :: j <= t < numEntries ==> key < a[t].key
        invariant old(seen) <= seen && Shown(seen, from, |seen|, a, c) && (c.apart ==> SameBeyond(Look(), c.look))
      {
        log := seen;
        ShiftStep(a, numEntries, records[..], j);
        StorePtr(j, records[j - 1].ptr);
        ShownMore(log, from, Look(), a, c);
        log := seen;
        StoreKey(j, records[j - 1].key);
        ShownMore(log, from, Look(), a, c);
        j := j - 1;
      }
    }

    /** `remove_key`: from the first store on readers from the right miss the key and find all others. */
    method RemoveKey(key: int, ghost n: nat) returns (shift: bool, ghost r: nat)
      requires Fair(records[..], n) && lastIndex == n - 1
      modifies this, records
      ensures shift <==> exists i :: 0 <= i < n && old(records[..])[i].key == key
      ensures old(seen) <= seen
      ensures !shift ==> seen == old(seen) && records[..] == old(records[..]) && lastIndex == n - 1
      ensures shift ==> r < n && old(records[..])[r].key == key && lastIndex == n - 2
      ensures switchCounter == if IsForward(old(switchCounter)) then Bump(old(switchCounter), 1) else old(switchCounter)
      ensures shift ==> Alike(Without(old(records[..]), n, r), n - 1, records[..])
      ensures shift ==> (Parted(old(records[..]), n, r) ==> Fair(records[..], n - 1)) && |old(seen)| < |seen|
      ensures shift ==> forall i :: |old(seen)| <= i < |seen| ==>
                && ReadsBackLike(seen[i].records, n, Without(old(records[..]), n, r), n - 1)
                && CountsTo(seen[i].records, n)
    {
      hide ReadsBackLike, Visible, Without, IsForward, Bump, CountsTo;
      ghost var a := records[..];
      if IsForward(switchCounter) {
        switchCounter := Bump(switchCounter, 1);
      }
      shift, r := false, 0;
      var i := 0;
      NotNull(a, n);
      while records[i].ptr != NULL && records[i].key != key
        invariant i <= n && records[..] == a && seen == old(seen)
        invariant forall t :: 0 <= t < i ==> a[t].key != key
        decreases n - i
      {
        i := i + 1;
      }
      if records[i].ptr != NULL {
        shift, r := true, i;
        RemoveAt(i, n);
        lastIndex := lastIndex - 1;
      }
    }

    /** Hides entry `r` and copies the entries behind it one slot down, key before pointer. */
    method RemoveAt(r: nat, ghost n: nat)
      requires Fair(records[..], n) && r < n
      modifies this`seen, records
      ensures Alike(Without(old(records[..]), n, r), n - 1, records[..])
      ensures (Parted(old(records[..]), n, r) ==> Fair(records[..], n - 1)) && |old(seen)| < |seen| && old(seen) <= seen
      ensures forall i :: |old(seen)| <= i < |seen| ==>
                && ReadsBackLike(seen[i].records, n, Without(old(records[..]), n, r), n - 1)
                && CountsTo(seen[i].records, n)
    {
      hide ReadsBackLike, Visible, Without, Removing, Hidden, Alike, Fair, Look, SameBeyond;
      ghost var a := records[..];
      FairRange(a, n);
      ghost var b := Without(a, n, r);
      NotNull(a, n);
      StorePtr(r, if r == 0 then NULL else records[r - 1].ptr);
      RemovalStarts(a, n, r, records[..]);
      HiddenReadsBack(b, n - 1, records[..], r);
      var i := r;
      while i == r || records[i].ptr != NULL
        invariant r <= i <= n < |a| == records.Length && Removing(a, n, r, records[..], i)
                  && (i > r ==> records[i] == a[i])
        invariant |old(seen)| < |seen| && old(seen) <= seen
        invariant forall t :: |old(seen)| <= t < |seen| ==>
                    ReadsBackLike(seen[t].records, n, b, n - 1) && CountsTo(seen[t].records, n)
        invariant CountsTo(records[..], n)
        decreases n - i
      {
        MoveDown(i, a, n, r);
        i := i + 1;
      }
      RemovalEnds(a, n, r, records[..]);
      if Parted(a, n, r) {
        WithoutFair(a, n, r);
        AlikeFair(b, n - 1, records[..]);
      }
    }

    /** Moves the next entry down to slot `i`: its key, then its pointer. */
    method MoveDown(i: nat, ghost a: seq<Record>, ghost n: nat, ghost r: nat)
      requires Fair(a, n) && r <= i < n < |a| == records.Length && Removing(a, n, r, records[..], i)
      requires CountsTo(records[..], n)
      modifies this`seen, records
      ensures Removing(a, n, r, records[..], i + 1) && records[i + 1] == a[i + 1] && CountsTo(records[..], n)
      ensures old(seen) <= seen
      ensures forall t :: |old(seen)| <= t < |seen| ==>
                ReadsBackLike(seen[t].records, n, Without(a, n, r), n - 1) && CountsTo(seen[t].records, n)
    {
      hide ReadsBackLike, Visible, Without, Removing, Hidden, Alike, Fair, SameBeyond;
      ghost var s, b := records[..], Without(a, n, r);
      RemovalStep(a, n, r, s, i);
      StoreKey(i, records[i + 1].key);
      HiddenReadsBack(b, n - 1, records[..], i);
      StorePtr(i, records[i + 1].ptr);
      assert records[..] == s[i := s[i + 1]];
      if i + 1 < n {
        HiddenReadsBack(b, n - 1, records[..], i + 1);
      } else {
        AlikeReadsBack(b, n - 1, records[..]);
      }
    }

    /** The first part of an overflow: a new sibling with the upper half is linked, then the page is cut off. After
        either step every search through the siblings finds what it found before. */
    method Split(ghost rest: seq<seq<Record>>) returns (sib: Page)
      requires records.Length >= 3 && Fair(records[..], records.Length - 1)
      requires (forall i :: 0 <= i < |rest| ==> rest[i] != [])
      requires rest != [] ==> records[records.Length - 2].key < rest[0][0].key
      modifies this, records
      ensures fresh(sib) && fresh(sib.records) && sib.records.Length == records.Length && sibling == sib
      ensures sib.sibling == old(sibling) && sib.seen == []
      ensures switchCounter == Bump(old(switchCounter), if IsForward(old(switchCounter)) then 2 else 1)
      ensures |seen| > 0 && seen[|seen| - 1] == Look()
      ensures var a, n, m := old(records[..]), records.Length - 1, (records.Length - 1) / 2;
              && 0 < m < n && UpperHalf(a, n, m, sib.records[..]) && lastIndex == m - 1 && sib.lastIndex == n - m - 1
              && records[..] == a[m := a[m].(ptr := NULL)]
              && forall k :: Chain([a] + rest, k) == Chain([a, sib.records[..]] + rest, k)
                             == Chain([records[..], sib.records[..]] + rest, k)
      ensures old(seen) < seen && forall i :: |old(seen)| <= i < |seen| ==>
                && SameFinds(Path(seen[i], old(sibling), rest), [old(records[..])] + rest)
                && seen[i].records != [] && seen[i].records[0] == old(records[0])
    {
      hide Fair, Chain, ReadsLike, IsForward, Bump, SameFinds, Path;
      ghost var a := records[..];
      var n := records.Length - 1;
      var m := n / 2;
      sib := CopyUpper(m, n);
      sib.sibling := sibling;
      StoreLink(sib);
      switchCounter := if IsForward(switchCounter) then Bump(switchCounter, 2) else Bump(switchCounter, 1);
      SplitSeen(a, n, m, sib.records[..], rest);
      PathOver(Look(), old(sibling), rest);
      StorePtr(m, NULL);
      PathOver(Look(), old(sibling), rest);
      lastIndex := m - 1;
    }

    /** A new page, unknown to readers, with the entries from `m` on. */
    method CopyUpper(m: nat, n: nat) returns (sib: Page)
      requires Fair(records[..], n) && 0 < m < n < records.Length && records.Length >= 3
      ensures fresh(sib) && fresh(sib.records) && sib.records.Length == records.Length
      ensures UpperHalf(records[..], n, m, sib.records[..]) && sib.lastIndex == n as int - m - 1
      ensures sib.seen == []
    {
      hide Fair, Grown, Accepts, ReadsLike, IsForward, Place;
      ghost var a := records[..];
      sib := new Page(records.Length);
      var count := 0;
      for i := m to n
        invariant count == i - m && Fair(sib.records[..], count) && sib.lastIndex == count as int - 1
        invariant fresh(sib) && fresh(sib.records) && sib.records.Length == records.Length
        invariant forall j :: m <= j < i ==> sib.records[j - m] == a[j]
      {
        ghost var before := sib.records[..];
        AppendAccepted(a, n, m, i, before);
        ghost var w;
        count, w := sib.InsertKey(records[i].key, records[i].ptr, count);
        Appended(before, i - m, a[i], sib.records[..]);
        assert forall j :: 0 <= j < i - m ==> sib.records[j] == sib.records[..][j] == before[j];
      }
      sib.seen := [];
    }

    /** `store` in a leaf: passes a key above the first one of the sibling on to it. Through the siblings exactly the
        new key is found in addition; after every store, all of them to page `at` or to its new sibling, what was found
        before it all or what is found at the end. */
    method Store(key: int, ptr: nat, ghost pages: seq<Page>)
      returns (ret: Page, ghost pages': seq<Page>, ghost at: nat)
      requires pages != [] && pages[0] == this && Joined(pages) && TakesIn(pages, Record(key, ptr))
      modifies pages, set p | p in pages :: p.records
      ensures Joined(pages') && pages' != [] && pages'[0] == this && ret in pages'
      ensures forall p :: p in pages' ==> p in pages || (fresh(p) && fresh(p.records))
      ensures old(lastIndex) >= 0 ==>
                lastIndex >= 0 && (key > old(records[0].key) ==> records[0].key == old(records[0].key))
      ensures forall k :: Found(pages', k) == if k == key then ptr else old(Found(pages, k))
      ensures at < |pages| && forall i :: 0 <= i < |pages| && i != at ==> pages[i].seen == old(pages[i].seen)
      ensures old(pages[at].seen) <= pages[at].seen
      ensures OneSwitch(Trace(pages, at, |old(pages[at].seen)|, old(pages[at].sibling), old(Contents(pages))),
                        old(Contents(pages)), Contents(pages'))
      ensures old(lastIndex) >= 0 && key > old(records[0].key) ==>
                Starts(Trace(pages, at, |old(pages[at].seen)|, old(pages[at].sibling), old(Contents(pages))),
                       old(records[0].key))
      decreases |pages|
    {
      hide Fair, Chain, Takes, PageOk, Contents, Joined, TakesIn, Found, Forward, OneSwitch, Starts, Trace;
      ghost var c, rest := records[..], pages[1..];
      JoinedFirst(pages);
      TakesFirst(pages, Record(key, ptr));
      if sibling == null || key <= sibling.records[0].key {
        ret, pages' := StoreFirst(key, ptr, pages);
        at := 0;
        return;
      }
      ghost var d := Contents(rest);
      FoundIs(pages, [c] + d);
      FoundIs(rest, d);
      AboveNothing(this, key);
      ret, pages', at := sibling.Store(key, ptr, rest);
      ghost var d' := Contents(pages');
      FoundIs(pages', d');
      JoinedFirst(pages');
      assert PageOk(this) && records[..] == c;
      PageRange(pages'[0]);
      ChainForward(c, d, d', key, ptr);
      TraceFurther(pages, at, |old(rest[at].seen)|, old(rest[at].sibling), c, d, d');
      JoinFront(this, pages');
      pages', at := [this] + pages', at + 1;
      FoundIs(pages', [c] + d');
    }

    /** The pair belongs to the first of the pages. */
    method StoreFirst(key: int, ptr: nat, ghost pages: seq<Page>) returns (ret: Page, ghost pages': seq<Page>)
      requires pages != [] && pages[0] == this && Joined(pages) && Takes(records[..], lastIndex + 1, Record(key, ptr))
      requires |pages| > 1 ==> key < pages[1].records[0].key
      modifies pages, set p | p in pages :: p.records
      ensures Joined(pages') && pages' != [] && pages'[0] == this && ret in pages'
      ensures forall p :: p in pages' ==> p in pages || (fresh(p) && fresh(p.records))
      ensures old(lastIndex) >= 0 ==>
                lastIndex >= 0 && (key > old(records[0].key) ==> records[0].key == old(records[0].key))
      ensures forall k :: Found(pages', k) == if k == key then ptr else old(Found(pages, k))
      ensures forall i :: 1 <= i < |pages| ==> pages[i].seen == old(pages[i].seen)
      ensures old(seen) <= seen
      ensures OneSwitch(Trace(pages, 0, |old(seen)|, old(sibling), old(Contents(pages))),
                        old(Contents(pages)), Contents(pages'))
      ensures old(lastIndex) >= 0 && key > old(records[0].key) ==>
                Starts(Trace(pages, 0, |old(seen)|, old(sibling), old(Contents(pages))), old(records[0].key))
    {
      hide Fair, Chain, Takes, PageOk, Contents, Joined, Found, Forward, OneSwitch, TraceOf, FirstKept;
      ghost var c, rest, from := records[..], pages[1..], |seen|;
      JoinedFirst(pages);
      ghost var d := Contents(rest);
      FoundIs(pages, [c] + d);
      FoundIs(rest, d);
      ret := StoreHere(key, ptr, d);
      PageRange(this);
      assert Contents(rest) == d && Joined(rest);
      TraceHere(pages, from, old(sibling), [c] + d);
      if key > c[0].key && old(lastIndex) >= 0 {
        TraceStarts(this, from, old(sibling), d, c, old(lastIndex) + 1, key);
      }
      if sibling == old(sibling) {
        JoinFront(this, rest);
        pages' := [this] + rest;
        FoundIs(pages', [records[..]] + d);
      } else {
        JoinTwo(this, sibling, rest);
        pages' := [this, sibling] + rest;
        FoundIs(pages', [records[..], sibling.records[..]] + d);
      }
    }

    /** `store` in the leaf that the key belongs to: inserts, after a split if the page is full. Through the siblings,
        whose pages are `rest`, exactly the new key is found in addition, and after every store either what was found
        before it all or what is found at the end. */
    method StoreHere(key: int, ptr: nat, ghost rest: seq<seq<Record>>) returns (ret: Page)
      requires PageOk(this) && Takes(records[..], lastIndex + 1, Record(key, ptr)) && SiblingApart()
      requires forall i :: 0 <= i < |rest| ==> rest[i] != []
      requires rest != [] ==> key < rest[0][0].key
      requires rest != [] && lastIndex >= 0 ==> records[lastIndex].key < rest[0][0].key
      modifies this, records
      ensures PageOk(this) && lastIndex >= 0 && (ret == this || ret == sibling)
      ensures old(lastIndex) >= 0 && key > old(records[0].key) ==> records[0].key == old(records[0].key)
      ensures sibling == old(sibling) ==> ret == this && EndsBelow(this, rest) && forall k ::
                Chain([records[..]] + rest, k) == if k == key then ptr else old(Chain([records[..]] + rest, k))
      ensures sibling != old(sibling) ==>
                && sibling != null && fresh(sibling) && fresh(sibling.records) && sibling.sibling == old(sibling)
                && PageOk(sibling) && Before(this, sibling) && EndsBelow(sibling, rest)
                && forall k :: Chain([records[..], sibling.records[..]] + rest, k) ==
                               if k == key then ptr else old(Chain([records[..]] + rest, k))
      ensures sibling == old(sibling) <==> old(lastIndex) + 1 < records.Length - 1
      ensures old(seen) <= seen && OneSwitch(TraceOf(this, |old(seen)|, old(sibling), rest), [old(records[..])] + rest,
                                             NowOf(this, old(sibling), rest))
      ensures FirstKept(seen, |old(seen)|, old(records[..]), old(lastIndex) + 1, key)
    {
      hide Fair, Chain, Grown, Accepts, ReadsLike, UpperHalf, IsForward, Bump, Place, Takes, OneSwitch, Shown;
      ghost var a, x := records[..], Record(key, ptr);
      var numEntries := lastIndex + 1;
      if numEntries < records.Length - 1 {
        CanAccept(a, numEntries, x);
        ghost var c, from := InsertOf(Look(), numEntries, key, true), |seen|;
        var n;
        ghost var w;
        n, w := InsertKey(key, ptr, numEntries);
        GrownEnds(a, numEntries, x, records[..]);
        forall k ensures Chain([records[..]] + rest, k) == if k == key then ptr else Chain([a] + rest, k) {
          GrownReads(a, numEntries, x, records[..], k);
          ChainInserted(a, records[..], rest, k, key, ptr);
        }
        InsertTrace(seen, from, w, a, records[..], c, rest);
        InsertFirstKept(seen, from, w, a, records[..], c);
        assert TraceOf(this, from, old(sibling), rest) == Views(seen[from..], c.look.next, rest);
        return this;
      }
      ret := StoreSplit(key, ptr, rest);
    }

    /** The overflow of a full page. */
    method StoreSplit(key: int, ptr: nat, ghost rest: seq<seq<Record>>) returns (ret: Page)
      requires PageOk(this) && lastIndex == records.Length - 2 && Takes(records[..], lastIndex + 1, Record(key, ptr))
      requires forall i :: 0 <= i < |rest| ==> rest[i] != []
      requires rest != [] ==> key < rest[0][0].key && records[lastIndex].key < rest[0][0].key
      modifies this, records
      ensures PageOk(this) && lastIndex >= 0 && (ret == this || ret == sibling)
      ensures key > old(records[0].key) ==> records[0].key == old(records[0].key)
      ensures sibling != null && fresh(sibling) && fresh(sibling.records) && sibling.sibling == old(sibling)
      ensures PageOk(sibling) && Before(this, sibling) && EndsBelow(sibling, rest)
      ensures forall k :: Chain([records[..], sibling.records[..]] + rest, k) ==
                          if k == key then ptr else old(Chain([records[..]] + rest, k))
      ensures old(seen) <= seen && OneSwitch(TraceOf(this, |old(seen)|, old(sibling), rest), [old(records[..])] + rest,
                                             [records[..], sibling.records[..]] + rest)
      ensures FirstKept(seen, |old(seen)|, old(records[..]), old(lastIndex) + 1, key)
    {
      hide Fair, Chain, Grown, Accepts, ReadsLike, UpperHalf, IsForward, Bump, Place, Takes, OneSwitch, Shown;
      hide SameFinds;
      hide Path, PageOk, Before, EndsBelow, TraceOf, FirstKept;
      ghost var a, x, old_, from := records[..], Record(key, ptr), [records[..]] + rest, |seen|;
      PageIs(this);
      var numEntries := lastIndex + 1;
      var splitKey := records[numEntries / 2].key;
      var sib := Split(rest);
      ghost var low, b, mid := records[..], sib.records[..], |seen|;
      SplitAccepts(a, numEntries, numEntries / 2, low, b, x);
      var n;
      ghost var w;
      if key < splitKey {
        ghost var c := InsertOf(Look(), numEntries / 2, key, SiblingApart());
        n, w := InsertKey(key, ptr, lastIndex + 1);
        LowDone(a, numEntries, low, b, x, records[..], rest, seen, from, mid, w, old(sibling), c);
        TraceIs(this, from, old(sibling), rest);
        ret := this;
      } else {
        ghost var c := InsertOf(sib.Look(), numEntries - numEntries / 2, key, sib.SiblingApart());
        n, w := sib.InsertKey(key, ptr, sib.lastIndex + 1);
        HighDone(a, numEntries, low, b, x, sib.records[..], rest, seen, from, sib.seen, w, old(sibling), c);
        TraceIs(this, from, old(sibling), rest);
        ret := sib;
      }
      PagesAre(this, sib, rest);
    }
  }

  /** The contents of the pages. */
  ghost function Contents(pages: seq<Page>): (c: seq<seq<Record>>)
    reads pages, set p | p in pages :: p.records
    ensures |c| == |pages|
  {
    if pages == [] then [] else [pages[0].records[..]] + Contents(pages[1..])
  }

  /** Pages at rest, each the sibling of the one before it and with greater keys. */
  ghost predicate Joined(pages: seq<Page>)
    reads pages, set p | p in pages :: p.records
  {
    pages != [] ==>
      PageOk(pages[0]) && NextOf(pages[0], pages[1..]) && Apart(pages[0], pages[1..]) && Joined(pages[1..])
  }

  ghost predicate NextOf(p: Page, rest: seq<Page>)
    reads p, p.records, rest, set q | q in rest :: q.records
  {
    if rest == [] then p.sibling == null else p.sibling == rest[0] && Before(p, rest[0])
  }

  ghost predicate Apart(p: Page, rest: seq<Page>) {
    forall q :: q in rest ==> q != p && q.records != p.records
  }

  lemma JoinedFirst(pages: seq<Page>)
    requires Joined(pages) && pages != []
    ensures PageOk(pages[0]) && NextOf(pages[0], pages[1..]) && Apart(pages[0], pages[1..]) && Joined(pages[1..])
    ensures Contents(pages) == [pages[0].records[..]] + Contents(pages[1..])
  {
  }

  lemma JoinFront(p: Page, rest: seq<Page>)
    requires PageOk(p) && NextOf(p, rest) && Apart(p, rest) && Joined(rest)
    ensures Joined([p] + rest) && Contents([p] + rest) == [p.records[..]] + Contents(rest)
  {
    assert ([p] + rest)[1..] == rest;
  }

  lemma JoinTwo(p: Page, q: Page, rest: seq<Page>)
    requires PageOk(p) && PageOk(q) && p != q && p.records != q.records && p.sibling == q && Before(p, q)
    requires Apart(p, rest) && Apart(q, rest) && NextOf(q, rest) && Joined(rest)
    ensures Joined([p, q] + rest) && Contents([p, q] + rest) == [p.records[..], q.records[..]] + Contents(rest)
  {
    hide PageOk, Joined, Contents, Before;
    JoinFront(q, rest);
    JoinFront(p, [q] + rest);
    assert [p] + ([q] + rest) == [p, q] + rest;
    assert [p.records[..]] + ([q.records[..]] + Contents(rest)) == [p.records[..], q.records[..]] + Contents(rest);
  }

  lemma {:induction false} ContentsFull(pages: seq<Page>)
    requires Joined(pages)
    ensures forall i :: 0 <= i < |Contents(pages)| ==> Contents(pages)[i] != []
    ensures pages != [] ==> Contents(pages)[0] == pages[0].records[..]
  {
    if pages != [] {
      ContentsFull(pages[1..]);
    }
  }

  /** What a search through the pages finds. */
  ghost function Found(pages: seq<Page>, k: int): nat
    requires Joined(pages)
    reads pages, set p | p in pages :: p.records
  {
    ContentsFull(pages);
    Chain(Contents(pages), k)
  }

  lemma FoundIs(pages: seq<Page>, c: seq<seq<Record>>)
    requires Joined(pages) && c == Contents(pages)
    ensures (forall i :: 0 <= i < |c| ==> c[i] != []) && (pages != [] ==> c[0] == pages[0].records[..])
    ensures |c| == |pages| && forall k :: Found(pages, k) == Chain(c, k)
  {
    ContentsFull(pages);
  }

  /** The page that a pair belongs to can take it. */
  ghost predicate TakesIn(pages: seq<Page>, x: Record)
    requires pages != [] && Joined(pages)
    reads pages, set p | p in pages :: p.records
  {
    if |pages| > 1 && x.key > pages[1].records[0].key then TakesIn(pages[1..], x)
    else
      && Takes(pages[0].records[..], pages[0].lastIndex + 1, x)
      && (|pages| > 1 ==> x.key != pages[1].records[0].key)
  }

  lemma TakesFirst(pages: seq<Page>, x: Record)
    requires pages != [] && Joined(pages) && TakesIn(pages, x)
    ensures var p := pages[0];
            if p.sibling != null && x.key > p.sibling.records[0].key then |pages| > 1 && TakesIn(pages[1..], x)
            else PageOk(p) && Takes(p.records[..], p.lastIndex + 1, x)
                 && (|pages| > 1 ==> x.key < pages[1].records[0].key)
  {
  }

  lemma PageRange(p: Page)
    requires PageOk(p)
    ensures p.lastIndex < p.records.Length
  {
  }

  /** A key above the first one of the sibling is not in the page. */
  lemma AboveNothing(p: Page, key: int)
    requires PageOk(p) && p.sibling != null && Before(p, p.sibling) && key > p.sibling.records[0].key
    ensures Forward(p.records[..], key, 0) == NULL
  {
    ForwardMiss(p.records[..], p.lastIndex + 1, key);
  }

  /** What is found in the rest of a chain in addition is found in the chain in addition. */
  lemma ChainForward(c: seq<Record>, d: seq<seq<Record>>, d': seq<seq<Record>>, key: int, ptr: nat)
    requires c != [] && d != [] && d' != []
    requires (forall i :: 0 <= i < |d| ==> d[i] != []) && forall i :: 0 <= i < |d'| ==> d'[i] != []
    requires d'[0][0].key == d[0][0].key < key && Forward(c, key, 0) == NULL
    requires forall k :: Chain(d', k) == if k == key then ptr else Chain(d, k)
    ensures forall k :: Chain([c] + d', k) == if k == key then ptr else Chain([c] + d, k)
  {
    assert ([c] + d')[1..] == d' && ([c] + d)[1..] == d;
    assert Chain(d', key) == ptr && ([c] + d')[1] == d'[0] && ([c] + d)[1] == d[0];
  }

  /** A page at rest whose last index is right. */
  ghost predicate PageOk(p: Page)
    reads p, p.records
  {
    p.records.Length >= 3 && 0 <= p.lastIndex + 1 < p.records.Length && Fair(p.records[..], p.lastIndex + 1)
  }

  ghost predicate EndsBelow(p: Page, rest: seq<seq<Record>>)
    reads p, p.records
  {
    rest != [] && rest[0] != [] && 0 <= p.lastIndex < p.records.Length ==> p.records[p.lastIndex].key < rest[0][0].key
  }

  /** The keys of `q` follow those of `p`. */
  ghost predicate Before(p: Page, q: Page)
    reads p, p.records, q, q.records
  {
    && 0 <= q.lastIndex < q.records.Length && p.lastIndex < p.records.Length
    && (p.lastIndex >= 0 ==> p.records[p.lastIndex].key < q.records[0].key)
  }

  /** First and last key after an insert. */
  lemma GrownEnds(a: seq<Record>, n: nat, x: Record, s: seq<Record>)
    requires Accepts(a, n, x) && Grown(a, n, x, s)
    ensures n + 1 < |s| && n < |a| && (s[n] == x || (n > 0 && s[n] == a[n - 1] && x.key < a[n - 1].key))
    ensures n > 0 && x.key > a[0].key ==> s[0] == a[0]
  {
    GrownAt(a, n, x, s, Place(a, n, x.key));
  }

  lemma SplitEnds(a: seq<Record>, n: nat, m: nat, low: seq<Record>, b: seq<Record>)
    requires Fair(a, n) && UpperHalf(a, n, m, b) && low == a[m := a[m].(ptr := NULL)]
    ensures n < |a| && n - m < |b| && b[n - m - 1] == a[n - 1] && b[0] == a[m] && low[0] == a[0]
    ensures low[m - 1].key < b[0].key
  {
    UpperAt(a, n, m, b);
  }

  /** The copying of a removal has come to slot `i`. */
  ghost predicate Removing(a: seq<Record>, n: nat, r: nat, s: seq<Record>, i: nat) {
    && r < n < |a| == |s| && r <= i <= n && (forall t :: i < t < |a| ==> s[t] == a[t]) && (i > r ==> s[i] == a[i])
    && (if i < n then Hidden(Without(a, n, r), n - 1, s, i) else Alike(Without(a, n, r), n - 1, s))
  }

  lemma RemovalStarts(a: seq<Record>, n: nat, r: nat, s: seq<Record>)
    requires Fair(a, n) && r < n && s == a[r := a[r].(ptr := Prev(a, r))]
    ensures Removing(a, n, r, s, r) && Hidden(Without(a, n, r), n - 1, s, r)
  {
    var b := Without(a, n, r);
    forall i | r <= i < n - 1 ensures s[i + 1] == b[i] {
      assert b[i + 1 - 1] == a[i + 1];
    }
  }

  /** The two stores to slot `i`. */
  lemma RemovalStep(a: seq<Record>, n: nat, r: nat, s: seq<Record>, i: nat)
    requires Fair(a, n) && Removing(a, n, r, s, i) && i < n
    ensures i + 1 < |s| && s[i + 1] == a[i + 1]
            && Hidden(Without(a, n, r), n - 1, s[i := s[i].(key := s[i + 1].key)], i)
    ensures Removing(a, n, r, s[i := s[i + 1]], i + 1)
    ensures if i + 1 < n then Hidden(Without(a, n, r), n - 1, s[i := s[i + 1]], i + 1)
            else Alike(Without(a, n, r), n - 1, s[i := s[i + 1]])
  {
    var b := Without(a, n, r);
    if i + 1 < n {
      assert b[i + 1 - 1] == a[i + 1];
    }
    hide Without;
  }

  lemma AlikeFair(a: seq<Record>, n: nat, s: seq<Record>)
    requires Fair(a, n) && Alike(a, n, s)
    ensures Fair(s, n)
  {
    forall i | 0 <= i < n ensures Visible(s, i) {
      assert Visible(a, i);
    }
  }

  lemma RemovalEnds(a: seq<Record>, n: nat, r: nat, s: seq<Record>)
    requires Removing(a, n, r, s, n)
    ensures Alike(Without(a, n, r), n - 1, s)
  {
  }

  /** The next entry of a page fits behind the ones copied so far. */
  lemma AppendAccepted(a: seq<Record>, n: nat, m: nat, i: nat, s: seq<Record>)
    requires Fair(a, n) && 0 < m <= i < n < |a| == |s| && Fair(s, i - m) && forall j :: m <= j < i ==> s[j - m] == a[j]
    ensures Accepts(s, i - m, a[i]) && Place(s, i - m, a[i].key) == i - m
  {
    assert Visible(a, i);
    forall j | 0 <= j < i - m ensures s[j].key < a[i].key {
      assert s[j + m - m] == a[j + m];
    }
    PlaceIs(s, i - m, a[i].key, i - m);
    if i > m {
      assert s[i - 1 - m] == a[i - 1];
    }
  }

  lemma Appended(s: seq<Record>, n: nat, x: Record, t: seq<Record>)
    requires Grown(s, n, x, t) && Place(s, n, x.key) == n
    ensures (forall j :: 0 <= j < n ==> t[j] == s[j]) && t[n] == x
  {
    GrownAt(s, n, x, t, n);
  }

  lemma CanAccept(a: seq<Record>, n: nat, x: Record)
    requires Fair(a, n) && n + 1 < |a| && Takes(a, n, x)
    ensures Accepts(a, n, x) && x.ptr != NULL
  {
  }

  lemma UpperAt(a: seq<Record>, n: nat, m: nat, b: seq<Record>)
    requires UpperHalf(a, n, m, b)
    ensures n - m < |b| && forall i {:trigger b[i]} :: 0 <= i < n - m ==> b[i] == a[i + m]
  {
    forall i {:trigger b[i]} | 0 <= i < n - m ensures b[i] == a[i + m] {
      assert b[i + m - m] == a[i + m];
    }
  }

  lemma LowerTakes(a: seq<Record>, n: nat, m: nat, low: seq<Record>, x: Record)
    requires Fair(a, n) && 0 < m < n && low == a[m := a[m].(ptr := NULL)] && Takes(a, n, x) && x.key < a[m].key
    ensures Takes(low, m, x)
  {
    var p := Place(a, n, x.key);
    assert p <= m;
    PlaceIs(low, m, x.key, p);
  }

  lemma UpperTakes(a: seq<Record>, n: nat, m: nat, b: seq<Record>, x: Record)
    requires Fair(a, n) && UpperHalf(a, n, m, b) && Takes(a, n, x) && x.key >= a[m].key
    ensures Takes(b, n - m, x)
  {
    var p := Place(a, n, x.key);
    assert p > m;
    UpperAt(a, n, m, b);
    PlaceIs(b, n - m, x.key, p - m);
  }

  /** The half of a page that a pair belongs to can take it if the page could. */
  lemma SplitAccepts(a: seq<Record>, n: nat, m: nat, low: seq<Record>, b: seq<Record>, x: Record)
    requires Fair(a, n) && UpperHalf(a, n, m, b) && low == a[m := a[m].(ptr := NULL)] && |b| == |a| && Takes(a, n, x)
    ensures x.key < a[m].key ==> Accepts(low, m, x)
    ensures x.key >= a[m].key ==> Accepts(b, n - m, x)
    ensures Fair(low, m) && Fair(b, n - m) && b[0].key == a[m].key && x.key != a[m].key
  {
    hide Fair, Place;
    LowerFair(a, n, m);
    UpperAt(a, n, m, b);
    if x.key < a[m].key {
      LowerTakes(a, n, m, low, x);
    } else {
      UpperTakes(a, n, m, b, x);
    }
    FairRange(a, n);
  }

  lemma UpperFirst(b: seq<Record>, n: nat, x: Record, t: seq<Record>)
    requires Accepts(b, n, x) && Grown(b, n, x, t) && n > 0 && b[0].key <= x.key
    ensures t[0] == b[0]
  {
    GrownAt(b, n, x, t, Place(b, n, x.key));
  }

  lemma BelowNothing(a: seq<Record>, n: nat, m: nat, low: seq<Record>, key: int)
    requires Fair(a, n) && 0 < m < n && low == a[m := a[m].(ptr := NULL)] && a[m].key <= key
    ensures Forward(low, key, 0) == NULL
  {
    LowerFair(a, n, m);
    ForwardFinds(low, m, key, 0);
  }

  /** A pair found in the first page of a chain in addition is found in the chain in addition. */
  lemma ChainInserted(a: seq<Record>, s: seq<Record>, rest: seq<seq<Record>>, k: int, key: int, ptr: nat)
    requires a != [] && s != [] && ptr != NULL && forall i :: 0 <= i < |rest| ==> rest[i] != []
    requires Forward(s, k, 0) == if k == key then ptr else Forward(a, k, 0)
    ensures Chain([s] + rest, k) == if k == key then ptr else Chain([a] + rest, k)
  {
    assert ([s] + rest)[1..] == rest && ([a] + rest)[1..] == rest;
  }

  lemma ChainBelow(low: seq<Record>, b: seq<Record>, t: seq<Record>, rest: seq<seq<Record>>, k: int, key: int, ptr: nat)
    requires low != [] && b != [] && t != [] && ptr != NULL && forall i :: 0 <= i < |rest| ==> rest[i] != []
    requires t[0] == b[0] && b[0].key <= key && Forward(low, key, 0) == NULL
    requires Chain([t] + rest, k) == if k == key then ptr else Chain([b] + rest, k)
    ensures Chain([low] + ([t] + rest), k) == if k == key then ptr else Chain([low] + ([b] + rest), k)
  {
    assert ([low] + ([t] + rest))[1..] == [t] + rest && ([low] + ([b] + rest))[1..] == [b] + rest;
  }

  /** The pair goes to the first of two pages. */
  lemma ChainLow(low: seq<Record>, t: seq<Record>, b: seq<Record>, rest: seq<seq<Record>>, n: nat, x: Record)
    requires Accepts(low, n, x) && Grown(low, n, x, t) && b != [] && forall i :: 0 <= i < |rest| ==> rest[i] != []
    ensures forall k :: Chain([t, b] + rest, k) == if k == x.key then x.ptr else Chain([low, b] + rest, k)
  {
    hide Chain, Accepts, Grown;
    AcceptsMeans(low, n, x);
    GrownMeans(low, n, x, t);
    forall k ensures Chain([t, b] + rest, k) == if k == x.key then x.ptr else Chain([low, b] + rest, k) {
      GrownReads(low, n, x, t, k);
      assert [t, b] + rest == [t] + ([b] + rest) && [low, b] + rest == [low] + ([b] + rest);
      ChainInserted(low, t, [b] + rest, k, x.key, x.ptr);
    }
  }

  /** The pair goes to the second one. */
  lemma ChainHigh(low: seq<Record>, b: seq<Record>, t: seq<Record>, rest: seq<seq<Record>>, n: nat, x: Record)
    requires Accepts(b, n, x) && Grown(b, n, x, t) && forall i :: 0 <= i < |rest| ==> rest[i] != []
    requires low != [] && n > 0 && b[0].key <= x.key && Forward(low, x.key, 0) == NULL
    ensures forall k :: Chain([low, t] + rest, k) == if k == x.key then x.ptr else Chain([low, b] + rest, k)
  {
    hide Chain, Accepts, Grown, Forward;
    AcceptsMeans(b, n, x);
    GrownMeans(b, n, x, t);
    UpperFirst(b, n, x, t);
    forall k ensures Chain([low, t] + rest, k) == if k == x.key then x.ptr else Chain([low, b] + rest, k) {
      GrownReads(b, n, x, t, k);
      assert [low, t] + rest == [low] + ([t] + rest) && [low, b] + rest == [low] + ([b] + rest);
      ChainInserted(b, t, rest, k, x.key, x.ptr);
      ChainBelow(low, b, t, rest, k, x.key, x.ptr);
    }
  }

  lemma GrownMeans(a: seq<Record>, n: nat, x: Record, s: seq<Record>)
    requires Grown(a, n, x, s)
    ensures n + 1 < |s|
  {
  }

  lemma FairRange(a: seq<Record>, n: nat)
    requires Fair(a, n)
    ensures n < |a|
  {
  }

  lemma NotNull(a: seq<Record>, n: nat)
    requires Fair(a, n)
    ensures a[n].ptr == NULL && forall i :: 0 <= i < n ==> a[i].ptr != NULL
  {
    forall i | 0 <= i < n ensures a[i].ptr != NULL {
      assert Visible(a, i);
    }
  }

  lemma AcceptsMeans(a: seq<Record>, n: nat, x: Record)
    requires Accepts(a, n, x)
    ensures n + 1 < |a| && x.ptr != NULL
  {
  }
}
