/** Sorted sequences of entries and the map they stand for. */
module Entries {
  import opened Seqs
  import opened Wrappers

  /** A stored key and its value. */
  datatype Entry = Entry(key: nat, value: int)

  ghost predicate Ascending(c: seq<Entry>) {
    forall i, j :: 0 <= i < j < |c| ==> c[i].key < c[j].key
  }

  ghost predicate InRange(c: seq<Entry>, lo: int, hi: int) {
    Ascending(c) && forall i :: 0 <= i < |c| ==> lo <= c[i].key < hi
  }

  lemma InRangeConcat(a: seq<Entry>, b: seq<Entry>, lo: int, mid: int, hi: int)
    requires InRange(a, lo, mid) && InRange(b, mid, hi) && lo <= mid <= hi
    ensures InRange(a + b, lo, hi)
  {
  }

  /** How many entries stand before the first one not below `key`. */
  function Rank(c: seq<Entry>, key: nat): (n: nat)
    ensures n <= |c| && (forall i :: 0 <= i < n ==> c[i].key < key) && (n < |c| ==> key <= c[n].key)
  {
    if c == [] || key <= c[0].key then 0 else 1 + Rank(c[1..], key)
  }

  predicate Has(c: seq<Entry>, key: nat) {
    Rank(c, key) < |c| && c[Rank(c, key)].key == key
  }

  /** How many entries are not above `key`. */
  function RankLE(c: seq<Entry>, key: nat): nat {
    if Has(c, key) then Rank(c, key) + 1 else Rank(c, key)
  }

  function Lookup(c: seq<Entry>, key: nat): Option<int> {
    if Has(c, key) then Some(c[Rank(c, key)].value) else None
  }

  function PutEntry(c: seq<Entry>, x: Entry): seq<Entry> {
    var n := Rank(c, x.key);
    c[..n] + [x] + c[if Has(c, x.key) then n + 1 else n..]
  }

  function DropEntry(c: seq<Entry>, key: nat): seq<Entry> {
    if Has(c, key) then c[..Rank(c, key)] + c[Rank(c, key) + 1..] else c
  }

  lemma {:induction false} RankIs(c: seq<Entry>, key: nat, n: nat)
    requires n <= |c|
    requires forall i :: 0 <= i < n ==> c[i].key < key
    requires forall i :: n <= i < |c| ==> key <= c[i].key
    ensures Rank(c, key) == n
  {
    if n > 0 {
      RankIs(c[1..], key, n - 1);
    }
  }

  lemma RankSplits(c: seq<Entry>, key: nat)
    requires Ascending(c)
    ensures forall i :: Rank(c, key) <= i < |c| ==> key <= c[i].key
    ensures forall i :: Rank(c, key) < i < |c| ==> key < c[i].key
  {
  }

  lemma HasIff(c: seq<Entry>, key: nat)
    requires Ascending(c)
    ensures Has(c, key) <==> exists i :: 0 <= i < |c| && c[i].key == key
  {
    RankSplits(c, key);
  }

  /** Looking a key up reads the entry that holds it. */
  lemma LookupAt(c: seq<Entry>, i: nat)
    requires Ascending(c) && i < |c|
    ensures Lookup(c, c[i].key) == Some(c[i].value)
  {
    RankIs(c, c[i].key, i);
  }

  lemma LookupAbsent(c: seq<Entry>, key: nat)
    requires forall i :: 0 <= i < |c| ==> c[i].key != key
    ensures Lookup(c, key) == None
  {
  }

  lemma PutAscending(c: seq<Entry>, x: Entry)
    requires Ascending(c)
    ensures Ascending(PutEntry(c, x))
  {
    RankSplits(c, x.key);
  }

  /** Putting an entry changes the map at its key only. */
  lemma PutLookup(c: seq<Entry>, x: Entry, k: nat)
    requires Ascending(c)
    ensures Lookup(PutEntry(c, x), k) == if k == x.key then Some(x.value) else Lookup(c, k)
  {
    hide Rank, Lookup;
    var n, r := Rank(c, x.key), PutEntry(c, x);
    var m := if Has(c, x.key) then n + 1 else n;
    RankSplits(c, x.key);
    PutAscending(c, x);
    assert r[n] == x;
    LookupAt(r, n);
    if k != x.key {
      if i :| 0 <= i < |c| && c[i].key == k {
        LookupAt(c, i);
        LookupAt(r, if i < n then i else i - m + n + 1);
      } else {
        LookupAbsent(c, k);
        LookupAbsent(r, k);
      }
    }
  }

  lemma DropAscending(c: seq<Entry>, key: nat)
    requires Ascending(c)
    ensures Ascending(DropEntry(c, key)) && forall i :: 0 <= i < |DropEntry(c, key)| ==> DropEntry(c, key)[i].key != key
  {
    hide Rank;
    RankSplits(c, key);
  }

  lemma DropLookup(c: seq<Entry>, key: nat, k: nat)
    requires Ascending(c)
    ensures Lookup(DropEntry(c, key), k) == if k == key then None else Lookup(c, k)
  {
    var n, r := Rank(c, key), DropEntry(c, key);
    RankSplits(c, key);
    DropAscending(c, key);
    hide Rank, Lookup;
    if k == key {
      LookupAbsent(r, k);
    } else if i :| 0 <= i < |c| && c[i].key == k {
      LookupAt(c, i);
      LookupAt(r, if i < n || !Has(c, key) then i else i - 1);
    } else {
      LookupAbsent(r, k);
      LookupAbsent(c, k);
    }
  }

  ghost predicate KeysUnder(c: seq<Entry>, k: nat) {
    forall i :: 0 <= i < |c| ==> c[i].key < k
  }

  ghost predicate KeysOver(c: seq<Entry>, k: nat) {
    forall i :: 0 <= i < |c| ==> k < c[i].key
  }

  /** The entries around the part that a key belongs to do not matter. */
  lemma RankFrame(a: seq<Entry>, m: seq<Entry>, b: seq<Entry>, key: nat)
    requires Ascending(m) && KeysUnder(a, key) && KeysOver(b, key)
    ensures Rank(a + m + b, key) == |a| + Rank(m, key) && (Has(a + m + b, key) <==> Has(m, key))
  {
    hide Rank;
    RankSplits(m, key);
    RankIs(a + m + b, key, |a| + Rank(m, key));
  }

  lemma PutFrame(a: seq<Entry>, m: seq<Entry>, b: seq<Entry>, x: Entry)
    requires Ascending(m) && KeysUnder(a, x.key) && KeysOver(b, x.key)
    ensures PutEntry(a + m + b, x) == a + PutEntry(m, x) + b
  {
    hide Rank;
    RankFrame(a, m, b, x.key);
  }

  lemma HasInside(c: seq<Entry>, key: nat)
    requires Has(c, key)
    ensures Rank(c, key) < |c|
  {
  }

  lemma DropAt(c: seq<Entry>, key: nat, n: nat)
    requires Has(c, key) && n == Rank(c, key)
    ensures n < |c| && DropEntry(c, key) == c[..n] + c[n + 1..]
  {
    hide Rank;
    HasInside(c, key);
  }

  lemma DropNone(c: seq<Entry>, key: nat)
    requires !Has(c, key)
    ensures DropEntry(c, key) == c
  {
  }

  lemma DropFrame(a: seq<Entry>, m: seq<Entry>, b: seq<Entry>, key: nat)
    requires Ascending(m) && KeysUnder(a, key) && KeysOver(b, key)
    ensures DropEntry(a + m + b, key) == a + DropEntry(m, key) + b
  {
    hide Rank, Has, DropEntry, Ascending, KeysUnder, KeysOver;
    RankFrame(a, m, b, key);
    if Has(m, key) {
      var n := Rank(m, key);
      DropAt(m, key, n);
      DropAt(a + m + b, key, |a| + n);
      OutOfMiddle(a, m, b, n);
    } else {
      DropNone(m, key);
      DropNone(a + m + b, key);
    }
  }

  lemma LookupFrame(a: seq<Entry>, m: seq<Entry>, b: seq<Entry>, key: nat)
    requires Ascending(m) && KeysUnder(a, key) && KeysOver(b, key)
    ensures Lookup(a + m + b, key) == Lookup(m, key)
  {
    hide Rank;
    RankFrame(a, m, b, key);
  }

  lemma PutInRange(c: seq<Entry>, x: Entry, lo: int, hi: int)
    requires InRange(c, lo, hi) && lo <= x.key < hi
    ensures InRange(PutEntry(c, x), lo, hi)
  {
    hide Rank;
    PutAscending(c, x);
  }

  /** A sorted sequence cut in two between its entries. */
  lemma CutInRange(c: seq<Entry>, lo: int, hi: int, m: nat)
    requires InRange(c, lo, hi) && 0 < m < |c|
    ensures lo < c[m].key < hi && InRange(c[..m], lo, c[m].key) && InRange(c[m..], c[m].key, hi)
  {
    assert c[0].key < c[m].key;
  }
}
