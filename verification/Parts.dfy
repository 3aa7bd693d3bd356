/** Consecutive key ranges, each with the entries in it. */
module Parts {
  import opened Entries
  import opened Seqs

  /** The least key of a range and its entries in key order. */
  datatype Part = Part(key: nat, c: seq<Entry>)

  /** Where the range ends: at the next one, or at `hi`. */
  function NextKey(ps: seq<Part>, i: nat, hi: int): int
    requires i < |ps|
  {
    if i + 1 < |ps| then ps[i + 1].key else hi
  }

  /** The ranges follow each other from `lo` on up to `hi`. */
  ghost predicate Ordered(ps: seq<Part>, lo: int, hi: int) {
    && lo <= hi && (ps != [] ==> lo <= ps[0].key)
    && forall i :: 0 <= i < |ps| ==> ps[i].key < NextKey(ps, i, hi) && InRange(ps[i].c, ps[i].key, NextKey(ps, i, hi))
  }

  function Pairs(ps: seq<Part>): seq<Entry> {
    if ps == [] then [] else ps[0].c + Pairs(ps[1..])
  }

  lemma PairsNone()
    ensures Pairs([]) == []
  {
  }

  lemma PairsFirst(ps: seq<Part>)
    requires ps != []
    ensures Pairs(ps) == ps[0].c + Pairs(ps[1..])
  {
  }

  lemma {:induction false} PairsConcat(a: seq<Part>, b: seq<Part>)
    ensures Pairs(a + b) == Pairs(a) + Pairs(b)
  {
    hide Pairs;
    if a == [] {
      PairsNone();
      assert a + b == b;
    } else {
      PairsConcat(a[1..], b);
      PairsFirst(a);
      PairsFirst(a + b);
      Tail(a, b);
      Associate(a[0].c, Pairs(a[1..]), Pairs(b));
    }
  }

  lemma PairsSingle(p: Part)
    ensures Pairs([p]) == p.c
  {
    assert [p][1..] == [];
  }

  lemma OrderedConcat(a: seq<Part>, b: seq<Part>, lo: int, mid: int, hi: int)
    requires Ordered(a, lo, mid) && Ordered(b, mid, hi)
    ensures Ordered(a + b, lo, hi)
  {
    hide InRange, NextKey;
    var ps := a + b;
    forall i | 0 <= i < |ps| ensures ps[i].key < NextKey(ps, i, hi) && InRange(ps[i].c, ps[i].key, NextKey(ps, i, hi)) {
      if i < |a| {
        assert ps[i] == a[i];
        NextOfFirst(a, b, i, mid, hi);
        RangeUpTo(a[i].c, a[i].key, NextKey(a, i, mid), NextKey(ps, i, hi));
      } else {
        assert ps[i] == b[i - |a|];
        NextOfSecond(a, b, i, hi);
      }
    }
  }

  lemma RangeUpTo(c: seq<Entry>, lo: int, mid: int, hi: int)
    requires InRange(c, lo, mid) && mid <= hi
    ensures InRange(c, lo, hi)
  {
  }

  lemma NextOfFirst(a: seq<Part>, b: seq<Part>, i: nat, mid: int, hi: int)
    requires i < |a| && mid <= if b == [] then hi else b[0].key
    ensures NextKey(a, i, mid) <= NextKey(a + b, i, hi)
  {
  }

  lemma NextOfSecond(a: seq<Part>, b: seq<Part>, i: nat, hi: int)
    requires |a| <= i < |a| + |b|
    ensures NextKey(a + b, i, hi) == NextKey(b, i - |a|, hi)
  {
  }

  lemma OrderedSplit(a: seq<Part>, b: seq<Part>, lo: int, hi: int)
    requires Ordered(a + b, lo, hi)
    ensures b != [] ==> Ordered(a, lo, b[0].key) && Ordered(b, if a == [] then lo else b[0].key, hi)
    ensures b == [] ==> Ordered(a, lo, hi)
  {
    var ps := a + b;
    if b == [] {
      assert ps == a;
    } else {
      FirstBelow(ps, lo, hi, |a|);
      forall i | 0 <= i < |a|
        ensures a[i].key < NextKey(a, i, b[0].key) && InRange(a[i].c, a[i].key, NextKey(a, i, b[0].key))
      {
        assert ps[i] == a[i];
      }
      forall i | 0 <= i < |b| ensures b[i].key < NextKey(b, i, hi) && InRange(b[i].c, b[i].key, NextKey(b, i, hi)) {
        assert ps[|a| + i] == b[i];
      }
    }
  }

  /** The bounds hold for every range. */
  lemma FirstBelow(ps: seq<Part>, lo: int, hi: int, i: nat)
    requires Ordered(ps, lo, hi) && i < |ps|
    ensures lo <= ps[0].key <= ps[i].key < hi
    decreases |ps| - i
  {
    KeysGrow(ps, lo, hi, 0, i);
    KeysGrow(ps, lo, hi, i, |ps| - 1);
  }

  lemma {:induction false} KeysGrow(ps: seq<Part>, lo: int, hi: int, i: nat, j: nat)
    requires Ordered(ps, lo, hi) && i <= j < |ps|
    ensures ps[i].key <= ps[j].key && (i < j ==> ps[i].key < ps[j].key)
    decreases j - i
  {
    if i < j {
      KeysGrow(ps, lo, hi, i, j - 1);
      assert ps[j - 1].key < NextKey(ps, j - 1, hi);
    }
  }

  /** All entries in order. */
  lemma {:induction false} PairsInRange(ps: seq<Part>, lo: int, hi: int)
    requires Ordered(ps, lo, hi)
    ensures InRange(Pairs(ps), lo, hi)
  {
    if ps != [] {
      assert ps == [ps[0]] + ps[1..];
      OrderedSplit([ps[0]], ps[1..], lo, hi);
      if |ps| > 1 {
        PairsInRange(ps[1..], ps[1].key, hi);
        InRangeConcat(ps[0].c, Pairs(ps[1..]), lo, ps[1].key, hi);
      }
    }
  }

  // ---- Replacing some of the ranges

  /** Where the middle part starts and ends. */
  function LowOf(a: seq<Part>, m: seq<Part>, lo: int): int
    requires m != []
  {
    if a == [] then lo else m[0].key
  }

  function HighOf(b: seq<Part>, hi: int): int {
    if b == [] then hi else b[0].key
  }

  lemma MiddleOrdered(a: seq<Part>, m: seq<Part>, b: seq<Part>, lo: int, hi: int)
    requires Ordered(a + m + b, lo, hi) && m != []
    ensures Ordered(m, LowOf(a, m, lo), HighOf(b, hi)) && Ordered(b, HighOf(b, hi), hi)
    ensures Ordered(a, lo, LowOf(a, m, lo))
  {
    hide Ordered;
    OrderedSplit(a + m, b, lo, hi);
    OrderedSplit(a, m, lo, HighOf(b, hi));
    OrderedEmpty(a, lo, hi, b);
  }

  lemma OrderedEmpty(a: seq<Part>, lo: int, hi: int, b: seq<Part>)
    requires b != [] || lo <= hi
    ensures a == [] ==> Ordered(a, lo, lo)
    ensures b == [] ==> Ordered(b, hi, hi)
  {
  }

  /** Other ranges within the same bounds fit in. */
  lemma MiddleReplaced(a: seq<Part>, m: seq<Part>, b: seq<Part>, m': seq<Part>, lo: int, hi: int)
    requires Ordered(a + m + b, lo, hi) && m != [] && Ordered(m', LowOf(a, m, lo), HighOf(b, hi))
    ensures Ordered(a + m' + b, lo, hi)
    ensures Pairs(m') == Pairs(m) ==> Pairs(a + m' + b) == Pairs(a + m + b)
  {
    hide Ordered, Pairs;
    MiddleOrdered(a, m, b, lo, hi);
    OrderedConcat(a, m', lo, LowOf(a, m, lo), HighOf(b, hi));
    OrderedConcat(a + m', b, lo, HighOf(b, hi), hi);
    PairsConcat(a + m, b);
    PairsConcat(a, m);
    PairsConcat(a + m', b);
    PairsConcat(a, m');
  }

  /** A put within the bounds of the middle part is a put to the whole. */
  lemma MiddlePut(a: seq<Part>, m: seq<Part>, b: seq<Part>, m': seq<Part>, lo: int, hi: int, x: Entry)
    requires Ordered(a + m + b, lo, hi) && m != [] && LowOf(a, m, lo) <= x.key < HighOf(b, hi)
    requires Pairs(m') == PutEntry(Pairs(m), x)
    ensures Pairs(a + m' + b) == PutEntry(Pairs(a + m + b), x)
    ensures Has(Pairs(a + m + b), x.key) <==> Has(Pairs(m), x.key)
  {
    MiddleAround(a, m, b, lo, hi, x.key);
    hide Ordered, Pairs, PutEntry;
    PutFrame(Pairs(a), Pairs(m), Pairs(b), x);
    PairsConcat(a + m', b);
    PairsConcat(a, m');
  }

  lemma MiddleAround(a: seq<Part>, m: seq<Part>, b: seq<Part>, lo: int, hi: int, key: nat)
    requires Ordered(a + m + b, lo, hi) && m != [] && LowOf(a, m, lo) <= key < HighOf(b, hi)
    ensures Pairs(a + m + b) == Pairs(a) + Pairs(m) + Pairs(b) && Ascending(Pairs(m))
    ensures KeysUnder(Pairs(a), key) && KeysOver(Pairs(b), key)
    ensures Has(Pairs(a + m + b), key) <==> Has(Pairs(m), key)
    ensures Lookup(Pairs(a + m + b), key) == Lookup(Pairs(m), key)
  {
    hide Ordered, Pairs, Has, Lookup;
    MiddleOrdered(a, m, b, lo, hi);
    PairsInRange(a, lo, LowOf(a, m, lo));
    PairsInRange(m, LowOf(a, m, lo), HighOf(b, hi));
    PairsInRange(b, HighOf(b, hi), hi);
    PairsConcat(a + m, b);
    PairsConcat(a, m);
    RankFrame(Pairs(a), Pairs(m), Pairs(b), key);
    LookupFrame(Pairs(a), Pairs(m), Pairs(b), key);
  }

  // ---- Changing one range

  function MinOf(a: nat, b: nat): nat {
    if a <= b then a else b
  }

  lemma OrderedOne(p: Part, lo: int, hi: int)
    ensures Ordered([p], lo, hi) <==> lo <= p.key < hi && InRange(p.c, p.key, hi)
  {
    assert [p][0] == p && NextKey([p], 0, hi) == hi;
  }

  lemma RangeFrom(c: seq<Entry>, lo: int, lo': int, hi: int)
    requires InRange(c, lo, hi) && lo' <= lo
    ensures InRange(c, lo', hi)
  {
  }

  /** An entry put to a single range, which starts lower if it has to. */
  lemma PartPut(p: Part, x: Entry, lo: int, hi: int)
    requires Ordered([p], lo, hi) && lo <= x.key < hi
    ensures Ordered([Part(MinOf(p.key, x.key), PutEntry(p.c, x))], lo, hi)
    ensures Pairs([Part(MinOf(p.key, x.key), PutEntry(p.c, x))]) == PutEntry(Pairs([p]), x)
  {
    hide PutEntry, InRange;
    OrderedOne(p, lo, hi);
    OrderedOne(Part(MinOf(p.key, x.key), PutEntry(p.c, x)), lo, hi);
    PairsSingle(p);
    PairsSingle(Part(MinOf(p.key, x.key), PutEntry(p.c, x)));
    RangeFrom(p.c, p.key, MinOf(p.key, x.key), hi);
    PutInRange(p.c, x, MinOf(p.key, x.key), hi);
  }

  /** A range cut in two at its entry `m`. */
  lemma PartSplit(p: Part, m: nat, lo: int, hi: int)
    requires Ordered([p], lo, hi) && 0 < m < |p.c|
    ensures Ordered([Part(p.key, p.c[..m]), Part(p.c[m].key, p.c[m..])], lo, hi)
    ensures Pairs([Part(p.key, p.c[..m]), Part(p.c[m].key, p.c[m..])]) == Pairs([p])
  {
    assert [p][0] == p;
    assert p.key < NextKey([p], 0, hi) && InRange(p.c, p.key, NextKey([p], 0, hi));
    var l, r := Part(p.key, p.c[..m]), Part(p.c[m].key, p.c[m..]);
    CutInRange(p.c, p.key, hi, m);
    PairsConcat([l], [r]);
    PairsSingle(l);
    PairsSingle(r);
    PairsSingle(p);
    assert [l, r] == [l] + [r];
    assert p.c == p.c[..m] + p.c[m..];
  }

  /** The first range may start at its first entry. */
  lemma FirstRaised(ps: seq<Part>, lo: int, hi: int)
    requires Ordered(ps, lo, hi) && ps != [] && ps[0].c != []
    ensures Ordered(ps[0 := Part(ps[0].c[0].key, ps[0].c)], lo, hi) && ps[0].key <= ps[0].c[0].key
    ensures Pairs(ps[0 := Part(ps[0].c[0].key, ps[0].c)]) == Pairs(ps)
  {
    var qs := ps[0 := Part(ps[0].c[0].key, ps[0].c)];
    assert qs[1..] == ps[1..];
    forall i | 0 <= i < |qs| ensures qs[i].key < NextKey(qs, i, hi) && InRange(qs[i].c, qs[i].key, NextKey(qs, i, hi)) {
      assert ps[i].key < NextKey(ps, i, hi) && InRange(ps[i].c, ps[i].key, NextKey(ps, i, hi));
      if i == 0 {
        assert forall j :: 0 < j < |ps[0].c| ==> ps[0].c[0].key < ps[0].c[j].key;
      }
    }
  }
}
