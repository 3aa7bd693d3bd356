/** The B-layer entry of the letree: up to twelve slots with a first key and a bucket each (src/pointer_bentry.h). */
module PointerBEntries {
  import opened Wrappers
  import opened Entries
  import opened Parts
  import opened SortBuckets

  const ENTRY_COUNT := 12

  datatype Slot = Slot(entryKey: nat, bucket: SortBucket)

  // ---- Slots in memory

  /** The buckets of the slots and their arrays. */
  ghost function Boxes(slots: seq<Slot>): set<object> {
    (set s | s in slots :: s.bucket as object) + (set s | s in slots :: s.bucket.records as object)
  }

  /** What the slots hold. */
  ghost function View(slots: seq<Slot>): (v: seq<Part>)
    reads set s | s in slots :: s.bucket
    ensures |v| == |slots|
  {
    if slots == [] then [] else [Part(slots[0].entryKey, slots[0].bucket.contents)] + View(slots[1..])
  }

  /** No two slots share a bucket or its array, and all buckets are in order. */
  ghost predicate Sound(slots: seq<Slot>)
    reads Boxes(slots)
  {
    slots == [] ||
    (slots[0].bucket.Valid() && Boxes(slots[..1]) !! Boxes(slots[1..]) && Sound(slots[1..]))
  }

  /** Every bucket holds an entry. */
  ghost predicate Filled(v: seq<Part>) {
    forall i :: 0 <= i < |v| ==> v[i].c != []
  }

  lemma {:induction false} ViewAt(slots: seq<Slot>, i: nat)
    requires i < |slots|
    ensures View(slots)[i] == Part(slots[i].entryKey, slots[i].bucket.contents)
  {
    if i > 0 {
      ViewAt(slots[1..], i - 1);
    }
  }

  lemma {:induction false} ViewConcat(a: seq<Slot>, b: seq<Slot>)
    ensures View(a + b) == View(a) + View(b)
  {
    if a == [] {
      assert a + b == b;
    } else {
      assert (a + b)[1..] == a[1..] + b;
      ViewConcat(a[1..], b);
    }
  }

  lemma BoxesConcat(a: seq<Slot>, b: seq<Slot>)
    ensures Boxes(a + b) == Boxes(a) + Boxes(b)
  {
  }

  lemma {:induction false} SoundConcat(a: seq<Slot>, b: seq<Slot>)
    ensures Sound(a + b) <==> Sound(a) && Sound(b) && Boxes(a) !! Boxes(b)
  {
    if a == [] {
      assert a + b == b;
    } else {
      assert (a + b)[1..] == a[1..] + b && (a + b)[..1] == a[..1];
      SoundConcat(a[1..], b);
      BoxesConcat(a[1..], b);
      BoxesConcat(a[..1], a[1..]);
      assert a == a[..1] + a[1..];
    }
  }

  lemma SoundOne(s: Slot)
    ensures Sound([s]) <==> s.bucket.Valid()
    ensures Boxes([s]) == {s.bucket, s.bucket.records} && View([s]) == [Part(s.entryKey, s.bucket.contents)]
  {
    assert [s][1..] == [];
  }

  /** The slots around a middle part. */
  lemma SlotsCut(a: seq<Slot>, m: seq<Slot>, b: seq<Slot>)
    requires Sound(a + m + b)
    ensures View(a + m + b) == View(a) + View(m) + View(b) && Boxes(a + m + b) == Boxes(a) + Boxes(m) + Boxes(b)
    ensures Sound(a) && Sound(m) && Sound(b) && Boxes(a) !! Boxes(m) !! Boxes(b)
  {
    hide View, Sound, Boxes;
    ViewConcat(a + m, b);
    ViewConcat(a, m);
    BoxesConcat(a + m, b);
    BoxesConcat(a, m);
    SoundConcat(a + m, b);
    SoundConcat(a, m);
  }

  lemma SlotsJoin(a: seq<Slot>, m: seq<Slot>, b: seq<Slot>)
    requires Sound(a) && Sound(m) && Sound(b) && Boxes(a) !! Boxes(m) !! Boxes(b)
    ensures View(a + m + b) == View(a) + View(m) + View(b) && Boxes(a + m + b) == Boxes(a) + Boxes(m) + Boxes(b)
    ensures Sound(a + m + b)
  {
    hide View, Sound, Boxes;
    ViewConcat(a + m, b);
    ViewConcat(a, m);
    BoxesConcat(a + m, b);
    BoxesConcat(a, m);
    SoundConcat(a + m, b);
    SoundConcat(a, m);
  }

  /** Slots whose boxes did not change. */
  twostate lemma {:induction false} Untouched(slots: seq<Slot>)
    requires old(Sound(slots)) && forall s :: s in slots ==> unchanged(s.bucket) && unchanged(s.bucket.records)
    ensures Sound(slots) && View(slots) == old(View(slots))
  {
    if slots != [] {
      Untouched(slots[1..]);
    }
  }

  // ---- Operations

  /** The slot for a key: the last one whose key is not above it, or the first. */
  ghost predicate Routes(slots: seq<Slot>, pos: nat, key: nat) {
    && pos < |slots| && (pos > 0 ==> slots[pos].entryKey <= key)
    && (pos + 1 < |slots| ==> key < slots[pos + 1].entryKey)
  }

  ghost predicate Increasing(slots: seq<Slot>) {
    forall i, j :: 0 <= i < j < |slots| ==> slots[i].entryKey < slots[j].entryKey
  }

  lemma ViewIncreasing(slots: seq<Slot>, lo: int, hi: int)
    requires Ordered(View(slots), lo, hi)
    ensures Increasing(slots)
  {
    forall i, j | 0 <= i < j < |slots| ensures slots[i].entryKey < slots[j].entryKey {
      ViewAt(slots, i);
      ViewAt(slots, j);
      KeysGrow(View(slots), lo, hi, i, j);
    }
  }

  /** The part for a key: the last one whose key is not above it, or the first. */
  ghost function PosOf(v: seq<Part>, key: nat): (pos: nat)
    requires v != []
    ensures pos < |v|
  {
    var n := |v| - 1;
    if n == 0 || v[n].key <= key then n else PosOf(v[..n], key)
  }

  lemma {:induction false} PosOfIs(v: seq<Part>, pos: nat, key: nat)
    requires pos < |v| && (pos > 0 ==> v[pos].key <= key) && forall j :: pos < j < |v| ==> key < v[j].key
    ensures PosOf(v, key) == pos
  {
    if pos + 1 < |v| {
      PosOfIs(v[..|v| - 1], pos, key);
    }
  }

  lemma RoutePos(slots: seq<Slot>, pos: nat, key: nat)
    requires Increasing(slots) && Routes(slots, pos, key)
    ensures View(slots) != [] && PosOf(View(slots), key) == pos
  {
    hide View;
    ViewAt(slots, pos);
    forall j | pos < j < |slots| ensures key < View(slots)[j].key {
      ViewAt(slots, j);
    }
    PosOfIs(View(slots), pos, key);
  }

  method FindPos(slots: seq<Slot>, key: nat) returns (pos: nat)
    requires slots != [] && Increasing(slots)
    ensures Routes(slots, pos, key)
  {
    pos := 0;
    while pos < |slots| && slots[pos].entryKey <= key
      invariant pos <= |slots| && forall i :: 0 <= i < pos ==> slots[i].entryKey <= key
    {
      pos := pos + 1;
    }
    pos := if pos == 0 then pos else pos - 1;
  }

  /** What a key routes to in the view of the slots. */
  lemma RouteView(slots: seq<Slot>, pos: nat, key: nat, lo: int, hi: int)
    requires Ordered(View(slots), lo, hi) && Routes(slots, pos, key) && lo <= key < hi
    ensures var v := View(slots);
            && pos < |v| && v[pos] == Part(slots[pos].entryKey, slots[pos].bucket.contents)
            && LowOf(v[..pos], [v[pos]], lo) <= key < HighOf(v[pos + 1..], hi)
    ensures Has(Pairs(View(slots)), key) <==> Has(slots[pos].bucket.contents, key)
    ensures Lookup(Pairs(View(slots)), key) == Lookup(slots[pos].bucket.contents, key)
  {
    hide View, Ordered, Pairs, Has, Lookup;
    var v := View(slots);
    ViewAt(slots, pos);
    if pos + 1 < |slots| {
      ViewAt(slots, pos + 1);
    }
    assert v == v[..pos] + [v[pos]] + v[pos + 1..];
    MiddleAround(v[..pos], [v[pos]], v[pos + 1..], lo, hi, key);
    PairsSingle(v[pos]);
  }

  method GetInSlots(slots: seq<Slot>, key: nat, ghost lo: int, ghost hi: int) returns (r: Option<int>)
    requires slots != [] && Sound(slots) && Ordered(View(slots), lo, hi) && lo <= key < hi
    ensures r == if Lookup(Pairs(View(slots)), key) == Some(0) then None else Lookup(Pairs(View(slots)), key)
  {
    hide Ordered, Pairs, Lookup, Routes, Increasing;
    ViewIncreasing(slots, lo, hi);
    var pos := FindPos(slots, key);
    RouteView(slots, pos, key, lo, hi);
    SlotSound(slots, pos);
    r := slots[pos].bucket.Get(key);
  }

  lemma SlotSound(slots: seq<Slot>, pos: nat)
    requires Sound(slots) && pos < |slots|
    ensures slots[pos].bucket.Valid()
  {
    assert slots == slots[..pos] + [slots[pos]] + slots[pos + 1..];
    SlotsCut(slots[..pos], [slots[pos]], slots[pos + 1..]);
    SoundOne(slots[pos]);
  }

  /** Puts to the bucket that the key routes to; the entry's first key goes down to the key if it is above. */
  method TryPut(slots: seq<Slot>, key: nat, value: int, ghost lo: int, ghost hi: int)
    returns (r: Status, slots': seq<Slot>, pos: nat)
    requires slots != [] && Sound(slots) && Ordered(View(slots), lo, hi) && lo <= key < hi
    requires key != 0 && !Has(Pairs(View(slots)), key)
    modifies Boxes(slots)
    ensures pos < |slots| && Routes(slots, pos, key) && Sound(slots') && Boxes(slots') == Boxes(slots)
    ensures |slots'| == |slots| && Ordered(View(slots'), lo, hi)
    ensures r == if |old(View(slots))[pos].c| == MAX_ENTRIES then Full else OK
    ensures r.Full? ==> slots' == slots && View(slots) == old(View(slots))
    ensures r.OK? ==> Pairs(View(slots')) == PutEntry(old(Pairs(View(slots))), Entry(key, value))
    ensures r.OK? ==> slots'[0].entryKey == MinOf(slots[0].entryKey, key)
    ensures pos == PosOf(old(View(slots)), key)
    ensures r.OK? ==> View(slots') == PutPart(old(View(slots)), pos, Entry(key, value))
    ensures r.OK? ==> FilledButOne(old(View(slots)), pos) ==> Filled(View(slots'))
  {
    hide Ordered, Pairs, Has, PutEntry, Rank, Increasing, Routes, Sound, FilledButOne, Filled;
    ghost var v, x := View(slots), Entry(key, value);
    ViewIncreasing(slots, lo, hi);
    pos := FindPos(slots, key);
    RoutePos(slots, pos, key);
    Untouched(slots);
    RouteView(slots, pos, key, lo, hi);
    ViewAt(slots, pos);
    r, slots' := PutAt(slots, pos, key, value);
    if r == OK {
      ViewPut(v, pos, lo, hi, x);
    }
  }

  /** All but perhaps one part hold entries. */
  ghost predicate FilledButOne(v: seq<Part>, pos: nat) {
    forall i :: 0 <= i < |v| && i != pos ==> v[i].c != []
  }

  method PutAt(slots: seq<Slot>, pos: nat, key: nat, value: int) returns (r: Status, slots': seq<Slot>)
    requires Sound(slots) && Routes(slots, pos, key) && Increasing(slots)
    requires key != 0 && !Has(slots[pos].bucket.contents, key)
    modifies Boxes(slots)
    ensures Sound(slots') && Boxes(slots') == Boxes(slots) && |slots'| == |slots|
    ensures r == if |old(slots[pos].bucket.contents)| == MAX_ENTRIES then Full else OK
    ensures r.Full? ==> slots' == slots && View(slots) == old(View(slots))
    ensures r.OK? ==> slots'[0].entryKey == MinOf(slots[0].entryKey, key)
    ensures r.OK? ==> View(slots') == PutPart(old(View(slots)), pos, Entry(key, value))
  {
    hide Has, View, PutEntry, Rank, Sound, Increasing, Routes, Boxes, Ascending;
    RouteRange(slots, pos, key);
    ghost var a, m, b := slots[..pos], [slots[pos]], slots[pos + 1..];
    assert slots == a + m + b;
    SlotSound(slots, pos);
    SlotsCut(a, m, b);
    SoundOne(slots[pos]);
    Separate(a, m, b);
    r := slots[pos].bucket.Put(key, value);
    Untouched(a);
    Untouched(b);
    SoundOne(slots[pos]);
    slots' := slots;
    if r == OK {
      slots' := Lowered(slots, key);
      ghost var m' := [Slot(MinOf(slots[pos].entryKey, key), slots[pos].bucket)];
      LoweredIs(slots, pos, key);
      hide Lowered;
      SoundOne(m'[0]);
      SlotsJoin(a, m', b);
    } else {
      SlotsJoin(a, m, b);
    }
  }

  lemma RouteRange(slots: seq<Slot>, pos: nat, key: nat)
    requires Routes(slots, pos, key)
    ensures pos < |slots|
  {
  }

  /** A put to one part. */
  function PutPart(v: seq<Part>, pos: nat, x: Entry): seq<Part>
    requires pos < |v|
  {
    v[pos := Part(MinOf(v[pos].key, x.key), PutEntry(v[pos].c, x))]
  }

  lemma ViewPut(v: seq<Part>, pos: nat, lo: int, hi: int, x: Entry)
    requires Ordered(v, lo, hi) && pos < |v|
    requires LowOf(v[..pos], [v[pos]], lo) <= x.key < HighOf(v[pos + 1..], hi)
    ensures Ordered(PutPart(v, pos, x), lo, hi) && Pairs(PutPart(v, pos, x)) == PutEntry(Pairs(v), x)
    ensures FilledButOne(v, pos) ==> Filled(PutPart(v, pos, x))
  {
    hide Ordered, Pairs, Has, PutEntry, Rank;
    var a, p, b := v[..pos], v[pos], v[pos + 1..];
    var p' := Part(MinOf(p.key, x.key), PutEntry(p.c, x));
    assert v == a + [p] + b && PutPart(v, pos, x) == a + [p'] + b;
    MiddleOrdered(a, [p], b, lo, hi);
    PartPut(p, x, LowOf(a, [p], lo), HighOf(b, hi));
    MiddleReplaced(a, [p], b, [p'], lo, hi);
    MiddlePut(a, [p], b, [p'], lo, hi, x);
    PutNotEmpty(p.c, x);
  }

  /** The first key goes down only if the first slot is the one for the key. */
  function Lowered(slots: seq<Slot>, key: nat): seq<Slot>
    requires slots != []
  {
    if slots[0].entryKey > key then slots[0 := Slot(key, slots[0].bucket)] else slots
  }

  lemma LoweredIs(slots: seq<Slot>, pos: nat, key: nat)
    requires Routes(slots, pos, key) && Increasing(slots)
    ensures Lowered(slots, key) ==
            slots[..pos] + [Slot(MinOf(slots[pos].entryKey, key), slots[pos].bucket)] + slots[pos + 1..]
    ensures Lowered(slots, key)[0].entryKey == MinOf(slots[0].entryKey, key)
  {
    if pos > 0 {
      assert slots[0].entryKey < slots[pos].entryKey;
    }
  }

  /** The slots on both sides are not those in the middle. */
  lemma Separate(a: seq<Slot>, m: seq<Slot>, b: seq<Slot>)
    requires Boxes(a) !! Boxes(m) !! Boxes(b)
    ensures forall s :: s in a || s in b ==> s.bucket !in Boxes(m) && s.bucket.records !in Boxes(m)
  {
    forall s | s in a || s in b ensures s.bucket !in Boxes(m) && s.bucket.records !in Boxes(m) {
      assert s in a ==> s.bucket in Boxes(a) && s.bucket.records in Boxes(a);
      assert s in b ==> s.bucket in Boxes(b) && s.bucket.records in Boxes(b);
    }
  }

  lemma PutNotEmpty(c: seq<Entry>, x: Entry)
    ensures PutEntry(c, x) != []
  {
  }

  /** The view after the bucket of part `pos` has split in the middle. */
  function SplitPart(v: seq<Part>, pos: nat): seq<Part>
    requires pos < |v| && |v[pos].c| >= 2
  {
    var c := v[pos].c;
    v[..pos] + [Part(v[pos].key, c[..|c| / 2]), Part(c[|c| / 2].key, c[|c| / 2..])] + v[pos + 1..]
  }

  lemma SplitView(v: seq<Part>, pos: nat, lo: int, hi: int)
    requires Ordered(v, lo, hi) && pos < |v| && |v[pos].c| >= 2
    ensures Ordered(SplitPart(v, pos), lo, hi) && Pairs(SplitPart(v, pos)) == Pairs(v)
    ensures FilledButOne(v, pos) ==> Filled(SplitPart(v, pos))
  {
    hide Ordered, Pairs;
    var a, p, b := v[..pos], v[pos], v[pos + 1..];
    var m := |p.c| / 2;
    assert v == a + [p] + b;
    MiddleOrdered(a, [p], b, lo, hi);
    PartSplit(p, m, LowOf(a, [p], lo), HighOf(b, hi));
    MiddleReplaced(a, [p], b, [Part(p.key, p.c[..m]), Part(p.c[m].key, p.c[m..])], lo, hi);
  }

  /** The slot whose bucket splits, and the new one for the upper half. */
  method SplitOne(s: Slot) returns (m': seq<Slot>)
    requires s.bucket.Valid() && |s.bucket.contents| >= 2
    modifies s.bucket
    ensures |m'| == 2 && m'[0] == s && Sound(m') && forall o :: o in Boxes(m') ==> o in Boxes([s]) || fresh(o)
    ensures var c := old(s.bucket.contents);
            View(m') == [Part(s.entryKey, c[..|c| / 2]), Part(c[|c| / 2].key, c[|c| / 2..])]
  {
    hide View, Sound, Boxes, Ascending;
    SoundOne(s);
    var next, splitKey := s.bucket.Expand();
    var n := Slot(splitKey, next);
    m' := [s] + [n];
    SoundOne(s);
    SoundOne(n);
    BoxesConcat([s], [n]);
    ViewConcat([s], [n]);
    SoundConcat([s], [n]);
  }

  /** Splits the bucket of a slot; the new one gets the next slot. */
  method SplitAt(slots: seq<Slot>, pos: nat) returns (slots': seq<Slot>)
    requires Sound(slots) && pos < |slots| && |slots[pos].bucket.contents| >= 2
    modifies Boxes(slots)
    ensures Sound(slots') && |slots'| == |slots| + 1 && slots'[..pos + 1] == slots[..pos + 1]
    ensures slots'[pos + 2..] == slots[pos + 1..]
    ensures forall o :: o in Boxes(slots') ==> o in Boxes(slots) || fresh(o)
    ensures |old(View(slots))[pos].c| >= 2 && View(slots') == SplitPart(old(View(slots)), pos)
  {
    hide View, Sound, Boxes, Ascending;
    ghost var a, m, b := slots[..pos], [slots[pos]], slots[pos + 1..];
    assert slots == a + m + b;
    ViewAt(slots, pos);
    SlotSound(slots, pos);
    SlotsCut(a, m, b);
    SoundOne(slots[pos]);
    Separate(a, m, b);
    OldBoxes(slots);
    var m' := SplitOne(slots[pos]);
    Untouched(a);
    Untouched(b);
    slots' := slots[..pos] + m' + slots[pos + 1..];
    SlotsJoin(a, m', b);
  }

  lemma OldBoxes(slots: seq<Slot>)
    ensures forall o :: o in Boxes(slots) ==> allocated(o)
  {
  }

  /** The key now routes to one of the two halves. */
  lemma RouteToHalf(slots: seq<Slot>, slots': seq<Slot>, pos: nat, pos': nat, key: nat)
    requires Routes(slots, pos, key) && Routes(slots', pos', key) && Increasing(slots')
    requires |slots'| == |slots| + 1 && slots'[..pos + 1] == slots[..pos + 1] && slots'[pos + 2..] == slots[pos + 1..]
    ensures pos' == pos || pos' == pos + 1
  {
    assert slots'[pos] == slots'[..pos + 1][pos] == slots[pos];
    if pos + 1 < |slots| {
      assert slots'[pos + 2] == slots'[pos + 2..][0] == slots[pos + 1];
      assert forall j :: pos + 2 < j < |slots'| ==> slots'[pos + 2].entryKey < slots'[j].entryKey;
    }
    if pos' + 1 < |slots'| {
      assert forall j :: pos' + 1 < j < |slots'| ==> slots'[pos' + 1].entryKey < slots'[j].entryKey;
    }
  }

  /** The bucket that the key routes to is full. */
  ghost predicate BucketFull(v: seq<Part>, key: nat)
    requires v != []
  {
    |v[PosOf(v, key)].c| == MAX_ENTRIES
  }

  /** The parts of an entry after a put, where a full bucket has split first. */
  ghost function EntryPut(v: seq<Part>, x: Entry): seq<Part>
    requires v != []
  {
    if BucketFull(v, x.key)
    then var s := SplitPart(v, PosOf(v, x.key)); PutPart(s, PosOf(s, x.key), x)
    else PutPart(v, PosOf(v, x.key), x)
  }

  /** `Put` of an entry: a full bucket splits as long as the entry has a slot left, and then has room. */
  method PutInEntry(slots: seq<Slot>, key: nat, value: int, ghost lo: int, ghost hi: int)
    returns (r: Status, slots': seq<Slot>, split: bool)
    requires 1 <= |slots| <= ENTRY_COUNT && Sound(slots) && Ordered(View(slots), lo, hi) && lo <= key < hi
    requires key != 0 && !Has(Pairs(View(slots)), key)
    modifies Boxes(slots)
    ensures 1 <= |slots'| <= ENTRY_COUNT && Sound(slots') && Ordered(View(slots'), lo, hi)
    ensures forall o :: o in Boxes(slots') ==> o in Boxes(slots) || fresh(o)
    ensures r in {OK, Full} && |slots'| == |slots| + if split then 1 else 0
    ensures r.Full? ==> slots' == slots && View(slots) == old(View(slots)) 
    ensures |old(View(slots))| == |slots|
    ensures r.Full? <==> |slots| == ENTRY_COUNT && BucketFull(old(View(slots)), key)
    ensures split <==> |slots| < ENTRY_COUNT && BucketFull(old(View(slots)), key)
    ensures r.OK? ==> View(slots') == EntryPut(old(View(slots)), Entry(key, value))
    ensures r.OK? ==> Pairs(View(slots')) == PutEntry(old(Pairs(View(slots))), Entry(key, value))
    ensures r.OK? ==> slots'[0].entryKey == MinOf(slots[0].entryKey, key)
    ensures r.OK? && (|slots| == 1 || Filled(old(View(slots)))) ==> Filled(View(slots'))
  {
    hide Ordered, Pairs, Has, PutEntry, Rank, Increasing, Routes, Sound, Boxes, View;
    ghost var v := View(slots);
    var pos;
    r, slots', pos := TryPut(slots, key, value, lo, hi);
    split := false;
    ViewAt(slots, pos);
    if r.Full? && |slots| < ENTRY_COUNT {
      var s := SplitAt(slots, pos);
      SplitView(v, pos, lo, hi);
      ViewIncreasing(s, lo, hi);
      var pos';
      r, slots', pos' := TryPut(s, key, value, lo, hi);
      RouteToHalf(slots, s, pos, pos', key);
      split := true;
    }
  }
}
