/** A group of the letree: an array of B-layer entries under a trained model, rebuilt with one slot per entry when an
    entry overflows (src/letree.h). */
module LetreeGroups {
  import opened Seqs
  import opened Wrappers
  import opened Entries
  import opened Parts
  import opened SortBuckets
  import opened PointerBEntries

  const MAX_ENTRY_COUNT := 4096

  datatype BEntry = BEntry(slots: seq<Slot>)

  datatype Group = Group(entries: seq<BEntry>, nextEntryCount: nat, minKey: nat, model: int -> int)

  /** Training takes the entry keys to some prediction of positions. */
  type Trainer = seq<nat> -> (int -> int)

  // ---- The slots of all entries

  function Flat(es: seq<BEntry>): seq<Slot> {
    if es == [] then [] else es[0].slots + Flat(es[1..])
  }

  lemma {:induction false} FlatConcat(a: seq<BEntry>, b: seq<BEntry>)
    ensures Flat(a + b) == Flat(a) + Flat(b)
  {
    hide Flat;
    if a == [] {
      FlatNone();
      assert a + b == b;
    } else {
      FlatConcat(a[1..], b);
      FlatFirst(a);
      FlatFirst(a + b);
      Tail(a, b);
      Associate(a[0].slots, Flat(a[1..]), Flat(b));
    }
  }

  lemma FlatNone()
    ensures Flat([]) == []
  {
  }

  lemma FlatFirst(es: seq<BEntry>)
    requires es != []
    ensures Flat(es) == es[0].slots + Flat(es[1..])
  {
  }

  lemma FlatAround(a: seq<BEntry>, e: BEntry, b: seq<BEntry>)
    ensures Flat(a + [e] + b) == Flat(a) + e.slots + Flat(b)
  {
    FlatConcat(a + [e], b);
    FlatConcat(a, [e]);
    assert [e][1..] == [];
  }

  ghost predicate Shaped(es: seq<BEntry>) {
    forall i :: 0 <= i < |es| ==> 1 <= |es[i].slots| <= ENTRY_COUNT
  }

  /** Every entry has one slot. */
  ghost predicate Single(es: seq<BEntry>) {
    forall i :: 0 <= i < |es| ==> |es[i].slots| == 1
  }

  ghost predicate GroupOk(g: Group, lo: int, hi: int)
    reads Boxes(Flat(g.entries))
  {
    && g.entries != [] && Shaped(g.entries) && g.nextEntryCount == |Flat(g.entries)|
    && Sound(Flat(g.entries)) && Ordered(View(Flat(g.entries)), lo, hi)
  }

  /** First key of entry `i`. */
  function FirstKey(es: seq<BEntry>, i: nat): nat
    requires i < |es| && es[i].slots != []
  {
    es[i].slots[0].entryKey
  }

  lemma {:induction false} FirstKeysIncrease(es: seq<BEntry>, i: nat, j: nat)
    requires Shaped(es) && Increasing(Flat(es)) && i < j < |es|
    ensures FirstKey(es, i) < FirstKey(es, j)
  {
    hide Flat;
    FlatAround(es[..j], es[j], es[j + 1..]);
    assert es == es[..j] + [es[j]] + es[j + 1..];
    FlatAround(es[..i], es[i], es[i + 1..j]);
    assert es[..j] == es[..i] + [es[i]] + es[i + 1..j];
    var s, p, q := Flat(es), |Flat(es[..i])|, |Flat(es[..j])|;
    assert s[p] == es[i].slots[0] && s[q] == es[j].slots[0];
  }

  // ---- Finding the entry

  /** The entry for a key: the last one whose first key is not above it, or the first. */
  ghost predicate LeadsTo(es: seq<BEntry>, e: nat, key: nat)
    requires Shaped(es)
  {
    && e < |es| && (e > 0 ==> FirstKey(es, e) <= key) && (e + 1 < |es| ==> key < FirstKey(es, e + 1))
  }

  /** The number of that entry. */
  ghost function EntryOf(es: seq<BEntry>, key: nat): (e: nat)
    requires es != [] && Shaped(es)
    ensures e < |es|
  {
    var n := |es| - 1;
    if n == 0 || FirstKey(es, n) <= key then n else EntryOf(es[..n], key)
  }

  lemma {:induction false} EntryOfIs(es: seq<BEntry>, e: nat, key: nat)
    requires Shaped(es) && Rising(es) && LeadsTo(es, e, key)
    ensures EntryOf(es, key) == e
  {
    var n := |es| - 1;
    if e < n {
      assert FirstKey(es, e + 1) <= FirstKey(es, n);
      forall i, j | 0 <= i < j < n ensures FirstKey(es[..n], i) < FirstKey(es[..n], j) {
        assert FirstKey(es, i) < FirstKey(es, j);
      }
      EntryOfIs(es[..n], e, key);
    }
  }

  ghost predicate Rising(es: seq<BEntry>)
    requires Shaped(es)
  {
    forall i, j :: 0 <= i < j < |es| ==> FirstKey(es, i) < FirstKey(es, j)
  }

  /** From any predicted position, doubles the distance until it spans the first greater key. */
  method Window(es: seq<BEntry>, model: int -> int, key: nat) returns (l: nat, r: nat)
    requires es != [] && Shaped(es) && Rising(es)
    ensures l <= r <= |es| && (forall i :: 0 <= i < l ==> FirstKey(es, i) <= key)
    ensures forall i :: r <= i < |es| ==> FirstKey(es, i) > key
  {
    var m: int := model(key);
    m := if m < 0 then 0 else if m > |es| - 1 then |es| - 1 else m;
    var bound := 1;
    if FirstKey(es, m) > key {
      var size := m;
      while bound < size && FirstKey(es, m - bound) > key
        invariant bound >= 1 && bound / 2 <= size
        invariant forall i :: m - bound / 2 <= i < |es| ==> FirstKey(es, i) > key
        decreases size - bound
      {
        bound := bound * 2;
      }
      l, r := m - (if bound < size then bound else size), m - bound / 2;
    } else {
      var size := |es| - m;
      while bound < size && FirstKey(es, m + bound) <= key
        invariant bound >= 1 && bound / 2 < size
        invariant forall i :: 0 <= i <= m + bound / 2 ==> FirstKey(es, i) <= key
        decreases size - bound
      {
        bound := bound * 2;
      }
      l, r := m + bound / 2, m + if bound < size then bound else size;
    }
  }

  /** Searches the window linearly if it is small, and by bisection otherwise. */
  method FindEntry(es: seq<BEntry>, model: int -> int, key: nat) returns (e: nat)
    requires es != [] && Shaped(es) && Rising(es)
    ensures LeadsTo(es, e, key)
  {
    var l, r := Window(es, model, key);
    var u;
    if r - l < 6 {
      u := LinearUpperBound(es, l, r, key);
    } else {
      u := BinaryUpperBound(es, l, r, key);
    }
    e := if u == 0 then 0 else u - 1;
  }

  method LinearUpperBound(es: seq<BEntry>, l0: nat, r: nat, key: nat) returns (l: nat)
    requires Shaped(es) && l0 <= r <= |es| && Rising(es)
    requires (forall i :: 0 <= i < l0 ==> FirstKey(es, i) <= key)
             && (forall i :: r <= i < |es| ==> FirstKey(es, i) > key)
    ensures l <= |es| && (forall i :: 0 <= i < l ==> FirstKey(es, i) <= key)
    ensures forall i :: l <= i < |es| ==> FirstKey(es, i) > key
  {
    l := l0;
    while l < r && FirstKey(es, l) <= key
      invariant l0 <= l <= r && forall i :: 0 <= i < l ==> FirstKey(es, i) <= key
    {
      l := l + 1;
    }
  }

  method BinaryUpperBound(es: seq<BEntry>, l0: nat, r0: nat, key: nat) returns (l: nat)
    requires Shaped(es) && l0 <= r0 <= |es| && Rising(es)
    requires (forall i :: 0 <= i < l0 ==> FirstKey(es, i) <= key)
             && (forall i :: r0 <= i < |es| ==> FirstKey(es, i) > key)
    ensures l <= |es| && (forall i :: 0 <= i < l ==> FirstKey(es, i) <= key)
    ensures forall i :: l <= i < |es| ==> FirstKey(es, i) > key
  {
    l := l0;
    var r := r0;
    while l < r
      invariant l <= r <= |es|
      invariant forall i :: 0 <= i < l ==> FirstKey(es, i) <= key
      invariant forall i :: r <= i < |es| ==> FirstKey(es, i) > key
    {
      var mid := l + (r - l) / 2;
      if FirstKey(es, mid) <= key {
        l := mid + 1;
      } else {
        r := mid;
      }
    }
  }

  // ---- Operations

  /** Where an entry lies among all slots of the group. */
  lemma EntryCut(es: seq<BEntry>, e: nat)
    requires Sound(Flat(es)) && e < |es|
    ensures es == es[..e] + [es[e]] + es[e + 1..] && Flat(es) == Flat(es[..e]) + es[e].slots + Flat(es[e + 1..])
    ensures Sound(es[e].slots) && Sound(Flat(es[..e])) && Sound(Flat(es[e + 1..]))
    ensures Boxes(Flat(es[..e])) !! Boxes(es[e].slots) !! Boxes(Flat(es[e + 1..]))
    ensures View(Flat(es)) == View(Flat(es[..e])) + View(es[e].slots) + View(Flat(es[e + 1..]))
    ensures Boxes(Flat(es)) == Boxes(Flat(es[..e])) + Boxes(es[e].slots) + Boxes(Flat(es[e + 1..]))
  {
    hide Flat, View, Boxes, Sound;
    assert es == es[..e] + [es[e]] + es[e + 1..];
    FlatAround(es[..e], es[e], es[e + 1..]);
    SlotsCut(Flat(es[..e]), es[e].slots, Flat(es[e + 1..]));
  }

  /** What the search finds, in the view of the group. */
  lemma EntryRoutes(es: seq<BEntry>, e: nat, key: nat, lo: int, hi: int)
    requires Shaped(es) && LeadsTo(es, e, key) && lo <= key < hi
    requires Sound(Flat(es)) && Ordered(View(Flat(es)), lo, hi)
    ensures e < |es| && es[e].slots != []
    ensures var a, m, b := View(Flat(es[..e])), View(es[e].slots), View(Flat(es[e + 1..]));
            && m != [] && LowOf(a, m, lo) <= key < HighOf(b, hi) && Ordered(m, LowOf(a, m, lo), HighOf(b, hi))
            && View(Flat(es)) == a + m + b
            && (Has(Pairs(View(Flat(es))), key) <==> Has(Pairs(m), key))
            && Lookup(Pairs(View(Flat(es))), key) == Lookup(Pairs(m), key)
  {
    hide View, Boxes, Sound, Ordered, Pairs, Has, Lookup;
    EntryCut(es, e);
    var a, m, b := View(Flat(es[..e])), View(es[e].slots), View(Flat(es[e + 1..]));
    ViewAt(es[e].slots, 0);
    if e == 0 {
      assert es[..e] == [];
      ViewEmpty();
    }
    if e + 1 < |es| {
      assert es[e + 1..][0] == es[e + 1];
      assert Flat(es[e + 1..])[0] == es[e + 1].slots[0];
      ViewAt(Flat(es[e + 1..]), 0);
    } else {
      assert es[e + 1..] == [];
      ViewEmpty();
    }
    MiddleOrdered(a, m, b, lo, hi);
    MiddleAround(a, m, b, lo, hi, key);
  }

  lemma ViewEmpty()
    ensures View(Flat([])) == []
  {
  }

  lemma EntriesRise(es: seq<BEntry>, lo: int, hi: int)
    requires Shaped(es) && Ordered(View(Flat(es)), lo, hi)
    ensures Rising(es)
  {
    ViewIncreasing(Flat(es), lo, hi);
    forall i, j | 0 <= i < j < |es| ensures FirstKey(es, i) < FirstKey(es, j) {
      FirstKeysIncrease(es, i, j);
    }
  }

  method GetInGroup(g: Group, key: nat, ghost lo: int, ghost hi: int) returns (r: Option<int>)
    requires GroupOk(g, lo, hi) && lo <= key < hi
    ensures var found := Lookup(Pairs(View(Flat(g.entries))), key);
            r == if found == Some(0) then None else found
  {
    hide View, Sound, Ordered, Pairs, Has, Lookup, Rising, LeadsTo, Flat;
    EntriesRise(g.entries, lo, hi);
    var e := FindEntry(g.entries, g.model, key);
    Untouched(Flat(g.entries));
    EntryRoutes(g.entries, e, key, lo, hi);
    EntryCut(g.entries, e);
    ghost var a, m, b := View(Flat(g.entries[..e])), View(g.entries[e].slots), View(Flat(g.entries[e + 1..]));
    r := GetInSlots(g.entries[e].slots, key, LowOf(a, m, lo), HighOf(b, hi));
  }

  /** The slots of the entry that a key leads to. */
  ghost function Taker(g: Group, key: nat): (slots: seq<Slot>)
    requires g.entries != [] && Shaped(g.entries)
    ensures 1 <= |slots| <= ENTRY_COUNT
  {
    g.entries[EntryOf(g.entries, key)].slots
  }

  /** The entry for the key has no slot left, and the key's bucket in it is full. */
  ghost predicate Blocked(g: Group, key: nat)
    requires g.entries != [] && Shaped(g.entries)
    reads set s | s in Taker(g, key) :: s.bucket
  {
    |Taker(g, key)| == ENTRY_COUNT && |View(Taker(g, key))| > 0 && BucketFull(View(Taker(g, key)), key)
  }

  /** Only the entry that the key leads to is another one. */
  ghost predicate OneEntryOf(g: Group, g': Group, key: nat)
    requires g.entries != [] && Shaped(g.entries) && Shaped(g'.entries)
  {
    && |g'.entries| == |g.entries| && g'.model == g.model
    && g'.entries[..EntryOf(g.entries, key)] == g.entries[..EntryOf(g.entries, key)]
    && g'.entries[EntryOf(g.entries, key) + 1..] == g.entries[EntryOf(g.entries, key) + 1..]
  }

  /** One round of `group::Put`: the entry for the key takes it unless bucket and entry are full. */
  method AttemptPut(g: Group, key: nat, value: int, ghost lo: int, ghost hi: int) returns (r: Status, g': Group)
    requires GroupOk(g, lo, hi) && lo <= key < hi && key != 0 && !Has(Pairs(View(Flat(g.entries))), key)
    modifies Boxes(Flat(g.entries))
    ensures GroupOk(g', lo, hi) && g'.minKey == g.minKey
    ensures forall o :: o in Boxes(Flat(g'.entries)) ==> o in Boxes(Flat(g.entries)) || fresh(o)
    ensures r in {OK, Full}
    ensures r.Full? ==> g' == g && View(Flat(g.entries)) == old(View(Flat(g.entries))) && !Single(g.entries)
    ensures r.Full? <==> old(Blocked(g, key))
    ensures r.OK? ==> OneEntryOf(g, g', key) && |old(View(Taker(g, key)))| > 0
                      && View(g'.entries[EntryOf(g.entries, key)].slots) ==
                         EntryPut(old(View(Taker(g, key))), Entry(key, value))
    ensures r.OK? ==> Pairs(View(Flat(g'.entries))) == PutEntry(old(Pairs(View(Flat(g.entries)))), Entry(key, value))
    ensures r.OK? ==> FirstKey(g'.entries, 0) == MinOf(FirstKey(g.entries, 0), key)
    ensures r.OK? && (|Flat(g.entries)| == 1 || Filled(old(View(Flat(g.entries))))) ==> Filled(View(Flat(g'.entries)))
  {
    hide View, Sound, Ordered, Pairs, Has, PutEntry, Rising, LeadsTo, Flat, Filled, Single, Boxes;
    EntriesRise(g.entries, lo, hi);
    EntryCut(g.entries, EntryOf(g.entries, key));
    var e := FindEntry(g.entries, g.model, key);
    EntryOfIs(g.entries, e, key);
    Untouched(Flat(g.entries));
    Untouched(Taker(g, key));
    r, g' := PutAtEntry(g, e, key, value, lo, hi);
  }

  method PutAtEntry(g: Group, e: nat, key: nat, value: int, ghost lo: int, ghost hi: int) returns (r: Status, g': Group)
    requires GroupOk(g, lo, hi) && lo <= key < hi && key != 0 && !Has(Pairs(View(Flat(g.entries))), key)
    requires Rising(g.entries) && LeadsTo(g.entries, e, key)
    modifies Boxes(Flat(g.entries))
    ensures GroupOk(g', lo, hi) && g'.minKey == g.minKey
    ensures forall o :: o in Boxes(Flat(g'.entries)) ==> o in Boxes(Flat(g.entries)) || fresh(o)
    ensures r in {OK, Full}
    ensures r.Full? ==> g' == g && View(Flat(g.entries)) == old(View(Flat(g.entries))) && !Single(g.entries)
    ensures r.Full? <==> old(Blocked(g, key))
    ensures r.OK? ==> OneEntryOf(g, g', key) && |old(View(Taker(g, key)))| > 0
                      && View(g'.entries[EntryOf(g.entries, key)].slots) ==
                         EntryPut(old(View(Taker(g, key))), Entry(key, value))
    ensures r.OK? ==> Pairs(View(Flat(g'.entries))) == PutEntry(old(Pairs(View(Flat(g.entries)))), Entry(key, value))
    ensures r.OK? ==> FirstKey(g'.entries, 0) == MinOf(FirstKey(g.entries, 0), key)
    ensures r.OK? && (|Flat(g.entries)| == 1 || Filled(old(View(Flat(g.entries))))) ==> Filled(View(Flat(g'.entries)))
  {
    hide View, Sound, Ordered, Pairs, Has, PutEntry, Rising, LeadsTo, Flat, Filled, Boxes, Shaped;
    ShapedAt(g.entries, e, key);
    EntryOfIs(g.entries, e, key);
    ghost var es, x := g.entries, Entry(key, value);
    ghost var a, m, b := Flat(es[..e]), es[e].slots, Flat(es[e + 1..]);
    ghost var va, vm, vb := View(a), View(m), View(b);
    EntryCut(es, e);
    EntryRoutes(es, e, key, lo, hi);
    OldBoxes(Flat(es));
    Separate(a, m, b);
    var slots, split;
    r, slots, split := PutInEntry(g.entries[e].slots, key, value, LowOf(va, vm, lo), HighOf(vb, hi));
    Untouched(a);
    Untouched(b);
    g' := g.(entries := g.entries[e := BEntry(slots)], nextEntryCount := g.nextEntryCount + if split then 1 else 0);
    EntriesReplaced(es, e, slots);
    SlotsJoin(a, slots, b);
    if r == OK {
      FirstKeyPut(es, e, slots, key);
      MiddleReplaced(va, vm, vb, View(slots), lo, hi);
      MiddlePut(va, vm, vb, View(slots), lo, hi, x);
      FilledPut(va, vm, vb, View(slots));
    } else {
      SlotsJoin(a, m, b);
      assert g.entries[e := BEntry(slots)] == g.entries;
    }
  }

  lemma ShapedAt(es: seq<BEntry>, e: nat, key: nat)
    requires Shaped(es) && LeadsTo(es, e, key)
    ensures e < |es| && 1 <= |es[e].slots| <= ENTRY_COUNT
  {
  }

  lemma EntriesReplaced(es: seq<BEntry>, e: nat, slots: seq<Slot>)
    requires Shaped(es) && e < |es| && 1 <= |slots| <= ENTRY_COUNT
    ensures Shaped(es[e := BEntry(slots)])
    ensures Flat(es[e := BEntry(slots)]) == Flat(es[..e]) + slots + Flat(es[e + 1..])
  {
    assert es[e := BEntry(slots)] == es[..e] + [BEntry(slots)] + es[e + 1..];
    FlatAround(es[..e], BEntry(slots), es[e + 1..]);
  }

  lemma FirstKeyPut(es: seq<BEntry>, e: nat, slots: seq<Slot>, key: nat)
    requires Shaped(es) && Rising(es) && LeadsTo(es, e, key) && 1 <= |slots| <= ENTRY_COUNT
    requires slots[0].entryKey == MinOf(es[e].slots[0].entryKey, key)
    ensures FirstKey(es[e := BEntry(slots)], 0) == MinOf(FirstKey(es, 0), key)
  {
    if e > 0 {
      assert FirstKey(es, 0) < FirstKey(es, e);
    }
  }

  lemma FilledPut(a: seq<Part>, m: seq<Part>, b: seq<Part>, m': seq<Part>)
    requires m != [] && ((|m| == 1 || Filled(m)) ==> Filled(m'))
    ensures |a + m + b| == 1 || Filled(a + m + b) ==> Filled(a + m' + b)
  {
    if |a + m + b| == 1 {
      assert a == [] && b == [];
    } else if Filled(a + m + b) {
      forall i | 0 <= i < |m| ensures m[i].c != [] {
        assert (a + m + b)[|a| + i] == m[i];
      }
      forall i | 0 <= i < |a + m' + b| ensures (a + m' + b)[i].c != [] {
        if i < |a| {
          assert (a + m + b)[i] == a[i];
        } else if i >= |a| + |m'| {
          assert (a + m + b)[i - |m'| + |m|] == (a + m' + b)[i];
        }
      }
    }
  }

  /** The slots one to an entry. */
  function Spread(slots: seq<Slot>): (es: seq<BEntry>)
    ensures |es| == |slots|
  {
    if slots == [] then [] else [BEntry([slots[0]])] + Spread(slots[1..])
  }

  lemma {:induction false} SpreadFlat(slots: seq<Slot>)
    ensures Flat(Spread(slots)) == slots && Single(Spread(slots)) && Shaped(Spread(slots))
  {
    if slots != [] {
      SpreadFlat(slots[1..]);
      assert Spread(slots)[1..] == Spread(slots[1..]);
    }
  }

  /** The iteration over the slots of all entries in order. */
  method SpreadEntries(es: seq<BEntry>) returns (r: seq<BEntry>)
    ensures r == Spread(Flat(es))
  {
    hide Flat, Spread;
    r := [];
    SpreadNone();
    for i := 0 to |es|
      invariant r == Spread(Flat(es[..i]))
    {
      r := SpreadOne(r, es[i].slots, Flat(es[..i]));
      FlatAround(es[..i], es[i], []);
      assert es[..i + 1] == es[..i] + [es[i]] + [];
      SpreadNone();
      assert Flat(es[..i]) + es[i].slots + [] == Flat(es[..i]) + es[i].slots;
    }
    assert es[..|es|] == es;
  }

  lemma SpreadNone()
    ensures Flat([]) == [] && Spread([]) == []
  {
  }

  method SpreadOne(r0: seq<BEntry>, slots: seq<Slot>, ghost done: seq<Slot>) returns (r: seq<BEntry>)
    requires r0 == Spread(done)
    ensures r == Spread(done + slots)
  {
    hide Spread;
    r := r0;
    assert done + slots[..0] == done;
    for j := 0 to |slots|
      invariant r == Spread(done + slots[..j])
    {
      SpreadAppend(done + slots[..j], slots[j]);
      assert done + slots[..j + 1] == done + slots[..j] + [slots[j]];
      r := r + [BEntry([slots[j]])];
    }
    assert slots[..|slots|] == slots;
  }

  lemma {:induction false} SpreadAppend(slots: seq<Slot>, s: Slot)
    ensures Spread(slots + [s]) == Spread(slots) + [BEntry([s])]
  {
    if slots != [] {
      assert (slots + [s])[1..] == slots[1..] + [s];
      SpreadAppend(slots[1..], s);
    }
  }

  /** `AdjustEntryKey`: the first slot's key becomes the least key in its bucket. */
  function AdjustEntryKey(g: Group): (g': Group)
    requires g.entries != [] && g.entries[0].slots != []
    requires g.entries[0].slots[0].bucket.Valid() && g.entries[0].slots[0].bucket.contents != []
    reads set s | s in g.entries[0].slots[..1] :: s.bucket
    reads set s | s in g.entries[0].slots[..1] :: s.bucket.records
    ensures |g'.entries| == |g.entries| && g'.minKey == g.minKey
  {
    var first := g.entries[0].slots[0];
    var slots := g.entries[0].slots[0 := Slot(first.bucket.MinKey(), first.bucket)];
    g.(entries := g.entries[0 := BEntry(slots)])
  }

  /** The first part begins at its least key. */
  ghost function Raised(v: seq<Part>): seq<Part>
    requires v != [] && v[0].c != []
  {
    v[0 := Part(v[0].c[0].key, v[0].c)]
  }

  /** The key only goes up, and nothing else changes. */
  lemma AdjustedOk(g: Group, lo: int, hi: int)
    requires GroupOk(g, lo, hi) && View(Flat(g.entries))[0].c != []
    ensures g.entries[0].slots != [] && g.entries[0].slots[0].bucket.Valid()
            && g.entries[0].slots[0].bucket.contents != []
    ensures var g' := AdjustEntryKey(g);
            && GroupOk(g', lo, hi) && Boxes(Flat(g'.entries)) == Boxes(Flat(g.entries))
            && FirstKey(g.entries, 0) <= FirstKey(g'.entries, 0)
            && View(Flat(g'.entries)) == Raised(View(Flat(g.entries)))
            && Pairs(View(Flat(g'.entries))) == Pairs(View(Flat(g.entries)))
            && (Filled(View(Flat(g.entries))) ==> Filled(View(Flat(g'.entries))))
  {
    hide View, Sound, Ordered, Pairs, Boxes, Filled;
    var all := Flat(g.entries);
    assert all[0] == g.entries[0].slots[0];
    ViewAt(all, 0);
    SlotSound(all, 0);
    var first := g.entries[0].slots[0];
    var raised := Slot(first.bucket.MinKey(), first.bucket);
    var slots := g.entries[0].slots[0 := raised];
    EntriesReplaced(g.entries, 0, slots);
    EntryCut(g.entries, 0);
    assert Flat(AdjustEntryKey(g).entries) == all[0 := raised];
    RaisedSlot(all, raised);
    FirstRaised(View(all), lo, hi);
    FilledRaised(View(all), View(all[0 := raised]));
  }

  lemma RaisedSlot(slots: seq<Slot>, raised: Slot)
    requires Sound(slots) && slots != [] && raised.bucket == slots[0].bucket
    ensures Sound(slots[0 := raised]) && Boxes(slots[0 := raised]) == Boxes(slots)
    ensures View(slots[0 := raised]) == View(slots)[0 := Part(raised.entryKey, slots[0].bucket.contents)]
  {
    var s := slots[0 := raised];
    assert s[1..] == slots[1..] && s == [raised] + slots[1..] && slots == [slots[0]] + slots[1..];
    BoxesConcat([raised], slots[1..]);
    BoxesConcat([slots[0]], slots[1..]);
    SoundOne(raised);
    SoundOne(slots[0]);
    SoundConcat([raised], slots[1..]);
    SoundConcat([slots[0]], slots[1..]);
  }

  lemma FilledRaised(v: seq<Part>, v': seq<Part>)
    requires |v'| == |v| && forall i :: 0 <= i < |v| ==> v'[i].c == v[i].c
    ensures Filled(v) ==> Filled(v')
  {
  }

  /** Rebuilds the group with one slot to an entry under a newly trained model. */
  method ExpandGroup(g: Group, train: Trainer, ghost lo: int, ghost hi: int) returns (g': Group)
    requires GroupOk(g, lo, hi) && View(Flat(g.entries))[0].c != []
    ensures GroupOk(g', lo, hi) && Boxes(Flat(g'.entries)) == Boxes(Flat(g.entries)) && Single(g'.entries)
    ensures g'.minKey == g.minKey && FirstKey(g.entries, 0) <= FirstKey(g'.entries, 0)
    ensures Pairs(View(Flat(g'.entries))) == Pairs(View(Flat(g.entries)))
    ensures Filled(View(Flat(g.entries))) ==> Filled(View(Flat(g'.entries)))
    ensures View(Flat(g.entries)) == old(View(Flat(g.entries)))
    ensures View(Flat(g'.entries)) == Raised(View(Flat(g.entries))) && |g'.entries| == |Flat(g.entries)|
    ensures g'.model == train(EntryKeys(g'.entries))
  {
    hide View, Sound, Ordered, Pairs, Boxes, Filled, Flat;
    AdjustedOk(g, lo, hi);
    g' := AdjustEntryKey(g);
    label Adjusted:
    var es := SpreadEntries(g'.entries);
    Untouched(Flat(g.entries));
    Untouched@Adjusted(Flat(g'.entries));
    FirstOfFlat(g'.entries);
    SpreadFlat(Flat(g'.entries));
    FirstOfFlat(es);
    g' := g'.(entries := es, nextEntryCount := |es|, model := train(EntryKeys(es)));
  }

  lemma FirstOfFlat(es: seq<BEntry>)
    requires Shaped(es) && es != []
    ensures Flat(es) != [] && Flat(es)[0] == es[0].slots[0]
  {
  }

  function EntryKeys(es: seq<BEntry>): seq<nat>
    requires Shaped(es)
  {
    seq(|es|, i requires 0 <= i < |es| => FirstKey(es, i))
  }

  /** `group::Put`: an entry that is blocked makes the group rebuild itself before it takes the pair, unless the group
      has grown too large. `at` is the group that took it. */
  method PutInGroup(g: Group, train: Trainer, key: nat, value: int, ghost lo: int, ghost hi: int)
    returns (r: Status, g': Group, ghost at: Group)
    requires GroupOk(g, lo, hi) && lo <= key < hi && key != 0 && !Has(Pairs(View(Flat(g.entries))), key)
    requires |Flat(g.entries)| == 1 || Filled(View(Flat(g.entries)))
    modifies Boxes(Flat(g.entries))
    ensures GroupOk(g', lo, hi) && g'.minKey == g.minKey
    ensures forall o :: o in Boxes(Flat(g'.entries)) ==> o in Boxes(Flat(g.entries)) || fresh(o)
    ensures r in {OK, Full}
    ensures r.Full? ==> g' == g && View(Flat(g.entries)) == old(View(Flat(g.entries))) && !Single(g.entries)
    ensures r.Full? <==> old(Blocked(g, key)) && g.nextEntryCount > MAX_ENTRY_COUNT
    ensures r.OK? ==> at.entries != [] && Shaped(at.entries) && OneEntryOf(at, g', key)
    ensures r.OK? && !old(Blocked(g, key)) ==> at == g
    ensures r.OK? && old(Blocked(g, key)) ==>
              && Single(at.entries) && |at.entries| == |Flat(g.entries)|
              && Boxes(Flat(at.entries)) == Boxes(Flat(g.entries))
              && at.model == train(EntryKeys(at.entries))
    ensures r.OK? ==> Pairs(View(Flat(g'.entries))) == PutEntry(old(Pairs(View(Flat(g.entries)))), Entry(key, value))
    ensures r.OK? ==> FirstKey(g'.entries, 0) >= MinOf(FirstKey(g.entries, 0), key)
    ensures r.OK? ==> Filled(View(Flat(g'.entries)))
  {
    hide View, Sound, Ordered, Pairs, Has, PutEntry, Rising, LeadsTo, Flat, Boxes, Shaped;
    OldBoxes(Flat(g.entries));
    at := g;
    r, g' := AttemptPut(g, key, value, lo, hi);
    if r == Full {
      if g'.nextEntryCount > MAX_ENTRY_COUNT {
        return;
      }
      ManySlots(g.entries);
      var rebuilt := ExpandGroup(g', train, lo, hi);
      at := rebuilt;
      r, g' := AttemptPut(rebuilt, key, value, lo, hi);
    }
  }

  /** An entry that overflows has company, so that its buckets have been filled. */
  lemma ManySlots(es: seq<BEntry>)
    requires Shaped(es) && es != [] && !Single(es)
    ensures |Flat(es)| > 1
  {
    var i :| 0 <= i < |es| && |es[i].slots| != 1;
    assert es == es[..i] + [es[i]] + es[i + 1..];
    FlatAround(es[..i], es[i], es[i + 1..]);
  }
}
