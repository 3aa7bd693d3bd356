/** The letree: groups of B-layer entries reached through a monotone model (src/letree.h). Without deletes. */
module Letrees {
  import opened Seqs
  import opened Wrappers
  import opened Entries
  import opened Parts
  import opened SortBuckets
  import opened PointerBEntries
  import opened LetreeGroups

  const MIN_ENTRY_COUNT := 64
  const KEY_LIMIT := 0x1_0000_0000_0000_0000

  // ---- The slots of all groups

  function AllSlots(gs: seq<Group>): seq<Slot> {
    if gs == [] then [] else Flat(gs[0].entries) + AllSlots(gs[1..])
  }

  lemma {:induction false} AllConcat(a: seq<Group>, b: seq<Group>)
    ensures AllSlots(a + b) == AllSlots(a) + AllSlots(b)
  {
    hide AllSlots, Flat;
    if a == [] {
      AllNone();
      assert a + b == b;
    } else {
      AllConcat(a[1..], b);
      AllFirst(a);
      AllFirst(a + b);
      assert (a + b)[1..] == a[1..] + b;
      Associate(Flat(a[0].entries), AllSlots(a[1..]), AllSlots(b));
    }
  }

  lemma AllNone()
    ensures AllSlots([]) == []
  {
  }

  lemma AllFirst(gs: seq<Group>)
    requires gs != []
    ensures AllSlots(gs) == Flat(gs[0].entries) + AllSlots(gs[1..])
  {
  }

  lemma AllAround(a: seq<Group>, g: Group, b: seq<Group>)
    ensures AllSlots(a + [g] + b) == AllSlots(a) + Flat(g.entries) + AllSlots(b)
  {
    hide Flat;
    AllConcat(a + [g], b);
    AllConcat(a, [g]);
    assert [g][1..] == [];
  }

  lemma {:induction false} AllEmpty(gs: seq<Group>)
    requires forall i :: 0 <= i < |gs| ==> gs[i].entries == []
    ensures AllSlots(gs) == []
  {
    if gs != [] {
      AllEmpty(gs[1..]);
    }
  }

  ghost predicate GroupShape(g: Group) {
    Shaped(g.entries) && g.nextEntryCount == |Flat(g.entries)|
  }

  ghost predicate Shapes(gs: seq<Group>) {
    forall i :: 0 <= i < |gs| ==> GroupShape(gs[i])
  }

  // ---- Routing

  ghost predicate Monotone(model: int -> int) {
    forall j, k :: j <= k ==> model(j) <= model(k)
  }

  /** The group that the model predicts for a key. */
  function GroupId(model: int -> int, n: nat, key: nat): (id: nat)
    requires n > 0
    ensures id < n
  {
    var p := model(key) / MIN_ENTRY_COUNT;
    if p < 0 then 0 else if p > n - 1 then n - 1 else p
  }

  lemma GroupIdMonotone(model: int -> int, n: nat, j: nat, k: nat)
    requires Monotone(model) && n > 0 && j <= k
    ensures GroupId(model, n, j) <= GroupId(model, n, k)
  {
    assert model(j) <= model(k);
  }

  /** First key of a group that is not empty. */
  function GroupKey(gs: seq<Group>, i: nat): nat
    requires i < |gs| && gs[i].entries != [] && Shaped(gs[i].entries)
  {
    FirstKey(gs[i].entries, 0)
  }

  /** No group but the first one that is not empty lies to the right of where the model puts its first key. */
  ghost predicate Placed(gs: seq<Group>, model: int -> int)
    requires Shapes(gs)
  {
    forall i, j :: 0 <= i < j < |gs| && gs[i].entries != [] && gs[j].entries != [] ==>
      GroupId(model, |gs|, GroupKey(gs, j)) >= j
  }

  /** Group `id` is the one for the key: the last one whose first key is not above it, or the first, among those that
      are not empty. */
  ghost predicate Owns(gs: seq<Group>, id: nat, key: nat)
    requires Shapes(gs)
  {
    && id < |gs| && gs[id].entries != []
    && (forall i :: 0 <= i < id && gs[i].entries != [] ==> GroupKey(gs, id) <= key)
    && (forall j :: id < j < |gs| && gs[j].entries != [] ==> key < GroupKey(gs, j))
  }

  /** The number of that group. */
  ghost function Owner(gs: seq<Group>, key: nat): (id: nat)
    requires gs != [] && Shapes(gs)
    ensures id < |gs|
  {
    if exists i: nat :: Owns(gs, i, key) then var i: nat :| Owns(gs, i, key); i else 0
  }

  lemma OwnerIs(gs: seq<Group>, id: nat, key: nat)
    requires gs != [] && Shapes(gs) && Owns(gs, id, key)
    ensures Owner(gs, key) == id
  {
    assert forall i: nat :: Owns(gs, i, key) ==> i == id;
  }

  /** The group for the key has too many slots to rebuild itself, and its entry for the key is blocked. */
  ghost predicate Overgrown(gs: seq<Group>, key: nat)
    requires gs != [] && Shapes(gs)
    reads set s | gs[Owner(gs, key)].entries != [] && s in Taker(gs[Owner(gs, key)], key) :: s.bucket
  {
    gs[Owner(gs, key)].nextEntryCount > MAX_ENTRY_COUNT && Blocks(gs, key)
  }

  /** The entry for the key in the group for it is blocked. */
  ghost predicate Blocks(gs: seq<Group>, key: nat)
    requires gs != [] && Shapes(gs)
    reads set s | gs[Owner(gs, key)].entries != [] && s in Taker(gs[Owner(gs, key)], key) :: s.bucket
  {
    gs[Owner(gs, key)].entries != [] && Blocked(gs[Owner(gs, key)], key)
  }

  /** The group for the key as it takes the pair: with one slot to an entry if it had to rebuild itself. */
  ghost predicate AtIn(gs: seq<Group>, at: Group, key: nat, blocked: bool)
    requires gs != [] && Shapes(gs)
  {
    var g := gs[Owner(gs, key)];
    if blocked then |at.entries| == |Flat(g.entries)| && Boxes(Flat(at.entries)) == Boxes(Flat(g.entries))
                    && Single(at.entries)
    else at == g
  }

  /** From `at`, in place of the group for the key, one entry took the pair; nothing else is another one. */
  ghost predicate TookAt(gs: seq<Group>, gs': seq<Group>, at: Group, key: nat)
    requires gs != [] && Shapes(gs)
  {
    var id := Owner(gs, key);
    && |gs'| == |gs| && gs'[..id] == gs[..id] && gs'[id + 1..] == gs[id + 1..]
    && at.entries != [] && Shaped(at.entries) && Shaped(gs'[id].entries) && OneEntryOf(at, gs'[id], key)
  }

  /** The groups that are not empty beyond group `id`, but for the first one of all, start above the key. */
  ghost predicate AboveAfter(gs: seq<Group>, id: nat, key: nat)
    requires Shapes(gs)
  {
    forall i, j :: 0 <= i < j < |gs| && id < j && gs[i].entries != [] && gs[j].entries != [] ==> key < GroupKey(gs, j)
  }

  lemma PredictedAbove(gs: seq<Group>, model: int -> int, key: nat, id: nat)
    requires gs != [] && Shapes(gs) && Monotone(model) && Placed(gs, model) && id == GroupId(model, |gs|, key)
    ensures AboveAfter(gs, id, key)
  {
    forall i, j | 0 <= i < j < |gs| && id < j && gs[i].entries != [] && gs[j].entries != []
      ensures key < GroupKey(gs, j)
    {
      if GroupKey(gs, j) <= key {
        GroupIdMonotone(model, |gs|, GroupKey(gs, j), key);
      }
    }
  }

  /** One step down from a group that is empty or starts above the key. */
  lemma AboveDown(gs: seq<Group>, id: nat, key: nat)
    requires Shapes(gs) && 0 < id < |gs| && AboveAfter(gs, id, key)
    requires gs[id].entries == [] || key < GroupKey(gs, id)
    ensures AboveAfter(gs, id - 1, key)
  {
  }

  lemma AboveUp(gs: seq<Group>, id: nat, key: nat)
    requires Shapes(gs) && AboveAfter(gs, id, key)
    ensures AboveAfter(gs, id + 1, key)
  {
  }

  lemma OwnsFound(gs: seq<Group>, id: nat, key: nat)
    requires Shapes(gs) && id < |gs| && gs[id].entries != [] && AboveAfter(gs, id, key)
    requires (forall i :: 0 <= i < id ==> gs[i].entries == []) || GroupKey(gs, id) <= key
    ensures Owns(gs, id, key)
  {
  }

  /** `find_group`: from the predicted group down to one that does not start above the key, then up over empty ones. */
  method FindGroup(gs: seq<Group>, model: int -> int, key: nat) returns (id: nat)
    requires gs != [] && Shapes(gs) && Monotone(model) && Placed(gs, model)
    requires exists i :: 0 <= i < |gs| && gs[i].entries != []
    ensures Owns(gs, id, key)
  {
    hide AboveAfter, Placed, Owns;
    id := GroupId(model, |gs|, key);
    PredictedAbove(gs, model, key, id);
    while id > 0 && (gs[id].entries == [] || key < FirstKey(gs[id].entries, 0))
      invariant id < |gs| && AboveAfter(gs, id, key)
    {
      AboveDown(gs, id, key);
      id := id - 1;
    }
    while gs[id].entries == []
      invariant id < |gs| && AboveAfter(gs, id, key)
      invariant (forall i :: 0 <= i < id ==> gs[i].entries == []) || (gs[id].entries != [] && GroupKey(gs, id) <= key)
      decreases |gs| - id
    {
      AboveUp(gs, id, key);
      id := id + 1;
    }
    OwnsFound(gs, id, key);
  }

  // ---- A group among the others

  lemma GroupCut(gs: seq<Group>, id: nat)
    requires Sound(AllSlots(gs)) && id < |gs|
    ensures var a, m, b := AllSlots(gs[..id]), Flat(gs[id].entries), AllSlots(gs[id + 1..]);
            && AllSlots(gs) == a + m + b && Sound(a) && Sound(m) && Sound(b)
            && Boxes(a) !! Boxes(m) !! Boxes(b) && Boxes(AllSlots(gs)) == Boxes(a) + Boxes(m) + Boxes(b)
            && View(AllSlots(gs)) == View(a) + View(m) + View(b)
  {
    hide AllSlots, Flat, View, Boxes, Sound;
    assert gs == gs[..id] + [gs[id]] + gs[id + 1..];
    AllAround(gs[..id], gs[id], gs[id + 1..]);
    SlotsCut(AllSlots(gs[..id]), Flat(gs[id].entries), AllSlots(gs[id + 1..]));
  }

  /** The first slot of all is the first one of the first group that is not empty. */
  lemma {:induction false} FirstSlot(gs: seq<Group>) returns (i: nat)
    requires Shapes(gs) && AllSlots(gs) != []
    ensures i < |gs| && gs[i].entries != [] && AllSlots(gs)[0].entryKey == GroupKey(gs, i)
  {
    assert GroupShape(gs[0]);
    AllFirst(gs);
    if gs[0].entries == [] {
      ShapesRest(gs);
      i := FirstSlot(gs[1..]);
      i := i + 1;
    } else {
      i := 0;
      FirstOfFlat(gs[0].entries);
    }
  }

  lemma ShapesRest(gs: seq<Group>)
    requires Shapes(gs) && gs != []
    ensures Shapes(gs[1..])
  {
    forall i | 0 <= i < |gs| - 1 ensures GroupShape(gs[1..][i]) {
      assert GroupShape(gs[i + 1]);
    }
  }

  lemma ShapesPart(gs: seq<Group>, a: nat, b: nat)
    requires Shapes(gs) && a <= b <= |gs|
    ensures Shapes(gs[a..b])
  {
    forall i | 0 <= i < b - a ensures GroupShape(gs[a..b][i]) {
      assert GroupShape(gs[a + i]);
    }
  }

  /** What `find_group` finds, in the view of the tree. */
  lemma {:induction false} OwnsRoutes(gs: seq<Group>, id: nat, key: nat, lo: int, hi: int)
    requires Shapes(gs) && Owns(gs, id, key) && lo <= key < hi
    requires Sound(AllSlots(gs)) && Ordered(View(AllSlots(gs)), lo, hi)
    ensures id < |gs|
    ensures var a, m, b := View(AllSlots(gs[..id])), View(Flat(gs[id].entries)), View(AllSlots(gs[id + 1..]));
            && m != [] && LowOf(a, m, lo) <= key < HighOf(b, hi) && GroupOk(gs[id], LowOf(a, m, lo), HighOf(b, hi))
            && View(AllSlots(gs)) == a + m + b
            && (Has(Pairs(View(AllSlots(gs))), key) <==> Has(Pairs(m), key))
            && Lookup(Pairs(View(AllSlots(gs))), key) == Lookup(Pairs(m), key)
    ensures AllSlots(gs[..id]) != [] ==> exists i :: 0 <= i < id && gs[i].entries != []
  {
    hide View, Boxes, Sound, Ordered, Pairs, Has, Lookup, AllSlots, Flat;
    GroupCut(gs, id);
    var a, m, b := View(AllSlots(gs[..id])), View(Flat(gs[id].entries)), View(AllSlots(gs[id + 1..]));
    FirstOfFlat(gs[id].entries);
    ViewAt(Flat(gs[id].entries), 0);
    ShapesPart(gs, 0, id);
    ShapesPart(gs, id + 1, |gs|);
    assert gs[..id] == gs[0..id] && gs[id + 1..] == gs[id + 1..|gs|];
    ViewLength(AllSlots(gs[..id]));
    ViewLength(AllSlots(gs[id + 1..]));
    if AllSlots(gs[..id]) != [] {
      var i := FirstSlot(gs[..id]);
      assert gs[i].entries != [];
    }
    if AllSlots(gs[id + 1..]) != [] {
      var j := FirstSlot(gs[id + 1..]);
      assert gs[id + 1 + j].entries != [];
      ViewAt(AllSlots(gs[id + 1..]), 0);
    }
    MiddleOrdered(a, m, b, lo, hi);
    MiddleAround(a, m, b, lo, hi, key);
  }

  lemma ViewLength(slots: seq<Slot>)
    ensures |View(slots)| == |slots|
  {
  }

  /** Slots within wider bounds. */
  lemma GroupWiden(g: Group, lo: int, hi: int, lo': int, hi': int)
    requires GroupOk(g, lo, hi) && lo' <= lo && hi <= hi'
    ensures GroupOk(g, lo', hi')
  {
    var v := View(Flat(g.entries));
    forall i | 0 <= i < |v| ensures v[i].key < NextKey(v, i, hi') && InRange(v[i].c, v[i].key, NextKey(v, i, hi')) {
      assert v[i].key < NextKey(v, i, hi) && InRange(v[i].c, v[i].key, NextKey(v, i, hi));
    }
  }

  /** What a group holds, the tree holds. */
  lemma GroupWithin(gs: seq<Group>, id: nat, key: nat, lo: int, hi: int)
    requires Shapes(gs) && id < |gs| && gs[id].entries != [] && Sound(AllSlots(gs))
             && Ordered(View(AllSlots(gs)), lo, hi)
    ensures var a, m, b := View(AllSlots(gs[..id])), View(Flat(gs[id].entries)), View(AllSlots(gs[id + 1..]));
            && m != [] && GroupOk(gs[id], LowOf(a, m, lo), HighOf(b, hi))
            && (Lookup(Pairs(m), key).Some? ==> Lookup(Pairs(View(AllSlots(gs))), key) == Lookup(Pairs(m), key))
  {
    hide View, Boxes, Sound, Ordered, Pairs, Has, Lookup, AllSlots, Flat;
    GroupCut(gs, id);
    var a, m, b := View(AllSlots(gs[..id])), View(Flat(gs[id].entries)), View(AllSlots(gs[id + 1..]));
    FirstOfFlat(gs[id].entries);
    ViewAt(Flat(gs[id].entries), 0);
    MiddleOrdered(a, m, b, lo, hi);
    PairsInRange(m, LowOf(a, m, lo), HighOf(b, hi));
    if Lookup(Pairs(m), key).Some? {
      LookupInRange(Pairs(m), key, LowOf(a, m, lo), HighOf(b, hi));
      MiddleAround(a, m, b, lo, hi, key);
    }
  }

  lemma LookupInRange(c: seq<Entry>, key: nat, lo: int, hi: int)
    requires InRange(c, lo, hi) && Lookup(c, key).Some?
    ensures lo <= key < hi
  {
  }

  // ---- Putting slots into groups

  /** The next slot goes behind those in its group. */
  function Append(gs: seq<Group>, id: nat, s: Slot): seq<Group>
    requires id < |gs|
  {
    var g := gs[id];
    gs[id := g.(entries := g.entries + [BEntry([s])], nextEntryCount := g.nextEntryCount + 1)]
  }

  /** Every entry is in the group that the model predicts for its key. */
  ghost predicate Assigned(gs: seq<Group>, model: int -> int)
    requires gs != [] && Shapes(gs)
  {
    forall j, e :: 0 <= j < |gs| && 0 <= e < |gs[j].entries| ==>
      GroupShape(gs[j]) && GroupId(model, |gs|, FirstKey(gs[j].entries, e)) == j
  }

  /** The slots so far, in order, in groups up to `last`, each where the model puts its key. */
  ghost predicate Filling(gs: seq<Group>, done: seq<Slot>, model: int -> int, last: nat) {
    && gs != [] && Shapes(gs) && AllSlots(gs) == done && last < |gs|
    && (forall j :: last < j < |gs| ==> gs[j].entries == [])
    && (forall j :: 0 <= j < |gs| ==> Single(gs[j].entries))
    && Assigned(gs, model)
  }

  lemma AppendFills(gs: seq<Group>, done: seq<Slot>, model: int -> int, last: nat, s: Slot)
    requires Filling(gs, done, model, last) && last <= GroupId(model, |gs|, s.entryKey)
    ensures Filling(Append(gs, GroupId(model, |gs|, s.entryKey), s), done
            + [s], model, GroupId(model, |gs|, s.entryKey))
  {
    hide Flat, AllSlots, GroupId;
    var id := GroupId(model, |gs|, s.entryKey);
    var gs', g := Append(gs, id, s), gs[id];
    AppendFlat(g.entries, s);
    AppendAll(gs, id, s);
    forall j | 0 <= j < |gs'| ensures GroupShape(gs'[j]) && Single(gs'[j].entries) {
      assert GroupShape(gs[j]) && Single(gs[j].entries);
    }
    forall j, e | 0 <= j < |gs'| && 0 <= e < |gs'[j].entries|
      ensures GroupId(model, |gs'|, FirstKey(gs'[j].entries, e)) == j
    {
      if e < |gs[j].entries| {
        assert GroupShape(gs[j]) && FirstKey(gs'[j].entries, e) == FirstKey(gs[j].entries, e);
      }
    }
  }

  lemma AppendFlat(es: seq<BEntry>, s: Slot)
    ensures Flat(es + [BEntry([s])]) == Flat(es) + [s]
  {
    FlatConcat(es, [BEntry([s])]);
    assert [BEntry([s])][1..] == [];
  }

  lemma {:induction false} AppendAll(gs: seq<Group>, id: nat, s: Slot)
    requires id < |gs| && forall j :: id < j < |gs| ==> gs[j].entries == []
    ensures AllSlots(Append(gs, id, s)) == AllSlots(gs) + [s]
  {
    hide Flat;
    var a, g, b := gs[..id], gs[id], gs[id + 1..];
    var g' := Append(gs, id, s)[id];
    assert gs == a + [g] + b && Append(gs, id, s) == a + [g'] + b;
    AllAround(a, g, b);
    AllAround(a, g', b);
    AppendFlat(g.entries, s);
    AllEmpty(b);
  }

  lemma EmptyGroupsFill(gs: seq<Group>, model: int -> int)
    requires gs != [] && forall j :: 0 <= j < |gs| ==> gs[j].entries == [] && gs[j].nextEntryCount == 0
    ensures Filling(gs, [], model, 0)
  {
    AllEmpty(gs);
  }

  lemma FilledPlaced(gs: seq<Group>, done: seq<Slot>, model: int -> int, last: nat)
    requires Filling(gs, done, model, last)
    ensures Shapes(gs) && Placed(gs, model) && AllSlots(gs) == done && gs != [] && Assigned(gs, model)
    ensures forall j :: 0 <= j < |gs| ==> Single(gs[j].entries)
  {
    hide GroupId;
    assert forall j :: 0 <= j < |gs| && gs[j].entries != [] ==> GroupId(model, |gs|, GroupKey(gs, j)) == j;
  }

  /** Groups as a build leaves them: one slot to an entry, each in the group that the model predicts for it, and the
      models of the groups trained on what they hold. */
  ghost predicate Fresh(gs: seq<Group>, model: int -> int, trainGroup: Trainer) {
    && gs != [] && Shapes(gs) && Assigned(gs, model)
    && forall j :: 0 <= j < |gs| ==>
         && GroupShape(gs[j]) && Single(gs[j].entries)
         && (gs[j].entries != [] ==> gs[j].model == trainGroup(EntryKeys(gs[j].entries)))
  }

  function SlotKeys(slots: seq<Slot>): seq<nat> {
    seq(|slots|, i requires 0 <= i < |slots| => slots[i].entryKey)
  }

  /** Groups as a rebuild of the tree leaves them. */
  ghost predicate Rebuilt(gs: seq<Group>, model: int -> int, trainTree: Trainer, trainGroup: Trainer) {
    && Fresh(gs, model, trainGroup) && model == trainTree(SlotKeys(AllSlots(gs)))
    && |gs| == (|AllSlots(gs)| + MIN_ENTRY_COUNT - 1) / MIN_ENTRY_COUNT
    && forall j :: 0 <= j < |gs| && gs[j].entries != [] ==> GroupShape(gs[j]) && gs[j].minKey == GroupKey(gs, j)
  }

  lemma RebuiltIs(gs: seq<Group>, model: int -> int, trainTree: Trainer, trainGroup: Trainer)
    requires Fresh(gs, model, trainGroup) && model == trainTree(SlotKeys(AllSlots(gs)))
    requires |gs| == (|AllSlots(gs)| + MIN_ENTRY_COUNT - 1) / MIN_ENTRY_COUNT
    requires forall j :: 0 <= j < |gs| && gs[j].entries != [] ==> gs[j].minKey == GroupKey(gs, j)
    ensures Rebuilt(gs, model, trainTree, trainGroup)
  {
  }

  /** No entry is blocked after a rebuild. */
  lemma RebuiltFree(gs: seq<Group>, model: int -> int, trainTree: Trainer, trainGroup: Trainer, key: nat)
    requires Rebuilt(gs, model, trainTree, trainGroup)
    ensures gs != [] && Shapes(gs) && !Blocks(gs, key)
  {
    assert Single(gs[Owner(gs, key)].entries);
  }

  class Letree {
    var groups: seq<Group>
    var model: int -> int
    var rootExpandTimes: nat
    const trainTree: Trainer
    const trainGroup: Trainer

    /** Training gives a monotone prediction of groups. */
    ghost predicate Trained() {
      forall keys :: Monotone(trainTree(keys))
    }

    ghost predicate Valid()
      reads this`groups, this`model, Boxes(AllSlots(groups))
    {
      && groups != [] && Shapes(groups) && Monotone(model) && Placed(groups, model)
      && Content(groups) && (|AllSlots(groups)| == 1 || Filled(View(AllSlots(groups))))
    }

    /** The stored pairs in key order. */
    ghost function Contents(): seq<Entry>
      reads this`groups, Boxes(AllSlots(groups))
    {
      Pairs(View(AllSlots(groups)))
    }

    /** One group with one empty bucket. */
    constructor Init(trainTree: Trainer, trainGroup: Trainer)
      requires forall keys :: Monotone(trainTree(keys))
      ensures Valid() && Trained() && Contents() == [] && fresh(Boxes(AllSlots(groups)))
    {
      this.trainTree, this.trainGroup := trainTree, trainGroup;
      var bucket := new SortBucket();
      var s := Slot(0, bucket);
      groups, model := Append([Group([], 0, 0, trainGroup([0]))], 0, s), trainTree([]);
      rootExpandTimes := 0;
      new;
      EmptyGroupsFill([Group([], 0, 0, trainGroup([0]))], trainTree([]));
      AppendFills([Group([], 0, 0, trainGroup([0]))], [], trainTree([]), 0, s);
      FilledPlaced(groups, [s], trainTree([]), 0);
      SoundOne(s);
      PairsSingle(Part(0, []));
    }

    /** Every pair gets an entry with a bucket of its own, in the group that the model predicts. */
    constructor BulkLoad(data: seq<Entry>, trainTree: Trainer, trainGroup: Trainer)
      requires forall keys :: Monotone(trainTree(keys))
      requires |data| >= MIN_ENTRY_COUNT && InRange(data, 1, KEY_LIMIT)
      ensures Valid() && Trained() && Contents() == data && fresh(Boxes(AllSlots(groups)))
      ensures View(AllSlots(groups)) == Singles(data) && |groups| == |data| / MIN_ENTRY_COUNT
      ensures Fresh(groups, model, trainGroup) && rootExpandTimes == 0
      ensures model == trainTree(seq(|data|, i requires 0 <= i < |data| => data[i].key))
      ensures forall j :: 0 <= j < |groups| && groups[j].entries != [] ==> groups[j].minKey == data[0].key
    {
      hide View, Sound, Ordered, Pairs, AllSlots, Filled, Placed, Shapes, Monotone, Fresh, InRange, Singles;
      this.trainTree, this.trainGroup := trainTree, trainGroup;
      var gs, m := LoadGroups(data, trainTree, trainGroup);
      label Loaded:
      groups, model, rootExpandTimes := gs, m, 0;
      new;
      Untouched@Loaded(AllSlots(groups));
    }

    /** The first of the two lookups goes straight to the predicted group and may miss; the second finds the group. */
    method Get(key: nat) returns (r: Option<int>)
      requires Valid() && key < KEY_LIMIT
      ensures r == if Lookup(Contents(), key) == Some(0) then None else Lookup(Contents(), key)
    {
      hide View, Boxes, Sound, Ordered, Pairs, Has, Lookup, AllSlots, Flat, Owns, Placed, Monotone, Filled;
      r := FindFast(key);
      Untouched(AllSlots(groups));
      if r.Some? {
        return;
      }
      SomeGroup(groups);
      var id := FindGroup(groups, model, key);
      Untouched(AllSlots(groups));
      OwnsRoutes(groups, id, key, 0, KEY_LIMIT);
      ghost var a, m, b := View(AllSlots(groups[..id])), View(Flat(groups[id].entries)),
          View(AllSlots(groups[id + 1..]));
      GroupCut(groups, id);
      label Found:
      r := GetInGroup(groups[id], key, LowOf(a, m, 0), HighOf(b, KEY_LIMIT));
      Untouched(AllSlots(groups));
      Untouched@Found(Flat(groups[id].entries));
    }

    method FindFast(key: nat) returns (r: Option<int>)
      requires Valid() && key < KEY_LIMIT
      ensures r.Some? ==> r == Lookup(Contents(), key) && r != Some(0)
      ensures var g := groups[GroupId(model, |groups|, key)]; var found := Lookup(Pairs(View(Flat(g.entries))), key);
              r == if g.entries == [] || key < g.minKey || found == Some(0) then None else found
    {
      hide View, Boxes, Sound, Ordered, Pairs, Has, Lookup, AllSlots, Flat, Owns, Placed, Monotone, Filled, GroupId;
      var id := GroupId(model, |groups|, key);
      if groups[id].entries == [] || key < groups[id].minKey {
        return None;
      }
      GroupWithin(groups, id, key, 0, KEY_LIMIT);
      ghost var a, m, b := View(AllSlots(groups[..id])), View(Flat(groups[id].entries)),
          View(AllSlots(groups[id + 1..]));
      ghost var lo, hi := LowOf(a, m, 0), HighOf(b, KEY_LIMIT);
      ghost var lo', hi' := if key < lo then key as int else lo, if hi <= key then key as int + 1 else hi;
      GroupWiden(groups[id], lo, hi, lo', hi');
      r := GetInGroup(groups[id], key, lo', hi');
      Untouched(Flat(groups[id].entries));
      Untouched(AllSlots(groups));
    }

    /** `Put` of a key that is not there: an overgrown group makes the tree rebuild itself, and then has room. `spread`
        are the groups that the pair goes into, `at` is the one of them that takes it. */
    method Put(key: nat, value: int) returns (ghost spread: seq<Group>, ghost at: Group)
      requires Valid() && Trained() && key != 0 && key < KEY_LIMIT && !Has(Contents(), key)
      modifies this, Boxes(AllSlots(groups))
      ensures Valid() && Trained()
      ensures Contents() == PutEntry(old(Contents()), Entry(key, value))
      ensures rootExpandTimes == old(rootExpandTimes) + if old(Overgrown(groups, key)) then 1 else 0
      ensures if old(Overgrown(groups, key))
              then Rebuilt(spread, model, trainTree, trainGroup)
                   && Boxes(AllSlots(spread)) == old(Boxes(AllSlots(groups))) && at == spread[Owner(spread, key)]
              else spread == old(groups) && model == old(model) && AtIn(spread, at, key, old(Blocks(groups, key)))
      ensures TookAt(spread, groups, at, key)
      ensures Ascending(old(Contents())) && forall k ::
                Lookup(Contents(), k) == if k == key then Some(value) else old(Lookup(Contents(), k))
      ensures forall o :: o in Boxes(AllSlots(groups)) ==> o in old(Boxes(AllSlots(groups))) || fresh(o)
    {
      hide View, Boxes, Sound, Ordered, Pairs, Has, AllSlots, Filled, PutEntry, Placed, Shapes, Monotone, Lookup;
      ghost var c := Contents();
      PairsInRange(View(AllSlots(groups)), 0, KEY_LIMIT);
      NotABox(this, AllSlots(groups));
      spread := groups;
      var r;
      r, at := TryPutTree(key, value);
      if r == Full {
        label Counted:
        rootExpandTimes := rootExpandTimes + 1;
        Untouched@Counted(AllSlots(groups));
        ghost var adjusted := ExpandTree();
        spread := groups;
        RebuiltFree(groups, model, trainTree, trainGroup, key);
        r, at := TryPutTree(key, value);
      }
      forall k ensures Lookup(Contents(), k) == if k == key then Some(value) else Lookup(c, k) {
        PutLookup(c, Entry(key, value), k);
      }
    }

    /** Raises the first keys, as in `gs`, and rebuilds all groups with one slot to an entry, distributed by a newly
        trained model. */
    method ExpandTree() returns (ghost gs: seq<Group>)
      requires Valid() && Trained() && Filled(View(AllSlots(groups)))
      modifies this`groups, this`model
      ensures Valid() && Contents() == old(Contents()) && Boxes(AllSlots(groups)) == old(Boxes(AllSlots(groups)))
      ensures Rebuilt(groups, model, trainTree, trainGroup) && AllSlots(groups) == AllSlots(gs)
      ensures |gs| == |old(groups)| && forall j :: 0 <= j < |gs| ==> Adjusted(old(groups)[j], gs[j])
    {
      hide View, Boxes, Sound, Ordered, Pairs, AllSlots, Filled, Placed, Shapes, Monotone, Fresh, Assigned;
      hide RetrainedTo, GroupShape, Single;
      var adjusted := AdjustAll(groups);
      gs := adjusted;
      var slots := AllSlots(adjusted);
      ViewIncreasing(slots, 0, KEY_LIMIT);
      var m := trainTree(SlotKeys(slots));
      var empty := seq((|slots| + MIN_ENTRY_COUNT - 1) / MIN_ENTRY_COUNT, _ => Group([], 0, 0, trainGroup([])));
      label Adjusted:
      var filled := FillGroups(empty, slots, m);
      var built := Retrain(filled, trainGroup, true);
      RetrainKeeps(filled, built, m, trainGroup, true);
      RebuiltIs(built, m, trainTree, trainGroup);
      groups, model := built, m;
      Untouched@Adjusted(slots);
    }

    /** One round of `Put`: the group for the key takes it unless it has overflown. */
    method TryPutTree(key: nat, value: int) returns (r: Status, ghost at: Group)
      requires Valid() && key != 0 && key < KEY_LIMIT && !Has(Contents(), key)
      modifies this`groups, Boxes(AllSlots(groups))
      ensures Valid() && r in {OK, Full} && model == old(model)
      ensures forall o :: o in Boxes(AllSlots(groups)) ==> o in old(Boxes(AllSlots(groups))) || fresh(o)
      ensures r.Full? ==> groups == old(groups) && Contents() == old(Contents()) && Filled(View(AllSlots(groups)))
      ensures r.Full? ==> exists i :: 0 <= i < |groups| && !Single(groups[i].entries)
      ensures r.Full? <==> old(Overgrown(groups, key))
      ensures r.OK? ==> TookAt(old(groups), groups, at, key) && AtIn(old(groups), at, key, old(Blocks(groups, key)))
      ensures r.OK? ==> Contents() == PutEntry(old(Contents()), Entry(key, value))
    {
      hide View, Boxes, Sound, Ordered, Pairs, Has, AllSlots, Flat, Owns, Placed, Monotone, Filled, Single, PutEntry;
      hide Shaped, OneEntryOf;
      SomeGroup(groups);
      ghost var gs := groups;
      if gs[Owner(gs, key)].entries != [] {
        TakerSound(gs, Owner(gs, key), key);
      }
      var id := FindGroup(groups, model, key);
      OwnerIs(gs, id, key);
      Untouched(AllSlots(gs));
      assert gs[id].entries != [] && Shaped(gs[id].entries) by {
        OwnedNotEmpty(gs, id, key);
      }
      Untouched(Taker(gs[id], key));
      r, at := PutToGroup(id, key, value);
    }

    /** Puts to the group for the key. */
    method PutToGroup(id: nat, key: nat, value: int) returns (r: Status, ghost at: Group)
      requires Valid() && key != 0 && key < KEY_LIMIT && !Has(Contents(), key) && Owns(groups, id, key)
      requires id < |groups| && groups[id].entries != [] && Shaped(groups[id].entries)
      modifies this`groups, Boxes(AllSlots(groups))
      ensures Valid() && r in {OK, Full} && model == old(model)
      ensures forall o :: o in Boxes(AllSlots(groups)) ==> o in old(Boxes(AllSlots(groups))) || fresh(o)
      ensures r.Full? ==> groups == old(groups) && Contents() == old(Contents()) && Filled(View(AllSlots(groups)))
      ensures r.Full? ==> !Single(groups[id].entries)
      ensures r.Full? <==> old(Blocked(groups[id], key)) && old(groups)[id].nextEntryCount > MAX_ENTRY_COUNT
      ensures r.OK? ==> id < |groups| && groups == old(groups)[id := groups[id]] && at.entries != []
      ensures r.OK? ==> Shaped(at.entries) && Shaped(groups[id].entries) && OneEntryOf(at, groups[id], key)
      ensures r.OK? && !old(Blocked(groups[id], key)) ==> at == old(groups)[id]
      ensures r.OK? && old(Blocked(groups[id], key)) ==>
                |at.entries| == |Flat(old(groups)[id].entries)| && Single(at.entries)
                && Boxes(Flat(at.entries)) == Boxes(Flat(old(groups)[id].entries))
      ensures r.OK? ==> Contents() == PutEntry(old(Contents()), Entry(key, value))
    {
      hide View, Boxes, Sound, Ordered, Pairs, Has, AllSlots, Flat, Owns, Placed, Monotone, Filled, Single, PutEntry;
      hide GroupId, Shaped, Blocked, OneEntryOf;
      ghost var gs := groups;
      OwnsRoutes(gs, id, key, 0, KEY_LIMIT);
      GroupCut(gs, id);
      ghost var a, m, b := AllSlots(gs[..id]), Flat(gs[id].entries), AllSlots(gs[id + 1..]);
      ghost var va, vm, vb, x := View(a), View(m), View(b), Entry(key, value);
      FilledMiddle(va, vm, vb);
      ViewLength(m);
      ViewLength(a + m + b);
      OldBoxes(AllSlots(gs));
      Separate(a, m, b);
      NotABox(this, m);
      label Before:
      var g';
      r, g', at := PutInGroup(groups[id], trainGroup, key, value, LowOf(va, vm, 0), HighOf(vb, KEY_LIMIT));
      Untouched@Before(a);
      Untouched@Before(b);
      if r == Full {
        assert groups[id := g'] == groups;
        SlotsJoin(a, m, b);
        return;
      }
      GroupPutDone(gs, id, g', model, key, value, va, vm, vb);
      label After:
      groups := groups[id := g'];
      Untouched@After(AllSlots(groups));
    }
  }

  /** Raises the first keys of all groups that are not empty to the least keys in their buckets. */
  method AdjustAll(gs0: seq<Group>) returns (gs: seq<Group>)
    requires Shapes(gs0) && Content(gs0) && Filled(View(AllSlots(gs0)))
    ensures |gs| == |gs0| && Shapes(gs) && Content(gs) && Filled(View(AllSlots(gs)))
    ensures Pairs(View(AllSlots(gs))) == old(Pairs(View(AllSlots(gs0))))
    ensures Boxes(AllSlots(gs)) == Boxes(AllSlots(gs0))
    ensures forall j :: 0 <= j < |gs| ==> Adjusted(gs0[j], gs[j])
  {
    hide View, Boxes, Sound, Ordered, Pairs, AllSlots, Filled, Shaped, Flat;
    gs := gs0;
    for i := 0 to |gs0|
      invariant |gs| == |gs0| && Shapes(gs) && Content(gs) && Filled(View(AllSlots(gs)))
      invariant Pairs(View(AllSlots(gs))) == old(Pairs(View(AllSlots(gs0))))
      invariant Boxes(AllSlots(gs)) == Boxes(AllSlots(gs0))
      invariant forall j :: 0 <= j < i ==> Adjusted(gs0[j], gs[j])
      invariant forall j :: i <= j < |gs| ==> gs[j] == gs0[j]
    {
      if gs[i].entries != [] {
        AdjustOne(gs, i);
        gs := gs[i := AdjustEntryKey(gs[i])];
      }
    }
  }

  /** The group's first key is the least one in its first bucket, and nothing else is another one. */
  ghost predicate Adjusted(g: Group, g': Group)
    reads set e, s | e in g.entries[..MinOf(1, |g.entries|)] && s in e.slots :: s.bucket
  {
    if g.entries == [] then g' == g
    else
      && g.entries[0].slots != [] && |g'.entries| == |g.entries| && |g'.entries[0].slots| == |g.entries[0].slots|
      && g' == g.(entries := [g'.entries[0]] + g.entries[1..])
      && g'.entries[0].slots[1..] == g.entries[0].slots[1..]
      && var first := g.entries[0].slots[0];
         first.bucket.contents != [] && g'.entries[0].slots[0] == Slot(first.bucket.contents[0].key, first.bucket)
  }

  lemma AdjustOne(gs: seq<Group>, i: nat)
    requires Shapes(gs) && Content(gs) && Filled(View(AllSlots(gs))) && i < |gs| && gs[i].entries != []
    ensures gs[i].entries[0].slots != []
    ensures gs[i].entries[0].slots[0].bucket.Valid() && gs[i].entries[0].slots[0].bucket.contents != []
    ensures var gs' := gs[i := AdjustEntryKey(gs[i])];
            && Shapes(gs') && Content(gs') && Filled(View(AllSlots(gs')))
            && Pairs(View(AllSlots(gs'))) == Pairs(View(AllSlots(gs))) && Boxes(AllSlots(gs')) == Boxes(AllSlots(gs))
  {
    hide View, Boxes, Sound, Ordered, Pairs, AllSlots, Filled, Flat;
    assert GroupShape(gs[i]);
    GroupCut(gs, i);
    var a, m, b := AllSlots(gs[..i]), Flat(gs[i].entries), AllSlots(gs[i + 1..]);
    var va, vm, vb := View(a), View(m), View(b);
    FirstOfFlat(gs[i].entries);
    ViewAt(m, 0);
    MiddleOrdered(va, vm, vb, 0, KEY_LIMIT);
    FilledMiddle(va, vm, vb);
    FilledFirst(vm);
    AdjustedOk(gs[i], LowOf(va, vm, 0), HighOf(vb, KEY_LIMIT));
    var g' := AdjustEntryKey(gs[i]);
    GroupReplaced(gs, i, g');
    FirstOfFlat(g'.entries);
    SlotsJoin(a, Flat(g'.entries), b);
    MiddleReplaced(va, vm, vb, View(Flat(g'.entries)), 0, KEY_LIMIT);
    FilledPut(va, vm, vb, View(Flat(g'.entries)));
  }

  lemma FilledFirst(v: seq<Part>)
    requires Filled(v) && v != []
    ensures v[0].c != []
  {
  }

  /** The tree around a group that has taken a pair. */
  lemma GroupPutDone(gs: seq<Group>, id: nat, g': Group, model: int -> int, key: nat, value: int,
                                        va: seq<Part>, vm: seq<Part>, vb: seq<Part>)
    requires Shapes(gs) && Placed(gs, model) && Monotone(model) && Owns(gs, id, key)
             && Ordered(va + vm + vb, 0, KEY_LIMIT)
    requires id < |gs| && vm != [] && LowOf(va, vm, 0) <= key < HighOf(vb, KEY_LIMIT)
             && (|va + vm + vb| == 1 || Filled(va + vm + vb))
    requires GroupOk(g', LowOf(va, vm, 0), HighOf(vb, KEY_LIMIT)) && Filled(View(Flat(g'.entries)))
    requires Pairs(View(Flat(g'.entries))) == PutEntry(Pairs(vm), Entry(key, value))
    requires FirstKey(g'.entries, 0) >= MinOf(GroupKey(gs, id), key)
    requires Sound(AllSlots(gs[..id])) && Sound(AllSlots(gs[id + 1..]))
    requires View(AllSlots(gs[..id])) == va && View(AllSlots(gs[id + 1..])) == vb
    requires Boxes(AllSlots(gs[..id])) !! Boxes(Flat(g'.entries)) !! Boxes(AllSlots(gs[id + 1..]))
    ensures Shapes(gs[id := g']) && Placed(gs[id := g'], model) && Content(gs[id := g'])
    ensures Filled(View(AllSlots(gs[id := g'])))
    ensures Pairs(View(AllSlots(gs[id := g']))) == PutEntry(Pairs(va + vm + vb), Entry(key, value))
    ensures Boxes(AllSlots(gs[id := g'])) ==
            Boxes(AllSlots(gs[..id])) + Boxes(Flat(g'.entries)) + Boxes(AllSlots(gs[id + 1..]))
  {
    hide View, Boxes, Sound, Ordered, Pairs, Has, AllSlots, Flat, Owns, Placed, Monotone, Filled, PutEntry, GroupId;
    var a, m', b := AllSlots(gs[..id]), Flat(g'.entries), AllSlots(gs[id + 1..]);
    PlacedPut(gs, model, id, key, g');
    GroupReplaced(gs, id, g');
    FirstOfFlat(g'.entries);
    SlotsJoin(a, m', b);
    MiddleReplaced(va, vm, vb, View(m'), 0, KEY_LIMIT);
    MiddlePut(va, vm, vb, View(m'), 0, KEY_LIMIT, Entry(key, value));
    FilledPut(va, vm, vb, View(m'));
  }

  lemma NotABox(t: Letree, slots: seq<Slot>)
    ensures t !in Boxes(slots)
  {
  }

  lemma GroupReplaced(gs: seq<Group>, id: nat, g': Group)
    requires Shapes(gs) && id < |gs| && GroupShape(g')
    ensures Shapes(gs[id := g'])
    ensures AllSlots(gs[id := g']) == AllSlots(gs[..id]) + Flat(g'.entries) + AllSlots(gs[id + 1..])
  {
    assert gs[id := g'] == gs[..id] + [g'] + gs[id + 1..];
    AllAround(gs[..id], g', gs[id + 1..]);
  }

  /** The first key of the group may have gone down to the put key, up by a rebuild, or both. */
  lemma PlacedPut(gs: seq<Group>, model: int -> int, id: nat, key: nat, g': Group)
    requires Shapes(gs) && Placed(gs, model) && Monotone(model) && Owns(gs, id, key)
    requires GroupShape(g') && g'.entries != [] && FirstKey(g'.entries, 0) >= MinOf(GroupKey(gs, id), key)
    ensures Shapes(gs[id := g']) && Placed(gs[id := g'], model)
  {
    var gs' := gs[id := g'];
    forall i, j | 0 <= i < j < |gs'| && gs'[i].entries != [] && gs'[j].entries != []
      ensures GroupId(model, |gs'|, GroupKey(gs', j)) >= j
    {
      if j == id {
        assert gs[i].entries != [] && GroupKey(gs, id) <= key;
        GroupIdMonotone(model, |gs|, GroupKey(gs, id), GroupKey(gs', id));
      } else {
        assert GroupKey(gs', j) == GroupKey(gs, j) && gs[i].entries != [];
      }
    }
  }

  lemma FilledMiddle(a: seq<Part>, m: seq<Part>, b: seq<Part>)
    ensures |a + m + b| == 1 && m != [] ==> |m| == 1
    ensures Filled(a + m + b) ==> Filled(m)
  {
    if Filled(a + m + b) {
      forall i | 0 <= i < |m| ensures m[i].c != [] {
        assert (a + m + b)[|a| + i] == m[i];
      }
    }
  }

  ghost predicate Content(gs: seq<Group>)
    reads Boxes(AllSlots(gs))
  {
    AllSlots(gs) != [] && Sound(AllSlots(gs)) && Ordered(View(AllSlots(gs)), 0, KEY_LIMIT)
  }

  lemma TakerSound(gs: seq<Group>, id: nat, key: nat)
    requires Shapes(gs) && Sound(AllSlots(gs)) && id < |gs| && gs[id].entries != []
    ensures Shaped(gs[id].entries) && Sound(Taker(gs[id], key))
    ensures Boxes(Taker(gs[id], key)) <= Boxes(AllSlots(gs))
  {
    hide View, Boxes, Sound, AllSlots, Flat;
    GroupCut(gs, id);
    EntryCut(gs[id].entries, EntryOf(gs[id].entries, key));
  }

  lemma OwnedNotEmpty(gs: seq<Group>, id: nat, key: nat)
    requires Shapes(gs) && Owns(gs, id, key)
    ensures id < |gs| && gs[id].entries != [] && Shaped(gs[id].entries)
  {
    assert GroupShape(gs[id]);
  }

  lemma SomeGroup(gs: seq<Group>)
    requires Shapes(gs) && AllSlots(gs) != []
    ensures exists i :: 0 <= i < |gs| && gs[i].entries != []
  {
    var i := FirstSlot(gs);
  }

  /** The ranges of a bulk load. */
  function Singles(data: seq<Entry>): (v: seq<Part>)
    ensures |v| == |data|
  {
    if data == [] then [] else [Part(data[0].key, [data[0]])] + Singles(data[1..])
  }

  lemma {:induction false} SinglesAppend(data: seq<Entry>, x: Entry)
    ensures Singles(data + [x]) == Singles(data) + [Part(x.key, [x])]
  {
    if data != [] {
      assert (data + [x])[1..] == data[1..] + [x];
      SinglesAppend(data[1..], x);
    }
  }

  lemma {:induction false} SinglesOrdered(data: seq<Entry>, lo: int, hi: int)
    requires InRange(data, lo, hi) && lo <= hi
    ensures Ordered(Singles(data), lo, hi) && Pairs(Singles(data)) == data && Filled(Singles(data))
  {
    if data != [] {
      var t := data[1..];
      SinglesOrdered(t, data[0].key + 1, hi);
      var v := Singles(data);
      assert v == [Part(data[0].key, [data[0]])] + Singles(t);
      forall i | 0 <= i < |v|
        ensures v[i].key < NextKey(v, i, hi) && InRange(v[i].c, v[i].key, NextKey(v, i, hi)) && v[i].c != []
      {
        if i > 0 {
          assert v[i] == Singles(t)[i - 1] && NextKey(v, i, hi) == NextKey(Singles(t), i - 1, hi);
        } else if |t| > 0 {
          assert Singles(t)[0].key == t[0].key;
        }
      }
    }
  }

  /** A bucket of its own for every pair. */
  method MakeSlots(data: seq<Entry>) returns (slots: seq<Slot>)
    requires InRange(data, 1, KEY_LIMIT)
    ensures |slots| == |data| && fresh(Boxes(slots)) && Sound(slots) && View(slots) == Singles(data)
  {
    hide View, Boxes, Sound, Singles, InRange, Ascending;
    slots := [];
    NothingMade();
    LoadKeys(data);
    for i := 0 to |data|
      invariant |slots| == i && fresh(Boxes(slots)) && Sound(slots) && View(slots) == Singles(data[..i])
    {
      slots := AddSlot(slots, data[i], data[..i]);
      assert data[..i + 1] == data[..i] + [data[i]];
    }
    assert data[..|data|] == data;
  }

  lemma NothingMade()
    ensures Sound([]) && View([]) == Singles([]) && Boxes([]) == {}
  {
  }

  lemma LoadKeys(data: seq<Entry>)
    requires InRange(data, 1, KEY_LIMIT)
    ensures forall i :: 0 <= i < |data| ==> data[i].key != 0
  {
  }

  lemma PutFirst(x: Entry)
    ensures PutEntry([], x) == [x]
  {
    assert Rank([], x.key) == 0 && !Has([], x.key);
  }

  method AddSlot(slots: seq<Slot>, x: Entry, ghost done: seq<Entry>) returns (slots': seq<Slot>)
    requires Sound(slots) && View(slots) == Singles(done) && x.key != 0
    ensures |slots'| == |slots| + 1 && Sound(slots') && View(slots') == Singles(done + [x])
    ensures forall o :: o in Boxes(slots') ==> o in Boxes(slots) || fresh(o)
  {
    hide View, Boxes, Sound, Singles;
    OldBoxes(slots);
    var bucket := new SortBucket();
    var r := bucket.Put(x.key, x.value);
    Untouched(slots);
    var s := Slot(x.key, bucket);
    slots' := slots + [s];
    SoundOne(s);
    BoxesConcat(slots, [s]);
    ViewConcat(slots, [s]);
    SoundConcat(slots, [s]);
    SinglesAppend(done, x);
    PutFirst(x);
  }

  /** Appends every slot to the group that the model predicts for its key. */
  method FillGroups(gs0: seq<Group>, slots: seq<Slot>, model: int -> int) returns (gs: seq<Group>)
    requires gs0 != [] && Monotone(model) && Increasing(slots)
    requires forall j :: 0 <= j < |gs0| ==> gs0[j].entries == [] && gs0[j].nextEntryCount == 0
    ensures |gs| == |gs0| && Shapes(gs) && Placed(gs, model) && AllSlots(gs) == slots && Assigned(gs, model)
    ensures forall j :: 0 <= j < |gs| ==> Single(gs[j].entries) && gs[j].minKey == gs0[j].minKey
  {
    hide Filling, Monotone, Increasing, Shapes, Placed, Assigned;
    gs := gs0;
    EmptyGroupsFill(gs, model);
    ghost var last := 0;
    for i := 0 to |slots|
      invariant |gs| == |gs0| && Filling(gs, slots[..i], model, last)
      invariant last == if i == 0 then 0 else GroupId(model, |gs|, slots[i - 1].entryKey)
      invariant forall j :: 0 <= j < |gs| ==> gs[j].minKey == gs0[j].minKey
    {
      if i > 0 {
        IncreasingAt(slots, i - 1, i);
        GroupIdMonotone(model, |gs|, slots[i - 1].entryKey, slots[i].entryKey);
      }
      AppendFills(gs, slots[..i], model, last, slots[i]);
      assert slots[..i + 1] == slots[..i] + [slots[i]];
      last := GroupId(model, |gs|, slots[i].entryKey);
      gs := Append(gs, GroupId(model, |gs|, slots[i].entryKey), slots[i]);
    }
    assert slots[..|slots|] == slots;
    FilledPlaced(gs, slots, model, last);
  }

  lemma IncreasingAt(slots: seq<Slot>, i: nat, j: nat)
    requires Increasing(slots) && i < j < |slots|
    ensures slots[i].entryKey < slots[j].entryKey
  {
  }

  /** The group with its model trained on its entries. */
  ghost predicate RetrainedTo(g: Group, g': Group, train: Trainer, rebuild: bool)
    requires Shaped(g.entries)
  {
    if g.entries == [] then g' == g
    else g' == g.(model := train(EntryKeys(g.entries)), minKey := if rebuild then FirstKey(g.entries, 0) else g.minKey)
  }

  /** Trains the groups' models, and sets their least keys on a rebuild. */
  method Retrain(gs0: seq<Group>, train: Trainer, rebuild: bool) returns (gs: seq<Group>)
    requires Shapes(gs0)
    ensures |gs| == |gs0|
    ensures forall j :: 0 <= j < |gs| ==> GroupShape(gs0[j]) && RetrainedTo(gs0[j], gs[j], train, rebuild)
  {
    gs := gs0;
    for i := 0 to |gs0|
      invariant |gs| == |gs0|
      invariant forall j :: 0 <= j < i ==> GroupShape(gs0[j]) && RetrainedTo(gs0[j], gs[j], train, rebuild)
      invariant forall j :: i <= j < |gs| ==> gs[j] == gs0[j]
    {
      assert GroupShape(gs0[i]);
      if gs[i].entries != [] {
        gs := gs[i := gs[i].(model := train(EntryKeys(gs[i].entries)),
                             minKey := if rebuild then FirstKey(gs[i].entries, 0) else gs[i].minKey)];
      }
    }
  }

  /** Models and least keys do not matter for where the slots are. */
  lemma RetrainKeeps(gs: seq<Group>, gs': seq<Group>, model: int -> int, train: Trainer, rebuild: bool)
    requires gs != [] && Shapes(gs) && Placed(gs, model) && Assigned(gs, model) && |gs'| == |gs|
    requires forall j :: 0 <= j < |gs| ==> GroupShape(gs[j]) && RetrainedTo(gs[j], gs'[j], train, rebuild)
    requires forall j :: 0 <= j < |gs| ==> Single(gs[j].entries)
    ensures Shapes(gs') && Placed(gs', model) && AllSlots(gs') == AllSlots(gs) && Fresh(gs', model, train)
    ensures forall j :: 0 <= j < |gs'| && gs'[j].entries != [] ==>
              gs'[j].minKey == if rebuild then GroupKey(gs', j) else gs[j].minKey
  {
    hide Single, GroupId;
    SameSlots(gs, gs');
    forall j | 0 <= j < |gs'| ensures GroupShape(gs'[j]) {
      assert GroupShape(gs[j]);
    }
    forall i, j | 0 <= i < j < |gs'| && gs'[i].entries != [] && gs'[j].entries != []
      ensures GroupId(model, |gs'|, GroupKey(gs', j)) >= j
    {
      assert gs[i].entries != [] && GroupKey(gs', j) == GroupKey(gs, j);
    }
    forall j, e | 0 <= j < |gs'| && 0 <= e < |gs'[j].entries|
      ensures GroupId(model, |gs'|, FirstKey(gs'[j].entries, e)) == j
    {
      assert FirstKey(gs'[j].entries, e) == FirstKey(gs[j].entries, e);
    }
  }

  lemma {:induction false} SameSlots(gs: seq<Group>, gs': seq<Group>)
    requires |gs'| == |gs| && forall j :: 0 <= j < |gs| ==> gs'[j].entries == gs[j].entries
    ensures AllSlots(gs') == AllSlots(gs)
  {
    if gs != [] {
      SameSlots(gs[1..], gs'[1..]);
    }
  }

  method LoadGroups(data: seq<Entry>, trainTree: Trainer, trainGroup: Trainer) returns (gs: seq<Group>, m: int -> int)
    requires forall keys :: Monotone(trainTree(keys))
    requires |data| >= MIN_ENTRY_COUNT && InRange(data, 1, KEY_LIMIT)
    ensures gs != [] && Shapes(gs) && Monotone(m) && Placed(gs, m) && Content(gs) && Filled(View(AllSlots(gs)))
    ensures Pairs(View(AllSlots(gs))) == data && fresh(Boxes(AllSlots(gs)))
    ensures View(AllSlots(gs)) == Singles(data) && |gs| == |data| / MIN_ENTRY_COUNT && Fresh(gs, m, trainGroup)
    ensures m == trainTree(seq(|data|, i requires 0 <= i < |data| => data[i].key))
    ensures forall j :: 0 <= j < |gs| && gs[j].entries != [] ==> gs[j].minKey == data[0].key
  {
    hide Monotone, Shapes, Placed, Filled, Ordered, View, Pairs, InRange, Sound, AllSlots, Boxes, Fresh, Assigned;
    hide RetrainedTo, GroupShape, Single;
    m := trainTree(seq(|data|, i requires 0 <= i < |data| => data[i].key));
    var empty := seq(|data| / MIN_ENTRY_COUNT, _ => Group([], 0, data[0].key, trainGroup([])));
    var slots := MakeSlots(data);
    SinglesOrdered(data, 1, KEY_LIMIT);
    OrderedFrom(Singles(data), 1, 0, KEY_LIMIT);
    ViewIncreasing(slots, 0, KEY_LIMIT);
    label Made:
    var filled := FillGroups(empty, slots, m);
    gs := Retrain(filled, trainGroup, false);
    RetrainKeeps(filled, gs, m, trainGroup, false);
    Untouched@Made(slots);
  }

  lemma OrderedFrom(v: seq<Part>, lo: int, lo': int, hi: int)
    requires Ordered(v, lo, hi) && lo' <= lo
    ensures Ordered(v, lo', hi)
  {
  }
}
