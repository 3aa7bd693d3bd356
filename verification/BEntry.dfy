/** A BEntry: an unsorted buffer in front of a CLevel tree, and the iterator that merges the two (src/bentry.h,
    src/bentry.cc, src/kvbuffer.h). Keys here are the stored suffixes of keys with the entry's prefix. */
module BEntries {
  import opened Wrappers
  import opened Entries
  import opened CLevelTrees
  import opened CLevelNodes
  import opened CLevels
  import opened Bits

  // ---- A buffer over a map

  /** The map after putting the entries one by one. */
  function PutAll(c: seq<Entry>, xs: seq<Entry>): seq<Entry> {
    if xs == [] then c else PutEntry(PutAll(c, xs[..|xs| - 1]), xs[|xs| - 1])
  }

  lemma PutOneMore(c: seq<Entry>, xs: seq<Entry>, x: Entry)
    ensures PutAll(c, xs + [x]) == PutEntry(PutAll(c, xs), x)
  {
    assert (xs + [x])[..|xs|] == xs;
  }

  ghost predicate NoneUnder(c: seq<Entry>, lo: nat) {
    forall i :: 0 <= i < |c| ==> lo <= c[i].key
  }

  lemma {:induction false} PutAllInRange(c: seq<Entry>, xs: seq<Entry>, lo: int, hi: int)
    requires InRange(c, lo, hi) && forall i :: 0 <= i < |xs| ==> lo <= xs[i].key < hi
    ensures InRange(PutAll(c, xs), lo, hi) && |PutAll(c, xs)| <= |c| + |xs|
  {
    if xs != [] {
      var n := |xs| - 1;
      PutAllInRange(c, xs[..n], lo, hi);
      PutInRange(PutAll(c, xs[..n]), xs[n], lo, hi);
    }
  }

  ghost predicate Distinct(xs: seq<Entry>) {
    forall i, j :: 0 <= i < j < |xs| ==> xs[i].key != xs[j].key
  }

  ghost predicate Without(xs: seq<Entry>, key: nat) {
    forall i :: 0 <= i < |xs| ==> xs[i].key != key
  }

  lemma {:induction false} PutAllOther(c: seq<Entry>, xs: seq<Entry>, lim: int, k: nat)
    requires InRange(c, 0, lim) && (forall i :: 0 <= i < |xs| ==> xs[i].key < lim) && Without(xs, k)
    ensures Lookup(PutAll(c, xs), k) == Lookup(c, k)
  {
    if xs != [] {
      var n := |xs| - 1;
      PutAllOther(c, xs[..n], lim, k);
      PutAllInRange(c, xs[..n], 0, lim);
      PutLookup(PutAll(c, xs[..n]), xs[n], k);
    }
  }

  lemma {:induction false} PutAllAt(c: seq<Entry>, xs: seq<Entry>, lim: int, i: nat)
    requires InRange(c, 0, lim) && (forall i :: 0 <= i < |xs| ==> xs[i].key < lim) && Distinct(xs) && i < |xs|
    ensures Lookup(PutAll(c, xs), xs[i].key) == Some(xs[i].value)
  {
    hide PutAll, Lookup, PutEntry;
    var n := |xs| - 1;
    PutAllInRange(c, xs[..n], 0, lim);
    assert xs == xs[..n] + [xs[n]];
    PutOneMore(c, xs[..n], xs[n]);
    PutLookup(PutAll(c, xs[..n]), xs[n], xs[i].key);
    if i < n {
      PutAllAt(c, xs[..n], lim, i);
    }
  }

  lemma LookupTail(a: seq<Entry>, k: nat)
    requires Ascending(a) && a != []
    ensures Ascending(a[1..]) && Lookup(a[1..], k) == if k == a[0].key then None else Lookup(a, k)
  {
    RankIs(a, a[0].key, 0);
    assert DropEntry(a, a[0].key) == a[1..];
    DropLookup(a, a[0].key, k);
  }

  /** Sorted entries are determined by the map they stand for. */
  lemma {:induction false} SameMap(a: seq<Entry>, b: seq<Entry>)
    requires Ascending(a) && Ascending(b) && forall k :: Lookup(a, k) == Lookup(b, k)
    ensures a == b
  {
    hide Lookup;
    if a == [] || b == [] {
      if a != [] {
        LookupAt(a, 0);
        LookupAbsent(b, a[0].key);
      } else if b != [] {
        LookupAt(b, 0);
        LookupAbsent(a, b[0].key);
      }
    } else {
      LookupAt(a, 0);
      LookupAt(b, 0);
      if a[0].key < b[0].key {
        LookupAbsent(b, a[0].key);
      } else if b[0].key < a[0].key {
        LookupAbsent(a, b[0].key);
      }
      forall k ensures Lookup(a[1..], k) == Lookup(b[1..], k) {
        LookupTail(a, k);
        LookupTail(b, k);
      }
      LookupTail(a, 0);
      LookupTail(b, 0);
      SameMap(a[1..], b[1..]);
    }
  }

  ghost predicate Fits(c: seq<Entry>, xs: seq<Entry>, lim: int) {
    && InRange(c, 0, lim) && Distinct(xs) && (forall i :: 0 <= i < |xs| ==> xs[i].key < lim)
    && forall i :: 0 <= i < |xs| ==> !Has(c, xs[i].key)
  }

  /** Overwriting a buffered entry puts the new one. */
  lemma PutInBuffer(c: seq<Entry>, xs: seq<Entry>, lim: int, pos: nat, value: int)
    requires Fits(c, xs, lim) && pos < |xs|
    ensures var x := Entry(xs[pos].key, value);
            Fits(c, xs[pos := x], lim) && PutAll(c, xs[pos := x]) == PutEntry(PutAll(c, xs), x)
  {
    hide Lookup, Has, Rank, PutAll, PutEntry;
    var x := Entry(xs[pos].key, value);
    var xs', all := xs[pos := x], PutAll(c, xs);
    PutAllInRange(c, xs, 0, lim);
    PutAllInRange(c, xs', 0, lim);
    PutAscending(all, x);
    forall k ensures Lookup(PutAll(c, xs'), k) == Lookup(PutEntry(all, x), k) {
      PutLookup(all, x, k);
      if i :| 0 <= i < |xs| && xs[i].key == k {
        PutAllAt(c, xs', lim, i);
        PutAllAt(c, xs, lim, i);
      } else {
        PutAllOther(c, xs', lim, k);
        PutAllOther(c, xs, lim, k);
      }
    }
    SameMap(PutAll(c, xs'), PutEntry(all, x));
  }

  /** The buffer after its last entry has come to the place of a deleted one. */
  function Removed(xs: seq<Entry>, pos: nat): seq<Entry>
    requires pos < |xs|
  {
    var n := |xs| - 1;
    if pos == n then xs[..n] else xs[pos := xs[n]][..n]
  }

  lemma RemoveFromBuffer(c: seq<Entry>, xs: seq<Entry>, lim: int, pos: nat)
    requires Fits(c, xs, lim) && pos < |xs|
    ensures Fits(c, Removed(xs, pos), lim) && PutAll(c, Removed(xs, pos)) == DropEntry(PutAll(c, xs), xs[pos].key)
  {
    hide Rank, PutAll, DropEntry;
    var xs', all, key := Removed(xs, pos), PutAll(c, xs), xs[pos].key;
    PutAllInRange(c, xs, 0, lim);
    PutAllInRange(c, xs', 0, lim);
    DropAscending(all, key);
    forall k ensures Lookup(PutAll(c, xs'), k) == Lookup(DropEntry(all, key), k) {
      DropLookup(all, key, k);
      if i :| 0 <= i < |xs| && xs[i].key == k && k != key {
        assert xs'[if i == |xs| - 1 then pos else i] == xs[i];
        PutAllAt(c, xs', lim, if i == |xs| - 1 then pos else i);
        PutAllAt(c, xs, lim, i);
      } else {
        PutAllOther(c, xs', lim, k);
        if k != key {
          PutAllOther(c, xs, lim, k);
        }
      }
    }
    SameMap(PutAll(c, xs'), DropEntry(all, key));
  }

  /** Removing an entry of the map that is not buffered. */
  lemma RemoveUnder(c: seq<Entry>, xs: seq<Entry>, lim: int, key: nat)
    requires Fits(c, xs, lim) && Without(xs, key)
    ensures Fits(DropEntry(c, key), xs, lim) && PutAll(DropEntry(c, key), xs) == DropEntry(PutAll(c, xs), key)
  {
    hide Rank, PutAll, DropEntry, Lookup;
    var c', all := DropEntry(c, key), PutAll(c, xs);
    DropIs(c, key);
    DropsLess(c, xs, lim, key);
    PutAllInRange(c, xs, 0, lim);
    PutAllInRange(c', xs, 0, lim);
    DropAscending(all, key);
    forall k ensures Lookup(PutAll(c', xs), k) == Lookup(DropEntry(all, key), k) {
      DropLookup(all, key, k);
      DropLookup(c, key, k);
      if i :| 0 <= i < |xs| && xs[i].key == k {
        PutAllAt(c', xs, lim, i);
        PutAllAt(c, xs, lim, i);
      } else {
        PutAllOther(c', xs, lim, k);
        PutAllOther(c, xs, lim, k);
      }
    }
    SameMap(PutAll(c', xs), DropEntry(all, key));
  }

  lemma DropsLess(c: seq<Entry>, xs: seq<Entry>, lim: int, key: nat)
    requires Fits(c, xs, lim)
    ensures Fits(DropEntry(c, key), xs, lim)
  {
    hide Rank, DropEntry;
    DropIs(c, key);
    forall i | 0 <= i < |DropEntry(c, key)| ensures DropEntry(c, key)[i].key < lim {
      assert DropEntry(c, key)[i] in DropEntry(c, key);
    }
    forall i | 0 <= i < |xs| ensures !Has(DropEntry(c, key), xs[i].key) {
      DropLookup(c, key, xs[i].key);
    }
  }

  /** Overwriting an entry of the map that is not buffered. */
  lemma PutUnder(c: seq<Entry>, xs: seq<Entry>, lim: int, x: Entry)
    requires Fits(c, xs, lim) && Without(xs, x.key) && x.key < lim
    ensures Fits(PutEntry(c, x), xs, lim) && PutAll(PutEntry(c, x), xs) == PutEntry(PutAll(c, xs), x)
  {
    hide Rank, PutAll, PutEntry;
    var c', all := PutEntry(c, x), PutAll(c, xs);
    PutInRange(c, x, 0, lim);
    PutAllInRange(c, xs, 0, lim);
    PutAllInRange(c', xs, 0, lim);
    PutAscending(all, x);
    forall i | 0 <= i < |xs| ensures !Has(c', xs[i].key) {
      PutLookup(c, x, xs[i].key);
    }
    forall k ensures Lookup(PutAll(c', xs), k) == Lookup(PutEntry(all, x), k) {
      PutLookup(all, x, k);
      PutLookup(c, x, k);
      if i :| 0 <= i < |xs| && xs[i].key == k {
        PutAllAt(c', xs, lim, i);
        PutAllAt(c, xs, lim, i);
      } else {
        PutAllOther(c', xs, lim, k);
        PutAllOther(c, xs, lim, k);
      }
    }
    SameMap(PutAll(c', xs), PutEntry(all, x));
  }

  // ---- Merging

  /** Two sorted sequences of entries in one. */
  function Merge(a: seq<Entry>, b: seq<Entry>): seq<Entry> {
    if a == [] then b
    else if b == [] then a
    else if b[0].key < a[0].key then [b[0]] + Merge(a, b[1..])
    else [a[0]] + Merge(a[1..], b)
  }

  lemma ConsLookup(x: Entry, c: seq<Entry>, k: nat)
    requires Ascending([x] + c)
    ensures Ascending(c) && Lookup([x] + c, k) == if k == x.key then Some(x.value) else Lookup(c, k)
  {
    hide Lookup;
    assert ([x] + c)[1..] == c;
    LookupTail([x] + c, k);
    LookupAt([x] + c, 0);
  }

  ghost predicate Above(x: Entry, c: seq<Entry>) {
    forall i :: 0 <= i < |c| ==> x.key < c[i].key
  }

  /** The merge is sorted and stands for both maps, if they have no key in common. */
  lemma {:induction false} MergeMeans(a: seq<Entry>, b: seq<Entry>, k: nat)
    requires Ascending(a) && Ascending(b) && forall i :: 0 <= i < |a| ==> Without(b, a[i].key)
    ensures Ascending(Merge(a, b)) && forall x :: Above(x, a) && Above(x, b) ==> Above(x, Merge(a, b))
    ensures Lookup(Merge(a, b), k) == if Without(a, k) then Lookup(b, k) else Lookup(a, k)
    decreases |a| + |b|
  {
    hide Lookup;
    if a == [] {
    } else if b == [] {
      if Without(a, k) {
        LookupAbsent(a, k);
        LookupAbsent(b, k);
      }
    } else if b[0].key < a[0].key {
      MergeMeans(a, b[1..], k);
      assert b == [b[0]] + b[1..] && Above(b[0], a) && Above(b[0], b[1..]);
      ConsLookup(b[0], b[1..], k);
      ConsLookup(b[0], Merge(a, b[1..]), k);
    } else {
      MergeMeans(a[1..], b, k);
      assert a == [a[0]] + a[1..] && Above(a[0], a[1..]) && Above(a[0], b);
      ConsLookup(a[0], a[1..], k);
      ConsLookup(a[0], Merge(a[1..], b), k);
      if k == a[0].key {
        assert !Without(a, k);
      }
    }
  }

  /** Merging the sorted buffer with the map is putting the buffer into it. */
  lemma MergeIsPutAll(c: seq<Entry>, xs: seq<Entry>, lim: int)
    requires Fits(c, xs, lim)
    ensures Merge(PutAll([], xs), c) == PutAll(c, xs)
  {
    hide Lookup, PutAll, Rank, Merge;
    var sorted := PutAll([], xs);
    PutAllInRange([], xs, 0, lim);
    PutAllInRange(c, xs, 0, lim);
    forall i | 0 <= i < |sorted| ensures Without(c, sorted[i].key) {
      NotUnder(c, xs, lim, i);
    }
    forall k ensures Lookup(Merge(sorted, c), k) == Lookup(PutAll(c, xs), k) {
      MergeMeans(sorted, c, k);
      if i :| 0 <= i < |xs| && xs[i].key == k {
        PutAllAt([], xs, lim, i);
        PutAllAt(c, xs, lim, i);
        if Without(sorted, k) {
          LookupAbsent(sorted, k);
        }
      } else {
        PutAllOther([], xs, lim, k);
        PutAllOther(c, xs, lim, k);
        LookupAbsent([], k);
        if j :| 0 <= j < |sorted| && sorted[j].key == k {
          LookupAt(sorted, j);
        }
      }
    }
    MergeMeans(sorted, c, 0);
    SameMap(Merge(sorted, c), PutAll(c, xs));
  }

  lemma NotUnder(c: seq<Entry>, xs: seq<Entry>, lim: int, i: nat)
    requires Fits(c, xs, lim) && i < |PutAll([], xs)|
    ensures Without(c, PutAll([], xs)[i].key)
  {
    hide Lookup, PutAll, Rank;
    var sorted := PutAll([], xs);
    var k := sorted[i].key;
    PutAllInRange([], xs, 0, lim);
    LookupAt(sorted, i);
    if Without(xs, k) {
      PutAllOther([], xs, lim, k);
      LookupAbsent([], k);
    }
    HasIff(c, k);
  }

  class BEntry {
    const entryKey: nat
    const suffixBytes: nat

    /** What is stored of the entry's own key. */
    function FirstKey(): nat {
      LowBits(entryKey, 8 * suffixBytes)
    }

    const level: CLevel
    /** The buffered entries in the order they are stored. */
    var buf: seq<Entry>

    constructor (entryKey: nat, prefixBytes: nat)
      requires prefixBytes <= 7
      ensures this.entryKey == entryKey && suffixBytes == 8 - prefixBytes && buf == [] && fresh(level)
              && level.root == None
    {
      this.entryKey, suffixBytes, buf := entryKey, 8 - prefixBytes, [];
      level := new CLevel();
    }

    ghost function LevelContents(): seq<Entry>
      reads level
    {
      if level.root == None then [] else level.Contents()
    }

    /** The entries of tree and buffer, in order. */
    ghost function Contents(): seq<Entry>
      reads this, level
    {
      PutAll(LevelContents(), buf)
    }

    /** The nodes the entry uses. */
    ghost function Footprint(): set<nat>
      reads level
    {
      if level.root == None then {} else level.Footprint()
    }

    /** A buffer without a tree behind it is never full. */
    ghost predicate Valid(mem: MemControl)
      reads this, level, mem
    {
      && 1 <= suffixBytes <= 8 && |buf| <= MaxEntries(suffixBytes)
      && (if level.root == None then |buf| < MaxEntries(suffixBytes)
         else level.Valid(mem) && level.suffix == suffixBytes)
      && Fits(LevelContents(), buf, KeyLimit(suffixBytes))
    }

    lemma LevelInRange(mem: MemControl)
      requires level.Valid(mem)
      ensures InRange(level.Contents(), 0, KeyLimit(level.suffix))
    {
      TidySorted(level.tree, 0, KeyLimit(level.suffix), level.height, MaxEntries(level.suffix));
    }

    lemma ContentsInRange(mem: MemControl)
      requires Valid(mem)
      ensures InRange(Contents(), 0, KeyLimit(suffixBytes))
    {
      PutAllInRange(LevelContents(), buf, 0, KeyLimit(suffixBytes));
    }

    /** The last buffered entry with the key. */
    method Find(key: nat) returns (pos: nat, exist: bool)
      ensures exist ==> pos < |buf| && buf[pos].key == key
      ensures !exist ==> pos == |buf| && Without(buf, key)
    {
      for i := |buf| downto 0
        invariant forall j :: i <= j < |buf| ==> buf[j].key != key
      {
        if buf[i].key == key {
          return i, true;
        }
      }
      return |buf|, false;
    }

    /** Moves the buffered entries to the tree. */
    method FlushToCLevel(mem: MemControl)
      requires Valid(mem)
      modifies this`buf, level, mem
      ensures Valid(mem) && level.root.Some? && buf == [] && Contents() == old(Contents())
      ensures Frame(old(mem.nodes), mem.nodes, old(Footprint()))
      ensures forall a :: a in Footprint() ==> a in old(Footprint()) || a >= |old(mem.nodes)|
    {
      hide PutAll, Rank, KeyLimit, Lookup, PutEntry, Join, Leaves, Addrs, Good, Linked;
      ghost var c, xs, lim := LevelContents(), buf, KeyLimit(suffixBytes);
      PutAllInRange([], buf, 0, lim);
      if level.root == None {
        level.SetupWith(mem, suffixBytes, PutAll([], buf));
      } else {
        PutBuffered(mem);
      }
      buf := [];
      LevelInRange(mem);
      PutNone(level.Contents());
    }

    method PutBuffered(mem: MemControl)
      requires Valid(mem) && level.root.Some?
      modifies level, mem
      ensures level.root.Some? && level.Valid(mem) && level.suffix == suffixBytes && level.Contents() == old(Contents())
      ensures Frame(old(mem.nodes), mem.nodes, old(Footprint()))
      ensures forall a :: a in Footprint() ==> a in old(Footprint()) || a >= |old(mem.nodes)|
    {
      hide PutAll, Rank, KeyLimit, Lookup, PutEntry, Join, Leaves, Addrs, Good, Linked;
      ghost var c := LevelContents();
      PutNone(c);
      for i := 0 to |buf|
        invariant level.root.Some? && level.Valid(mem) && level.suffix == suffixBytes
        invariant level.Contents() == PutAll(c, buf[..i])
        invariant Frame(old(mem.nodes), mem.nodes, old(Footprint()))
        invariant forall a :: a in Footprint() ==> a in old(Footprint()) || a >= |old(mem.nodes)|
      {
        level.Put(mem, buf[i].key, buf[i].value);
        PutOneMore(c, buf[..i], buf[i]);
        assert buf[..i] + [buf[i]] == buf[..i + 1];
      }
      assert buf[..|buf|] == buf;
    }

    static lemma PutNone(c: seq<Entry>)
      ensures PutAll(c, []) == c
    {
    }

    /** The next put has no room: without a tree one place stays free for the tree to be made. */
    predicate FlushDue()
      reads this, level
    {
      (level.root == None && |buf| == MaxEntries(suffixBytes) - 1) || |buf| >= MaxEntries(suffixBytes)
    }

    /** Adds an entry under a key that is not there: at the end of the buffer, which moves to the tree only when it
        has no room. */
    method Put(mem: MemControl, key: nat, value: int)
      requires Valid(mem) && key < KeyLimit(suffixBytes) && !Has(Contents(), key)
      modifies this`buf, level, mem
      ensures buf == (if old(FlushDue()) then [] else old(buf)) + [Entry(key, value)]
      ensures LevelContents() == if old(FlushDue()) then old(Contents()) else old(LevelContents())
      ensures !old(FlushDue()) ==> unchanged(level) && unchanged(mem)
      ensures Valid(mem) && Contents() == PutEntry(old(Contents()), Entry(key, value))
      ensures Frame(old(mem.nodes), mem.nodes, old(Footprint()))
      ensures forall a :: a in Footprint() ==> a in old(Footprint()) || a >= |old(mem.nodes)|
    {
      hide PutAll, Rank, KeyLimit, Has, MaxEntries, Lookup, PutEntry, Join, Leaves, Addrs, Good, Linked;
      if FlushDue() {
        FlushToCLevel(mem);
        PutNone(LevelContents());
        MaxEntriesRange(suffixBytes);
      }
      Fresh(mem, key);
      buf := buf + [Entry(key, value)];
      PutOneMore(LevelContents(), buf[..|buf| - 1], Entry(key, value));
      assert buf[..|buf| - 1] + [Entry(key, value)] == buf;
    }

    lemma Fresh(mem: MemControl, key: nat)
      requires Valid(mem) && !Has(Contents(), key)
      ensures Without(buf, key) && !Has(LevelContents(), key)
    {
      hide PutAll, Rank;
      var lim := KeyLimit(suffixBytes);
      if i :| 0 <= i < |buf| && buf[i].key == key {
        PutAllAt(LevelContents(), buf, lim, i);
      } else {
        PutAllOther(LevelContents(), buf, lim, key);
      }
    }

    method Get(mem: MemControl, key: nat) returns (r: Option<int>)
      requires Valid(mem) && key < KeyLimit(suffixBytes)
      ensures r == Lookup(Contents(), key)
    {
      hide PutAll, Rank, KeyLimit, Lookup;
      var pos, exist := Find(key);
      if exist {
        PutAllAt(LevelContents(), buf, KeyLimit(suffixBytes), pos);
        return Some(buf[pos].value);
      }
      PutAllOther(LevelContents(), buf, KeyLimit(suffixBytes), key);
      LookupAbsent([], key);
      if level.root == None {
        return None;
      }
      r := level.Get(mem, key);
    }

    method Update(mem: MemControl, key: nat, value: int) returns (ok: bool)
      requires Valid(mem) && key < KeyLimit(suffixBytes)
      modifies this`buf, level, mem
      ensures Valid(mem) && (ok <==> Has(old(Contents()), key))
      ensures Contents() == if ok then PutEntry(old(Contents()), Entry(key, value)) else old(Contents())
      ensures if Without(old(buf), key) then buf == old(buf) else unchanged(level) && |buf| == old(|buf|)
    {
      hide PutAll, Rank, KeyLimit, PutEntry, Lookup;
      ghost var c, xs, lim := LevelContents(), buf, KeyLimit(suffixBytes);
      var pos, exist := Find(key);
      HasWhere(mem, key);
      if exist {
        PutInBuffer(c, buf, lim, pos, value);
        buf := buf[pos := Entry(key, value)];
        return true;
      }
      PutUnder(c, xs, lim, Entry(key, value));
      if level.root == None {
        return false;
      }
      ok := level.Update(mem, key, value);
      LevelInRange(mem);
    }

    lemma HasWhere(mem: MemControl, key: nat)
      requires Valid(mem)
      ensures Has(Contents(), key) <==> !Without(buf, key) || Has(LevelContents(), key)
    {
      hide PutAll, Rank;
      var lim := KeyLimit(suffixBytes);
      if i :| 0 <= i < |buf| && buf[i].key == key {
        PutAllAt(LevelContents(), buf, lim, i);
      } else {
        PutAllOther(LevelContents(), buf, lim, key);
      }
    }

    method Delete(mem: MemControl, key: nat) returns (value: Option<int>)
      requires Valid(mem) && key < KeyLimit(suffixBytes)
      modifies this`buf, level, mem
      ensures Valid(mem) && value == Lookup(old(Contents()), key) && Contents() == DropEntry(old(Contents()), key)
      ensures if Without(old(buf), key) then buf == old(buf) else unchanged(level) && |buf| == old(|buf|) - 1
    {
      hide PutAll, Rank, KeyLimit, DropEntry, Lookup;
      ghost var c, xs, lim := LevelContents(), buf, KeyLimit(suffixBytes);
      var pos, exist := Find(key);
      if exist {
        PutAllAt(c, xs, lim, pos);
        RemoveFromBuffer(c, xs, lim, pos);
        value := Some(buf[pos].value);
        buf := Removed(buf, pos);
        return;
      }
      PutAllOther(c, xs, lim, key);
      RemoveUnder(c, xs, lim, key);
      LookupAbsent([], key);
      if level.root == None {
        assert DropEntry([], key) == [] by {
          DropNothing(key);
        }
        return None;
      }
      value := level.Delete(mem, key);
    }

    static lemma DropNothing(key: nat)
      ensures DropEntry([], key) == []
    {
    }
  }

  // ---- Iteration

  /** The index with `i` moved in behind the indices of smaller keys. */
  function PlaceIndex(buf: seq<Entry>, index: seq<nat>, i: nat): seq<nat>
    requires i < |buf| && forall j :: 0 <= j < |index| ==> index[j] < |buf|
  {
    if index == [] || buf[i].key <= buf[index[0]].key then [i] + index else [index[0]] + PlaceIndex(buf, index[1..], i)
  }

  /** The entries an index lists. */
  ghost function Listed(buf: seq<Entry>, index: seq<nat>): seq<Entry>
    requires forall j :: 0 <= j < |index| ==> index[j] < |buf|
  {
    seq(|index|, j requires 0 <= j < |index| => buf[index[j]])
  }

  lemma PutFirst(c: seq<Entry>, x: Entry)
    requires Ascending(c) && (c != [] ==> x.key < c[0].key)
    ensures PutEntry(c, x) == [x] + c
  {
    RankIs(c, x.key, 0);
  }

  lemma PutLater(c: seq<Entry>, x: Entry)
    requires Ascending(c) && c != [] && c[0].key < x.key
    ensures PutEntry(c, x) == [c[0]] + PutEntry(c[1..], x)
  {
    hide Rank, PutEntry;
    assert c == [c[0]] + c[1..] + [];
    PutFrame([c[0]], c[1..], [], x);
    assert [c[0]] + PutEntry(c[1..], x) + [] == [c[0]] + PutEntry(c[1..], x);
  }

  lemma {:induction false} PlacedIndex(buf: seq<Entry>, index: seq<nat>, i: nat)
    requires i < |buf| && forall j :: 0 <= j < |index| ==> index[j] < |buf|
    requires Ascending(Listed(buf, index)) && Without(Listed(buf, index), buf[i].key)
    ensures var r := PlaceIndex(buf, index, i);
            && (forall j :: 0 <= j < |r| ==> r[j] < |buf|) && Listed(buf, r) == PutEntry(Listed(buf, index), buf[i])
  {
    hide PutEntry;
    var c, x := Listed(buf, index), buf[i];
    assert index != [] ==> c[0] == buf[index[0]];
    if index == [] || x.key <= buf[index[0]].key {
      PutFirst(c, x);
      assert Listed(buf, [i] + index) == [x] + c;
    } else {
      assert Listed(buf, index[1..]) == c[1..];
      PlacedIndex(buf, index[1..], i);
      var r := PlaceIndex(buf, index[1..], i);
      assert Listed(buf, [index[0]] + r) == [c[0]] + Listed(buf, r);
      PutLater(c, x);
    }
  }

  lemma FromMeans(c: seq<Entry>, start: nat, k: nat)
    requires Ascending(c)
    ensures Ascending(From(c, start)) && Lookup(From(c, start), k) == if k < start then None else Lookup(c, k)
  {
    hide Lookup, Rank;
    RankSplits(c, start);
    var f, n := From(c, start), Rank(c, start);
    if i :| 0 <= i < |c| && c[i].key == k {
      LookupAt(c, i);
      if k < start {
        LookupAbsent(f, k);
      } else {
        LookupAt(f, i - n);
      }
    } else {
      LookupAbsent(c, k);
      LookupAbsent(f, k);
    }
  }

  /** It makes no difference whether one of the sequences is cut off before they are merged. */
  lemma FromMerge(a: seq<Entry>, b: seq<Entry>, start: nat)
    requires Ascending(a) && Ascending(b) && forall i :: 0 <= i < |a| ==> Without(b, a[i].key)
    ensures From(Merge(a, From(b, start)), start) == From(Merge(a, b), start)
  {
    hide Lookup, Merge, Rank;
    var cut := From(b, start);
    FromMeans(b, start, 0);
    MergeMeans(a, b, 0);
    MergeMeans(a, cut, 0);
    forall k ensures Lookup(From(Merge(a, cut), start), k) == Lookup(From(Merge(a, b), start), k) {
      FromMeans(b, start, k);
      MergeMeans(a, b, k);
      MergeMeans(a, cut, k);
      FromMeans(Merge(a, b), start, k);
      FromMeans(Merge(a, cut), start, k);
    }
    FromMeans(Merge(a, b), start, 0);
    FromMeans(Merge(a, cut), start, 0);
    SameMap(From(Merge(a, cut), start), From(Merge(a, b), start));
  }

  lemma FromStep(c: seq<Entry>, start: nat)
    requires Ascending(c) && c != []
    ensures c[0].key < start ==> From(c[1..], start) == From(c, start)
    ensures c[0].key >= start ==> From(c, start) == c
  {
    if c[0].key < start {
      assert c[1..][Rank(c[1..], start)..] == c[Rank(c, start)..];
    }
  }

  /** The step of the merge. */
  lemma MergeStep(a: seq<Entry>, b: seq<Entry>)
    ensures b != [] && (a == [] || b[0].key < a[0].key) ==> Merge(a, b) == [b[0]] + Merge(a, b[1..])
    ensures a != [] && (b == [] || a[0].key <= b[0].key) ==> Merge(a, b) == [a[0]] + Merge(a[1..], b)
    ensures Merge(a, b) == [] <==> a == [] && b == []
  {
    if a == [] && b != [] {
      assert b == [b[0]] + b[1..];
      assert Merge([], b[1..]) == b[1..];
    }
    if b == [] && a != [] {
      assert a == [a[0]] + a[1..];
      assert Merge(a[1..], []) == a[1..];
    }
  }

  /** The positions of the buffered entries in the order of their keys. */
  method GetSortedIndex(buf: seq<Entry>, ghost lim: int) returns (index: seq<nat>)
    requires Distinct(buf) && forall i :: 0 <= i < |buf| ==> buf[i].key < lim
    ensures |index| == |buf| && (forall j :: 0 <= j < |index| ==> index[j] < |buf|)
    ensures Listed(buf, index) == PutAll([], buf)
  {
    hide PutAll, PutEntry, PlaceIndex, Rank, Lookup;
    index := [];
    BEntry.PutNone([]);
    for i := 0 to |buf|
      invariant |index| == i && forall j :: 0 <= j < |index| ==> index[j] < |buf|
      invariant Listed(buf, index) == PutAll([], buf[..i])
    {
      PutAllInRange([], buf[..i], 0, lim);
      NotYetListed(buf, i, lim);
      PlacedIndex(buf, index, i);
      PlaceIndexLength(buf, index, i);
      PutOneMore([], buf[..i], buf[i]);
      assert buf[..i] + [buf[i]] == buf[..i + 1];
      index := PlaceIndex(buf, index, i);
    }
    assert buf[..|buf|] == buf;
  }

  lemma {:induction false} PlaceIndexLength(buf: seq<Entry>, index: seq<nat>, i: nat)
    requires i < |buf| && forall j :: 0 <= j < |index| ==> index[j] < |buf|
    ensures |PlaceIndex(buf, index, i)| == |index| + 1
  {
    if index != [] {
      PlaceIndexLength(buf, index[1..], i);
    }
  }

  lemma NotYetListed(buf: seq<Entry>, i: nat, lim: int)
    requires i < |buf| && Distinct(buf) && forall i :: 0 <= i < |buf| ==> buf[i].key < lim
    ensures Without(PutAll([], buf[..i]), buf[i].key)
  {
    hide PutAll, Lookup, Rank;
    var c, k := PutAll([], buf[..i]), buf[i].key;
    PutAllInRange([], buf[..i], 0, lim);
    PutAllOther([], buf[..i], lim, k);
    LookupAbsent([], k);
    if j :| 0 <= j < |c| && c[j].key == k {
      LookupAt(c, j);
    }
  }

  /** Walks buffer and tree together. */
  class Iter {
    const entry: BEntry
    const mem: MemControl
    var bufIdx: nat
    var hasLevel: bool
    var pointToLevel: bool
    var sortedIndex: seq<nat>
    var levelIter: CLevels.Iter?

    ghost function Sorted(): seq<Entry>
      reads this, entry
    {
      PutAll([], entry.buf)
    }

    ghost predicate IndexValid()
      reads this, entry
    {
      && (forall j :: 0 <= j < |sortedIndex| ==> sortedIndex[j] < |entry.buf|)
      && Listed(entry.buf, sortedIndex) == Sorted()
    }

    ghost predicate LevelValid()
      reads this, entry, entry.level, mem, levelIter
    {
      hasLevel ==>
        && levelIter != null && levelIter.mem == mem && levelIter.level == entry.level
        && levelIter.Valid() && levelIter.Rest() != []
    }

    /** The entries of the tree still to come. */
    ghost function LevelRest(): seq<Entry>
      requires LevelValid()
      reads this, entry, entry.level, mem, levelIter
    {
      if hasLevel then levelIter.Rest() else []
    }

    ghost predicate Valid()
      reads this, entry, entry.level, mem, levelIter
    {
      && entry.Valid(mem) && IndexValid() && LevelValid() && bufIdx <= |entry.buf| == |sortedIndex|
      && (pointToLevel <==> hasLevel && (bufIdx >= |Sorted()| || LevelRest()[0].key < Sorted()[bufIdx].key))
    }

    /** The entries still to come. */
    ghost function Rest(): seq<Entry>
      requires Valid()
      reads this, entry, entry.level, mem, levelIter
    {
      Merge(Sorted()[bufIdx..], LevelRest())
    }

    /** From the first entry. */
    constructor Begin(entry: BEntry, mem: MemControl)
      requires entry.Valid(mem)
      ensures Valid() && this.entry == entry && this.mem == mem && (levelIter == null || fresh(levelIter))
      ensures Rest() == entry.Contents()
    {
      hide PutAll, Merge, Rank, KeyLimit, Lookup, Fits, From, CLevels.Iter.Valid, CLevels.Iter.Rest;
      hide CLevels.CLevel.Valid;
      this.entry, this.mem, bufIdx, hasLevel, levelIter := entry, mem, 0, false, null;
      new;
      sortedIndex := EntryIndex(entry, mem);
      hasLevel, levelIter := OpenLevel(entry, mem);
      Aim();
      assert Sorted()[0..] == Sorted();
      MergeIsPutAll(entry.LevelContents(), entry.buf, KeyLimit(entry.suffixBytes));
    }

    static method EntryIndex(entry: BEntry, mem: MemControl) returns (index: seq<nat>)
      requires entry.Valid(mem)
      ensures |index| == |entry.buf| && (forall j :: 0 <= j < |index| ==> index[j] < |entry.buf|)
      ensures Listed(entry.buf, index) == PutAll([], entry.buf)
    {
      index := GetSortedIndex(entry.buf, KeyLimit(entry.suffixBytes));
    }

    /** An iterator over the tree, if there is one with entries. */
    static method OpenLevel(entry: BEntry, mem: MemControl) returns (has: bool, iter: CLevels.Iter?)
      requires entry.Valid(mem)
      ensures fresh(iter) || iter == null
      ensures has ==> iter != null && iter.mem == mem && iter.level == entry.level && iter.Valid()
                      && iter.Rest() == entry.LevelContents() != []
      ensures !has ==> entry.LevelContents() == []
    {
      hide PutAll, Fits, CLevels.Iter.Valid, CLevels.Iter.Rest, CLevels.CLevel.Valid;
      has, iter := false, null;
      if entry.level.root.Some? {
        iter := new CLevels.Iter.Begin(mem, entry.level);
        has := !iter.End();
      }
    }

    /** The entries of the tree that a walk from a key takes in. */
    static ghost function LevelFrom(entry: BEntry, startKey: nat): seq<Entry>
      reads entry.level
    {
      if startKey <= entry.FirstKey() then entry.LevelContents() else From(entry.LevelContents(), startKey)
    }

    /** An iterator over them, if there are any. */
    static method OpenLevelFrom(entry: BEntry, mem: MemControl, startKey: nat) returns (has: bool, iter: CLevels.Iter?)
      requires entry.Valid(mem) && startKey < KeyLimit(entry.suffixBytes)
      ensures fresh(iter) || iter == null
      ensures has ==> iter != null && iter.mem == mem && iter.level == entry.level && iter.Valid()
                      && iter.Rest() == LevelFrom(entry, startKey) != []
      ensures !has ==> LevelFrom(entry, startKey) == []
    {
      hide PutAll, Fits, From, CLevels.Iter.Valid, CLevels.Iter.Rest, CLevels.CLevel.Valid;
      has, iter := false, null;
      FromNone(startKey);
      if startKey <= entry.FirstKey() {
        has, iter := OpenLevel(entry, mem);
      } else if entry.level.root.Some? {
        iter := new CLevels.Iter(mem, entry.level, 0, startKey);
        has := !iter.End();
      }
    }

    lemma LevelMore()
      requires LevelValid() && hasLevel
      ensures levelIter != null && levelIter.cur.Some?
    {
    }

    /** Points to the smaller one of the next entries of buffer and tree. */
    method Aim()
      requires entry.Valid(mem) && IndexValid() && LevelValid() && bufIdx <= |entry.buf| == |sortedIndex|
      modifies this`pointToLevel
      ensures LevelValid() && LevelRest() == old(LevelRest())
      ensures Valid() && Rest() == Merge(Sorted()[bufIdx..], old(LevelRest()))
    {
      hide PutAll, Merge, KeyLimit, Fits, CLevels.Iter.Valid, CLevels.Iter.Rest, BEntry.Valid;
      pointToLevel := hasLevel;
      if hasLevel && bufIdx < |entry.buf| {
        LevelMore();
        var key := levelIter.Key();
        assert Sorted()[bufIdx] == entry.buf[sortedIndex[bufIdx]];
        pointToLevel := key < entry.buf[sortedIndex[bufIdx]].key;
      }
    }

    predicate End()
      requires Valid()
      reads this, entry, entry.level, mem, levelIter
      ensures End() <==> Rest() == []
    {
      assert |Sorted()| == |entry.buf|;
      MergeStep(Sorted()[bufIdx..], LevelRest());
      bufIdx >= |entry.buf| && !pointToLevel
    }

    method Key() returns (key: nat)
      requires Valid() && Rest() != []
      ensures Rest() != [] && key == Rest()[0].key
    {
      hide PutAll, Merge, KeyLimit, Fits, CLevels.Iter.Valid, CLevels.Iter.Rest, BEntry.Valid;
      MergeStep(Sorted()[bufIdx..], LevelRest());
      if pointToLevel {
        LevelMore();
        key := levelIter.Key();
      } else {
        assert Sorted()[bufIdx] == entry.buf[sortedIndex[bufIdx]];
        key := entry.buf[sortedIndex[bufIdx]].key;
      }
    }

    method Value() returns (value: int)
      requires Valid() && Rest() != []
      ensures Rest() != [] && value == Rest()[0].value
    {
      hide PutAll, Merge, KeyLimit, Fits, CLevels.Iter.Valid, CLevels.Iter.Rest, BEntry.Valid;
      MergeStep(Sorted()[bufIdx..], LevelRest());
      if pointToLevel {
        LevelMore();
        value := levelIter.Value();
      } else {
        assert Sorted()[bufIdx] == entry.buf[sortedIndex[bufIdx]];
        value := entry.buf[sortedIndex[bufIdx]].value;
      }
    }

    /** Steps to the next entry; false at the end. */
    method Next() returns (more: bool)
      requires Valid() && Rest() != []
      modifies this`bufIdx, this`hasLevel, this`pointToLevel, levelIter
      ensures Valid() && Rest() == old(Rest())[1..] && (more <==> Rest() != [])
    {
      hide PutAll, Merge, KeyLimit, Fits, CLevels.Iter.Valid, CLevels.Iter.Rest, BEntry.Valid;
      MergeStep(Sorted()[bufIdx..], LevelRest());
      ghost var a, b := Sorted()[bufIdx..], LevelRest();
      if pointToLevel {
        LevelMore();
        hasLevel := levelIter.Next();
        Aim();
        more := hasLevel || bufIdx < |entry.buf|;
      } else {
        assert a[1..] == Sorted()[bufIdx + 1..];
        bufIdx := bufIdx + 1;
        Aim();
        more := hasLevel || bufIdx < |entry.buf|;
      }
      MergeStep(Sorted()[bufIdx..], LevelRest());
    }

    /** From the first entry whose key is not below `startKey`, where all keys are at least the entry's. */
    constructor (entry: BEntry, mem: MemControl, startKey: nat)
      requires entry.Valid(mem) && startKey < KeyLimit(entry.suffixBytes)
      requires NoneUnder(entry.Contents(), entry.FirstKey())
      ensures Valid() && this.entry == entry && this.mem == mem && (levelIter == null || fresh(levelIter))
      ensures Rest() == From(entry.Contents(), startKey)
    {
      hide NoneUnder, PutAll, Merge, Rank, KeyLimit, Lookup, Fits, From, LevelFrom, BEntry.Contents, Valid, Rest;
      hide BEntry.LevelContents, BEntry.Valid, CLevels.Iter.Valid, CLevels.Iter.Rest, CLevels.CLevel.Valid;
      this.entry, this.mem, bufIdx, hasLevel, levelIter := entry, mem, 0, false, null;
      new;
      sortedIndex := EntryIndex(entry, mem);
      hasLevel, levelIter := OpenLevelFrom(entry, mem, startKey);
      Aim();
      Opened(startKey);
      if startKey > entry.FirstKey() {
        SkipTo(startKey);
      }
    }

    lemma Opened(startKey: nat)
      requires Valid() && bufIdx == 0
      requires NoneUnder(entry.Contents(), entry.FirstKey())
      requires LevelRest() == LevelFrom(entry, startKey)
      ensures Ascending(Rest()) && From(Rest(), startKey) == From(entry.Contents(), startKey)
      ensures startKey <= entry.FirstKey() ==> Rest() == From(entry.Contents(), startKey)
    {
      hide PutAll, Merge, Rank, KeyLimit, Lookup, From, CLevels.Iter.Valid, CLevels.Iter.Rest, CLevels.CLevel.Valid;
      var sorted, c, lim := Sorted(), entry.LevelContents(), KeyLimit(entry.suffixBytes);
      assert sorted[0..] == sorted;
      MergeIsPutAll(c, entry.buf, lim);
      PutAllInRange([], entry.buf, 0, lim);
      PutAllInRange(c, entry.buf, 0, lim);
      forall i | 0 <= i < |sorted| ensures Without(c, sorted[i].key) {
        NotUnder(c, entry.buf, lim, i);
      }
      if startKey <= entry.FirstKey() {
        if entry.Contents() == [] {
          FromNone(startKey);
        } else {
          FromStep(entry.Contents(), startKey);
        }
      } else {
        FromMerge(sorted, c, startKey);
        FromMeans(c, startKey, 0);
        forall i | 0 <= i < |sorted| ensures Without(From(c, startKey), sorted[i].key) {
          FromPart(c, startKey);
        }
        MergeMeans(sorted, From(c, startKey), 0);
      }
    }

    static lemma FromPart(c: seq<Entry>, start: nat)
      ensures From(c, start) == c[Rank(c, start)..]
    {
    }

    /** Steps over the entries below the key. */
    method SkipTo(startKey: nat)
      requires Valid() && Ascending(Rest())
      modifies this`bufIdx, this`hasLevel, this`pointToLevel, levelIter
      ensures Valid() && Rest() == From(old(Rest()), startKey)
    {
      hide PutAll, Merge, Rank, KeyLimit, Fits, From, CLevels.Iter.Valid, CLevels.Iter.Rest, BEntry.Valid;
      while true
        invariant Valid() && Ascending(Rest()) && From(Rest(), startKey) == From(old(Rest()), startKey)
        decreases |Rest()|
      {
        if End() {
          FromNone(startKey);
          return;
        }
        FromStep(Rest(), startKey);
        var key := Key();
        if key >= startKey {
          return;
        }
        var more := Next();
      }
    }

    static lemma FromNone(start: nat)
      ensures From([], start) == []
    {
    }
  }
}
