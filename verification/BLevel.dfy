/** Building a BLevel from pairs in key order, with the keys of every entry compressed against the entry's own
    (src/blevel.cc). */
module BLevels {
  import opened Wrappers
  import opened Entries
  import opened Numbers
  import opened Powers
  import opened Bits
  import opened SortBuffers
  import opened CLevelNodes
  import opened CLevels
  import opened BEntries

  /** The fewest entries that the buffer of an entry has room for, with suffixes of eight bytes. */
  const LEAST_ENTRIES := 7

  // ---- Prefixes

  function BitLength(x: nat): nat {
    if x == 0 then 0 else 1 + BitLength(x / 2)
  }

  lemma {:induction false} BitLengthIs(x: nat, n: nat)
    ensures BitLength(x) <= n <==> x < Pow2(n)
  {
    if x > 0 && n > 0 {
      BitLengthIs(x / 2, n - 1);
    }
  }

  /** Two words have a zero exclusive or above bit `n` when they agree there. */
  lemma {:induction false} XorAgrees(a: nat, b: nat, n: nat)
    ensures Xor(a, b) < Pow2(n) <==> Quotient(a, Pow2(n)) == Quotient(b, Pow2(n))
  {
    if n == 0 {
      XorIsZero(a, b);
    } else {
      XorAgrees(a / 2, b / 2, n - 1);
      HalfQuotient(a, Pow2(n - 1));
      HalfQuotient(b, Pow2(n - 1));
    }
  }

  lemma {:induction false} XorIsZero(a: nat, b: nat)
    ensures Xor(a, b) == 0 <==> a == b
    decreases a + b
  {
    if a + b > 0 {
      XorIsZero(a / 2, b / 2);
    }
  }

  lemma HalfQuotient(a: nat, m: nat)
    requires m > 0
    ensures Quotient(a, 2 * m) == Quotient(a / 2, m)
  {
    var q := a / (2 * m);
    assert a == q * (2 * m) + a % (2 * m);
    assert q * (2 * m) == 2 * (q * m);
    assert q * m <= a / 2 < q * m + m;
    assert (q + 1) * m == q * m + m;
    QuotientIs(a / 2, m, q);
  }

  /** Leading bytes that two 64-bit words have in common, by the leading zeros of their exclusive or. */
  function CommonPrefixBytes(a: nat, b: nat): nat
    requires a < Pow2(64) && b < Pow2(64)
    ensures CommonPrefixBytes(a, b) <= 8
  {
    XorShort(a, b);
    var x := Xor(a, b);
    var zeros: nat := if x == 0 then 64 else 64 - BitLength(x);
    zeros / 8
  }

  lemma XorShort(a: nat, b: nat)
    requires a < Pow2(64) && b < Pow2(64)
    ensures BitLength(Xor(a, b)) <= 64
  {
    hide Pow2, Xor, BitLength;
    XorAgrees(a, b, 64);
    BitLengthIs(Xor(a, b), 64);
    QuotientIs(a, Pow2(64), 0);
    QuotientIs(b, Pow2(64), 0);
  }

  /** It is the largest number of leading bytes in which they agree. */
  lemma CommonPrefixIs(a: nat, b: nat, p: nat)
    requires a < Pow2(64) && b < Pow2(64) && p <= 8
    ensures p <= CommonPrefixBytes(a, b) <==> Quotient(a, Pow2(8 * (8 - p))) == Quotient(b, Pow2(8 * (8 - p)))
  {
    hide Pow2, Xor;
    XorShort(a, b);
    XorAgrees(a, b, 8 * (8 - p));
    BitLengthIs(Xor(a, b), 8 * (8 - p));
    BitLengthIs(Xor(a, b), 0);
    Pow2Zero();
  }

  /** The keys from one key to another share the leading bytes of the two. */
  lemma SharedPrefix(a: nat, k: nat, b: nat, p: nat)
    requires a <= k <= b < Pow2(64) && p == CommonPrefixBytes(a, b)
    ensures SamePrefix(a, k, 8 - p)
  {
    hide Pow2, CommonPrefixBytes;
    CommonPrefixIs(a, b, p);
    var m := Pow2(8 * (8 - p));
    var q := a / m;
    assert a == q * m + a % m && b == q * m + b % m;
    assert (q + 1) * m == q * m + m;
    QuotientIs(k, m, q);
  }

  /** A prefix of all eight bytes would need equal keys. */
  lemma PrefixShort(a: nat, b: nat)
    requires a < b < Pow2(64)
    ensures CommonPrefixBytes(a, b) <= 7
  {
    hide Pow2, CommonPrefixBytes;
    CommonPrefixIs(a, b, 8);
    Pow2Zero();
  }

  ghost predicate SamePrefix(a: nat, k: nat, s: nat) {
    Quotient(a, Pow2(8 * s)) == Quotient(k, Pow2(8 * s))
  }

  // ---- Compression

  function Compress(c: seq<Entry>, s: nat): (r: seq<Entry>)
    ensures |r| == |c| && forall i :: 0 <= i < |c| ==> r[i] == Entry(Suffix(c[i].key, s), c[i].value)
  {
    seq(|c|, i requires 0 <= i < |c| => Entry(Suffix(c[i].key, s), c[i].value))
  }

  /** Compressed entries with their keys in full. */
  function InFull(prefix: nat, c: seq<Entry>, s: nat): (r: seq<Entry>)
    ensures |r| == |c| && forall i :: 0 <= i < |c| ==> r[i] == Entry(Join(prefix, c[i].key, s), c[i].value)
  {
    seq(|c|, i requires 0 <= i < |c| => Entry(Join(prefix, c[i].key, s), c[i].value))
  }

  ghost predicate AllShare(prefix: nat, c: seq<Entry>, s: nat) {
    forall i :: 0 <= i < |c| ==> SamePrefix(prefix, c[i].key, s)
  }

  lemma Lossless(prefix: nat, c: seq<Entry>, s: nat)
    requires AllShare(prefix, c, s)
    ensures InFull(prefix, Compress(c, s), s) == c
  {
    hide Pow2, Join, Suffix;
    forall i | 0 <= i < |c| ensures InFull(prefix, Compress(c, s), s)[i] == c[i] {
      JoinSuffix(prefix, c[i].key, s);
    }
  }

  lemma SuffixKeepsOrder(prefix: nat, x: nat, y: nat, s: nat)
    requires SamePrefix(prefix, x, s) && SamePrefix(prefix, y, s)
    ensures x < y <==> Suffix(x, s) < Suffix(y, s)
    ensures Suffix(x, s) < Pow2(8 * s)
  {
    hide Pow2;
    var m := Pow2(8 * s);
    assert x == x / m * m + x % m && y == y / m * m + y % m;
  }

  lemma CompressInRange(prefix: nat, c: seq<Entry>, s: nat)
    requires AllShare(prefix, c, s) && Ascending(c)
    ensures InRange(Compress(c, s), 0, KeyLimit(s))
  {
    hide Pow2, Suffix;
    forall i, j | 0 <= i < j < |c| ensures Suffix(c[i].key, s) < Suffix(c[j].key, s) {
      SuffixKeepsOrder(prefix, c[i].key, c[j].key, s);
    }
    forall i | 0 <= i < |c| ensures Suffix(c[i].key, s) < Pow2(8 * s) {
      SuffixKeepsOrder(prefix, c[i].key, c[i].key, s);
    }
  }

  /** A key is found in full exactly where its suffix is found. */
  lemma LookupCompressed(prefix: nat, c: seq<Entry>, s: nat, k: nat)
    requires AllShare(prefix, c, s) && SamePrefix(prefix, k, s) && Ascending(c)
    ensures Lookup(c, k) == Lookup(Compress(c, s), Suffix(k, s))
  {
    hide Pow2, Suffix, Lookup, SamePrefix;
    CompressInRange(prefix, c, s);
    forall i | 0 <= i < |c| ensures c[i].key == k <==> Suffix(c[i].key, s) == Suffix(k, s) {
      SuffixKeepsOrder(prefix, c[i].key, k, s);
      SuffixKeepsOrder(prefix, k, c[i].key, s);
    }
    if i :| 0 <= i < |c| && c[i].key == k {
      LookupAt(c, i);
      LookupAt(Compress(c, s), i);
    } else {
      LookupAbsent(c, k);
      LookupAbsent(Compress(c, s), Suffix(k, s));
    }
  }

  lemma PutGreater(c: seq<Entry>, x: Entry)
    requires KeysUnder(c, x.key)
    ensures PutEntry(c, x) == c + [x] && !Has(c, x.key)
  {
    RankIs(c, x.key, |c|);
  }

  lemma {:induction false} PutAllSorted(c: seq<Entry>)
    requires Ascending(c)
    ensures PutAll([], c) == c
  {
    if c != [] {
      var n := |c| - 1;
      PutAllSorted(c[..n]);
      PutGreater(c[..n], c[n]);
      assert c[..n] + [c[n]] == c;
    }
  }

  // ---- Expansion

  ghost function Concat(parts: seq<seq<Entry>>): seq<Entry> {
    if parts == [] then [] else Concat(parts[..|parts| - 1]) + parts[|parts| - 1]
  }

  lemma ConcatMore(parts: seq<seq<Entry>>, part: seq<Entry>)
    ensures Concat(parts + [part]) == Concat(parts) + part
  {
    assert (parts + [part])[..|parts|] == parts;
  }

  lemma ConcatLast(parts: seq<seq<Entry>>, more: seq<Entry>)
    requires parts != []
    ensures Concat(parts[|parts| - 1 := parts[|parts| - 1] + more]) == Concat(parts) + more
  {
    var n := |parts| - 1;
    assert parts[n := parts[n] + more][..n] == parts[..n];
    assert Concat(parts[..n]) + (parts[n] + more) == Concat(parts[..n]) + parts[n] + more;
  }

  /** Upper bound of the keys that belong to entry `i`: the key of the next entry. */
  ghost function Limit(keys: seq<nat>, i: nat, limit: nat): nat
    requires i < |keys|
  {
    if i + 1 < |keys| then keys[i + 1] else limit
  }

  /** The parts lie in the ranges that the entry keys divide the keys below `limit` into. */
  ghost predicate Ranged(keys: seq<nat>, parts: seq<seq<Entry>>, limit: nat) {
    && |parts| == |keys|
    && (forall i :: 0 <= i < |keys| ==> keys[i] < Limit(keys, i, limit))
    && forall i :: 0 <= i < |keys| ==> InRange(parts[i], keys[i], Limit(keys, i, limit))
  }

  /** What an entry holds, with keys in full. */
  ghost function Holding(e: BEntry): seq<Entry>
    reads e, e.level
  {
    InFull(e.entryKey, e.Contents(), e.suffixBytes)
  }

  /** All keys between the entry's own and `limit` have its prefix. */
  ghost predicate Covers(e: BEntry, limit: nat) {
    1 <= e.suffixBytes <= 8 && forall k :: e.entryKey <= k < limit ==> SamePrefix(e.entryKey, k, e.suffixBytes)
  }

  ghost function EntryKeys(entries: seq<BEntry>): (r: seq<nat>)
    ensures |r| == |entries| && forall i :: 0 <= i < |entries| ==> r[i] == entries[i].entryKey
  {
    seq(|entries|, i requires 0 <= i < |entries| => entries[i].entryKey)
  }

  lemma JoinParts(prefix: nat, x: nat, s: nat)
    requires x < Pow2(8 * s)
    ensures SamePrefix(prefix, Join(prefix, x, s), s) && Suffix(Join(prefix, x, s), s) == x
  {
    hide Pow2;
    var m := Pow2(8 * s);
    var q := prefix / m;
    assert (q + 1) * m == q * m + m;
    QuotientIs(q * m + x, m, q);
    assert q * m + x == (q * m + x) / m * m + (q * m + x) % m;
  }

  /** Moves pairs to a new entry whose buffer they do not fill. */
  method FlushToEntry(e: BEntry, mem: MemControl, buf: seq<Entry>, ghost limit: nat)
    requires e.buf == [] && e.level.root == None && Covers(e, limit)
    requires |buf| < MaxEntries(e.suffixBytes) && InRange(buf, e.entryKey, limit)
    modifies e`buf
    ensures e.Valid(mem) && Holding(e) == buf
  {
    hide Pow2, PutAll, Has, Rank, KeyLimit, Suffix, Join, SamePrefix, MaxEntries;
    CompressInRange(e.entryKey, buf, e.suffixBytes);
    e.buf := Compress(buf, e.suffixBytes);
    PutAllSorted(e.buf);
    Lossless(e.entryKey, buf, e.suffixBytes);
    forall i | 0 <= i < |e.buf| ensures !Has([], e.buf[i].key) {
      HasIff([], e.buf[i].key);
    }
  }

  /** One more key above those that the entry holds. */
  lemma HoldsMore(prefix: nat, c: seq<Entry>, s: nat, x: Entry)
    requires InRange(c, 0, KeyLimit(s)) && KeysUnder(InFull(prefix, c, s), x.key) && SamePrefix(prefix, x.key, s)
    ensures KeysUnder(c, Suffix(x.key, s)) && Suffix(x.key, s) < KeyLimit(s)
    ensures InFull(prefix, c + [Entry(Suffix(x.key, s), x.value)], s) == InFull(prefix, c, s) + [x]
  {
    hide Pow2, Suffix, Join, SamePrefix;
    JoinShared(prefix, x.key, s);
    SuffixKeepsOrder(prefix, x.key, x.key, s);
    forall i | 0 <= i < |c| ensures c[i].key < Suffix(x.key, s) {
      JoinParts(prefix, c[i].key, s);
      assert InFull(prefix, c, s)[i].key == Join(prefix, c[i].key, s);
      SuffixKeepsOrder(prefix, Join(prefix, c[i].key, s), x.key, s);
    }
  }

  lemma JoinShared(prefix: nat, key: nat, s: nat)
    requires SamePrefix(prefix, key, s)
    ensures Join(prefix, Suffix(key, s), s) == key
  {
    JoinSuffix(prefix, key, s);
  }

  /** Puts pairs above those that it holds into an entry, one by one. */
  method PutPairs(e: BEntry, mem: MemControl, buf: seq<Entry>, ghost limit: nat)
    requires e.Valid(mem) && Covers(e, limit) && InRange(Holding(e) + buf, e.entryKey, limit)
    modifies e`buf, e.level, mem
    ensures e.Valid(mem) && Holding(e) == old(Holding(e)) + buf
  {
    hide Pow2, PutAll, Has, Rank, KeyLimit, Suffix, Join, SamePrefix, Lookup, PutEntry, BEntry.Valid, BEntry.Contents;
    hide BEntry.FlushDue, BEntry.LevelContents;
    ghost var held := Holding(e);
    for i := 0 to |buf|
      invariant e.Valid(mem) && Holding(e) == held + buf[..i]
    {
      ghost var c := e.Contents();
      e.ContentsInRange(mem);
      assert (held + buf)[|held| + i] == buf[i];
      assert KeysUnder(held + buf[..i], buf[i].key) by {
        assert forall j :: 0 <= j < |held| + i ==> (held + buf)[j] == (held + buf[..i])[j];
      }
      HoldsMore(e.entryKey, c, e.suffixBytes, buf[i]);
      PutGreater(c, Entry(Suffix(buf[i].key, e.suffixBytes), buf[i].value));
      e.Put(mem, Suffix(buf[i].key, e.suffixBytes), buf[i].value);
      assert buf[..i] + [buf[i]] == buf[..i + 1];
    }
    assert buf[..|buf|] == buf;
  }

  lemma RangedMore(keys: seq<nat>, parts: seq<seq<Entry>>, key: nat, part: seq<Entry>, limit: nat)
    requires Ranged(keys, parts, key) && key < limit && InRange(part, key, limit)
    ensures Ranged(keys + [key], parts + [part], limit)
    ensures forall i :: 0 <= i < |keys| ==> Limit(keys + [key], i, limit) == Limit(keys, i, key)
  {
  }

  lemma RangedLast(keys: seq<nat>, parts: seq<seq<Entry>>, part: seq<Entry>, limit: nat)
    requires Ranged(keys, parts, limit) && keys != [] && InRange(part, keys[|keys| - 1], limit)
    ensures Ranged(keys, parts[|parts| - 1 := part], limit)
  {
  }

  /** The entries hold their shares, and divide the keys below `limit` among them. Only the last of as many entries as
      there is room for may have a tree. */
  ghost predicate Built(entries: seq<BEntry>, parts: seq<seq<Entry>>, capacity: nat, mem: MemControl, limit: nat)
    reads mem, entries, (set e | e in entries :: e.level)
  {
    && |parts| == |entries| <= capacity && Ranged(EntryKeys(entries), parts, limit)
    && (forall i :: 0 <= i < |entries| ==>
          entries[i].Valid(mem) && Holding(entries[i]) == parts[i]
              && Covers(entries[i], Limit(EntryKeys(entries), i, limit)))
    && (forall i :: 0 <= i < |entries| && i + 1 < capacity ==> entries[i].level.root == None)
    && forall i, j :: 0 <= i < j < |entries| ==> entries[i] != entries[j] && entries[i].level != entries[j].level
  }

  lemma BuiltMore(entries: seq<BEntry>, parts: seq<seq<Entry>>, capacity: nat, mem: MemControl, e: BEntry,
                  part: seq<Entry>, bound: nat)
    requires Built(entries, parts, capacity, mem, e.entryKey) && |entries| < capacity && e.entryKey < bound
    requires InRange(part, e.entryKey, bound) && e.Valid(mem) && Holding(e) == part && Covers(e, bound)
    requires e.level.root == None && e !in entries && forall i :: 0 <= i < |entries| ==> entries[i].level != e.level
    ensures Built(entries + [e], parts + [part], capacity, mem, bound)
  {
    hide Pow2, SamePrefix, BEntry.Valid, Holding, Covers, InRange, Ranged;
    RangedMore(EntryKeys(entries), parts, e.entryKey, part, bound);
    assert EntryKeys(entries + [e]) == EntryKeys(entries) + [e.entryKey];
  }

  lemma BuiltLast(entries: seq<BEntry>, parts: seq<seq<Entry>>, capacity: nat, mem: MemControl, part: seq<Entry>,
                  limit: nat)
    requires |parts| == |entries| == capacity > 0 && Ranged(EntryKeys(entries), parts, limit)
    requires InRange(part, entries[capacity - 1].entryKey, limit)
    requires forall i :: 0 <= i < capacity ==>
               && entries[i].Valid(mem) && Holding(entries[i]) == (if i + 1 < capacity then parts[i] else part)
               && Covers(entries[i], Limit(EntryKeys(entries), i, limit))
                  && (i + 1 < capacity ==> entries[i].level.root == None)
    requires forall i, j :: 0 <= i < j < capacity ==> entries[i] != entries[j] && entries[i].level != entries[j].level
    ensures Built(entries, parts[capacity - 1 := part], capacity, mem, limit)
  {
    hide Pow2, SamePrefix, BEntry.Valid, Holding, Covers, InRange, Ranged;
    RangedLast(EntryKeys(entries), parts, part, limit);
  }

  /** Suffix bytes of an entry for the keys from `key` to `bound`. */
  ghost function SuffixFor(key: nat, bound: nat): nat {
    if key < Pow2(64) && bound < Pow2(64) then 8 - CommonPrefixBytes(key, bound) else 0
  }

  /** The first entry begins at `first`, every other one at the first key of its share; each keeps of a key what
      follows the bytes that its own key shares with its bound. */
  ghost predicate Begun(entries: seq<BEntry>, parts: seq<seq<Entry>>, first: nat, limit: nat) {
    && |parts| == |entries| && (entries != [] ==> entries[0].entryKey == first)
    && forall i :: 0 <= i < |entries| ==>
         && parts[i] != [] && (i > 0 ==> entries[i].entryKey == parts[i][0].key)
         && entries[i].suffixBytes == SuffixFor(entries[i].entryKey, Limit(EntryKeys(entries), i, limit))
  }

  /** Every share before number `count` has `width` pairs. */
  ghost predicate FullTo(parts: seq<seq<Entry>>, width: nat, count: int) {
    forall i :: 0 <= i < |parts| && i < count ==> |parts[i]| == width
  }

  lemma BegunMore(entries: seq<BEntry>, parts: seq<seq<Entry>>, first: nat, e: BEntry, part: seq<Entry>, bound: nat)
    requires Begun(entries, parts, first, e.entryKey) && part != [] && e.suffixBytes == SuffixFor(e.entryKey, bound)
    requires e.entryKey == if entries == [] then first else part[0].key
    ensures Begun(entries + [e], parts + [part], first, bound)
  {
    hide SuffixFor;
    assert EntryKeys(entries + [e]) == EntryKeys(entries) + [e.entryKey];
    forall i | 0 <= i < |entries|
      ensures Limit(EntryKeys(entries + [e]), i, bound) == Limit(EntryKeys(entries), i, e.entryKey)
    {
    }
  }

  lemma FullMore(parts: seq<seq<Entry>>, width: nat, count: int, part: seq<Entry>)
    requires FullTo(parts, width, count) && (|parts| < count ==> |part| == width)
    ensures FullTo(parts + [part], width, count)
  {
  }

  lemma BegunLast(entries: seq<BEntry>, parts: seq<seq<Entry>>, first: nat, limit: nat, width: nat, more: seq<Entry>)
    requires Begun(entries, parts, first, limit) && entries != [] && FullTo(parts, width, |parts| - 1)
    ensures Begun(entries, parts[|parts| - 1 := parts[|parts| - 1] + more], first, limit)
    ensures FullTo(parts[|parts| - 1 := parts[|parts| - 1] + more], width, |parts| - 1)
  {
    hide SuffixFor;
  }

  /** The state of an expansion: the entries made so far, and the pairs that wait for the next one. */
  class ExpandData {
    const capacity: nat
    const firstEntryKey: nat
    const lastEntryKey: nat
    /** How many pairs wait at most; a build parameter. */
    const expandBufKey: nat
    var entries: seq<BEntry>
    var buf: seq<Entry>
    var entryKey: nat
    var size: nat
    /** The pairs put so far, and the share of each entry. */
    ghost var fed: seq<Entry>
    ghost var parts: seq<seq<Entry>>

    constructor (capacity: nat, firstEntryKey: nat, lastEntryKey: nat, expandBufKey: nat, mem: MemControl)
      requires capacity > 0 && firstEntryKey < lastEntryKey < Pow2(64) && 0 < expandBufKey < LEAST_ENTRIES
      ensures Valid(mem) && fed == [] && this.firstEntryKey == firstEntryKey && this.lastEntryKey == lastEntryKey
      ensures entries == [] && this.capacity == capacity && this.expandBufKey == expandBufKey
    {
      hide Pow2, Covers, Holding, BEntry.Valid, SuffixFor;
      this.capacity, this.firstEntryKey, this.lastEntryKey := capacity, firstEntryKey, lastEntryKey;
      this.expandBufKey := expandBufKey;
      entries, buf, entryKey, size := [], [], firstEntryKey, 0;
      fed, parts := [], [];
    }

    /** The key that the waiting pairs start from. */
    ghost function BufKey(): nat
      requires 0 < capacity
      reads this
    {
      if |entries| < capacity then entryKey else entries[|entries| - 1].entryKey
    }

    ghost predicate Valid(mem: MemControl)
      reads this, mem, entries, (set e | e in entries :: e.level)
    {
      && 0 < capacity && |parts| == |entries| <= capacity && lastEntryKey < Pow2(64) && size == |fed|
      && |buf| <= expandBufKey && 0 < expandBufKey < LEAST_ENTRIES
      && (|entries| < capacity ==> entryKey < lastEntryKey)
      && Built(entries, parts, capacity, mem, if |entries| < capacity then entryKey else lastEntryKey)
      && Concat(parts) + buf == fed && Ascending(fed) && InRange(buf, BufKey(), lastEntryKey)
      && (buf == [] ==> entries == []) && Cut(entryKey)
    }

    /** The next entry begins at the first key, or at that of the first waiting pair: `next` when none waits yet. */
    ghost predicate Starts(next: nat)
      reads this
    {
      && (entries == [] ==> entryKey == firstEntryKey)
      && (entries != [] && |entries| < capacity ==> entryKey == if buf == [] then next else buf[0].key)
    }

    /** Every entry so far took a full buffer of pairs, only the last of as many as there is room for takes more. */
    ghost predicate Cut(next: nat)
      reads this
    {
      && Starts(next) && FullTo(parts, expandBufKey, capacity - 1)
      && Begun(entries, parts, firstEntryKey, if |entries| < capacity then entryKey else lastEntryKey)
    }

    /** A new entry for the waiting pairs, with the prefix that its key shares with `bound`. */
    method AddEntry(mem: MemControl, bound: nat)
      requires Built(entries, parts, capacity, mem, entryKey) && |entries| < capacity && entryKey < bound < Pow2(64)
      requires |buf| < LEAST_ENTRIES && InRange(buf, entryKey, bound)
      requires buf != [] && Starts(entryKey) && Begun(entries, parts, firstEntryKey, entryKey)
      modifies this`entries, this`buf, this`parts
      ensures Begun(entries, parts, firstEntryKey, bound)
      ensures Built(entries, parts, capacity, mem, bound) && buf == [] && parts == old(parts) + [old(buf)]
      ensures |entries| == old(|entries|) + 1 && entries[..|entries| - 1] == old(entries)
              && fresh(entries[|entries| - 1])
      ensures fresh(entries[|entries| - 1].level)
      ensures entries[|entries| - 1].entryKey == entryKey
    {
      hide Pow2, CommonPrefixBytes, SamePrefix, BEntry.Valid, BEntry.Contents, Ranged, Holding, Begun;
      PrefixShort(entryKey, bound);
      var prefixLen := CommonPrefixBytes(entryKey, bound);
      var e := new BEntry(entryKey, prefixLen);
      MaxEntriesRange(e.suffixBytes);
      forall k | e.entryKey <= k < bound ensures SamePrefix(e.entryKey, k, e.suffixBytes) {
        SharedPrefix(entryKey, k, bound, prefixLen);
      }
      FlushToEntry(e, mem, buf, bound);
      BuiltMore(entries, parts, capacity, mem, e, buf, bound);
      BegunMore(entries, parts, firstEntryKey, e, buf, bound);
      entries, parts, buf := entries + [e], parts + [buf], [];
    }

    /** Entries without trees do not depend on the nodes. */
    lemma WithoutTrees(mem: MemControl, n: nat)
      requires n <= |entries| && forall i :: 0 <= i < n ==> entries[i].level.root == None
      ensures forall i :: 0 <= i < n ==>
                (entries[i].Valid(mem) <==> Plain(entries[i].suffixBytes, entries[i].buf))
                && Holding(entries[i]) ==
                   InFull(entries[i].entryKey, PutAll([], entries[i].buf), entries[i].suffixBytes)
    {
    }

    static ghost predicate Plain(s: nat, buf: seq<Entry>) {
      1 <= s <= 8 && |buf| < MaxEntries(s) && Fits([], buf, KeyLimit(s))
    }

    /** The waiting pairs go to the last entry. */
    method PutLast(mem: MemControl)
      requires Built(entries, parts, capacity, mem, lastEntryKey) && |entries| == capacity > 0
      requires InRange(parts[|parts| - 1] + buf, entries[|entries| - 1].entryKey, lastEntryKey)
      requires Begun(entries, parts, firstEntryKey, lastEntryKey) && FullTo(parts, expandBufKey, capacity - 1)
      modifies this`buf, this`parts, entries[|entries| - 1], entries[|entries| - 1].level, mem
      ensures Built(entries, parts, capacity, mem, lastEntryKey) && buf == []
      ensures parts == old(parts)[|old(parts)| - 1 := old(parts)[|old(parts)| - 1] + old(buf)]
      ensures Begun(entries, parts, firstEntryKey, lastEntryKey) && FullTo(parts, expandBufKey, capacity - 1)
    {
      hide Pow2, CommonPrefixBytes, SamePrefix, Covers, Holding, BEntry.Valid, InRange, Plain, Ranged, InFull, PutAll;
      hide Begun, FullTo;
      var last := |entries| - 1;
      WithoutTrees(mem, last);
      PutPairs(entries[last], mem, buf, lastEntryKey);
      WithoutTrees(mem, last);
      BuiltLast(entries, parts, capacity, mem, parts[last] + buf, lastEntryKey);
      BegunLast(entries, parts, firstEntryKey, lastEntryKey, expandBufKey, buf);
      parts := parts[last := parts[last] + buf];
      buf := [];
    }

    /** The last share and the waiting pairs are in order, and where the last entry covers them. */
    lemma Follows(mem: MemControl)
      requires Valid(mem) && |entries| == capacity
      ensures InRange(parts[|parts| - 1] + buf, entries[|entries| - 1].entryKey, lastEntryKey)
    {
      hide Pow2, Covers, Holding, BEntry.Valid, Cut;
      var n := |parts| - 1;
      var rest := Concat(parts[..n]);
      assert fed == rest + (parts[n] + buf);
      assert forall i :: 0 <= i < |parts[n] + buf| ==> (parts[n] + buf)[i] == fed[|rest| + i];
    }

    lemma BufUnder(key: nat)
      requires Concat(parts) + buf == fed && KeysUnder(fed, key)
      ensures KeysUnder(buf, key)
    {
      assert forall i :: 0 <= i < |buf| ==> buf[i] == fed[|Concat(parts)| + i];
    }

    /** Empties the full buffer. */
    method MakeRoom(mem: MemControl, key: nat)
      requires Valid(mem) && |buf| == expandBufKey && key < lastEntryKey && KeysUnder(fed, key)
      modifies this`entries, this`buf, this`parts, this`entryKey, entries, (set e | e in entries :: e.level), mem
      ensures Built(entries, parts, capacity, mem, if |entries| < capacity then entryKey else lastEntryKey)
              && Concat(parts) == fed && buf == [] && Cut(key)
      ensures 0 < |parts| == |entries| <= capacity && BufKey() <= key < lastEntryKey
      ensures forall e :: e in entries ==> e in old(entries) || (fresh(e) && fresh(e.level))
    {
      hide Pow2, Covers, Holding, BEntry.Valid, Ranged, Built, Concat, Begun, FullTo;
      BufUnder(key);
      if |entries| < capacity {
        assert buf[0].key < key;
        var bound := if |entries| + 1 == capacity then lastEntryKey else key;
        ConcatMore(parts, buf);
        FullMore(parts, expandBufKey, capacity - 1, buf);
        AddEntry(mem, bound);
        entryKey := key;
      } else {
        SomeEntry(mem);
        Follows(mem);
        assert buf[0].key < key;
        ConcatLast(parts, buf);
        PutLast(mem);
      }
    }

    lemma SomeEntry(mem: MemControl)
      requires Valid(mem) && |entries| == capacity
      ensures |parts| == |entries| > 0
    {
    }

    /** Takes one more pair, with a key above all before it; a full buffer becomes an entry first, or goes to the last
        one. */
    method ExpandPut(mem: MemControl, key: nat, value: int)
      requires Valid(mem) && (fed == [] ==> firstEntryKey <= key) && key < lastEntryKey && KeysUnder(fed, key)
      modifies this, entries, (set e | e in entries :: e.level), mem
      ensures Valid(mem) && fed == old(fed) + [Entry(key, value)]
      ensures forall e :: e in entries ==> e in old(entries) || (fresh(e) && fresh(e.level))
    {
      hide Pow2, Built, Concat, Begun, FullTo;
      BufUnder(key);
      NoneYet(mem);
      assert buf != [] ==> BufKey() <= buf[0].key;
      if |buf| == expandBufKey {
        MakeRoom(mem, key);
      }
      Append(mem, key, value);
    }

    /** Adds a pair to the buffer, which has room. */
    method Append(mem: MemControl, key: nat, value: int)
      requires 0 < capacity && |parts| == |entries| <= capacity && lastEntryKey < Pow2(64)
      requires |buf| < expandBufKey < LEAST_ENTRIES
      requires Built(entries, parts, capacity, mem, if |entries| < capacity then entryKey else lastEntryKey)
      requires size == |fed| && Concat(parts) + buf == fed && Ascending(fed) && KeysUnder(fed, key)
      requires InRange(buf, BufKey(), lastEntryKey) && BufKey() <= key < lastEntryKey && Cut(key)
      modifies this`buf, this`size, this`fed
      ensures Valid(mem) && fed == old(fed) + [Entry(key, value)]
    {
      hide Pow2, Built, Concat, Begun, FullTo;
      BufUnder(key);
      assert Concat(parts) + buf + [Entry(key, value)] == Concat(parts) + (buf + [Entry(key, value)]);
      buf := buf + [Entry(key, value)];
      size := size + 1;
      fed := fed + [Entry(key, value)];
    }

    lemma NoneYet(mem: MemControl)
      requires Valid(mem)
      ensures (buf == [] ==> fed == []) && (fed == [] ==> entryKey == firstEntryKey)
    {
    }

    /** Ends the expansion: the entries hold all pairs. */
    method ExpandFinish(mem: MemControl)
      requires Valid(mem)
      modifies this, entries, (set e | e in entries :: e.level), mem
      ensures Built(entries, parts, capacity, mem, lastEntryKey) && Concat(parts) == fed == old(fed)
      ensures size == |fed| && Begun(entries, parts, firstEntryKey, lastEntryKey) && (fed == [] <==> entries == [])
      ensures FullTo(parts, expandBufKey, |parts| - 1)
      ensures parts != [] && |parts| < capacity ==> |parts[|parts| - 1]| <= expandBufKey
      ensures forall e :: e in entries ==> e in old(entries) || (fresh(e) && fresh(e.level))
    {
      hide Pow2, Covers, Holding, BEntry.Valid, Built, Concat, Begun, FullTo;
      Unfinished(mem);
      if |buf| != 0 {
        if |entries| < capacity {
          ConcatMore(parts, buf);
          FullSoFar();
          AddEntry(mem, lastEntryKey);
        } else {
          Follows(mem);
          ConcatLast(parts, buf);
          PutLast(mem);
        }
      }
    }

    lemma Unfinished(mem: MemControl)
      requires Valid(mem)
      ensures |entries| == capacity ==> parts != []
      ensures buf == [] ==> Built(entries, parts, capacity, mem, lastEntryKey) && Concat(parts) == fed
      ensures buf == [] ==> Begun(entries, parts, firstEntryKey, lastEntryKey) && fed == [] && parts == []
      ensures buf == [] ==> FullTo(parts, expandBufKey, |parts| - 1)
    {
      hide Pow2, Covers, Holding, BEntry.Valid, SuffixFor, SamePrefix, InFull;
    }

    lemma FullSoFar()
      requires FullTo(parts, expandBufKey, capacity - 1) && |parts| < capacity
      ensures FullTo(parts + [buf], expandBufKey, |parts|)
    {
    }
  }

  /** Builds the entries of a level from pairs in key order. */
  method Expansion(data: seq<Entry>, capacity: nat, expandBufKey: nat, mem: MemControl) returns (d: ExpandData)
    requires capacity > 0 && 0 < expandBufKey < LEAST_ENTRIES && InRange(data, 0, Pow2(64) - 1)
    modifies mem
    ensures fresh(d) && Built(d.entries, d.parts, capacity, mem, Pow2(64) - 1) && Concat(d.parts) == data
    ensures Begun(d.entries, d.parts, 0, Pow2(64) - 1) && (data == [] <==> d.entries == []) && d.size == |data|
    ensures FullTo(d.parts, expandBufKey, |d.parts| - 1)
    ensures d.parts != [] && |d.parts| < capacity ==> |d.parts[|d.parts| - 1]| <= expandBufKey
    ensures forall e :: e in d.entries ==> fresh(e) && fresh(e.level)
  {
    hide Pow2, Built, Begun, FullTo, Concat, ExpandData.Valid;
    SomeKeys();
    d := new ExpandData(capacity, 0, Pow2(64) - 1, expandBufKey, mem);
    for i := 0 to |data|
      invariant d.Valid(mem) && d.fed == data[..i] && d.firstEntryKey == 0 && d.lastEntryKey == Pow2(64) - 1
      invariant d.capacity == capacity && d.expandBufKey == expandBufKey
      invariant forall e :: e in d.entries ==> fresh(e) && fresh(e.level)
    {
      assert forall j :: 0 <= j < |d.entries| ==> d.entries[j] in d.entries;
      d.ExpandPut(mem, data[i].key, data[i].value);
      assert data[..i] + [data[i]] == data[..i + 1];
    }
    assert data[..|data|] == data;
    assert forall j :: 0 <= j < |d.entries| ==> d.entries[j] in d.entries;
    d.ExpandFinish(mem);
  }

  lemma SomeKeys()
    ensures Pow2(64) > 1
  {
    Pow2Grows(1, 64);
  }

  // ---- Finding

  lemma {:induction false} ConcatSplit(parts: seq<seq<Entry>>, i: nat)
    requires i < |parts|
    ensures Concat(parts) == Concat(parts[..i]) + parts[i] + Concat(parts[i + 1..])
  {
    var n := |parts| - 1;
    if i < n {
      ConcatSplit(parts[..n], i);
      assert parts[..n][..i] == parts[..i] && parts[..n][i + 1..] == parts[i + 1..][..n - i - 1];
    }
  }

  lemma {:induction false} KeysAscend(keys: seq<nat>, parts: seq<seq<Entry>>, limit: nat, i: nat, j: nat)
    requires Ranged(keys, parts, limit) && i < j < |keys|
    ensures Limit(keys, i, limit) <= keys[j]
  {
    if i + 1 < j {
      KeysAscend(keys, parts, limit, i, j - 1);
    }
  }

  lemma {:induction false} ConcatOf(parts: seq<seq<Entry>>, i: nat) returns (t: nat)
    requires i < |Concat(parts)|
    ensures t < |parts| && Concat(parts)[i] in parts[t]
  {
    var n := |parts| - 1;
    if i < |Concat(parts[..n])| {
      t := ConcatOf(parts[..n], i);
    } else {
      t := n;
      assert Concat(parts)[i] == parts[n][i - |Concat(parts[..n])|];
    }
  }

  /** A key in the range of an entry is found among all pairs as it is in the share of the entry. */
  lemma InShare(keys: seq<nat>, parts: seq<seq<Entry>>, limit: nat, i: nat, key: nat)
    requires Ranged(keys, parts, limit) && i < |keys| && keys[i] <= key < Limit(keys, i, limit)
    ensures Lookup(Concat(parts), key) == Lookup(parts[i], key)
  {
    hide Lookup, Concat;
    var before, after := Concat(parts[..i]), Concat(parts[i + 1..]);
    forall j | 0 <= j < |before| ensures before[j].key < key {
      var t := ConcatOf(parts[..i], j);
      KeysAscend(keys, parts, limit, t, i);
    }
    forall j | 0 <= j < |after| ensures key < after[j].key {
      var t := ConcatOf(parts[i + 1..], j);
      if t > 0 {
        KeysAscend(keys, parts, limit, i, i + 1 + t);
      }
      assert after[j] in parts[i + 1 + t];
    }
    ConcatSplit(parts, i);
    LookupFrame(before, parts[i], after, key);
  }

  lemma StoredSuffixes(prefix: nat, c: seq<Entry>, s: nat)
    requires InRange(c, 0, KeyLimit(s))
    ensures Compress(InFull(prefix, c, s), s) == c
  {
    hide Pow2, Join, Suffix;
    forall i | 0 <= i < |c| ensures Compress(InFull(prefix, c, s), s)[i] == c[i] {
      JoinParts(prefix, c[i].key, s);
    }
  }

  /** Looking a key up among all pairs is looking its suffix up in the entry with the greatest entry key not above
      it. */
  lemma FoundInEntry(entries: seq<BEntry>, parts: seq<seq<Entry>>, capacity: nat, mem: MemControl, limit: nat, i: nat,
                     key: nat)
    requires Built(entries, parts, capacity, mem, limit) && i < |entries|
    requires entries[i].entryKey <= key < Limit(EntryKeys(entries), i, limit)
    ensures Lookup(Concat(parts), key) == Lookup(entries[i].Contents(), Suffix(key, entries[i].suffixBytes))
    ensures Suffix(key, entries[i].suffixBytes) < KeyLimit(entries[i].suffixBytes)
  {
    hide Pow2, Concat, Lookup, Suffix, SamePrefix, BEntry.Valid, BEntry.Contents, KeyLimit;
    var e := entries[i];
    InShare(EntryKeys(entries), parts, limit, i, key);
    e.ContentsInRange(mem);
    StoredSuffixes(e.entryKey, e.Contents(), e.suffixBytes);
    LookupCompressed(e.entryKey, parts[i], e.suffixBytes, key);
    BelowLimit(e.entryKey, key, e.suffixBytes);
  }

  lemma BelowLimit(prefix: nat, key: nat, s: nat)
    requires SamePrefix(prefix, key, s)
    ensures Suffix(key, s) < KeyLimit(s)
  {
    SuffixKeepsOrder(prefix, key, key, s);
  }

  lemma RangedKey(keys: seq<nat>, parts: seq<seq<Entry>>, limit: nat, i: nat)
    requires Ranged(keys, parts, limit) && i < |keys|
    ensures keys[i] < Limit(keys, i, limit)
  {
  }

  /** The last entry whose key is not above the given one. */
  method Find(entries: seq<BEntry>, key: nat, ghost parts: seq<seq<Entry>>, ghost limit: nat) returns (idx: nat)
    requires Ranged(EntryKeys(entries), parts, limit) && entries != [] && entries[0].entryKey <= key < limit
    ensures idx < |entries| && entries[idx].entryKey <= key < Limit(EntryKeys(entries), idx, limit)
  {
    hide Ranged, EntryKeys;
    ghost var keys := EntryKeys(entries);
    var left, right: int := 0, |entries| - 1;
    while left <= right
      invariant 0 <= left <= right + 1 <= |entries|
      invariant left > 0 ==> keys[left - 1] <= key
      invariant right + 1 < |entries| ==> key < keys[right + 1]
    {
      var middle := (left + right) / 2;
      var midKey := entries[middle].entryKey;
      assert keys[middle] == midKey;
      if midKey == key {
        RangedKey(keys, parts, limit, middle);
        return middle;
      } else if midKey < key {
        left := middle + 1;
      } else {
        right := middle - 1;
      }
    }
    return right;
  }

  /** Reads a key of the level. */
  method Get(entries: seq<BEntry>, mem: MemControl, key: nat, ghost parts: seq<seq<Entry>>, ghost capacity: nat,
             ghost limit: nat)
    returns (r: Option<int>)
    requires Built(entries, parts, capacity, mem, limit) && entries != [] && entries[0].entryKey <= key < limit
    ensures r == Lookup(Concat(parts), key)
  {
    hide Pow2, Concat, Lookup, Suffix, SamePrefix, BEntry.Valid, BEntry.Contents;
    var idx := Find(entries, key, parts, limit);
    FoundInEntry(entries, parts, capacity, mem, limit, idx, key);
    r := entries[idx].Get(mem, Suffix(key, entries[idx].suffixBytes));
  }

  /** A level built from pairs has an entry for every key, and that entry holds the key as the pairs do. */
  lemma {:induction false} EveryKeyHasEntry(entries: seq<BEntry>, parts: seq<seq<Entry>>, capacity: nat,
                                            mem: MemControl, limit: nat, key: nat)
    returns (i: nat)
    requires Built(entries, parts, capacity, mem, limit) && Begun(entries, parts, 0, limit)
    requires entries != [] && key < limit
    ensures i < |entries| && entries[i].entryKey <= key < Limit(EntryKeys(entries), i, limit)
    ensures Lookup(Concat(parts), key) == Lookup(entries[i].Contents(), Suffix(key, entries[i].suffixBytes))
  {
    hide Pow2, Concat, Lookup, Suffix, BEntry.Contents, Built, SuffixFor;
    i := |entries| - 1;
    while key < entries[i].entryKey
      invariant i < |entries| && key < Limit(EntryKeys(entries), i, limit)
      decreases i
    {
      i := i - 1;
    }
    FoundInEntry(entries, parts, capacity, mem, limit, i, key);
  }

  /** Reading a key of a level just built gives what the pairs hold for it, whatever the key and the pairs. */
  method ExpandAndGet(data: seq<Entry>, capacity: nat, expandBufKey: nat, mem: MemControl, key: nat)
    returns (r: Option<int>)
    requires capacity > 0 && 0 < expandBufKey < LEAST_ENTRIES && InRange(data, 0, Pow2(64) - 1)
    requires data != [] && key < Pow2(64) - 1
    modifies mem
    ensures r == Lookup(data, key)
  {
    hide Pow2, Concat, Lookup, Built, SuffixFor, FullTo;
    var d := Expansion(data, capacity, expandBufKey, mem);
    r := Get(d.entries, mem, key, d.parts, capacity, Pow2(64) - 1);
  }
}
