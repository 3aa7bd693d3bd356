/** The bucket under an entry of the letree: a sorted array of records (src/pointer_bentry.h). Without deletes the last
    used position is the number of entries. */
module SortBuckets {
  import opened Wrappers
  import opened Entries

  const MAX_ENTRIES := 15

  datatype Status = OK | Full | NoExist

  class SortBucket {
    const records: array<Entry>
    var entries: nat
    var lastPos: nat
    var nextBucket: SortBucket?
    /** The used records. */
    ghost var contents: seq<Entry>

    ghost predicate Valid()
      reads this, records
    {
      && records.Length == MAX_ENTRIES && entries == lastPos == |contents| <= MAX_ENTRIES
      && (forall j :: 0 <= j < lastPos ==> records[j] == contents[j]) && Ascending(contents)
      && forall i :: 0 <= i < |contents| ==> contents[i].key != 0
    }

    constructor ()
      ensures Valid() && contents == [] && nextBucket == null && fresh(records)
    {
      records := new Entry[MAX_ENTRIES](_ => Entry(0, 0));
      entries, lastPos, nextBucket, contents := 0, 0, null, [];
    }

    /** Makes room for a key that is not there by moving the greater ones up; the caller counts the entry. */
    method PutBufKV(newKey: nat, value: int) returns (r: Status)
      requires Valid() && newKey != 0 && !Has(contents, newKey)
      modifies records
      ensures r == if old(entries) == MAX_ENTRIES then Full else OK
      ensures r.Full? ==> records[..] == old(records[..])
      ensures r.OK? ==> |PutEntry(contents, Entry(newKey, value))| == lastPos + 1
      ensures r.OK? ==> forall j :: 0 <= j <= lastPos ==> records[j] == PutEntry(contents, Entry(newKey, value))[j]
    {
      hide Rank, Has, PutEntry, Ascending;
      PutEntrySize(contents, Entry(newKey, value));
      if entries >= MAX_ENTRIES {
        return Full;
      }
      if entries == 0 {
        records[0] := Entry(newKey, value);
        records[1] := records[1].(value := 0);
        InsertedIs(contents, Entry(newKey, value), 0, [records[0]]);
        return OK;
      }
      ghost var p := ShiftIn(newKey, value);
      InsertedIs(contents, Entry(newKey, value), p, records[..lastPos + 1]);
      assert forall j :: 0 <= j <= lastPos ==> records[j] == records[..lastPos + 1][j];
      return OK;
    }

    /** Moves the records with greater keys up from the last one down, and stores the new one below them. */
    method ShiftIn(newKey: nat, value: int) returns (ghost p: nat)
      requires Valid() && 0 < lastPos < MAX_ENTRIES
      modifies records
      ensures p <= lastPos && records[p] == Entry(newKey, value)
      ensures forall j :: 0 <= j < p ==> records[j] == contents[j]
      ensures forall j :: p <= j < lastPos ==> records[j + 1] == contents[j] && newKey < contents[j].key
      ensures p > 0 ==> contents[p - 1].key <= newKey
    {
      hide Ascending;
      var i: int := lastPos - 1;
      while i >= 0 && newKey < records[i].key
        invariant -1 <= i < lastPos
        invariant forall j :: 0 <= j <= i ==> records[j] == contents[j]
        invariant forall j :: i < j < lastPos ==> records[j + 1] == contents[j] && newKey < contents[j].key
      {
        records[i + 1] := records[i];
        i := i - 1;
      }
      records[i + 1] := Entry(newKey, value);
      p := i + 1;
    }

    method Put(key: nat, value: int) returns (r: Status)
      requires Valid() && key != 0 && !Has(contents, key)
      modifies this, records
      ensures Valid() && nextBucket == old(nextBucket)
      ensures r == if |old(contents)| == MAX_ENTRIES then Full else OK
      ensures contents == if r.OK? then PutEntry(old(contents), Entry(key, value)) else old(contents)
    {
      r := PutBufKV(key, value);
      if r != OK {
        return;
      }
      entries := entries + 1;
      lastPos := lastPos + 1;
      PutEntryGrows(contents, Entry(key, value));
      contents := PutEntry(contents, Entry(key, value));
    }

    /** Moves the upper half to a new bucket, which comes next. */
    method Expand() returns (next: SortBucket, splitKey: nat)
      requires Valid() && |contents| >= 2
      modifies this
      ensures Valid() && next.Valid() && fresh(next) && fresh(next.records)
      ensures var m := |old(contents)| / 2; contents == old(contents)[..m] && next.contents == old(contents)[m..]
      ensures splitKey == old(contents)[|old(contents)| / 2].key
      ensures nextBucket == next && next.nextBucket == old(nextBucket)
    {
      hide Rank, Has, PutEntry, Ascending;
      next := new SortBucket();
      splitKey := records[lastPos / 2].key;
      var m := lastPos / 2;
      for i := m to lastPos
        invariant Valid() && contents == old(contents) && nextBucket == old(nextBucket)
        invariant next.Valid() && fresh(next) && fresh(next.records) && next.contents == contents[m..i]
      {
        if records[i].key != 0 {
          AppendIs(contents, m, i);
          var r := next.PutBufKV(records[i].key, records[i].value);
          next.entries := next.entries + 1;
          next.lastPos := next.lastPos + 1;
          next.contents := contents[m..i + 1];
        }
      }
      LowerAscending(contents, m);
      next.nextBucket := nextBucket;
      nextBucket := next;
      entries := entries - next.entries;
      lastPos := m;
      contents := contents[..m];
    }

    method LinearFind(target: nat) returns (i: nat, find: bool)
      requires Valid()
      ensures i == Rank(contents, target) && find == Has(contents, target)
    {
      hide Rank;
      i := 0;
      while i < lastPos && target > records[i].key
        invariant i <= lastPos && forall j :: 0 <= j < i ==> contents[j].key < target
      {
        i := i + 1;
      }
      RankIs(contents, target, i);
      find := i < lastPos && target == records[i].key;
    }

    /** A value of zero counts as deleted. */
    method Get(key: nat) returns (r: Option<int>)
      requires Valid()
      ensures r == if Lookup(contents, key) == Some(0) then None else Lookup(contents, key)
    {
      var pos, find := LinearFind(key);
      if !find || records[pos].value == 0 {
        return None;
      }
      return Some(records[pos].value);
    }

    function MinKey(): nat
      requires Valid() && contents != []
      reads this, records
      ensures MinKey() == contents[0].key
    {
      records[0].key
    }
  }

  lemma InsertedIs(c: seq<Entry>, x: Entry, p: nat, r: seq<Entry>)
    requires Ascending(c) && !Has(c, x.key) && p <= |c| && |r| == |c| + 1 && r[p] == x
    requires forall j :: 0 <= j < p ==> r[j] == c[j]
    requires forall j :: p <= j < |c| ==> r[j + 1] == c[j] && x.key < c[j].key
    requires p > 0 ==> c[p - 1].key <= x.key
    ensures r == PutEntry(c, x)
  {
    if p > 0 && c[p - 1].key == x.key {
      HasIff(c, x.key);
    }
    RankIs(c, x.key, p);
    hide Rank, Has;
    forall j | 0 <= j < |r| ensures r[j] == PutEntry(c, x)[j] {
      if j > p {
        assert r[j - 1 + 1] == c[j - 1];
      }
    }
  }

  lemma PutEntryGrows(c: seq<Entry>, x: Entry)
    requires Ascending(c) && !Has(c, x.key) && x.key != 0 && forall i :: 0 <= i < |c| ==> c[i].key != 0
    ensures Ascending(PutEntry(c, x)) && |PutEntry(c, x)| == |c| + 1
    ensures forall i :: 0 <= i < |PutEntry(c, x)| ==> PutEntry(c, x)[i].key != 0
  {
    PutAscending(c, x);
  }

  lemma PutEntrySize(c: seq<Entry>, x: Entry)
    requires !Has(c, x.key)
    ensures |PutEntry(c, x)| == |c| + 1
  {
  }

  lemma LowerAscending(c: seq<Entry>, m: nat)
    requires Ascending(c) && m <= |c|
    ensures Ascending(c[..m])
  {
  }

  lemma AppendIs(c: seq<Entry>, m: nat, i: nat)
    requires Ascending(c) && m <= i < |c|
    ensures !Has(c[m..i], c[i].key) && PutEntry(c[m..i], c[i]) == c[m..i + 1] && Ascending(c[m..i + 1])
  {
    hide Rank;
    RankIs(c[m..i], c[i].key, i - m);
  }
}
