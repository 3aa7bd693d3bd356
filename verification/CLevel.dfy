/** The CLevel B+ tree as a sorted map, and its iterator (src/clevel.cc, src/clevel.h). Keys are those that the tree
    stores: the suffixes of keys with a common prefix. */
module CLevels {
  import opened Wrappers
  import opened Entries
  import opened CLevelTrees
  import opened CLevelNodes
  import opened Powers

  /** Bound above the keys of `s` bytes. */
  ghost function KeyLimit(s: nat): int {
    Pow2(8 * s)
  }

  // ---- The root

  /** The tree under a new root. */
  lemma NewRoot(nodes: seq<Node>, left: Tree, up: Split, hi: int, h: nat, s: nat, r: nat)
    requires Halves(nodes, left, Some(up), 0, hi, h, s) && r < |nodes| && r !in Addrs(left) && r !in Addrs(up.right)
    requires nodes[r] == Node(IndexNode, Some(left.addr), s, [Entry(up.sep, up.right.addr)])
    ensures Good(nodes, Index(r, [left, up.right], [up.sep]), 0, hi, h + 1, s)
    ensures Leaves(Index(r, [left, up.right], [up.sep])) == Whole(left, Some(up))
  {
    hide Tidy, Holds, Apart, Addrs, Leaves;
    var kids, keys := [left, up.right], [up.sep];
    assert Pointers(keys, kids) == [Entry(up.sep, up.right.addr)];
    MaxEntriesRange(s);
    GoodIndex(nodes, r, kids, keys, 0, hi, h, s);
    LeavesOfIndex(r, kids, keys);
    assert kids == [left] + [up.right];
    FlatConcat([left], [up.right]);
    FlatSingle(left);
    FlatSingle(up.right);
  }

  lemma NewRootAddrs(t: Tree, left: Tree, up: Split, r: nat, n: nat)
    requires NewAddrs(t, left, Some(up), n) && r >= n
    ensures Grown(Index(r, [left, up.right], [up.sep]), Addrs(t), n)
  {
  }

  /** What the change of one leaf is to the map. */
  lemma PutMeans(t: Tree, hi: int, h: nat, max: nat, ls: seq<Tree>, at: nat, x: Entry)
    requires Tidy(t, 0, hi, h, max) && PutLeaves(Leaves(t), ls, at, x) && Locates(Leaves(t), at, x.key)
             && Linked(Leaves(t))
    ensures Linked(ls) && Ascending(Join(Leaves(t))) && Join(ls) == PutEntry(Join(Leaves(t)), x)
    ensures forall k {:trigger Lookup(Join(ls), k)} ::
              Lookup(Join(ls), k) == if k == x.key then Some(x.value) else Lookup(Join(Leaves(t)), k)
  {
    hide Tidy, Join, Lookup, PutEntry, Leaves;
    TidySorted(t, 0, hi, h, max);
    assert Leaves(t)[at] in Leaves(t);
    PutLeavesContents(Leaves(t), ls, at, x);
    PutLeavesLinked(Leaves(t), ls, at, x);
    forall k ensures Lookup(Join(ls), k) == if k == x.key then Some(x.value) else Lookup(Join(Leaves(t)), k) {
      PutLookup(Join(Leaves(t)), x, k);
    }
  }

  // ---- The leaf for a key

  /** What the leaf says of the key, the tree says. */
  lemma FromLeaf(t: Tree, hi: int, h: nat, max: nat, at: nat, key: nat)
    requires Tidy(t, 0, hi, h, max) && Locates(Leaves(t), at, key)
    ensures var l := Leaves(t)[at];
            && l.Leaf? && Ascending(l.entries) && |l.entries| < max
            && Lookup(Join(Leaves(t)), key) == Lookup(l.entries, key)
               && (Has(Join(Leaves(t)), key) <==> Has(l.entries, key))
            && Join(Leaves(t)) == Join(Leaves(t)[..at]) + l.entries + Join(Leaves(t)[at + 1..])
    ensures Ascending(Join(Leaves(t)))
  {
    hide Tidy, Join, Leaves, Rank, Lookup, Has;
    TidySorted(t, 0, hi, h, max);
    JoinAround(Leaves(t), at);
    var l := Leaves(t)[at];
    assert l in Leaves(t);
    RankFrame(Join(Leaves(t)[..at]), l.entries, Join(Leaves(t)[at + 1..]), key);
    LookupFrame(Join(Leaves(t)[..at]), l.entries, Join(Leaves(t)[at + 1..]), key);
  }

  lemma PutOver(c: seq<Entry>, x: Entry)
    requires Ascending(c) && Has(c, x.key)
    ensures PutEntry(c, x) == c[Rank(c, x.key) := x] && Ascending(c[Rank(c, x.key) := x])
    ensures forall e :: e in c[Rank(c, x.key) := x] ==> exists y :: y in c && e.key == y.key
  {
    hide Rank;
    var n, r := Rank(c, x.key), c[Rank(c, x.key) := x];
    PutAscending(c, x);
    assert PutEntry(c, x) == r;
    forall e | e in r ensures exists y :: y in c && e.key == y.key {
      var i :| 0 <= i < |r| && r[i] == e;
      assert c[i] in c && c[i].key == e.key;
    }
  }

  lemma DropIs(c: seq<Entry>, key: nat)
    requires Ascending(c)
    ensures Ascending(DropEntry(c, key)) && |DropEntry(c, key)| <= |c|
    ensures DropEntry(c, key) == if Has(c, key) then c[..Rank(c, key)] + c[Rank(c, key) + 1..] else c
    ensures forall e :: e in DropEntry(c, key) ==> exists y :: y in c && e.key == y.key
  {
    hide Rank;
    DropAscending(c, key);
    forall e | e in DropEntry(c, key) ensures exists y :: y in c && e.key == y.key {
      assert e in c;
    }
  }

  class CLevel {
    /** The root node; none before the setup. */
    var root: Option<nat>
    ghost var tree: Tree
    ghost var height: nat
    ghost var suffix: nat

    ghost predicate Valid(mem: MemControl)
      reads this, mem
    {
      root == Some(tree.addr) && Good(mem.nodes, tree, 0, KeyLimit(suffix), height, suffix) && Linked(Leaves(tree))
    }

    /** The entries of all leaves, from the first to the last. */
    ghost function Contents(): seq<Entry>
      reads this
    {
      Join(Leaves(tree))
    }

    ghost function Footprint(): set<nat>
      reads this
    {
      Addrs(tree)
    }

    constructor ()
      ensures root == None
    {
      root := None;
    }

    /** An empty leaf as the root. */
    method Setup(mem: MemControl, suffixLen: nat)
      requires 1 <= suffixLen <= 8
      modifies this, mem
      ensures Valid(mem) && Contents() == [] && suffix == suffixLen
      ensures Frame(old(mem.nodes), mem.nodes, {}) && forall a :: a in Footprint() ==> a >= |old(mem.nodes)|
    {
      SetupWith(mem, suffixLen, []);
    }

    /** A leaf with the entries of an unsorted buffer, taken in sorted order, as the root. */
    method SetupWith(mem: MemControl, suffixLen: nat, entries: seq<Entry>)
      requires 1 <= suffixLen <= 8 && |entries| < MaxEntries(suffixLen) && InRange(entries, 0, KeyLimit(suffixLen))
      modifies this, mem
      ensures Valid(mem) && Contents() == entries && suffix == suffixLen
      ensures Frame(old(mem.nodes), mem.nodes, {}) && forall a :: a in Footprint() ==> a >= |old(mem.nodes)|
    {
      var a := mem.NewNode(LeafNode, suffixLen);
      mem.nodes := mem.nodes[a := mem.nodes[a].(buf := entries)];
      root := Some(a);
      tree, height, suffix := Leaf(a, entries, None), 0, suffixLen;
      JoinSingle(tree);
    }

    /** After a put the tree is in order again, and its entries are the old ones with the new one put. */
    method Put(mem: MemControl, key: nat, value: int)
      requires Valid(mem) && key < KeyLimit(suffix)
      modifies this, mem
      ensures Valid(mem) && suffix == old(suffix)
      ensures Ascending(old(Contents())) && Contents() == PutEntry(old(Contents()), Entry(key, value))
      ensures forall k :: Lookup(Contents(), k) == if k == key then Some(value) else old(Lookup(Contents(), k))
      ensures Frame(old(mem.nodes), mem.nodes, old(Footprint())) && Grown(tree, old(Footprint()), |old(mem.nodes)|)
    {
      hide Tidy, Holds, Apart, Addrs, Join, Lookup, PutEntry, Leaves, PutLeaves, Locates, Linked, Ascending;
      hide ParentReady;
      ghost var t, nodes, x := tree, mem.nodes, Entry(key, value);
      var oldRoot := root.value;
      var newRoot;
      ghost var left, up, at;
      newRoot, left, up, at := PutNode(mem, oldRoot, Entry(key, value), None, tree, 0, KeyLimit(suffix), height,
                                       suffix);
      if oldRoot != newRoot {
        root := Some(newRoot);
      }
      if up.Some? {
        NewRoot(mem.nodes, left, up.value, KeyLimit(suffix), height, suffix, newRoot);
        tree, height := Index(newRoot, [left, up.value.right], [up.value.sep]), height + 1;
        NewRootAddrs(t, left, up.value, newRoot, |nodes|);
      } else {
        tree := left;
      }
      assert Leaves(tree) == Whole(left, up);
      PutMeans(t, KeyLimit(suffix), old(height), MaxEntries(suffix), Leaves(tree), at, x);
    }

    method Get(mem: MemControl, key: nat) returns (r: Option<int>)
      requires Valid(mem) && key < KeyLimit(suffix)
      ensures r == Lookup(Contents(), key)
    {
      hide Tidy, Holds, Apart, Join, Leaves, Rank;
      ghost var at;
      var leaf;
      leaf, at := FindLeaf(mem, root.value, key, tree, 0, KeyLimit(suffix), height, suffix);
      FromLeaf(tree, KeyLimit(suffix), height, MaxEntries(suffix), at, key);
      var buf := mem.nodes[leaf].buf;
      return if Has(buf, key) then Some(buf[Rank(buf, key)].value) else None;
    }

    /** Overwrites the value of a key that is there. */
    method Update(mem: MemControl, key: nat, value: int) returns (ok: bool)
      requires Valid(mem) && key < KeyLimit(suffix)
      modifies this`tree, mem
      ensures Valid(mem)
      ensures ok <==> Has(old(Contents()), key)
      ensures Contents() == if ok then PutEntry(old(Contents()), Entry(key, value)) else old(Contents())
      ensures Frame(old(mem.nodes), mem.nodes, old(Footprint())) && Footprint() <= old(Footprint())
    {
      hide Tidy, Holds, Apart, Join, Leaves, Rank, PutEntry, Addrs;
      ghost var at;
      var leaf;
      leaf, at := FindLeaf(mem, root.value, key, tree, 0, KeyLimit(suffix), height, suffix);
      FromLeaf(tree, KeyLimit(suffix), height, MaxEntries(suffix), at, key);
      var node := mem.nodes[leaf];
      var pos := Rank(node.buf, key);
      ok := Has(node.buf, key);
      if ok {
        PutOver(node.buf, Entry(key, value));
        SetLeaf(mem, leaf, at, node.buf[pos := Entry(key, value)]);
        PutFrame(Join(Leaves(old(tree))[..at]), node.buf, Join(Leaves(old(tree))[at + 1..]), Entry(key, value));
      }
    }

    /** Removes a key; leaves may become empty and stay in the tree. */
    method Delete(mem: MemControl, key: nat) returns (value: Option<int>)
      requires Valid(mem) && key < KeyLimit(suffix)
      modifies this`tree, mem
      ensures Valid(mem)
      ensures value == Lookup(old(Contents()), key) && Contents() == DropEntry(old(Contents()), key)
      ensures forall k :: Lookup(Contents(), k) == if k == key then None else old(Lookup(Contents(), k))
      ensures Frame(old(mem.nodes), mem.nodes, old(Footprint())) && Footprint() <= old(Footprint())
    {
      hide Tidy, Holds, Apart, Join, Leaves, Rank, DropEntry, Addrs;
      ghost var at, c := 0, Contents();
      var leaf;
      leaf, at := FindLeaf(mem, root.value, key, tree, 0, KeyLimit(suffix), height, suffix);
      FromLeaf(tree, KeyLimit(suffix), height, MaxEntries(suffix), at, key);
      var node := mem.nodes[leaf];
      var pos := Rank(node.buf, key);
      value := if Has(node.buf, key) then Some(node.buf[pos].value) else None;
      DropFrame(Join(Leaves(tree)[..at]), node.buf, Join(Leaves(tree)[at + 1..]), key);
      DropIs(node.buf, key);
      if Has(node.buf, key) {
        SetLeaf(mem, leaf, at, node.buf[..pos] + node.buf[pos + 1..]);
      }
      forall k ensures Lookup(Contents(), k) == if k == key then None else Lookup(c, k) {
        DropLookup(c, key, k);
      }
    }

    /** Stores other entries, all under keys it had, in leaf `at`. */
    method SetLeaf(mem: MemControl, leaf: nat, ghost at: nat, c: seq<Entry>)
      requires Valid(mem) && at < |Leaves(tree)| && leaf == Leaves(tree)[at].addr && Leaves(tree)[at].Leaf?
      requires leaf < |mem.nodes| && |c| < MaxEntries(suffix) && Ascending(c)
      requires forall x :: x in c ==> exists y :: y in Leaves(tree)[at].entries && x.key == y.key
      modifies this`tree, mem
      ensures Valid(mem)
      ensures Contents() == old(Join(Leaves(tree)[..at])) + c + old(Join(Leaves(tree)[at + 1..]))
      ensures Frame(old(mem.nodes), mem.nodes, old(Footprint())) && Footprint() <= old(Footprint())
    {
      hide Tidy, Holds, Apart, Join, Leaves, Addrs, Ascending;
      ghost var t := tree;
      tree := ReplaceLeaf(mem.nodes, tree, 0, KeyLimit(suffix), height, suffix, at, c);
      mem.nodes := mem.nodes[leaf := mem.nodes[leaf].(buf := c)];
      JoinAround(Leaves(tree), at);
      assert Leaves(tree)[..at] == Leaves(t)[..at] && Leaves(tree)[at + 1..] == Leaves(t)[at + 1..];
      assert forall i :: 0 <= i < |Leaves(t)| ==> Successor(Leaves(tree), i) == Successor(Leaves(t), i);
    }
  }

  // ---- Iteration

  lemma {:induction false} LeavesNonempty(t: Tree, lo: int, hi: int, h: nat, max: nat)
    requires Tidy(t, lo, hi, h, max)
    ensures Leaves(t) != []
    decreases h
  {
    if t.Index? {
      LeavesNonempty(t.kids[0], Low(t.keys, lo, 0), High(t.keys, hi, 0), h - 1, max);
    }
  }

  /** The entries from the first one not below the key. */
  ghost function From(c: seq<Entry>, key: nat): seq<Entry> {
    c[Rank(c, key)..]
  }

  lemma JoinStep(ls: seq<Tree>, at: nat)
    requires at < |ls|
    ensures Join(ls[at..]) == EntriesOf(ls[at]) + Join(ls[at + 1..])
  {
    assert ls[at..][1..] == ls[at + 1..];
  }

  lemma FromFrame(a: seq<Entry>, m: seq<Entry>, b: seq<Entry>, key: nat)
    requires KeysUnder(a, key) && KeysOver(b, key) && Ascending(m)
    ensures From(a + m + b, key) == m[Rank(m, key)..] + b
  {
    hide Rank;
    RankFrame(a, m, b, key);
  }

  lemma OverTail(m: seq<Entry>, b: seq<Entry>, key: nat)
    requires KeysOver(m + b, key)
    ensures KeysOver(b, key)
  {
    assert forall i :: 0 <= i < |b| ==> b[i] == (m + b)[|m| + i];
  }

  /** A scan for the key starts in leaf `at`, behind an empty one if that is not the key's leaf. */
  ghost predicate StartsAt(ls: seq<Tree>, first: nat, at: nat, key: nat) {
    && Locates(ls, first, key) && first <= at < |ls| && Join(ls[first..]) == Join(ls[at..])
    && (at > first ==> EntriesOf(ls[first]) == [])
  }

  lemma StartsIn(ls: seq<Tree>, first: nat, at: nat, key: nat)
    requires StartsAt(ls, first, at, key) && at < |ls|
    requires Ascending(EntriesOf(ls[at]))
    ensures From(Join(ls), key) == EntriesOf(ls[at])[Rank(EntriesOf(ls[at]), key)..] + Join(ls[at + 1..])
  {
    hide Join, Rank, EntriesOf, From, KeysOver, KeysUnder;
    JoinStep(ls, first);
    JoinStep(ls, at);
    var before, m, after := Join(ls[..first]), EntriesOf(ls[at]), Join(ls[at + 1..]);
    JoinConcat(ls[..first], ls[first..]);
    assert ls == ls[..first] + ls[first..];
    if at > first {
      assert Join(ls[first + 1..]) == m + after;
      OverTail(m, after, key);
    }
    FromFrame(before, m, after, key);
    assert before + (m + after) == before + m + after;
  }

  /** Where a scan ends at once: no leaf from the key's leaf on holds an entry. */
  lemma StartsNowhere(ls: seq<Tree>, first: nat, key: nat)
    requires Locates(ls, first, key) && Join(ls[first..]) == []
    ensures From(Join(ls), key) == []
  {
    hide Join;
    JoinConcat(ls[..first], ls[first..]);
    assert ls == ls[..first] + ls[first..];
    RankIs(Join(ls), key, |Join(ls)|);
  }

  /** Where a scan that starts at or before all keys starts: at the first one. */
  lemma StartsAtFirst(ls: seq<Tree>, first: nat, prefixKey: nat, key: nat)
    requires Locates(ls, first, prefixKey) && key <= prefixKey
    requires forall i :: 0 <= i < |Join(ls)| ==> prefixKey <= Join(ls)[i].key
    ensures From(Join(ls), key) == Join(ls[first..]) == Join(ls)
  {
    hide Join;
    var before := Join(ls[..first]);
    JoinConcat(ls[..first], ls[first..]);
    assert ls == ls[..first] + ls[first..];
    assert forall i :: 0 <= i < |before| ==> Join(ls)[i] == before[i];
    RankIs(Join(ls), key, 0);
  }

  /** Walks the leaves through their successor links while the tree stays as it is. */
  class Iter {
    const mem: MemControl
    const level: CLevel
    var cur: Option<nat>
    var idx: nat
    /** Number of the current leaf. */
    ghost var at: nat

    ghost function Ls(): seq<Tree>
      reads this, level
    {
      Leaves(level.tree)
    }

    ghost predicate OnLeaf()
      reads this, mem, level
    {
      && level.Valid(mem)
      && (match cur
          case None => at == |Ls()|
          case Some(a) => at < |Ls()| && a == Ls()[at].addr && a < |mem.nodes|)
    }

    ghost predicate Valid()
      reads this, mem, level
    {
      OnLeaf() && (cur.Some? ==> idx < |EntriesOf(Ls()[at])|)
    }

    /** The entries still to come. */
    ghost function Rest(): seq<Entry>
      requires Valid()
      reads this, mem, level
    {
      if cur == None then [] else EntriesOf(Ls()[at])[idx..] + Join(Ls()[at + 1..])
    }

    /** From the first entry of the tree. */
    constructor Begin(mem: MemControl, level: CLevel)
      requires level.Valid(mem)
      ensures Valid() && this.mem == mem && this.level == level
      ensures Rest() == level.Contents()
    {
      hide Tidy, Holds, Apart, Addrs, Leaves;
      this.mem, this.level := mem, level;
      var leaf := FindHead(mem, level.root.value, level.tree, 0, KeyLimit(level.suffix), level.height, level.suffix);
      cur, idx, at := Some(leaf), 0, 0;
      new;
      LeafAt(mem.nodes, level.tree, level.suffix, 0);
      SkipEmpty();
      assert Ls()[0..] == Ls();
    }

    /** From the first entry whose key is not below `startKey`; all keys are at least `prefixKey`. */
    constructor (mem: MemControl, level: CLevel, prefixKey: nat, startKey: nat)
      requires level.Valid(mem) && prefixKey < KeyLimit(level.suffix) && startKey < KeyLimit(level.suffix)
      requires forall i :: 0 <= i < |level.Contents()| ==> prefixKey <= level.Contents()[i].key
      ensures Valid() && this.mem == mem && this.level == level
      ensures Ascending(level.Contents()) && Rest() == From(level.Contents(), startKey)
    {
      hide Tidy, Holds, Apart, Addrs, Leaves, Rank, Join, Locates, From, Has, Good, Linked, KeysUnder, KeysOver;
      this.mem, this.level := mem, level;
      ghost var c := level.Contents();
      var key := if startKey <= prefixKey then prefixKey else startKey;
      ghost var first;
      var leaf;
      leaf, first := FindLeaf(mem, level.root.value, key, level.tree, 0, KeyLimit(level.suffix), level.height,
                              level.suffix);
      cur, idx, at := Some(leaf), 0, first;
      new;
      InLeaves(first, key);
      assert level.Contents() == c;
      SkipEmpty();
      assert level.Contents() == c;
      if startKey <= prefixKey {
        StartsAtFirst(Ls(), first, prefixKey, startKey);
      } else if cur == None {
        StartsNowhere(Ls(), first, startKey);
      } else {
        SeekInLeaf(first, startKey);
      }
    }

    lemma InLeaves(i: nat, key: nat)
      requires level.Valid(mem) && Locates(Ls(), i, key)
      ensures i < |Ls()| && Ascending(level.Contents())
    {
      TidySorted(level.tree, 0, KeyLimit(level.suffix), level.height, MaxEntries(level.suffix));
    }

    /** Moves to the first entry not below the key, in the current leaf or after it. */
    method SeekInLeaf(ghost first: nat, startKey: nat)
      requires Valid() && cur.Some? && StartsAt(Ls(), first, at, startKey)
      modifies this
      ensures Valid() && Rest() == From(level.Contents(), startKey)
    {
      hide Tidy, Holds, Apart, Addrs, Leaves, Rank, Join, Locates, From, Has, Good, Linked, KeysUnder, KeysOver;
      hide Ascending, CLevel.Valid, StartsAt;
      LeafHere();
      StartsIn(Ls(), first, at, startKey);
      var buf := mem.nodes[cur.value].buf;
      var pos: int := RankLE(buf, startKey) - 1;
      idx := if Has(buf, startKey) then pos else pos + 1;
      assert EntriesOf(Ls()[at]) == buf && idx == Rank(buf, startKey);
      if idx >= |buf| {
        assert buf[idx..] + Join(Ls()[at + 1..]) == Join(Ls()[at + 1..]);
        Advance();
      }
    }

    lemma LeafHere()
      requires OnLeaf() && cur.Some?
      ensures var l := Ls()[at];
              && l.Leaf? && mem.nodes[cur.value] == Node(LeafNode, l.next, level.suffix, l.entries)
              && l.next == Successor(Ls(), at) && Ascending(l.entries)
              && (l.next.Some? ==> l.next.value < |mem.nodes|)
    {
      LeafAt(mem.nodes, level.tree, level.suffix, at);
      TidySorted(level.tree, 0, KeyLimit(level.suffix), level.height, MaxEntries(level.suffix));
      assert Ls()[at] in Ls();
      if at + 1 < |Ls()| {
        LeafAt(mem.nodes, level.tree, level.suffix, at + 1);
      }
    }

    /** Moves on to the first leaf that is not empty. */
    method SkipEmpty()
      requires OnLeaf() && idx == 0
      modifies this
      ensures Valid() && idx == 0 && old(at) <= at && Rest() == Join(Ls()[at..]) == Join(Ls()[old(at)..])
      ensures at > old(at) ==> old(at) < |Ls()| && EntriesOf(Ls()[old(at)]) == []
    {
      hide Tidy, Holds, Apart, Addrs, Leaves, Join, Good, Linked, Ascending;
      ghost var ls := Ls();
      while cur.Some? && |mem.nodes[cur.value].buf| == 0
        invariant OnLeaf() && idx == 0 && old(at) <= at && Join(ls[at..]) == Join(ls[old(at)..])
        invariant at > old(at) ==> old(at) < |ls| && EntriesOf(ls[old(at)]) == []
        decreases |ls| - at
      {
        LeafHere();
        JoinStep(ls, at);
        cur := mem.nodes[cur.value].link;
        at := at + 1;
      }
      if cur.Some? {
        LeafHere();
        JoinStep(Ls(), at);
      } else {
        NoLeaves();
        assert Ls()[at..] == [];
      }
    }

    lemma NoLeaves()
      ensures Join([]) == []
    {
    }

    /** The leaf after the current one, and on to one that is not empty. */
    method Advance()
      requires OnLeaf() && cur.Some?
      modifies this
      ensures Valid() && Rest() == old(Join(Ls()[at + 1..]))
    {
      hide Tidy, Holds, Apart, Addrs, Leaves, Join, Good, Linked, Ascending;
      LeafHere();
      cur := mem.nodes[cur.value].link;
      at, idx := at + 1, 0;
      SkipEmpty();
    }

    method Key() returns (key: nat)
      requires Valid() && cur.Some?
      ensures Rest() != [] && key == Rest()[0].key
    {
      LeafHere();
      key := mem.nodes[cur.value].buf[idx].key;
    }

    method Value() returns (value: int)
      requires Valid() && cur.Some?
      ensures Rest() != [] && value == Rest()[0].value
    {
      LeafHere();
      value := mem.nodes[cur.value].buf[idx].value;
    }

    predicate End()
      requires Valid()
      reads this, mem, level
      ensures End() <==> Rest() == []
    {
      cur == None
    }

    /** Steps to the next entry; false at the end. */
    method Next() returns (more: bool)
      requires Valid() && cur.Some?
      modifies this
      ensures Valid() && Rest() == old(Rest())[1..] && (more <==> Rest() != [])
    {
      hide Tidy, Holds, Apart, Addrs, Leaves, Join, Good, Linked, Ascending;
      LeafHere();
      if idx + 1 >= |mem.nodes[cur.value].buf| {
        Advance();
        more := cur.Some?;
      } else {
        idx := idx + 1;
        more := true;
      }
    }
  }
}
