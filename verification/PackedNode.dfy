/** CLevel nodes in the packed form of memory (src/clevel.cc over src/sortbuffer.h): what a node operation does to the
    packed buffer is what `CLevelNodes` does to the node's sequence of entries. */
module PackedNodes {
  import opened Wrappers
  import opened Entries
  import opened SortBuffers
  import CLevelNodes

  type Node = CLevelNodes.Node

  /** The buffer holds the node's entries, in order. */
  ghost predicate Packs(b: SortBuffer, node: Node)
    reads b, b.slots
  {
    && b.Valid() && b.SuffixBytes() == node.suffix && b.Capacity() == CLevelNodes.MaxEntries(node.suffix)
    && b.Contents() == node.buf && Ascending(node.buf)
  }

  /** The buffer of a node as `NewNode` leaves it. */
  method NewBuffer(ghost kind: CLevelNodes.Kind, suffix: nat) returns (b: SortBuffer)
    requires 1 <= suffix <= 8
    ensures fresh(b) && fresh(b.slots) && b.d == FreshDigits(suffix)
    ensures Packs(b, CLevelNodes.Node(kind, None, suffix, []))
  {
    b := new SortBuffer(suffix);
  }

  /** The insertion of a new key into a leaf, and of a child under its separator into an index node. */
  method PutNew(b: SortBuffer, key: nat, value: int, ghost node: Node)
    requires Packs(b, node) && |node.buf| < CLevelNodes.MaxEntries(node.suffix)
    requires !Has(node.buf, Suffix(key, node.suffix))
    modifies b, b.slots
    ensures Packs(b, node.(buf := PutEntry(node.buf, Entry(Suffix(key, node.suffix), value))))
  {
    hide Rank, Suffix;
    var pos, exist := b.Find(key);
    PutAscending(node.buf, Entry(Suffix(key, node.suffix), value));
    b.Put(pos, key, value);
  }

  /** A put to a leaf: over the same key, or a new entry. */
  method PutLeaf(b: SortBuffer, key: nat, value: int, ghost node: Node)
    requires Packs(b, node) && |node.buf| < CLevelNodes.MaxEntries(node.suffix)
    modifies b, b.slots
    ensures Packs(b, node.(buf := PutEntry(node.buf, Entry(Suffix(key, node.suffix), value))))
  {
    hide Rank, Suffix;
    var pos, exist := b.Find(key);
    if exist {
      PutAscending(node.buf, Entry(Suffix(key, node.suffix), value));
      b.Update(pos, value);
      assert b.Contents() == PutEntry(node.buf, Entry(Suffix(key, node.suffix), value));
    } else {
      PutNew(b, key, value, node);
    }
  }

  method Get(b: SortBuffer, key: nat, ghost node: Node) returns (r: Option<int>)
    requires Packs(b, node)
    ensures r == Lookup(node.buf, Suffix(key, node.suffix))
  {
    hide Rank, Suffix;
    var pos, exist := b.Find(key);
    return if exist then Some(b.slots[b.Index(pos)].value) else None;
  }

  method Delete(b: SortBuffer, key: nat, ghost node: Node) returns (found: bool)
    requires Packs(b, node)
    modifies b
    ensures found == Has(node.buf, Suffix(key, node.suffix))
    ensures Packs(b, node.(buf := DropEntry(node.buf, Suffix(key, node.suffix))))
  {
    hide Rank, Suffix;
    var pos, exist := b.Find(key);
    DropAscending(node.buf, Suffix(key, node.suffix));
    if exist {
      b.Delete(pos);
    }
    return exist;
  }

  ghost predicate Full(node: Node)
    ensures Full(node) ==> |node.buf| >= 7
  {
    && 1 <= node.suffix <= 8
    && (CLevelNodes.MaxEntriesRange(node.suffix); |node.buf| == CLevelNodes.MaxEntries(node.suffix))
  }

  lemma Unpack(b: SortBuffer, node: Node)
    requires Packs(b, node)
    ensures b.Valid() && b.SuffixBytes() == node.suffix && b.Capacity() == CLevelNodes.MaxEntries(node.suffix)
    ensures b.Contents() == node.buf && Ascending(node.buf)
  {
  }

  /** A buffer that holds a stretch of the node's entries. */
  lemma PacksPart(b: SortBuffer, node: Node, from: nat, to: nat)
    requires b.Valid() && b.SuffixBytes() == node.suffix && b.Capacity() == CLevelNodes.MaxEntries(node.suffix)
    requires Ascending(node.buf) && from <= to <= |node.buf| && b.Contents() == node.buf[from..to]
    ensures Packs(b, node.(buf := node.buf[from..to]))
  {
  }

  /** The halves of a full leaf: the upper one moves to a new buffer, and gives the separator. */
  method SplitLeaf(b: SortBuffer, new_: SortBuffer, key: nat, ghost node: Node) returns (sep: nat)
    requires Full(node) && Packs(b, node)
    requires Packs(new_, node.(buf := [])) && new_.d == FreshDigits(node.suffix) && new_ != b && new_.slots != b.slots
    modifies b, new_, new_.slots
    ensures var half := CLevelNodes.LeafHalf(|node.buf|);
            && Packs(b, node.(buf := node.buf[..half])) && Packs(new_, node.(buf := node.buf[half..]))
            && sep == Join(key, node.buf[half].key, node.suffix)
  {
    hide Join, Sorted, Ordered, Packs, Ascending;
    CLevelNodes.MaxEntriesRange(node.suffix);
    Unpack(b, node);
    Unpack(new_, node.(buf := []));
    ghost var c := node.buf;
    var n := b.Entries();
    b.CopyData(new_, n / 2);
    assert c[n / 2..] == c[n / 2..|c|] && c[..n / 2] == c[0..n / 2];
    PacksPart(new_, node, n / 2, |c|);
    sep := new_.SortKey(0, key);
    b.DeleteData(n / 2);
    PacksPart(b, node, 0, n / 2);
  }

  /** The halves of a full index node: the middle entry leaves it, its key as separator and its child as the first
      one of the new node. */
  method SplitIndex(b: SortBuffer, new_: SortBuffer, key: nat, ghost node: Node) returns (sep: nat, firstChild: int)
    requires Full(node) && Packs(b, node)
    requires Packs(new_, node.(buf := [])) && new_.d == FreshDigits(node.suffix) && new_ != b && new_.slots != b.slots
    modifies b, new_, new_.slots
    ensures var m := CLevelNodes.IndexMiddle(|node.buf|);
            && Packs(b, node.(buf := node.buf[..m])) && Packs(new_, node.(buf := node.buf[m + 1..]))
            && sep == Join(key, node.buf[m].key, node.suffix) && firstChild == node.buf[m].value
  {
    hide Join, Sorted, Ordered, Packs, Ascending;
    CLevelNodes.MaxEntriesRange(node.suffix);
    Unpack(b, node);
    Unpack(new_, node.(buf := []));
    ghost var c := node.buf;
    var n := b.Entries();
    var m := (n + 1) / 2 - 1;
    assert c[m + 1..] == c[m + 1..|c|] && c[..m] == c[0..m];
    b.CopyData(new_, (n + 1) / 2);
    PacksPart(new_, node, m + 1, |c|);
    firstChild := b.slots[b.Index(m)].value;
    sep := b.SortKey(m, key);
    b.DeleteData(m);
    PacksPart(b, node, 0, m);
  }
}
