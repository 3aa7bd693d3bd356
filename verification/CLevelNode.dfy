/** The nodes of CLevel B+ trees in one memory region, which refer to each other by offset (src/clevel.cc,
    src/clevel.h). The entries of a node are those of its sorted buffer in order. */
module CLevelNodes {
  import opened Wrappers
  import opened Entries
  import opened Seqs
  import opened CLevelTrees
  import SortBuffers

  datatype Kind = IndexNode | LeafNode

  /** `link` is a leaf's successor or an index node's first child; an index node's values are child addresses. */
  datatype Node = Node(kind: Kind, link: Option<nat>, suffix: nat, buf: seq<Entry>)

  function MaxEntries(suffix: nat): nat {
    SortBuffers.BUF_SIZE / (SortBuffers.VALUE_SIZE + suffix)
  }

  /** Where a full leaf of `n` entries is cut. */
  function LeafHalf(n: nat): nat {
    n / 2
  }

  /** The entry of a full index node with `n` entries that goes up. */
  function IndexMiddle(n: nat): nat
    requires n > 0
  {
    (n + 1) / 2 - 1
  }

  lemma MaxEntriesRange(s: nat)
    requires 1 <= s <= 8
    ensures 7 <= MaxEntries(s) <= SortBuffers.SLOTS
  {
  }

  /** The region nodes are allocated from, never to be freed. */
  class MemControl {
    var nodes: seq<Node>

    constructor ()
      ensures nodes == []
    {
      nodes := [];
    }

    method NewNode(kind: Kind, suffix: nat) returns (a: nat)
      modifies this
      ensures a == old(|nodes|) && nodes == old(nodes) + [Node(kind, None, suffix, [])]
    {
      a := |nodes|;
      nodes := nodes + [Node(kind, None, suffix, [])];
    }
  }

  // ---- Trees in memory

  function Pointers(keys: seq<nat>, kids: seq<Tree>): (p: seq<Entry>)
    requires |kids| == |keys| + 1
    ensures |p| == |keys| && forall i :: 0 <= i < |p| ==> p[i] == Entry(keys[i], kids[i + 1].addr)
  {
    seq(|keys|, i requires 0 <= i < |keys| => Entry(keys[i], kids[i + 1].addr))
  }

  /** The nodes at the tree's addresses are those of the tree. */
  ghost predicate Holds(nodes: seq<Node>, t: Tree, s: nat)
    decreases t
  {
    match t
    case Leaf(a, entries, next) => a < |nodes| && nodes[a] == Node(LeafNode, next, s, entries)
    case Index(a, kids, keys) =>
      && a < |nodes| && |kids| == |keys| + 1
      && nodes[a] == Node(IndexNode, Some(kids[0].addr), s, Pointers(keys, kids))
      && HoldsKids(nodes, kids, s)
  }

  ghost predicate HoldsKids(nodes: seq<Node>, kids: seq<Tree>, s: nat)
    decreases kids
  {
    forall i :: 0 <= i < |kids| ==> Holds(nodes, kids[i], s)
  }

  ghost predicate Good(nodes: seq<Node>, t: Tree, lo: int, hi: int, h: nat, s: nat) {
    1 <= s <= 8 && Holds(nodes, t, s) && Apart(t) && Tidy(t, lo, hi, h, MaxEntries(s))
  }

  /** Nothing but the nodes at `s` has changed, and nodes were only added. */
  ghost predicate Frame(nodes: seq<Node>, nodes': seq<Node>, s: set<nat>) {
    |nodes| <= |nodes'| && forall a :: 0 <= a < |nodes| && a !in s ==> nodes'[a] == nodes[a]
  }

  lemma {:induction false} HoldsFrame(nodes: seq<Node>, nodes': seq<Node>, s: set<nat>, t: Tree, suffix: nat)
    requires Holds(nodes, t, suffix) && Frame(nodes, nodes', s) && s !! Addrs(t)
    ensures Holds(nodes', t, suffix)
    decreases t
  {
    if t.Index? {
      forall i | 0 <= i < |t.kids| ensures Holds(nodes', t.kids[i], suffix) {
        KidAddrsHas(t.kids, i);
        HoldsFrame(nodes, nodes', s, t.kids[i], suffix);
      }
    }
  }

  lemma {:induction false} HoldsUnder(nodes: seq<Node>, t: Tree, suffix: nat)
    requires Holds(nodes, t, suffix)
    ensures Under(Addrs(t), |nodes|) && t.addr in Addrs(t)
    decreases t
  {
    if t.Index? {
      KidsUnder(nodes, t.kids, suffix);
    }
  }

  lemma {:induction false} KidsUnder(nodes: seq<Node>, kids: seq<Tree>, suffix: nat)
    requires HoldsKids(nodes, kids, suffix)
    ensures Under(KidAddrs(kids), |nodes|)
    decreases kids
  {
    forall i | 0 <= i < |kids| ensures Under(Addrs(kids[i]), |nodes|) {
      HoldsUnder(nodes, kids[i], suffix);
    }
  }

  // ---- Put

  /** A subtree's right half and the separator in front of it. */
  datatype Split = Split(sep: nat, right: Tree)

  /** The parent can take another child whose separator is strictly between `lo` and `hi`. */
  ghost predicate ParentReady(nodes: seq<Node>, parent: Option<nat>, t: Tree, lo: int, hi: int, s: nat) {
    parent.Some? ==>
      && parent.value < |nodes| && parent.value !in Addrs(t)
      && Ascending(nodes[parent.value].buf)
      && forall i :: 0 <= i < |nodes[parent.value].buf| ==>
           nodes[parent.value].buf[i].key <= lo || hi <= nodes[parent.value].buf[i].key
  }

  /** What happens to the parent: nothing, or it gets the new child, or a new root gets both. */
  ghost predicate Attached(nodes: seq<Node>, nodes': seq<Node>, parent: Option<nat>, left: Tree, up: Option<Split>,
                           s: nat, r: nat)
  {
    match parent
    case Some(p) =>
      && p < |nodes| <= |nodes'|
      && (match up
          case None => nodes'[p] == nodes[p] && r == left.addr
          case Some(Split(sep, right)) =>
            nodes'[p] == nodes[p].(buf := PutEntry(nodes[p].buf, Entry(sep, right.addr)))
                && r == right.addr != left.addr)
    case None =>
      match up
      case None => r == left.addr
      case Some(Split(sep, right)) =>
        && |nodes| <= r < |nodes'| && r !in Addrs(left) && r !in Addrs(right)
        && nodes'[r] == Node(IndexNode, Some(left.addr), s, [Entry(sep, right.addr)])
  }

  ghost function Whole(left: Tree, up: Option<Split>): seq<Tree> {
    Leaves(left) + (if up.Some? then Leaves(up.value.right) else [])
  }

  ghost predicate Halves(nodes: seq<Node>, left: Tree, up: Option<Split>, lo: int, hi: int, h: nat, s: nat) {
    match up
    case None => Good(nodes, left, lo, hi, h, s)
    case Some(Split(sep, right)) =>
      lo < sep < hi && Good(nodes, left, lo, sep, h, s) && Good(nodes, right, sep, hi, h, s)
          && Addrs(left) !! Addrs(right)
  }

  ghost predicate NewAddrs(t: Tree, left: Tree, up: Option<Split>, n: nat) {
    left.addr == t.addr && Grown(left, Addrs(t), n) && (up.Some? ==> Grown(up.value.right, Addrs(t), n))
  }

  /** Adds the new right half to the parent, or to a new root over both halves. */
  method Attach(mem: MemControl, a: nat, sep: nat, new_: nat, parent: Option<nat>, ghost left: Tree, ghost right: Tree,
                ghost lo: int, ghost hi: int, ghost s: nat)
    returns (r: nat)
    requires left.addr == a && right.addr == new_ != a && lo < sep < hi && a < |mem.nodes| && mem.nodes[a].suffix == s
    requires Under(Addrs(left), |mem.nodes|) && Under(Addrs(right), |mem.nodes|)
    requires ParentReady(mem.nodes, parent, left, lo, hi, s)
    modifies mem
    ensures Attached(old(mem.nodes), mem.nodes, parent, left, Some(Split(sep, right)), s, r)
    ensures Frame(old(mem.nodes), mem.nodes, if parent.Some? then {parent.value} else {})
  {
    hide Rank, Ascending;
    if parent == None {
      r := mem.NewNode(IndexNode, mem.nodes[a].suffix);
      mem.nodes := mem.nodes[r := mem.nodes[r].(link := Some(a))];
      PutChild(mem, r, sep, new_);
      assert PutEntry([], Entry(sep, new_)) == [Entry(sep, new_)];
    } else {
      NoKeyBetween(mem.nodes[parent.value].buf, lo, hi, sep);
      PutChild(mem, parent.value, sep, new_);
      r := new_;
    }
  }

  lemma NoKeyBetween(c: seq<Entry>, lo: int, hi: int, sep: nat)
    requires lo < sep < hi && forall i :: 0 <= i < |c| ==> c[i].key <= lo || hi <= c[i].key
    ensures !Has(c, sep)
  {
  }

  method PutChild(mem: MemControl, a: nat, key: nat, child: nat)
    requires a < |mem.nodes| && !Has(mem.nodes[a].buf, key)
    modifies mem
    ensures mem.nodes == old(mem.nodes)[a := old(mem.nodes[a]).(buf := PutEntry(old(mem.nodes[a].buf),
                                                                                Entry(key, child)))]
  {
    hide Rank;
    var node := mem.nodes[a];
    var pos := Rank(node.buf, key);
    mem.nodes := mem.nodes[a := node.(buf := node.buf[..pos] + [Entry(key, child)] + node.buf[pos..])];
  }

  // ---- Leaves

  /** Splits a full leaf: the upper half moves to a new leaf, which the parent learns of, and which comes next. */
  method SplitLeaf(mem: MemControl, a: nat, parent: Option<nat>, ghost c: seq<Entry>, ghost next: Option<nat>,
                   ghost lo: int, ghost hi: int, ghost s: nat)
    returns (r: nat, ghost left: Tree, ghost right: Tree)
    requires 1 <= s <= 8 && a < |mem.nodes| && mem.nodes[a] == Node(LeafNode, next, s, c)
    requires |c| == MaxEntries(s) && InRange(c, lo, hi) && ParentReady(mem.nodes, parent, Leaf(a, c, next), lo, hi, s)
    modifies mem
    ensures left.Leaf? && right.Leaf? && left.addr == a && right.addr == |old(mem.nodes)|
    ensures left.entries + right.entries == c && left.next == Some(right.addr) && right.next == next
            && right.entries != []
    ensures Halves(mem.nodes, left, Some(Split(right.entries[0].key, right)), lo, hi, 0, s)
    ensures Attached(old(mem.nodes), mem.nodes, parent, left, Some(Split(right.entries[0].key, right)), s, r)
    ensures Frame(old(mem.nodes), mem.nodes, {a} + if parent.Some? then {parent.value} else {})
  {
    hide Ascending, PutEntry;
    MaxEntriesRange(s);
    var half := LeafHalf(|mem.nodes[a].buf|);
    CutInRange(c, lo, hi, half);
    var b := mem.NewNode(LeafNode, mem.nodes[a].suffix);
    mem.nodes := mem.nodes[b := mem.nodes[b].(buf := mem.nodes[a].buf[half..])];
    mem.nodes := mem.nodes[b := mem.nodes[b].(link := mem.nodes[a].link)];
    left, right := Leaf(a, c[..half], Some(b)), Leaf(b, c[half..], next);
    r := Attach(mem, a, mem.nodes[b].buf[0].key, b, parent, left, right, lo, hi, s);
    mem.nodes := mem.nodes[a := mem.nodes[a].(link := Some(b))];
    mem.nodes := mem.nodes[a := mem.nodes[a].(buf := mem.nodes[a].buf[..half])];
  }

  method PutLeaf(mem: MemControl, a: nat, x: Entry, parent: Option<nat>, ghost t: Tree, ghost lo: int, ghost hi: int,
                 ghost s: nat)
    returns (r: nat, ghost left: Tree, ghost up: Option<Split>)
    requires Good(mem.nodes, t, lo, hi, 0, s) && a == t.addr && lo <= x.key < hi
    requires ParentReady(mem.nodes, parent, t, lo, hi, s)
    modifies mem
    ensures Halves(mem.nodes, left, up, lo, hi, 0, s)
    ensures Attached(old(mem.nodes), mem.nodes, parent, left, up, s, r)
    ensures Frame(old(mem.nodes), mem.nodes, {a} + if parent.Some? then {parent.value} else {})
    ensures NewAddrs(t, left, up, |old(mem.nodes)|)
    ensures PutLeaves(Leaves(t), Whole(left, up), 0, x)
  {
    hide Rank, Ascending;
    var leaf := mem.nodes[a];
    var pos := Rank(leaf.buf, x.key);
    ghost var c := PutEntry(t.entries, x);
    PutInRange(t.entries, x, lo, hi);
    if Has(leaf.buf, x.key) {
      assert leaf.buf[pos := x] == c;
      mem.nodes := mem.nodes[a := leaf.(buf := leaf.buf[pos := x])];
      r, left, up := a, Leaf(a, c, t.next), None;
      return;
    }
    mem.nodes := mem.nodes[a := leaf.(buf := leaf.buf[..pos] + [x] + leaf.buf[pos..])];
    assert mem.nodes[a].buf == c;
    if |mem.nodes[a].buf| == MaxEntries(leaf.suffix) {
      ghost var right;
      r, left, right := SplitLeaf(mem, a, parent, c, t.next, lo, hi, s);
      up := Some(Split(right.entries[0].key, right));
    } else {
      r, left, up := a, Leaf(a, c, t.next), None;
    }
  }

  // ---- Index nodes

  /** An index node over `kids` that may be full. */
  ghost predicate GoodKids(nodes: seq<Node>, a: nat, kids: seq<Tree>, keys: seq<nat>, lo: int, hi: int, h: nat,
                           s: nat) {
    && 1 <= s <= 8 && a < |nodes| && |kids| == |keys| + 1
    && nodes[a] == Node(IndexNode, Some(kids[0].addr), s, Pointers(keys, kids))
    && HoldsKids(nodes, kids, s) && a !in KidAddrs(kids) && KidsApart(kids)
    && Kids(kids, keys, lo, hi, h, MaxEntries(s))
  }

  lemma GoodIndex(nodes: seq<Node>, a: nat, kids: seq<Tree>, keys: seq<nat>, lo: int, hi: int, h: nat, s: nat)
    ensures Good(nodes, Index(a, kids, keys), lo, hi, h + 1, s) <==>
            GoodKids(nodes, a, kids, keys, lo, hi, h, s) && |keys| < MaxEntries(s)
  {
  }

  lemma GoodAddrs(nodes: seq<Node>, t: Tree, lo: int, hi: int, h: nat, s: nat)
    requires Good(nodes, t, lo, hi, h, s)
    ensures Under(Addrs(t), |nodes|) && t.addr in Addrs(t) && t.addr < |nodes|
  {
    HoldsUnder(nodes, t, s);
  }

  function GetChild(node: Node, pos: nat): int
    requires pos <= |node.buf| && node.link.Some?
  {
    if pos == 0 then node.link.value else node.buf[pos - 1].value
  }

  /** What `FindLE` finds in the separators routes the key. */
  lemma RankRoutes(keys: seq<nat>, kids: seq<Tree>, lo: int, hi: int, key: nat)
    requires |kids| == |keys| + 1 && Separates(keys, lo, hi) && lo <= key < hi
    ensures Ascending(Pointers(keys, kids))
    ensures var i := RankLE(Pointers(keys, kids), key);
            i <= |keys| && Routes(keys, i, key) && Low(keys, lo, i) <= key < High(keys, hi, i)
  {
    hide Rank;
    var c := Pointers(keys, kids);
    assert forall j :: 0 <= j < |keys| ==> c[j].key == keys[j];
    RankSplits(c, key);
  }

  /** The search leads to the child for the key, below a parent that is ready for its split. */
  lemma Descend(nodes: seq<Node>, a: nat, kids: seq<Tree>, keys: seq<nat>, lo: int, hi: int, h: nat, s: nat, key: nat)
    requires GoodKids(nodes, a, kids, keys, lo, hi, h, s) && lo <= key < hi
    ensures var i := RankLE(nodes[a].buf, key);
            && i <= |keys| && Routes(keys, i, key) && Low(keys, lo, i) <= key < High(keys, hi, i)
            && GetChild(nodes[a], i) == kids[i].addr
            && Good(nodes, kids[i], Low(keys, lo, i), High(keys, hi, i), h, s)
            && ParentReady(nodes, Some(a), kids[i], Low(keys, lo, i), High(keys, hi, i), s)
  {
    hide Rank, RankLE, Tidy, Holds, Addrs, Apart, Ascending, Low, High, Separates, Routes;
    KidsSeparated(kids, keys, lo, hi, h, MaxEntries(s));
    RankRoutes(keys, kids, lo, hi, key);
    var i := RankLE(nodes[a].buf, key);
    KidAddrsHas(kids, i);
    ChildBetween(kids, keys, lo, hi, i);
  }

  lemma KidsSeparated(kids: seq<Tree>, keys: seq<nat>, lo: int, hi: int, h: nat, max: nat)
    requires Kids(kids, keys, lo, hi, h, max)
    ensures |kids| == |keys| + 1 && Separates(keys, lo, hi)
  {
  }

  /** No separator lies within the range of a child. */
  lemma ChildBetween(kids: seq<Tree>, keys: seq<nat>, lo: int, hi: int, i: nat)
    requires |kids| == |keys| + 1 && Separates(keys, lo, hi) && i <= |keys|
    ensures var c := Pointers(keys, kids);
            forall j :: 0 <= j < |c| ==> c[j].key <= Low(keys, lo, i) || High(keys, hi, i) <= c[j].key
  {
  }

  lemma PointersPut(keys: seq<nat>, kids: seq<Tree>, lo: int, hi: int, i: nat, sep: nat, k: Tree, r: Tree)
    requires |kids| == |keys| + 1 && i <= |keys| && Separates(keys, lo, hi) && k.addr == kids[i].addr
    requires Low(keys, lo, i) < sep < High(keys, hi, i)
    ensures PutEntry(Pointers(keys, kids), Entry(sep, r.addr)) ==
            Pointers(InsertKey(keys, i, sep), Spread(kids, i, k, r))
    ensures Spread(kids, i, k, r)[0].addr == kids[0].addr
  {
    hide Rank, InsertKey, Spread;
    var c := Pointers(keys, kids);
    RankIs(c, sep, i);
    assert !Has(c, sep);
    SpreadSize(kids, i, k, r, keys, sep);
    SpreadAt(kids, i, k, r, 0);
    var p, q := PutEntry(c, Entry(sep, r.addr)), Pointers(InsertKey(keys, i, sep), Spread(kids, i, k, r));
    forall j | 0 <= j < |p| ensures p[j] == q[j] {
      SpreadAt(kids, i, k, r, j + 1);
      InsertKeyAt(keys, i, sep, j);
      assert p[j] == if j < i then c[j] else if j == i then Entry(sep, r.addr) else c[j - 1];
    }
  }

  lemma InsertKeyAt(keys: seq<nat>, i: nat, sep: nat, j: nat)
    requires i <= |keys| && j <= |keys|
    ensures |InsertKey(keys, i, sep)| == |keys| + 1
    ensures InsertKey(keys, i, sep)[j] == if j < i then keys[j] else if j == i then sep else keys[j - 1]
  {
  }

  lemma PointersCut(keys: seq<nat>, kids: seq<Tree>, m: nat)
    requires |kids| == |keys| + 1 && 1 <= m <= |keys|
    ensures Pointers(keys, kids)[..m - 1] == Pointers(keys[..m - 1], kids[..m])
    ensures Pointers(keys, kids)[m..] == Pointers(keys[m..], kids[m..])
    ensures Pointers(keys, kids)[m - 1] == Entry(keys[m - 1], kids[m].addr)
  {
  }

  /** The siblings of the child that was put to are still there. */
  lemma SiblingsHold(nodes: seq<Node>, nodes': seq<Node>, a: nat, kids: seq<Tree>, s: nat, i: nat)
    requires HoldsKids(nodes, kids, s) && i < |kids| && KidsApart(kids) && a !in KidAddrs(kids)
    requires Frame(nodes, nodes', Addrs(kids[i]) + {a})
    ensures forall j :: 0 <= j < |kids| && j != i ==> Holds(nodes', kids[j], s)
  {
    hide Holds, Addrs;
    forall j | 0 <= j < |kids| && j != i ensures Holds(nodes', kids[j], s) {
      KidAddrsHas(kids, j);
      HoldsFrame(nodes, nodes', Addrs(kids[i]) + {a}, kids[j], s);
    }
  }

  /** A child that was put to without a split. */
  lemma KidReplaced(nodes: seq<Node>, nodes': seq<Node>, a: nat, kids: seq<Tree>, keys: seq<nat>, lo: int, hi: int,
                    h: nat, s: nat, i: nat, k: Tree)
    requires GoodKids(nodes, a, kids, keys, lo, hi, h, s) && i < |kids|
    requires Frame(nodes, nodes', Addrs(kids[i]) + {a}) && nodes'[a] == nodes[a]
    requires Good(nodes', k, Low(keys, lo, i), High(keys, hi, i), h, s) && NewAddrs(kids[i], k, None, |nodes|)
    ensures GoodKids(nodes', a, kids[i := k], keys, lo, hi, h, s)
    ensures forall b :: b in KidAddrs(kids[i := k]) ==> b in KidAddrs(kids) || b >= |nodes|
  {
    hide Holds, Addrs, Apart, Tidy, Kids;
    KidsCount(kids, keys, lo, hi, h, MaxEntries(s));
    SiblingsHold(nodes, nodes', a, kids, s, i);
    KidsUnder(nodes, kids, s);
    ApartReplace(kids, i, k, |nodes|);
    KidsReplace(kids, keys, lo, hi, h, MaxEntries(s), i, k);
    assert Pointers(keys, kids[i := k]) == Pointers(keys, kids);
  }

  /** A child that was put to and split, with its right half already known to the node. */
  lemma KidSplit(nodes: seq<Node>, nodes': seq<Node>, a: nat, kids: seq<Tree>, keys: seq<nat>, lo: int, hi: int, h: nat,
                 s: nat, i: nat, k: Tree, sep: nat, right: Tree, r: nat)
    requires GoodKids(nodes, a, kids, keys, lo, hi, h, s) && i < |kids|
    requires Frame(nodes, nodes', Addrs(kids[i]) + {a})
    requires Attached(nodes, nodes', Some(a), k, Some(Split(sep, right)), s, r)
    requires Halves(nodes', k, Some(Split(sep, right)), Low(keys, lo, i), High(keys, hi, i), h, s)
    requires NewAddrs(kids[i], k, Some(Split(sep, right)), |nodes|)
    ensures GoodKids(nodes', a, Spread(kids, i, k, right), InsertKey(keys, i, sep), lo, hi, h, s)
    ensures forall b :: b in KidAddrs(Spread(kids, i, k, right)) ==> b in KidAddrs(kids) || b >= |nodes|
  {
    hide Holds, Addrs, Apart, Tidy, Kids, PutEntry;
    KidsCount(kids, keys, lo, hi, h, MaxEntries(s));
    SiblingsHold(nodes, nodes', a, kids, s, i);
    KidsUnder(nodes, kids, s);
    ApartWiden(kids, i, k, right, |nodes|);
    KidsWiden(kids, keys, lo, hi, h, MaxEntries(s), i, sep, k, right);
    PointersPut(keys, kids, lo, hi, i, sep, k, right);
    hide Spread, InsertKey, KidsApart;
    SpreadHolds(nodes', kids, s, i, k, right);
  }

  lemma SpreadHolds(nodes: seq<Node>, kids: seq<Tree>, s: nat, i: nat, k: Tree, r: Tree)
    requires i < |kids| && Holds(nodes, k, s) && Holds(nodes, r, s)
    requires forall j :: 0 <= j < |kids| && j != i ==> Holds(nodes, kids[j], s)
    ensures HoldsKids(nodes, Spread(kids, i, k, r), s) && |Spread(kids, i, k, r)| == |kids| + 1
  {
    hide Holds;
    var kids' := Spread(kids, i, k, r);
    forall j | 0 <= j < |kids'| ensures Holds(nodes, kids'[j], s) {
      assert j < i ==> kids'[j] == kids[j];
      assert j > i + 1 ==> kids'[j] == kids[j - 1];
    }
  }

  lemma KidsFrame(nodes: seq<Node>, nodes': seq<Node>, f: set<nat>, kids: seq<Tree>, s: nat)
    requires HoldsKids(nodes, kids, s) && Frame(nodes, nodes', f) && f !! KidAddrs(kids)
    ensures HoldsKids(nodes', kids, s)
  {
    hide Holds, Addrs;
    forall i | 0 <= i < |kids| ensures Holds(nodes', kids[i], s) {
      KidAddrsHas(kids, i);
      HoldsFrame(nodes, nodes', f, kids[i], s);
    }
  }

  /** The lower side of a full index node after its split. */
  lemma LowerHalf(nodes: seq<Node>, nodes': seq<Node>, a: nat, kids: seq<Tree>, keys: seq<nat>, lo: int, hi: int,
                  h: nat, s: nat, m: nat, f: set<nat>)
    requires GoodKids(nodes, a, kids, keys, lo, hi, h, s) && 1 <= m <= |keys| <= MaxEntries(s)
    requires Frame(nodes, nodes', f) && f !! KidAddrs(kids)
    requires nodes'[a] == nodes[a].(buf := nodes[a].buf[..m - 1])
    ensures Good(nodes', Index(a, kids[..m], keys[..m - 1]), lo, keys[m - 1], h + 1, s)
  {
    hide Holds, Addrs, KidAddrs, Apart, Tidy, Kids, KidsApart, Pointers;
    KidsFrame(nodes, nodes', f, kids, s);
    KidsHalve(kids, keys, lo, hi, h, MaxEntries(s), m);
    ApartHalve(kids, m);
    PointersCut(keys, kids, m);
    GoodIndex(nodes', a, kids[..m], keys[..m - 1], lo, keys[m - 1], h, s);
  }

  lemma UpperHalf(nodes: seq<Node>, nodes': seq<Node>, a: nat, b: nat, kids: seq<Tree>, keys: seq<nat>, lo: int,
                  hi: int, h: nat, s: nat, m: nat, f: set<nat>)
    requires GoodKids(nodes, a, kids, keys, lo, hi, h, s) && 1 <= m <= |keys| <= MaxEntries(s)
    requires Frame(nodes, nodes', f) && f !! KidAddrs(kids) && |nodes| <= b < |nodes'|
    requires nodes'[b] == Node(IndexNode, Some(kids[m].addr), s, nodes[a].buf[m..])
    ensures Good(nodes', Index(b, kids[m..], keys[m..]), keys[m - 1], hi, h + 1, s)
  {
    hide Holds, Addrs, KidAddrs, Apart, Tidy, Kids, KidsApart, Pointers;
    KidsFrame(nodes, nodes', f, kids, s);
    KidsUnder(nodes, kids, s);
    KidsHalve(kids, keys, lo, hi, h, MaxEntries(s), m);
    ApartHalve(kids, m);
    PointersCut(keys, kids, m);
    GoodIndex(nodes', b, kids[m..], keys[m..], keys[m - 1], hi, h, s);
  }

  /** Addresses of the two sides. */
  lemma HalvesApart(nodes: seq<Node>, a: nat, b: nat, kids: seq<Tree>, keys: seq<nat>, lo: int, hi: int, h: nat, s: nat,
                    m: nat)
    requires GoodKids(nodes, a, kids, keys, lo, hi, h, s) && 1 <= m <= |keys| && b >= |nodes|
    ensures var left, right := Index(a, kids[..m], keys[..m - 1]), Index(b, kids[m..], keys[m..]);
            && Addrs(left) !! Addrs(right) && Addrs(left) <= {a} + KidAddrs(kids)
               && Addrs(right) <= {b} + KidAddrs(kids)
            && Under(KidAddrs(kids), |nodes|) && lo < keys[m - 1] < hi
  {
    hide Holds, Apart, Tidy;
    KidsUnder(nodes, kids, s);
    ApartHalve(kids, m);
    hide KidAddrs;
  }

  /** Splits a full index node: its middle key goes up, the entries above it to a new node. */
  method SplitIndex(mem: MemControl, a: nat, parent: Option<nat>, ghost kids: seq<Tree>, ghost keys: seq<nat>,
                    ghost lo: int, ghost hi: int, ghost h: nat, ghost s: nat)
    returns (r: nat, ghost left: Tree, ghost right: Tree, ghost sep: nat)
    requires GoodKids(mem.nodes, a, kids, keys, lo, hi, h, s) && |keys| == MaxEntries(s)
    requires ParentReady(mem.nodes, parent, Index(a, kids, keys), lo, hi, s)
    modifies mem
    ensures Halves(mem.nodes, left, Some(Split(sep, right)), lo, hi, h + 1, s)
    ensures Attached(old(mem.nodes), mem.nodes, parent, left, Some(Split(sep, right)), s, r)
    ensures Frame(old(mem.nodes), mem.nodes, {a} + if parent.Some? then {parent.value} else {})
    ensures Leaves(left) + Leaves(right) == Flat(kids) && left.addr == a && right.addr >= |old(mem.nodes)|
    ensures Addrs(left) <= {a} + KidAddrs(kids) && Addrs(right) <= {right.addr} + KidAddrs(kids)
  {
    hide Ascending, PutEntry, Tidy, Kids, Holds, KidAddrs, KidsApart, Good;
    MaxEntriesRange(s);
    ghost var nodes := mem.nodes;
    var node := mem.nodes[a];
    var m := IndexMiddle(|node.buf|) + 1;
    HalvesApart(nodes, a, |nodes|, kids, keys, lo, hi, h, s, m);
    PointersCut(keys, kids, m);
    var b := mem.NewNode(IndexNode, node.suffix);
    mem.nodes := mem.nodes[b := mem.nodes[b].(buf := node.buf[m..])];
    mem.nodes := mem.nodes[b := mem.nodes[b].(link := Some(node.buf[m - 1].value as nat))];
    sep, left, right := keys[m - 1], Index(a, kids[..m], keys[..m - 1]), Index(b, kids[m..], keys[m..]);
    r := Attach(mem, a, node.buf[m - 1].key, b, parent, left, right, lo, hi, s);
    mem.nodes := mem.nodes[a := mem.nodes[a].(buf := node.buf[..m - 1])];
    ghost var f := {a} + if parent.Some? then {parent.value} else {};
    LowerHalf(nodes, mem.nodes, a, kids, keys, lo, hi, h, s, m, f);
    UpperHalf(nodes, mem.nodes, a, b, kids, keys, lo, hi, h, s, m, f);
    assert kids == kids[..m] + kids[m..];
    FlatConcat(kids[..m], kids[m..]);
  }

  /** An index node that has taken another child, which may have filled it up. */
  method SplitIfFull(mem: MemControl, a: nat, parent: Option<nat>, ghost kids: seq<Tree>, ghost keys: seq<nat>,
                     ghost lo: int, ghost hi: int, ghost h: nat, ghost s: nat)
    returns (r: nat, ghost left: Tree, ghost up: Option<Split>)
    requires GoodKids(mem.nodes, a, kids, keys, lo, hi, h, s) && |keys| <= MaxEntries(s)
    requires ParentReady(mem.nodes, parent, Index(a, kids, keys), lo, hi, s)
    modifies mem
    ensures Halves(mem.nodes, left, up, lo, hi, h + 1, s)
    ensures Attached(old(mem.nodes), mem.nodes, parent, left, up, s, r)
    ensures Frame(old(mem.nodes), mem.nodes, {a} + if parent.Some? then {parent.value} else {})
    ensures Whole(left, up) == Flat(kids) && left.addr == a && Addrs(left) <= {a} + KidAddrs(kids)
    ensures up.Some? ==> Grown(up.value.right, KidAddrs(kids), |old(mem.nodes)|)
  {
    hide Ascending, PutEntry, Tidy, Kids, Holds, KidAddrs, KidsApart, Good, HoldsKids;
    if |mem.nodes[a].buf| == MaxEntries(mem.nodes[a].suffix) {
      ghost var right, sep;
      r, left, right, sep := SplitIndex(mem, a, parent, kids, keys, lo, hi, h, s);
      up := Some(Split(sep, right));
    } else {
      GoodIndex(mem.nodes, a, kids, keys, lo, hi, h, s);
      LeavesOfIndex(a, kids, keys);
      r, left, up := a, Index(a, kids, keys), None;
    }
  }

  /** Everything a put does to a subtree and to the parent. */
  ghost predicate PutDone(nodes: seq<Node>, nodes': seq<Node>, t: Tree, parent: Option<nat>, x: Entry, lo: int, hi: int,
                          h: nat, s: nat, r: nat, left: Tree, up: Option<Split>, at: nat)
  {
    && Halves(nodes', left, up, lo, hi, h, s)
    && Attached(nodes, nodes', parent, left, up, s, r)
    && Frame(nodes, nodes', Addrs(t) + if parent.Some? then {parent.value} else {})
    && NewAddrs(t, left, up, |nodes|)
    && PutLeaves(Leaves(t), Whole(left, up), at, x)
    && Locates(Leaves(t), at, x.key)
  }

  /** `Node::Put`: descends to the leaf for the key; nodes that fill up split on the way back, and a root that splits
      gets a new root above it. */
  method PutNode(mem: MemControl, a: nat, x: Entry, parent: Option<nat>, ghost t: Tree, ghost lo: int, ghost hi: int,
                 ghost h: nat, ghost s: nat)
    returns (r: nat, ghost left: Tree, ghost up: Option<Split>, ghost at: nat)
    requires Good(mem.nodes, t, lo, hi, h, s) && a == t.addr && lo <= x.key < hi
    requires ParentReady(mem.nodes, parent, t, lo, hi, s)
    modifies mem
    ensures PutDone(old(mem.nodes), mem.nodes, t, parent, x, lo, hi, h, s, r, left, up, at)
    decreases h, 0
  {
    if mem.nodes[a].kind == LeafNode {
      at := 0;
      assert h == 0;
      r, left, up := PutLeaf(mem, a, x, parent, t, lo, hi, s);
    } else {
      r, left, up, at := PutIndex(mem, a, x, parent, t.kids, t.keys, lo, hi, h - 1, s);
    }
  }

  method PutIndex(mem: MemControl, a: nat, x: Entry, parent: Option<nat>, ghost kids: seq<Tree>, ghost keys: seq<nat>,
                  ghost lo: int, ghost hi: int, ghost h: nat, ghost s: nat)
    returns (r: nat, ghost left: Tree, ghost up: Option<Split>, ghost at: nat)
    requires GoodKids(mem.nodes, a, kids, keys, lo, hi, h, s) && |keys| < MaxEntries(s) && lo <= x.key < hi
    requires ParentReady(mem.nodes, parent, Index(a, kids, keys), lo, hi, s)
    modifies mem
    ensures PutDone(old(mem.nodes), mem.nodes, Index(a, kids, keys), parent, x, lo, hi, h + 1, s, r, left, up, at)
    decreases h, 1
  {
    hide Ascending, PutEntry, Tidy, Kids, Holds, KidAddrs, KidsApart, Good, HoldsKids, Rank, RankLE, GetChild, Leaves;
    hide Join, PutLeaves, Locates, Pointers, Separates, Routes, Flat;
    ghost var nodes := mem.nodes;
    Descend(nodes, a, kids, keys, lo, hi, h, s, x.key);
    var i := RankLE(mem.nodes[a].buf, x.key);
    var child := GetChild(mem.nodes[a], i);
    ghost var k, kidUp, kidAt;
    var newChild;
    newChild, k, kidUp, kidAt := PutNode(mem, child, x, Some(a), kids[i], Low(keys, lo, i), High(keys, hi, i), h, s);
    at := |Flat(kids[..i])| + kidAt;
    KidPut(kids, keys, lo, hi, h, MaxEntries(s), i, k, kidUp, kidAt, x);
    ParentStill(nodes, mem.nodes, parent, a, kids, i, lo, hi, s);
    KidAddrsHas(kids, i);
    LeavesOfIndex(a, kids, keys);
    if newChild != child {
      ghost var kids', keys' := Spread(kids, i, k, kidUp.value.right), InsertKey(keys, i, kidUp.value.sep);
      KidSplit(nodes, mem.nodes, a, kids, keys, lo, hi, h, s, i, k, kidUp.value.sep, kidUp.value.right, newChild);
      r, left, up := SplitIfFull(mem, a, parent, kids', keys', lo, hi, h, s);
    } else {
      KidReplaced(nodes, mem.nodes, a, kids, keys, lo, hi, h, s, i, k);
      GoodIndex(mem.nodes, a, kids[i := k], keys, lo, hi, h, s);
      r, left, up := a, Index(a, kids[i := k], keys), None;
      LeavesOfIndex(a, kids[i := k], keys);
      assert Whole(left, up) == Flat(kids[i := k]);
    }
  }

  lemma KidsAround(kids: seq<Tree>, i: nat, k: Tree, up: Option<Split>)
    requires i < |kids|
    ensures Flat(if up.Some? then Spread(kids, i, k, up.value.right) else kids[i := k]) ==
            Flat(kids[..i]) + Whole(k, up) + Flat(kids[i + 1..])
  {
    hide Flat, Leaves;
    var kids' := if up.Some? then Spread(kids, i, k, up.value.right) else kids[i := k];
    FlatAround(kids', i);
    assert kids'[..i] == kids[..i] && kids'[i] == k;
    if up.Some? {
      assert kids'[i + 1..] == [up.value.right] + kids[i + 1..];
      FlatConcat([up.value.right], kids[i + 1..]);
      FlatSingle(up.value.right);
      Regroup(Flat(kids[..i]), Leaves(k), Leaves(up.value.right), Flat(kids[i + 1..]));
      Associate(Flat(kids[..i]), Leaves(k), Leaves(up.value.right) + Flat(kids[i + 1..]));
    } else {
      assert kids'[i + 1..] == kids[i + 1..];
    }
  }

  /** The leaves of all children after a put to child `i`. */
  lemma KidPut(kids: seq<Tree>, keys: seq<nat>, lo: int, hi: int, h: nat, max: nat, i: nat, k: Tree, up: Option<Split>,
               at: nat, x: Entry)
    requires Kids(kids, keys, lo, hi, h, max) && Routes(keys, i, x.key) && i < |kids|
    requires Locates(Leaves(kids[i]), at, x.key) && PutLeaves(Leaves(kids[i]), Whole(k, up), at, x)
    ensures Locates(Flat(kids), |Flat(kids[..i])| + at, x.key)
    ensures PutLeaves(Flat(kids), Flat(if up.Some? then Spread(kids, i, k, up.value.right) else kids[i := k]),
                      |Flat(kids[..i])| + at, x)
  {
    hide Tidy, Kids, Join, Flat, Leaves, PutLeaves, Locates;
    LocateKid(kids, keys, lo, hi, h, max, i, x.key, at);
    var a, b := Flat(kids[..i]), Flat(kids[i + 1..]);
    FlatAround(kids, i);
    KidsAround(kids, i, k, up);
    PutLeavesFrame(a, Leaves(kids[i]), b, Whole(k, up), at, x);
  }

  lemma LeavesOfIndex(a: nat, kids: seq<Tree>, keys: seq<nat>)
    ensures Leaves(Index(a, kids, keys)) == Flat(kids)
  {
  }

  /** A put below leaves the parent alone. */
  lemma ParentStill(nodes: seq<Node>, nodes': seq<Node>, parent: Option<nat>, a: nat, kids: seq<Tree>, i: nat,
                    lo: int, hi: int, s: nat)
    requires ParentReady(nodes, parent, Index(a, kids, []), lo, hi, s) && i < |kids|
    requires Frame(nodes, nodes', Addrs(kids[i]) + {a})
    ensures parent.Some? ==> parent.value < |nodes| && nodes'[parent.value] == nodes[parent.value]
    ensures parent.Some? ==> parent.value != a && parent.value !in KidAddrs(kids)
  {
    KidAddrsHas(kids, i);
  }

  // ---- Reaching a leaf

  lemma {:induction false} LeafAt(nodes: seq<Node>, t: Tree, s: nat, i: nat)
    requires Holds(nodes, t, s) && i < |Leaves(t)|
    ensures var l := Leaves(t)[i];
            l.Leaf? && l.addr in Addrs(t) && l.addr < |nodes| && nodes[l.addr] == Node(LeafNode, l.next, s, l.entries)
    decreases t
  {
    if t.Index? {
      var k, j := LeafOfKid(t.kids, i);
      LeafAt(nodes, t.kids[k], s, j);
      KidAddrsHas(t.kids, k);
    }
  }

  /** `FindLeaf`: the search path of a key ends in the leaf that the key belongs to. */
  method FindLeaf(mem: MemControl, root: nat, key: nat, ghost t: Tree, ghost lo: int, ghost hi: int, ghost h: nat,
                  ghost s: nat)
    returns (node: nat, ghost at: nat)
    requires Good(mem.nodes, t, lo, hi, h, s) && root == t.addr && lo <= key < hi
    ensures Locates(Leaves(t), at, key) && node == Leaves(t)[at].addr
    ensures node < |mem.nodes| && Leaves(t)[at].Leaf?
    ensures mem.nodes[node] == Node(LeafNode, Leaves(t)[at].next, s, Leaves(t)[at].entries)
  {
    hide Tidy, Kids, KidAddrs, KidsApart, HoldsKids, Rank, RankLE, GetChild, Join, Flat, ParentReady, Routes, Separates;
    node := root;
    ghost var cur, l, u, d := t, lo, hi, h;
    ghost var before, after: seq<Tree> := [], [];
    EmptySides(key);
    assert Leaves(t) == before + Leaves(cur) + after;
    while mem.nodes[node].kind != LeafNode
      invariant Good(mem.nodes, cur, l, u, d, s) && node == cur.addr && node < |mem.nodes| && l <= key < u
      invariant Leaves(t) == before + Leaves(cur) + after
      invariant KeysUnder(Join(before), key) && KeysOver(Join(after), key)
      decreases d
    {
      TallEnough(cur, l, u, d, MaxEntries(s));
      GoodIndex(mem.nodes, node, cur.kids, cur.keys, l, u, d - 1, s);
      Descend(mem.nodes, node, cur.kids, cur.keys, l, u, d - 1, s, key);
      var i := RankLE(mem.nodes[node].buf, key);
      before, after := Narrow(t, before, cur.kids, cur.keys, after, l, u, d - 1, MaxEntries(s), i, key);
      node := GetChild(mem.nodes[node], i);
      cur, l, u, d := cur.kids[i], Low(cur.keys, l, i), High(cur.keys, u, i), d - 1;
      GoodAddrs(mem.nodes, cur, l, u, d, s);
    }
    at := |before|;
    assert Leaves(t)[..at] == before && Leaves(t)[at + 1..] == after;
  }

  lemma EmptySides(key: nat)
    ensures KeysUnder(Join([]), key) && KeysOver(Join([]), key)
  {
  }

  lemma TallEnough(t: Tree, lo: int, hi: int, h: nat, max: nat)
    requires Tidy(t, lo, hi, h, max)
    ensures t.Index? <==> h > 0
  {
  }

  /** The leaves on both sides of the path, one level further down. */
  lemma Narrow(t: Tree, before: seq<Tree>, kids: seq<Tree>, keys: seq<nat>, after: seq<Tree>, lo: int, hi: int, h: nat,
               max: nat, i: nat, key: nat)
    returns (before': seq<Tree>, after': seq<Tree>)
    requires Leaves(t) == before + Flat(kids) + after && Kids(kids, keys, lo, hi, h, max) && Routes(keys, i, key)
    requires KeysUnder(Join(before), key) && KeysOver(Join(after), key) && i < |kids|
    ensures Leaves(t) == before' + Leaves(kids[i]) + after'
    ensures KeysUnder(Join(before'), key) && KeysOver(Join(after'), key)
  {
    hide Tidy, Kids, Join, Flat, Leaves, Routes;
    SidesBounded(kids, keys, lo, hi, h, max, i, key);
    FlatAround(kids, i);
    before', after' := before + Flat(kids[..i]), Flat(kids[i + 1..]) + after;
    JoinConcat(before, Flat(kids[..i]));
    JoinConcat(Flat(kids[i + 1..]), after);
  }

  /** `FindHead`: the first leaf. */
  method FindHead(mem: MemControl, root: nat, ghost t: Tree, ghost lo: int, ghost hi: int, ghost h: nat, ghost s: nat)
    returns (node: nat)
    requires Good(mem.nodes, t, lo, hi, h, s) && root == t.addr
    ensures Leaves(t) != [] && node == Leaves(t)[0].addr
  {
    hide Tidy, Kids, KidAddrs, KidsApart, HoldsKids, Leaves;
    node := root;
    ghost var cur, l, u, d := t, lo, hi, h;
    GoodAddrs(mem.nodes, t, lo, hi, h, s);
    while mem.nodes[node].kind != LeafNode
      invariant Good(mem.nodes, cur, l, u, d, s) && node == cur.addr && node < |mem.nodes|
      invariant Leaves(cur) <= Leaves(t)
      decreases d
    {
      TallEnough(cur, l, u, d, MaxEntries(s));
      GoodIndex(mem.nodes, node, cur.kids, cur.keys, l, u, d - 1, s);
      GoodKid(mem.nodes, node, cur.kids, cur.keys, l, u, d - 1, s, 0);
      FirstLeaves(cur);
      node := GetChild(mem.nodes[node], 0);
      cur, l, u, d := cur.kids[0], Low(cur.keys, l, 0), High(cur.keys, u, 0), d - 1;
      GoodAddrs(mem.nodes, cur, l, u, d, s);
    }
    OwnLeaf(cur);
  }

  lemma FirstLeaves(t: Tree)
    requires t.Index? && t.kids != []
    ensures Leaves(t.kids[0]) <= Leaves(t)
  {
  }

  lemma OwnLeaf(t: Tree)
    requires t.Leaf?
    ensures Leaves(t) == [t]
  {
  }

  // ---- Changing one leaf in place

  lemma {:induction false} LeafOfKid(kids: seq<Tree>, i: nat) returns (k: nat, j: nat)
    requires i < |Flat(kids)|
    ensures k < |kids| && j < |Leaves(kids[k])| && i == |Flat(kids[..k])| + j && Flat(kids)[i] == Leaves(kids[k])[j]
    decreases |kids|
  {
    if i < |Leaves(kids[0])| {
      k, j := 0, i;
    } else {
      k, j := LeafOfKid(kids[1..], i - |Leaves(kids[0])|);
      k := k + 1;
      assert kids[..k][1..] == kids[1..][..k - 1];
    }
  }

  /** The tree after a leaf has got other entries, all under keys that it had. */
  lemma {:induction false} ReplaceLeaf(nodes: seq<Node>, t: Tree, lo: int, hi: int, h: nat, s: nat, at: nat,
                                       c: seq<Entry>)
    returns (t': Tree)
    requires Good(nodes, t, lo, hi, h, s) && at < |Leaves(t)| && |c| < MaxEntries(s) && Ascending(c)
    requires Leaves(t)[at].Leaf?
    requires forall x :: x in c ==> exists y :: y in Leaves(t)[at].entries && x.key == y.key
    ensures var l := Leaves(t)[at];
            && l.addr < |nodes| && l.addr in Addrs(t)
            && Good(nodes[l.addr := nodes[l.addr].(buf := c)], t', lo, hi, h, s)
            && Leaves(t') == Leaves(t)[at := Leaf(l.addr, c, l.next)]
    ensures t'.addr == t.addr && Addrs(t') <= Addrs(t)
    decreases h, 0
  {
    var l := Leaves(t)[at];
    LeafAt(nodes, t, s, at);
    var nodes' := nodes[l.addr := nodes[l.addr].(buf := c)];
    match t {
      case Leaf(_, _, _) => t' := Leaf(l.addr, c, l.next);
      case Index(a, kids, keys) => t' := ReplaceInKids(nodes, a, kids, keys, lo, hi, h - 1, s, at, c);
    }
  }

  lemma {:induction false} ReplaceInKids(nodes: seq<Node>, a: nat, kids: seq<Tree>, keys: seq<nat>, lo: int, hi: int,
                                         h: nat, s: nat, at: nat, c: seq<Entry>)
    returns (t': Tree)
    requires GoodKids(nodes, a, kids, keys, lo, hi, h, s) && |keys| < MaxEntries(s)
    requires at < |Flat(kids)| && |c| < MaxEntries(s) && Ascending(c)
    requires var l := Flat(kids)[at];
             && l.Leaf? && l.addr < |nodes| && l.addr in KidAddrs(kids)
             && (forall x :: x in c ==> exists y :: y in l.entries && x.key == y.key)
    ensures var l := Flat(kids)[at];
            && Good(nodes[l.addr := nodes[l.addr].(buf := c)], t', lo, hi, h + 1, s)
            && Leaves(t') == Flat(kids)[at := Leaf(l.addr, c, l.next)]
    ensures t'.addr == a && Addrs(t') <= {a} + KidAddrs(kids)
    decreases h, 1
  {
    hide Tidy, Kids, Holds, HoldsKids, KidAddrs, KidsApart, Apart, Flat, Leaves, Ascending;
    var l := Flat(kids)[at];
    var nodes' := nodes[l.addr := nodes[l.addr].(buf := c)];
    var i, j := LeafOfKid(kids, at);
    GoodKid(nodes, a, kids, keys, lo, hi, h, s, i);
    var k := ReplaceLeaf(nodes, kids[i], Low(keys, lo, i), High(keys, hi, i), h, s, j, c);
    KidAddrsHas(kids, i);
    KidReplaced(nodes, nodes', a, kids, keys, lo, hi, h, s, i, k);
    GoodIndex(nodes', a, kids[i := k], keys, lo, hi, h, s);
    t' := Index(a, kids[i := k], keys);
    GoodAddrs(nodes', t', lo, hi, h + 1, s);
    LeavesOfIndex(a, kids[i := k], keys);
    FlatAround(kids, i);
    FlatAround(kids[i := k], i);
    assert kids[i := k][..i] == kids[..i] && kids[i := k][i + 1..] == kids[i + 1..];
  }

  lemma GoodKid(nodes: seq<Node>, a: nat, kids: seq<Tree>, keys: seq<nat>, lo: int, hi: int, h: nat, s: nat, i: nat)
    requires GoodKids(nodes, a, kids, keys, lo, hi, h, s) && i < |kids|
    ensures Good(nodes, kids[i], Low(keys, lo, i), High(keys, hi, i), h, s)
  {
  }
}
