/** The leaves of an ALEX tree, linked in the order of their keys (include/alex/alex.h). */
module LeafLists {
  import opened Seqs

  /** The neighbours of a leaf. */
  class LeafLinks {
    var prev: AlexNode?
    var next: AlexNode?

    constructor ()
      ensures prev == null && next == null
    {
      prev, next := null, null;
    }
  }

  class AlexNode {
    const isLeaf: bool
    /** The keys stored at or below the node; no operation here changes them. */
    const keys: seq<int>
    /** Base 2 log of the number of pointers to the node in its parent. */
    var duplicationFactor: nat
    const links: LeafLinks

    constructor (isLeaf: bool, keys: seq<int>, duplicationFactor: nat)
      ensures this.isLeaf == isLeaf && this.keys == keys && this.duplicationFactor == duplicationFactor && fresh(links)
    {
      this.isLeaf, this.keys, this.duplicationFactor := isLeaf, keys, duplicationFactor;
      this.links := new LeafLinks();
    }
  }

  /** The keys of the nodes, in order. */
  ghost function AllKeys(nodes: seq<AlexNode>): seq<int> {
    if nodes == [] then [] else AllKeys(nodes[..|nodes| - 1]) + nodes[|nodes| - 1].keys
  }

  lemma {:induction false} AllKeysConcat(a: seq<AlexNode>, b: seq<AlexNode>)
    ensures AllKeys(a + b) == AllKeys(a) + AllKeys(b)
  {
    if b == [] {
      assert a + b == a;
    } else {
      AllKeysConcat(a, b[..|b| - 1]);
      assert (a + b)[..|a + b| - 1] == a + b[..|b| - 1];
    }
  }

  lemma AllKeysOne(x: AlexNode)
    ensures AllKeys([x]) == x.keys
  {
    assert [x][..0] == [];
  }

  // ---- The list

  /** No two of the leaves share their links. */
  ghost predicate LinksApart(list: seq<AlexNode>) {
    forall i, j :: 0 <= i < j < |list| ==> list[i].links != list[j].links
  }

  function Prior(list: seq<AlexNode>, i: nat): AlexNode?
    requires i < |list|
  {
    if i == 0 then null else list[i - 1]
  }

  function Following(list: seq<AlexNode>, i: nat): AlexNode?
    requires i < |list|
  {
    if i + 1 == |list| then null else list[i + 1]
  }

  ghost predicate PrevOk(list: seq<AlexNode>, i: nat)
    requires i < |list|
    reads list[i].links
  {
    list[i].links.prev == Prior(list, i)
  }

  ghost predicate NextOk(list: seq<AlexNode>, i: nat)
    requires i < |list|
    reads list[i].links
  {
    list[i].links.next == Following(list, i)
  }

  ghost function Links(list: seq<AlexNode>): set<LeafLinks> {
    set x | x in list :: x.links
  }

  lemma InLinks(list: seq<AlexNode>)
    ensures forall i :: 0 <= i < |list| ==> list[i].links in Links(list)
  {
    assert forall i :: 0 <= i < |list| ==> list[i] in list;
  }

  /** The links run through the leaves in this order, both ways. */
  ghost predicate Linked(list: seq<AlexNode>)
    reads Links(list)
  {
    InLinks(list);
    && LinksApart(list) && (forall i :: 0 <= i < |list| ==> PrevOk(list, i))
    && forall i :: 0 <= i < |list| ==> NextOk(list, i)
  }

  /** The list with `leaves` in place of leaf `at`. */
  function Substituted(list: seq<AlexNode>, at: nat, leaves: seq<AlexNode>): (r: seq<AlexNode>)
    requires at < |list|
    ensures |r| == |list| - 1 + |leaves|
    ensures forall i {:trigger r[i]} :: 0 <= i < |r| ==>
              r[i] == if i < at then list[i] else if i < at + |leaves| then leaves[i - at] else list[i - |leaves| + 1]
  {
    list[..at] + leaves + list[at + 1..]
  }

  /** The keys stay when the new leaves hold those of the old one. */
  lemma KeysSubstituted(list: seq<AlexNode>, at: nat, leaves: seq<AlexNode>)
    requires at < |list| && AllKeys(leaves) == list[at].keys
    ensures AllKeys(Substituted(list, at, leaves)) == AllKeys(list)
  {
    hide AllKeys;
    var a, b := list[..at], list[at + 1..];
    assert list == a + [list[at]] + b;
    AllKeysConcat(a + [list[at]], b);
    AllKeysConcat(a, [list[at]]);
    AllKeysOne(list[at]);
    AllKeysConcat(a + leaves, b);
    AllKeysConcat(a, leaves);
  }

  lemma SubstitutedApart(list: seq<AlexNode>, at: nat, leaves: seq<AlexNode>)
    requires LinksApart(list) && at < |list| && LinksApart(leaves) && Links(list) !! Links(leaves)
    ensures var r := Substituted(list, at, leaves);
            && LinksApart(r)
            && forall i :: 0 <= i < |r| ==> r[i].links in Links(list) + Links(leaves) && r[i].links != list[at].links
  {
    hide Substituted;
    InLinks(list);
    InLinks(leaves);
    var r := Substituted(list, at, leaves);
    forall i, j | 0 <= i < j < |r| ensures r[i].links != r[j].links {
      assert at <= i < at + |leaves| <==> r[i].links in Links(leaves);
      assert at <= j < at + |leaves| <==> r[j].links in Links(leaves);
    }
  }

  /** What is linked already when leaf `at` gives way. */
  lemma AroundLinked(list: seq<AlexNode>, at: nat, leaves: seq<AlexNode>)
    requires Linked(list) && at < |list|
    ensures PrevOk(list, at) && NextOk(list, at)
    ensures var all, r := Substituted(list, at, leaves), at + |leaves|;
            && (forall i :: 0 <= i < at ==> PrevOk(all, i)) && (forall i :: 0 <= i < at - 1 ==> NextOk(all, i))
            && (forall i :: r < i < |all| ==> PrevOk(all, i)) && forall i :: r <= i < |all| ==> NextOk(all, i)
  {
    hide Substituted;
    var all, r := Substituted(list, at, leaves), at + |leaves|;
    forall i | 0 <= i < at ensures PrevOk(all, i) && (i < at - 1 ==> NextOk(all, i)) {
      assert PrevOk(list, i) && NextOk(list, i);
    }
    forall i | r <= i < |all| ensures NextOk(all, i) && (r < i ==> PrevOk(all, i)) {
      assert PrevOk(list, i - |leaves| + 1) && NextOk(list, i - |leaves| + 1);
    }
  }

  /** Links new leaves with each other and with the neighbours of the leaf they replace. */
  method LinkNewLeaves(old_: AlexNode, leaves: seq<AlexNode>, ghost list: seq<AlexNode>, ghost at: nat)
    requires Linked(list) && at < |list| && list[at] == old_
    requires leaves != [] && LinksApart(leaves) && Links(list) !! Links(leaves)
    modifies Links(list), Links(leaves)
    ensures Linked(Substituted(list, at, leaves))
  {
    hide Substituted, Links, LinksApart;
    ghost var all, r := Substituted(list, at, leaves), at + |leaves|;
    InLinks(list);
    InLinks(leaves);
    SubstitutedApart(list, at, leaves);
    ApartAt(all);
    AroundLinked(list, at, leaves);
    var prev := old_.links.prev;
    for t := 0 to |leaves|
      invariant prev == if at + t == 0 then null else all[at + t - 1]
      invariant forall i :: 0 <= i < at + t ==> PrevOk(all, i)
      invariant forall i :: 0 <= i < at + t - 1 ==> NextOk(all, i)
      invariant forall i :: r < i < |all| ==> PrevOk(all, i)
      invariant forall i :: r <= i < |all| ==> NextOk(all, i)
      invariant old_.links.next == old(old_.links.next)
    {
      assert all[at + t] == leaves[t];
      label Here:
      leaves[t].links.prev := prev;
      if prev != null {
        prev.links.next := leaves[t];
      }
      forall i | 0 <= i < at + t ensures PrevOk(all, i) {
        assert old@Here(PrevOk(all, i));
      }
      prev := leaves[t];
    }
    assert prev == all[r - 1];
    label Last:
    prev.links.next := old_.links.next;
    if old_.links.next != null {
      assert all[r] == list[at + 1] == old_.links.next;
      old_.links.next.links.prev := prev;
    }
    forall i | 0 <= i < |all| ensures PrevOk(all, i) && NextOk(all, i) {
      assert i == r || old@Last(PrevOk(all, i));
      assert i == r - 1 || old@Last(NextOk(all, i));
    }
    ApartLinked(all);
  }

  lemma LinkedApart(list: seq<AlexNode>)
    requires Linked(list)
    ensures LinksApart(list)
  {
  }

  lemma ApartLinked(list: seq<AlexNode>)
    requires LinksApart(list) && forall i :: 0 <= i < |list| ==> PrevOk(list, i) && NextOk(list, i)
    ensures Linked(list)
  {
  }

  lemma NoLinks()
    ensures Links([]) == {} && LinksApart([])
  {
  }

  lemma ApartAt(list: seq<AlexNode>)
    requires LinksApart(list)
    ensures forall i, j :: 0 <= i < |list| && 0 <= j < |list| && i != j ==> list[i].links != list[j].links
  {
  }

  /** Takes a leaf out of the list, when the one beside it has taken over its pointers. */
  method Unlink(leaf: AlexNode, adjacent: AlexNode, adjacentToRight: bool, ghost list: seq<AlexNode>, ghost at: nat)
    requires Linked(list) && at < |list| && list[at] == leaf
    requires adjacent == if adjacentToRight then Following(list, at) else Prior(list, at)
    modifies Links(list)
    ensures Linked(Substituted(list, at, []))
  {
    hide Substituted, Links, LinksApart;
    ghost var all := Substituted(list, at, []);
    InLinks(list);
    NoLinks();
    SubstitutedApart(list, at, []);
    ApartAt(list);
    AroundLinked(list, at, []);
    label Start:
    if adjacentToRight {
      adjacent.links.prev := leaf.links.prev;
      if leaf.links.prev != null {
        leaf.links.prev.links.next := adjacent;
      }
    } else {
      adjacent.links.next := leaf.links.next;
      if leaf.links.next != null {
        leaf.links.next.links.prev := adjacent;
      }
    }
    forall i | 0 <= i < |all| ensures PrevOk(all, i) && NextOk(all, i) {
      assert i == at || old@Start(PrevOk(all, i));
      assert i + 1 == at || old@Start(NextOk(all, i));
    }
    ApartLinked(all);
  }
}
