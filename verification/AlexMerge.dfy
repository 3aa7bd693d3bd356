/** Merging an empty leaf away, sideways and upwards, along the path to it (include/alex/alex.h). */
module AlexMerges {
  import opened AlexModelNodes
  import opened LeafLists
  import opened LeafOrders
  import opened Powers

  /** A node of the path: its children keep no keys but its own. */
  ghost predicate Sound(p: AlexModelNode, bucket: nat)
    reads p, p.children, p.children[..]
  {
    && p.Valid() && bucket < p.children.Length
    && forall i, k :: 0 <= i < p.children.Length && k in p.children[i].keys ==> k in p.node.keys
  }

  ghost predicate Foreign(c: seq<AlexNode>, d: seq<AlexNode>) {
    forall x :: x in c ==> x !in d
  }

  ghost predicate Leads(p: AlexModelNode, bucket: nat, child: AlexNode)
    reads p, p.children
  {
    bucket < p.children.Length && p.children[bucket] == child
  }

  predicate LeafAt(p: AlexModelNode, bucket: nat)
    reads p, p.children, p.children[..]
  {
    bucket < p.children.Length && p.children[bucket].isLeaf
  }

  ghost predicate Reached(p: AlexModelNode, reach: set<object>)
    reads p, p.children
  {
    p.children in reach && forall x :: x in p.children[..] ==> x in reach
  }

  /** The children of the nodes of a path, no two of which have a child in common. */
  ghost predicate Separate(cs: seq<seq<AlexNode>>) {
    forall i, j :: 0 <= i < j < |cs| ==> Foreign(cs[i], cs[j])
  }

  /** The path down to node `n`: the nodes above `n` have the children `cs` they started with. */
  ghost predicate Above(path: seq<AlexModelNode>, buckets: seq<nat>, n: nat, cs: seq<seq<AlexNode>>,
                        reach: set<object>)
    reads *
  {
    && n < |path| == |buckets| == |cs|
    && (forall i :: 0 <= i <= n ==> Sound(path[i], buckets[i]) && Reached(path[i], reach))
    && (forall i :: 0 <= i < n ==> path[i].children[..] == cs[i] && Foreign(cs[i], path[n].children[..]))
    && (forall i, j :: 0 <= i < j <= n ==> path[i].children != path[j].children)
    && forall i :: 0 <= i < n ==> Leads(path[i], buckets[i], path[i + 1].node)
  }

  lemma Assembled(path: seq<AlexModelNode>, buckets: seq<nat>, n: nat, cs: seq<seq<AlexNode>>, reach: set<object>)
    requires n < |path| == |buckets| == |cs| && Sound(path[n], buckets[n]) && Reached(path[n], reach)
    requires forall i :: 0 <= i < n ==> Sound(path[i], buckets[i]) && Reached(path[i], reach)
    requires forall i :: 0 <= i < n ==> path[i].children[..] == cs[i] && Foreign(cs[i], path[n].children[..])
    requires forall i, j :: 0 <= i < j <= n ==> path[i].children != path[j].children
    requires forall i :: 0 <= i < n ==> Leads(path[i], buckets[i], path[i + 1].node)
    ensures Above(path, buckets, n, cs, reach)
  {
  }

  /** The list of leaves agrees with the path down to node `n`, whose children are `c`; `es` are the outermost leaves
      under its nodes. */
  ghost predicate Listed(path: seq<AlexModelNode>, n: nat, cs: seq<seq<AlexNode>>, c: seq<AlexNode>,
                         list: seq<AlexNode>, es: seq<Ends>)
  {
    && n < |path| == |cs| == |es| && Edged(c, list, es[n], NoEnds)
    && forall i :: 0 <= i < n ==> ListedAt(path, i, cs, list, es)
  }

  ghost predicate ListedAt(path: seq<AlexModelNode>, i: nat, cs: seq<seq<AlexNode>>, list: seq<AlexNode>, es: seq<Ends>)
    requires i + 1 < |path| == |cs| == |es|
  {
    Edged(cs[i], list, es[i], es[i + 1]) && es[i + 1].node == path[i + 1].node && !path[i + 1].node.isLeaf
  }

  ghost function AllEnds(es: seq<Ends>, ms: seq<Merging>): (es': seq<Ends>)
    ensures |es'| == |es| && forall i :: 0 <= i < |es| ==> es'[i] == EndsAfter(es[i], ms)
  {
    seq(|es|, i requires 0 <= i < |es| => EndsAfter(es[i], ms))
  }

  lemma {:induction false} SameNode(e: Ends, ms: seq<Merging>)
    ensures EndsAfter(e, ms).node == e.node
  {
    if ms != [] {
      SameNode(e, ms[..|ms| - 1]);
    }
  }

  lemma ListedSideways(path: seq<AlexModelNode>, n: nat, cs: seq<seq<AlexNode>>, c: seq<AlexNode>, c': seq<AlexNode>,
                       list: seq<AlexNode>, es: seq<Ends>, ms: seq<Merging>)
    requires Listed(path, n, cs, c, list, es) && Mergings(list, ms)
    requires forall m :: m in ms ==> m.gone in c && m.kept in c
    requires forall i :: 0 <= i < n ==> Foreign(cs[i], c)
    requires Edged(c', AfterMergings(list, ms), EndsAfter(es[n], ms), NoEnds)
    ensures Listed(path, n, cs, c', AfterMergings(list, ms), AllEnds(es, ms))
  {
    hide Edged, AfterMergings, EndsAfter, Mergings;
    var es' := AllEnds(es, ms);
    forall i | 0 <= i < n ensures ListedAt(path, i, cs, AfterMergings(list, ms), es') {
      assert ListedAt(path, i, cs, list, es) && Foreign(cs[i], c);
      EdgedAboveAll(cs[i], list, es[i], es[i + 1], ms);
      SameNode(es[i + 1], ms);
    }
  }

  lemma ListedUp(path: seq<AlexModelNode>, n: nat, cs: seq<seq<AlexNode>>, c: seq<AlexNode>, c': seq<AlexNode>,
                 list: seq<AlexNode>, es: seq<Ends>, leaf: AlexNode)
    requires Listed(path, n + 1, cs, c, list, es) && Filled(c, leaf) && leaf.isLeaf && n < |cs| && |c'| == |cs[n]|
    requires forall j :: 0 <= j < |c'| ==> c'[j] == if cs[n][j] == path[n + 1].node then leaf else cs[n][j]
    ensures Listed(path, n, cs, c', list, es)
  {
    assert ListedAt(path, n, cs, list, es);
    assert c[0] in c && c[|c| - 1] in c;
    EdgedUp(cs[n], c', list, es[n], es[n + 1], leaf);
  }

  ghost predicate Filled(c: seq<AlexNode>, leaf: AlexNode) {
    forall x :: x in c ==> x == leaf
  }

  /** Of the children `c` of a node below the leaf, only the leaf and the next node of the path have keys. */
  ghost predicate Emptied(c: seq<AlexNode>, leaf: AlexNode, next: seq<AlexModelNode>) {
    forall x :: x in c ==> x.keys == [] || x == leaf || (next != [] && x == next[0].node)
  }

  /** The children `c` have become `c'`: those with keys are still there, except that the leaf stands in for the next
      node of the path. */
  ghost predicate Replaced(c: seq<AlexNode>, c': seq<AlexNode>, leaf: AlexNode, next: seq<AlexModelNode>) {
    && |c'| == |c|
    && forall j :: 0 <= j < |c| ==>
         if next != [] && c[j] == next[0].node then c'[j] == leaf else c[j].keys != [] ==> c'[j] == c[j]
  }

  lemma ReplacedOn(c: seq<AlexNode>, d: seq<AlexNode>, d': seq<AlexNode>, leaf: AlexNode, leaf': AlexNode,
                   next: seq<AlexModelNode>)
    requires Replaced(c, d, leaf, next) && |d'| == |d|
    requires forall j :: 0 <= j < |d| ==> (d[j].keys != [] ==> d'[j] == d[j]) && (d[j] == leaf ==> d'[j] == leaf')
    ensures Replaced(c, d', leaf', next)
  {
  }

  /** One round: sideways in node `n` of the path. */
  method Sideways(path: seq<AlexModelNode>, buckets: seq<nat>, n: nat, ghost cs: seq<seq<AlexNode>>,
                  ghost next: seq<AlexModelNode>, ghost reach: set<object>, ghost list: seq<AlexNode>,
                  ghost es: seq<Ends>)
    returns (leaf: AlexNode, all: bool, ghost ms: seq<Merging>)
    requires Above(path, buckets, n, cs, reach) && LeafAt(path[n], buckets[n])
    requires Replaced(cs[n], path[n].children[..], path[n].children[buckets[n]], next)
    requires Linked(list) && Listed(path, n, cs, path[n].children[..], list, es)
    modifies path[n].children, path[n].children[..], Links(list)
    ensures Linked(AfterMergings(list, ms)) && Mergings(list, ms)
    ensures Listed(path, n, cs, path[n].children[..], AfterMergings(list, ms), AllEnds(es, ms))
    ensures Above(path, buckets, n, cs, reach) && Leads(path[n], buckets[n], leaf)
    ensures leaf.isLeaf && leaf in path[n].children[..] && leaf in old(path[n].children[..])
    ensures old(path[n].children[buckets[n]]).keys != [] ==> leaf == old(path[n].children[buckets[n]])
    ensures Replaced(cs[n], path[n].children[..], leaf, next)
    ensures all <==> Filled(path[n].children[..], leaf)
    ensures leaf.keys == [] ==> all || !path[n].Mergeable(buckets[n])
    ensures leaf in reach && (n > 0 ==> path[n - 1].children in reach)
  {
    hide AlexModelNode.Valid, AlexModelNode.Mergeable, Replaced, Edged, Linked, ListedAt, Mergings, AfterMergings;
    hide EndsAfter, AllEnds, Filled;
    var p := path[n];
    ghost var d0 := p.children[..];
    assert forall i :: 0 <= i < n ==> Foreign(cs[i], d0);
    leaf, all, ms := MoveAside(p, buckets[n], cs[n], next, reach, list, es[n]);
    ListedSideways(path, n, cs, d0, p.children[..], list, es, ms);
    forall i | 0 <= i < n
      ensures Sound(path[i], buckets[i]) && Reached(path[i], reach) && path[i].children[..] == cs[i]
      ensures Foreign(cs[i], p.children[..]) && Leads(path[i], buckets[i], path[i + 1].node)
    {
      ghost var d, e: object, f: object := cs[i], path[i].children, p.children;
      assert old(Sound(path[i], buckets[i]) && Reached(path[i], reach) && Foreign(d, p.children[..]));
      assert old(Leads(path[i], buckets[i], path[i + 1].node));
      assert e != f && forall x :: x in d0 ==> x != e;
      assert d == path[i].children[..] && forall j :: 0 <= j < |d| ==> d[j] in d && d[j] !in d0;
      assert forall j :: 0 <= j < |d| ==> d[j] != f && unchanged(d[j]);
      ghost var d' := path[i].children[..];
      assert unchanged(path[i]) && forall j :: 0 <= j < |d'| ==> d'[j] in d' && unchanged(d'[j]);
      assert path[i].Valid();
    }
    Assembled(path, buckets, n, cs, reach);
    assert n > 0 ==> Reached(path[n - 1], reach);
  }

  /** What happens in the node itself. */
  method MoveAside(p: AlexModelNode, bucket: nat, ghost c: seq<AlexNode>, ghost next: seq<AlexModelNode>,
                   ghost reach: set<object>, ghost list: seq<AlexNode>, ghost e: Ends)
    returns (leaf: AlexNode, all: bool, ghost ms: seq<Merging>)
    requires Sound(p, bucket) && Reached(p, reach) && LeafAt(p, bucket)
    requires Replaced(c, p.children[..], p.children[bucket], next)
    requires Linked(list) && Edged(p.children[..], list, e, NoEnds)
    modifies p.children, p.children[..], Links(list)
    ensures Sound(p, bucket) && Reached(p, reach) && Leads(p, bucket, leaf) && leaf in reach
    ensures forall x :: x in p.children[..] ==> x in old(p.children[..])
    ensures Linked(AfterMergings(list, ms)) && Mergings(list, ms)
    ensures Edged(p.children[..], AfterMergings(list, ms), EndsAfter(e, ms), NoEnds)
    ensures forall m :: m in ms ==> m.gone in old(p.children[..]) && m.kept in old(p.children[..])
    ensures leaf.isLeaf && leaf in p.children[..] && leaf in old(p.children[..])
    ensures old(p.children[bucket]).keys != [] ==> leaf == old(p.children[bucket])
    ensures Replaced(c, p.children[..], leaf, next)
    ensures all <==> Filled(p.children[..], leaf)
    ensures leaf.keys == [] ==> all || !p.Mergeable(bucket)
  {
    hide AlexModelNode.Valid, AlexModelNode.Mergeable, Pow2, Replaced, Edged, Linked, Mergings, AfterMergings;
    hide EndsAfter, Filled;
    ghost var d := p.children[..];
    leaf, ms := p.MergeSideways(bucket, list, e);
    ReplacedOn(c, d, p.children[..], d[bucket], leaf, next);
    all := Pow2(leaf.duplicationFactor) == p.children.Length;
    Fills(p, bucket);
    assert forall x :: x in p.children[..] ==> x in d;
  }

  /** The leaf has all pointers of the node when they are as many as its duplication factor says. */
  lemma Fills(p: AlexModelNode, bucket: nat)
    requires p.Valid() && bucket < p.children.Length
    ensures var leaf, n := p.children[bucket], p.children.Length;
            && Pow2(leaf.duplicationFactor) <= n
            && (Pow2(leaf.duplicationFactor) == n <==> Filled(p.children[..], leaf))
  {
    hide Pow2, Start, AlexModelNode.Valid;
    var leaf := p.children[bucket];
    var size, n := Pow2(leaf.duplicationFactor), p.children.Length;
    p.RunHere(bucket);
    assert p.RunOf(leaf, Start(bucket, size), size);
    assert p.children[0] in p.children[..] && p.children[n - 1] in p.children[..];
    assert p.children[0] == leaf && p.children[n - 1] == leaf ==> Start(bucket, size) == 0 && size == n;
    assert size == n ==> forall j :: 0 <= j < n ==> p.children[j] == leaf;
  }

  /** One round upwards: the leaf takes the place of node `n + 1` of the path in the node above, and keeps its own in
      the list. */
  method Upwards(path: seq<AlexModelNode>, buckets: seq<nat>, n: nat, leaf: AlexNode, ghost cs: seq<seq<AlexNode>>,
                 ghost reach: set<object>, ghost list: seq<AlexNode>, ghost es: seq<Ends>)
    requires Above(path, buckets, n + 1, cs, reach) && Separate(cs)
    requires leaf.isLeaf && leaf in path[n + 1].children[..] && Filled(path[n + 1].children[..], leaf)
    requires Linked(list) && Listed(path, n + 1, cs, path[n + 1].children[..], list, es)
    modifies path[n].children, leaf
    ensures Linked(list) && Listed(path, n, cs, path[n].children[..], list, es)
    ensures Above(path, buckets, n, cs, reach) && Leads(path[n], buckets[n], leaf)
    ensures Replaced(cs[n], path[n].children[..], leaf, [path[n + 1]])
  {
    hide Above, Linked, ListedAt, Edged, Filled, Replaced;
    ghost var c, g: object, h: object := path[n + 1].children[..], path[n].children, leaf;
    assert forall l :: l in Links(list) ==> l != g && l != h;
    TakePlace(path, buckets, n, leaf, cs, reach);
    assert forall l :: l in Links(list) ==> unchanged(l);
    assert old(Linked(list));
    assert Linked(list);
    ListedUp(path, n, cs, c, path[n].children[..], list, es, leaf);
  }

  method TakePlace(path: seq<AlexModelNode>, buckets: seq<nat>, n: nat, leaf: AlexNode, ghost cs: seq<seq<AlexNode>>,
                   ghost reach: set<object>)
    requires Above(path, buckets, n + 1, cs, reach) && Separate(cs)
    requires leaf.isLeaf && leaf in path[n + 1].children[..] && Filled(path[n + 1].children[..], leaf)
    modifies path[n].children, leaf
    ensures Above(path, buckets, n, cs, reach) && Leads(path[n], buckets[n], leaf)
    ensures Replaced(cs[n], path[n].children[..], leaf, [path[n + 1]]) && path[n].children.Length == |cs[n]|
    ensures forall j :: 0 <= j < |cs[n]| ==>
              path[n].children[j] == if cs[n][j] == path[n + 1].node then leaf else cs[n][j]
  {
    hide AlexModelNode.Valid, Pow2;
    var p, q := path[n], path[n + 1];
    assert forall j :: 0 <= j < q.children.Length ==> q.children[j] in q.children[..];
    assert forall i :: 0 <= i < p.children.Length ==> p.children[i] in p.children[..];
    p.MergeUp(buckets[n], q, leaf);
    assert forall x :: x in p.children[..] ==> x == leaf || x in old(p.children[..]);
    forall i | 0 <= i < n
      ensures Sound(path[i], buckets[i]) && Reached(path[i], reach) && path[i].children[..] == cs[i]
      ensures Foreign(cs[i], p.children[..]) && Leads(path[i], buckets[i], path[i + 1].node)
    {
      ghost var d, e: object, f: object := cs[i], path[i].children, p.children;
      assert Foreign(d, cs[n]) && old(Foreign(d, q.children[..]) && Sound(path[i], buckets[i]));
      assert old(Leads(path[i], buckets[i], path[i + 1].node));
      assert e != f && e != leaf && old(Reached(path[i], reach));
      assert d == path[i].children[..] && forall j :: 0 <= j < |d| ==> d[j] in d && d[j] != leaf;
      assert forall j :: 0 <= j < |d| ==> d[j] != f && unchanged(d[j]);
      ghost var d' := path[i].children[..];
      assert unchanged(path[i]) && forall j :: 0 <= j < |d'| ==> d'[j] in d' && unchanged(d'[j]);
      assert path[i].Valid();
    }
    assert Sound(p, buckets[n]) && Reached(p, reach);
    Assembled(path, buckets, n, cs, reach);
  }

  lemma AboveAll(path: seq<AlexModelNode>, buckets: seq<nat>, n: nat, cs: seq<seq<AlexNode>>, reach: set<object>)
    requires Above(path, buckets, n, cs, reach)
    ensures n < |path| == |buckets| == |cs| && path[n].children in reach
    ensures forall x :: x in path[n].children[..] ==> x in reach
  {
  }

  lemma Unreplaced(path: seq<AlexModelNode>, cs: seq<seq<AlexNode>>, leaf: AlexNode)
    requires 0 < |path| == |cs|
    ensures Replaced(cs[|path| - 1], cs[|path| - 1], leaf, []) && Below(path, |path|, cs, leaf)
  {
  }

  /** A leaf with all pointers of a node is the only child that has keys. */
  lemma OnlyLeaf(c: seq<AlexNode>, c': seq<AlexNode>, leaf: AlexNode, next: seq<AlexModelNode>)
    requires Replaced(c, c', leaf, next) && Filled(c', leaf)
    ensures Emptied(c, leaf, next)
  {
    forall x | x in c ensures x.keys == [] || x == leaf || (next != [] && x == next[0].node) {
      var j :| 0 <= j < |c| && c[j] == x;
      assert c'[j] in c';
    }
  }

  /** Node `i` of the path, if there is one. */
  ghost function From(path: seq<AlexModelNode>, i: nat): seq<AlexModelNode> {
    if i < |path| then [path[i]] else []
  }

  /** Of everything below node `top - 1` of the path only the leaf has keys. */
  ghost predicate Below(path: seq<AlexModelNode>, top: nat, cs: seq<seq<AlexNode>>, leaf: AlexNode)
    requires |path| == |cs|
  {
    forall i :: top <= i < |path| ==> Emptied(cs[i], leaf, From(path, i + 1))
  }

  /** What was below an empty leaf is empty still when another leaf takes its place. */
  lemma BelowStill(path: seq<AlexModelNode>, top: nat, cs: seq<seq<AlexNode>>, leaf: AlexNode, leaf': AlexNode)
    requires |path| == |cs| && Below(path, top, cs, leaf) && (leaf.keys != [] ==> leaf' == leaf)
    ensures Below(path, top, cs, leaf')
  {
  }

  lemma BelowMore(path: seq<AlexModelNode>, top: nat, cs: seq<seq<AlexNode>>, c': seq<AlexNode>, leaf: AlexNode)
    requires top < |path| == |cs| && Below(path, top + 1, cs, leaf)
    requires Replaced(cs[top], c', leaf, From(path, top + 1)) && Filled(c', leaf)
    ensures Below(path, top, cs, leaf)
  {
    hide Replaced, Filled, Emptied;
    OnlyLeaf(cs[top], c', leaf, From(path, top + 1));
  }

  /** `merge`: an empty leaf is merged with the leaf beside it as long as the two fill one block, and a node whose
      pointers all go to one leaf gives way to that leaf, which then goes on in the node above. `top` nodes of the path
      are left. Nothing above the last of them changes; in it, children with keys are still there, the leaf in place of
      the node that gave way; nothing is left to merge; and of what was below, only the leaf had keys. The leaves stay
      linked in the order of the pointers, and no key leaves their list. */
  method Merge(path: seq<AlexModelNode>, buckets: seq<nat>, ghost cs: seq<seq<AlexNode>>, ghost reach: set<object>,
               ghost list: seq<AlexNode>, ghost es: seq<Ends>)
    returns (top: nat, leaf: AlexNode, ghost list': seq<AlexNode>, ghost es': seq<Ends>)
    requires |path| > 0 && Above(path, buckets, |path| - 1, cs, reach) && Separate(cs)
    requires path[|path| - 1].children[..] == cs[|path| - 1] && LeafAt(path[|path| - 1], buckets[|path| - 1])
    requires Linked(list) && Links(list) <= reach && Listed(path, |path| - 1, cs, cs[|path| - 1], list, es)
    modifies reach
    ensures top <= |path| && leaf.isLeaf && (top > 0 ==> Above(path, buckets, top - 1, cs, reach))
    ensures top > 0 ==> Leads(path[top - 1], buckets[top - 1], leaf)
    ensures top > 0 ==> Replaced(cs[top - 1], path[top - 1].children[..], leaf, From(path, top))
    ensures top > 0 ==> !Filled(path[top - 1].children[..], leaf)
    ensures top > 0 && leaf.keys == [] ==> !path[top - 1].Mergeable(buckets[top - 1])
    ensures Below(path, top, cs, leaf)
    ensures Linked(list') && AllKeys(list') == AllKeys(list)
    ensures top > 0 ==> Listed(path, top - 1, cs, path[top - 1].children[..], list', es')
  {
    hide AlexModelNode.Valid, AlexModelNode.Mergeable, Pow2, Above, Separate, Filled, Replaced, Below, Linked, Listed;
    hide AfterMergings, Mergings, AllEnds, Links, AllKeys;
    top, list', es' := |path|, list, es;
    AboveAll(path, buckets, top - 1, cs, reach);
    leaf := path[top - 1].children[buckets[top - 1]];
    Unreplaced(path, cs, leaf);
    while true
      invariant 0 < top <= |path| == |buckets| == |cs| && leaf.isLeaf && Above(path, buckets, top - 1, cs, reach)
      invariant Leads(path[top - 1], buckets[top - 1], leaf)
      invariant Replaced(cs[top - 1], path[top - 1].children[..], leaf, From(path, top))
      invariant Below(path, top, cs, leaf)
      invariant Linked(list') && AllKeys(list') == AllKeys(list) && Links(list') <= reach
      invariant Listed(path, top - 1, cs, path[top - 1].children[..], list', es')
      decreases top
    {
      ghost var leaf0 := leaf;
      AboveAll(path, buckets, top - 1, cs, reach);
      var all;
      ghost var ms;
      leaf, all, ms := Sideways(path, buckets, top - 1, cs, From(path, top), reach, list', es');
      MergingKeys(list', ms);
      list', es' := AfterMergings(list', ms), AllEnds(es', ms);
      BelowStill(path, top, cs, leaf0, leaf);
      if !all {
        return;
      }
      top := top - 1;
      BelowMore(path, top, cs, path[top].children[..], leaf);
      if top == 0 {
        leaf.duplicationFactor := path[0].node.duplicationFactor;
        return;
      }
      Upwards(path, buckets, top - 1, leaf, cs, reach, list', es');
    }
  }
}
