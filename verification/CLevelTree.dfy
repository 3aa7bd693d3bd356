/** The shape of a CLevel B+ tree, apart from where its nodes lie in memory. */
module CLevelTrees {
  import opened Seqs
  import opened Wrappers
  import opened Entries

  /** A leaf with its successor's address, or an index node with a child more than it has keys. */
  datatype Tree =
    | Leaf(addr: nat, entries: seq<Entry>, next: Option<nat>)
    | Index(addr: nat, kids: seq<Tree>, keys: seq<nat>)

  // ---- Search-tree order, equal depth and room for one more entry in every node

  ghost predicate Separates(keys: seq<nat>, lo: int, hi: int) {
    && (forall i, j :: 0 <= i < j < |keys| ==> keys[i] < keys[j])
    && (forall i :: 0 <= i < |keys| ==> lo < keys[i] < hi)
  }

  /** Least key of child `i`. */
  function Low(keys: seq<nat>, lo: int, i: nat): int
    requires i <= |keys|
  {
    if i == 0 then lo else keys[i - 1]
  }

  /** Bound above the keys of child `i`. */
  function High(keys: seq<nat>, hi: int, i: nat): int
    requires i <= |keys|
  {
    if i == |keys| then hi else keys[i]
  }

  /** All leaves are `h` levels down, every node holds less than `max` entries, and the separators bound the keys. */
  ghost predicate Tidy(t: Tree, lo: int, hi: int, h: nat, max: nat)
    decreases h, 0
  {
    match t
    case Leaf(_, entries, _) => h == 0 && |entries| < max && InRange(entries, lo, hi)
    case Index(_, kids, keys) => h > 0 && |keys| < max && Kids(kids, keys, lo, hi, h - 1, max)
  }

  ghost predicate Kids(kids: seq<Tree>, keys: seq<nat>, lo: int, hi: int, h: nat, max: nat)
    decreases h, 1
  {
    && |kids| == |keys| + 1 && Separates(keys, lo, hi)
    && forall i :: 0 <= i < |kids| ==> Tidy(kids[i], Low(keys, lo, i), High(keys, hi, i), h, max)
  }

  function Spread(kids: seq<Tree>, i: nat, left: Tree, right: Tree): seq<Tree>
    requires i < |kids|
  {
    kids[..i] + [left, right] + kids[i + 1..]
  }

  function InsertKey(keys: seq<nat>, i: nat, sep: nat): seq<nat>
    requires i <= |keys|
  {
    keys[..i] + [sep] + keys[i..]
  }

  lemma KidsReplace(kids: seq<Tree>, keys: seq<nat>, lo: int, hi: int, h: nat, max: nat, i: nat, k: Tree)
    requires Kids(kids, keys, lo, hi, h, max) && i < |kids|
    requires Tidy(k, Low(keys, lo, i), High(keys, hi, i), h, max)
    ensures Kids(kids[i := k], keys, lo, hi, h, max)
  {
    hide Tidy;
  }

  /** A child that splits in two within its range leaves its siblings in order. */
  lemma KidsWiden(kids: seq<Tree>, keys: seq<nat>, lo: int, hi: int, h: nat, max: nat, i: nat, sep: nat, k: Tree,
                  r: Tree)
    requires Kids(kids, keys, lo, hi, h, max) && i < |kids|
    requires Low(keys, lo, i) < sep < High(keys, hi, i)
    requires Tidy(k, Low(keys, lo, i), sep, h, max) && Tidy(r, sep, High(keys, hi, i), h, max)
    ensures Kids(Spread(kids, i, k, r), InsertKey(keys, i, sep), lo, hi, h, max)
  {
    hide Tidy, Separates, Spread, InsertKey, Low, High;
    var kids', keys' := Spread(kids, i, k, r), InsertKey(keys, i, sep);
    WidenSeparates(keys, lo, hi, i, sep);
    SpreadSize(kids, i, k, r, keys, sep);
    forall j | 0 <= j < |kids'| ensures Tidy(kids'[j], Low(keys', lo, j), High(keys', hi, j), h, max) {
      SpreadAt(kids, i, k, r, j);
      WidenBounds(keys, lo, hi, i, sep, j);
    }
  }

  lemma SpreadSize(kids: seq<Tree>, i: nat, k: Tree, r: Tree, keys: seq<nat>, sep: nat)
    requires i < |kids| == |keys| + 1
    ensures |Spread(kids, i, k, r)| == |kids| + 1 && |InsertKey(keys, i, sep)| == |keys| + 1
  {
  }

  lemma SpreadAt(kids: seq<Tree>, i: nat, k: Tree, r: Tree, j: nat)
    requires i < |kids| && j <= |kids|
    ensures |Spread(kids, i, k, r)| == |kids| + 1
    ensures Spread(kids, i, k, r)[j] == if j < i then kids[j] else if j == i then k else if j == i + 1 then r
            else kids[j - 1]
  {
  }

  /** Where the ranges of the children lie after a new separator. */
  lemma WidenBounds(keys: seq<nat>, lo: int, hi: int, i: nat, sep: nat, j: nat)
    requires i <= |keys| && j <= |keys| + 1
    ensures |InsertKey(keys, i, sep)| == |keys| + 1
    ensures Low(InsertKey(keys, i, sep), lo, j) == if j <= i then Low(keys, lo, j) else if j == i + 1 then sep
            else Low(keys, lo, j - 1)
    ensures High(InsertKey(keys, i, sep), hi, j) == if j < i then High(keys, hi, j) else if j == i then sep
            else High(keys, hi, j - 1)
  {
  }

  lemma WidenSeparates(keys: seq<nat>, lo: int, hi: int, i: nat, sep: nat)
    requires Separates(keys, lo, hi) && i <= |keys| && Low(keys, lo, i) < sep < High(keys, hi, i)
    ensures Separates(InsertKey(keys, i, sep), lo, hi)
  {
  }

  /** Children on both sides of separator `m - 1`. */
  lemma KidsHalve(kids: seq<Tree>, keys: seq<nat>, lo: int, hi: int, h: nat, max: nat, m: nat)
    requires Kids(kids, keys, lo, hi, h, max) && 1 <= m <= |keys|
    ensures Kids(kids[..m], keys[..m - 1], lo, keys[m - 1], h, max)
    ensures Kids(kids[m..], keys[m..], keys[m - 1], hi, h, max)
    ensures lo < keys[m - 1] < hi
  {
    hide Tidy;
    forall j | 0 <= j < m
      ensures Tidy(kids[..m][j], Low(keys[..m - 1], lo, j), High(keys[..m - 1], keys[m - 1], j), h, max)
    {
      assert kids[..m][j] == kids[j];
    }
    forall j | 0 <= j < |kids| - m
      ensures Tidy(kids[m..][j], Low(keys[m..], keys[m - 1], j), High(keys[m..], hi, j), h, max)
    {
      assert kids[m..][j] == kids[m + j];
    }
  }

  // ---- The leaves in order and their entries

  ghost function Leaves(t: Tree): (ls: seq<Tree>)
    ensures ls != [] || t.Index?
    decreases t
  {
    match t
    case Leaf(_, _, _) => [t]
    case Index(_, kids, _) => Flat(kids)
  }

  ghost function Flat(kids: seq<Tree>): seq<Tree>
    decreases kids
  {
    if kids == [] then [] else Leaves(kids[0]) + Flat(kids[1..])
  }

  ghost function EntriesOf(t: Tree): seq<Entry> {
    if t.Leaf? then t.entries else []
  }

  ghost function Join(ls: seq<Tree>): seq<Entry> {
    if ls == [] then [] else EntriesOf(ls[0]) + Join(ls[1..])
  }

  lemma {:induction false} FlatConcat(a: seq<Tree>, b: seq<Tree>)
    ensures Flat(a + b) == Flat(a) + Flat(b)
    decreases |a|
  {
    if a == [] {
      assert a + b == b;
    } else {
      FlatConcat(a[1..], b);
      Tail(a, b);
      Associate(Leaves(a[0]), Flat(a[1..]), Flat(b));
    }
  }

  lemma {:induction false} JoinConcat(a: seq<Tree>, b: seq<Tree>)
    ensures Join(a + b) == Join(a) + Join(b)
    decreases |a|
  {
    if a == [] {
      assert a + b == b;
    } else {
      JoinConcat(a[1..], b);
      assert (a + b)[1..] == a[1..] + b;
      assert EntriesOf(a[0]) + (Join(a[1..]) + Join(b)) == EntriesOf(a[0]) + Join(a[1..]) + Join(b);
    }
  }

  lemma FlatSingle(t: Tree)
    ensures Flat([t]) == Leaves(t)
  {
    assert [t][1..] == [];
  }

  lemma JoinSingle(t: Tree)
    ensures Join([t]) == EntriesOf(t)
  {
    assert [t][1..] == [];
  }

  /** The leaves around child `i`. */
  lemma FlatAround(kids: seq<Tree>, i: nat)
    requires i < |kids|
    ensures Flat(kids) == Flat(kids[..i]) + Leaves(kids[i]) + Flat(kids[i + 1..])
  {
    hide Flat, Leaves;
    assert kids == kids[..i] + kids[i..] && kids[i..] == [kids[i]] + kids[i + 1..];
    FlatConcat(kids[..i], kids[i..]);
    FlatConcat([kids[i]], kids[i + 1..]);
    FlatSingle(kids[i]);
  }

  /** A tidy tree lists its entries in ascending order. */
  lemma {:induction false} TidySorted(t: Tree, lo: int, hi: int, h: nat, max: nat)
    requires Tidy(t, lo, hi, h, max)
    ensures InRange(Join(Leaves(t)), lo, hi) && forall l :: l in Leaves(t) ==>
            l.Leaf? && |l.entries| < max && Ascending(l.entries)
    decreases h, 0, 0
  {
    match t {
      case Leaf(_, _, _) => JoinSingle(t);
      case Index(_, kids, keys) => KidsSorted(kids, keys, lo, hi, h - 1, max);
    }
  }

  lemma {:induction false} KidsSorted(kids: seq<Tree>, keys: seq<nat>, lo: int, hi: int, h: nat, max: nat)
    requires Kids(kids, keys, lo, hi, h, max)
    ensures InRange(Join(Flat(kids)), lo, hi) && forall l :: l in Flat(kids) ==>
            l.Leaf? && |l.entries| < max && Ascending(l.entries)
    decreases h, 1, |kids|
  {
    TidySorted(kids[0], Low(keys, lo, 0), High(keys, hi, 0), h, max);
    if keys == [] {
      assert kids == [kids[0]];
      FlatSingle(kids[0]);
    } else {
      KidsHalve(kids, keys, lo, hi, h, max, 1);
      KidsSorted(kids[1..], keys[1..], keys[0], hi, h, max);
      JoinConcat(Leaves(kids[0]), Flat(kids[1..]));
      InRangeConcat(Join(Leaves(kids[0])), Join(Flat(kids[1..])), lo, keys[0], hi);
    }
  }

  // ---- The leaf a key belongs to

  /** Leaf `at` is the one for `key`: all entries before it are smaller and all after it greater. */
  ghost predicate Locates(ls: seq<Tree>, at: nat, key: nat) {
    at < |ls| && KeysUnder(Join(ls[..at]), key) && KeysOver(Join(ls[at + 1..]), key)
  }

  /** Child `i` is the one for `key`. */
  ghost predicate Routes(keys: seq<nat>, i: nat, key: nat) {
    i <= |keys| && (i > 0 ==> keys[i - 1] <= key) && (i < |keys| ==> key < keys[i])
  }

  lemma LocateKid(kids: seq<Tree>, keys: seq<nat>, lo: int, hi: int, h: nat, max: nat, i: nat, key: nat, at: nat)
    requires Kids(kids, keys, lo, hi, h, max) && Routes(keys, i, key) && Locates(Leaves(kids[i]), at, key)
    ensures |Flat(kids[..i])| + at < |Flat(kids)|
    ensures Locates(Flat(kids), |Flat(kids[..i])| + at, key)
    ensures Flat(kids)[|Flat(kids[..i])| + at] == Leaves(kids[i])[at]
  {
    hide Tidy, Kids, Join, Flat, Leaves;
    KidsCount(kids, keys, lo, hi, h, max);
    var a, m, b := Flat(kids[..i]), Leaves(kids[i]), Flat(kids[i + 1..]);
    FlatAround(kids, i);
    SidesBounded(kids, keys, lo, hi, h, max, i, key);
    assert (a + m + b)[..|a| + at] == a + m[..at];
    assert (a + m + b)[|a| + at + 1..] == m[at + 1..] + b;
    JoinConcat(a, m[..at]);
    JoinConcat(m[at + 1..], b);
  }

  lemma KidsCount(kids: seq<Tree>, keys: seq<nat>, lo: int, hi: int, h: nat, max: nat)
    requires Kids(kids, keys, lo, hi, h, max)
    ensures |kids| == |keys| + 1 && Separates(keys, lo, hi)
  {
  }

  lemma SidesBounded(kids: seq<Tree>, keys: seq<nat>, lo: int, hi: int, h: nat, max: nat, i: nat, key: nat)
    requires Kids(kids, keys, lo, hi, h, max) && Routes(keys, i, key)
    ensures KeysUnder(Join(Flat(kids[..i])), key) && KeysOver(Join(Flat(kids[i + 1..])), key)
  {
    hide Tidy;
    if i > 0 {
      KidsHalve(kids, keys, lo, hi, h, max, i);
      KidsSorted(kids[..i], keys[..i - 1], lo, keys[i - 1], h, max);
    }
    if i < |keys| {
      KidsHalve(kids, keys, lo, hi, h, max, i + 1);
      KidsSorted(kids[i + 1..], keys[i + 1..], keys[i], hi, h, max);
      StrictlyOver(Join(Flat(kids[i + 1..])), keys[i], hi, key);
    }
  }

  lemma StrictlyOver(c: seq<Entry>, lo: int, hi: int, key: nat)
    requires InRange(c, lo, hi) && key < lo
    ensures KeysOver(c, key)
  {
  }

  // ---- What a put does to the leaves

  /** Leaf `at` takes the entry, or becomes two linked leaves that hold its entries and the new one. */
  ghost predicate PutLeaves(ls: seq<Tree>, ls': seq<Tree>, at: nat, x: Entry) {
    && at < |ls| && ls[at].Leaf? && at < |ls'| && ls'[at].Leaf? && ls'[at].addr == ls[at].addr
    && if |ls'| == |ls| then
         ls' == ls[at := Leaf(ls[at].addr, PutEntry(ls[at].entries, x), ls[at].next)]
       else
         && |ls'| == |ls| + 1 && ls'[at + 1].Leaf?
         && ls' == ls[..at] + [ls'[at], ls'[at + 1]] + ls[at + 1..]
         && ls'[at].entries + ls'[at + 1].entries == PutEntry(ls[at].entries, x)
         && ls'[at].next == Some(ls'[at + 1].addr) && ls'[at + 1].next == ls[at].next
  }

  lemma PutLeavesFrame(a: seq<Tree>, ls: seq<Tree>, b: seq<Tree>, ls': seq<Tree>, at: nat, x: Entry)
    requires PutLeaves(ls, ls', at, x)
    ensures PutLeaves(a + ls + b, a + ls' + b, |a| + at, x)
  {
    hide PutEntry;
    var l, l' := a + ls + b, a + ls' + b;
    assert l[|a| + at] == ls[at] && l'[|a| + at] == ls'[at];
    if |ls'| == |ls| + 1 {
      assert l'[|a| + at + 1] == ls'[at + 1];
      assert l[..|a| + at] == a + ls[..at] && l[|a| + at + 1..] == ls[at + 1..] + b;
    }
  }

  /** The entries of all leaves are the old ones with the new entry put. */
  lemma PutLeavesContents(ls: seq<Tree>, ls': seq<Tree>, at: nat, x: Entry)
    requires PutLeaves(ls, ls', at, x) && Locates(ls, at, x.key) && Ascending(ls[at].entries)
    ensures Join(ls') == PutEntry(Join(ls), x)
  {
    hide PutEntry, Join;
    JoinAround(ls, at);
    PutFrame(Join(ls[..at]), ls[at].entries, Join(ls[at + 1..]), x);
    if |ls'| == |ls| {
      JoinAround(ls', at);
      assert ls'[..at] == ls[..at] && ls'[at + 1..] == ls[at + 1..];
    } else {
      JoinSplit(ls[..at], ls'[at], ls'[at + 1], ls[at + 1..]);
    }
  }

  lemma JoinSplit(a: seq<Tree>, l: Tree, r: Tree, b: seq<Tree>)
    ensures Join(a + [l, r] + b) == Join(a) + (EntriesOf(l) + EntriesOf(r)) + Join(b)
  {
    hide Join, EntriesOf;
    JoinConcat(a + [l, r], b);
    JoinConcat(a, [l, r]);
    assert [l, r] == [l] + [r];
    JoinConcat([l], [r]);
    JoinSingle(l);
    JoinSingle(r);
  }

  lemma JoinAround(ls: seq<Tree>, at: nat)
    requires at < |ls|
    ensures Join(ls) == Join(ls[..at]) + EntriesOf(ls[at]) + Join(ls[at + 1..])
  {
    hide Join;
    assert ls == ls[..at] + ls[at..] && ls[at..] == [ls[at]] + ls[at + 1..];
    JoinConcat(ls[..at], ls[at..]);
    JoinConcat([ls[at]], ls[at + 1..]);
    JoinSingle(ls[at]);
  }

  /** The leaf that follows. */
  function Successor(ls: seq<Tree>, i: nat): Option<nat> {
    if i + 1 < |ls| then Some(ls[i + 1].addr) else None
  }

  /** The successor links run through the leaves in order. */
  ghost predicate Linked(ls: seq<Tree>) {
    forall i :: 0 <= i < |ls| ==> ls[i].Leaf? && ls[i].next == Successor(ls, i)
  }

  lemma PutLeavesLinked(ls: seq<Tree>, ls': seq<Tree>, at: nat, x: Entry)
    requires PutLeaves(ls, ls', at, x) && Linked(ls)
    ensures Linked(ls')
  {
    hide PutEntry;
    if |ls'| == |ls| + 1 {
      forall i | 0 <= i < |ls'| ensures ls'[i].Leaf? && ls'[i].next == Successor(ls', i) {
        if i < at {
          assert ls'[i] == ls[i];
        } else if i > at {
          assert ls[i - 1].next == Successor(ls, i - 1);
          assert i > at + 1 ==> ls'[i] == ls[i - 1];
        }
      }
    }
  }

  // ---- Addresses

  ghost function Addrs(t: Tree): set<nat>
    decreases t
  {
    match t
    case Leaf(addr, _, _) => {addr}
    case Index(addr, kids, _) => {addr} + KidAddrs(kids)
  }

  ghost function KidAddrs(kids: seq<Tree>): set<nat>
    decreases kids
  {
    set i, a | 0 <= i < |kids| && a in Addrs(kids[i]) :: a
  }

  /** No two nodes share an address. */
  ghost predicate Apart(t: Tree)
    decreases t
  {
    match t
    case Leaf(_, _, _) => true
    case Index(addr, kids, _) => addr !in KidAddrs(kids) && KidsApart(kids)
  }

  ghost predicate KidsApart(kids: seq<Tree>)
    decreases kids
  {
    && (forall i :: 0 <= i < |kids| ==> Apart(kids[i]))
    && (forall i, j :: 0 <= i < j < |kids| ==> Addrs(kids[i]) !! Addrs(kids[j]))
  }

  /** Every address of `t'` is one of `s`, or new from `n` on. */
  ghost predicate Grown(t': Tree, s: set<nat>, n: nat) {
    forall a :: a in Addrs(t') ==> a in s || a >= n
  }

  ghost predicate Under(s: set<nat>, n: nat) {
    forall a :: a in s ==> a < n
  }

  lemma KidAddrsHas(kids: seq<Tree>, i: nat)
    requires i < |kids|
    ensures Addrs(kids[i]) <= KidAddrs(kids)
  {
  }

  lemma ApartReplace(kids: seq<Tree>, i: nat, k: Tree, n: nat)
    requires KidsApart(kids) && i < |kids| && Under(KidAddrs(kids), n) && Apart(k) && Grown(k, Addrs(kids[i]), n)
    ensures KidsApart(kids[i := k]) && forall a :: a in KidAddrs(kids[i := k]) ==> a in KidAddrs(kids) || a >= n
  {
    hide Addrs, Apart;
    var kids' := kids[i := k];
    forall x, y | 0 <= x < y < |kids'| ensures Addrs(kids'[x]) !! Addrs(kids'[y]) {
      KidAddrsHas(kids, x);
      KidAddrsHas(kids, y);
      KidAddrsHas(kids, i);
    }
  }

  lemma GrownApart(k: Tree, s: set<nat>, o: Tree, n: nat)
    requires Grown(k, s, n) && s !! Addrs(o) && Under(Addrs(o), n)
    ensures Addrs(k) !! Addrs(o)
  {
  }

  lemma ApartWiden(kids: seq<Tree>, i: nat, k: Tree, r: Tree, n: nat)
    requires KidsApart(kids) && i < |kids| && Under(KidAddrs(kids), n) && Apart(k) && Apart(r)
    requires Addrs(k) !! Addrs(r) && Grown(k, Addrs(kids[i]), n) && Grown(r, Addrs(kids[i]), n)
    ensures KidsApart(Spread(kids, i, k, r))
    ensures forall a :: a in KidAddrs(Spread(kids, i, k, r)) ==> a in KidAddrs(kids) || a >= n
  {
    hide Addrs, Apart, Grown, KidAddrs;
    var kids' := Spread(kids, i, k, r);
    forall j | 0 <= j < |kids| ensures Under(Addrs(kids[j]), n)
        && (j != i ==> Addrs(k) !! Addrs(kids[j]) && Addrs(r) !! Addrs(kids[j])) {
      KidAddrsHas(kids, j);
      if j != i {
        GrownApart(k, Addrs(kids[i]), kids[j], n);
        GrownApart(r, Addrs(kids[i]), kids[j], n);
      }
    }
    assert forall x {:trigger kids'[x]} :: 0 <= x < |kids'| ==>
             kids'[x] == if x < i then kids[x] else if x == i then k else if x == i + 1 then r else kids[x - 1];
    WidenAddrs(kids, i, k, r, n);
  }

  lemma WidenAddrs(kids: seq<Tree>, i: nat, k: Tree, r: Tree, n: nat)
    requires i < |kids| && Grown(k, Addrs(kids[i]), n) && Grown(r, Addrs(kids[i]), n)
    ensures forall a :: a in KidAddrs(Spread(kids, i, k, r)) ==> a in KidAddrs(kids) || a >= n
  {
    hide Addrs;
    var kids' := Spread(kids, i, k, r);
    forall x, a | 0 <= x < |kids'| && a in Addrs(kids'[x]) ensures a in KidAddrs(kids) || a >= n {
      var j := if x <= i then x else x - 1;
      KidAddrsHas(kids, j);
      assert j != i ==> kids'[x] == kids[j];
    }
  }

  lemma ApartHalve(kids: seq<Tree>, m: nat)
    requires KidsApart(kids) && m <= |kids|
    ensures KidsApart(kids[..m]) && KidsApart(kids[m..]) && KidAddrs(kids[..m]) !! KidAddrs(kids[m..])
    ensures KidAddrs(kids[..m]) <= KidAddrs(kids) && KidAddrs(kids[m..]) <= KidAddrs(kids)
  {
    hide Addrs, Apart;
    forall x, y | 0 <= x < m && 0 <= y < |kids| - m ensures Addrs(kids[..m][x]) !! Addrs(kids[m..][y]) {
      assert kids[..m][x] == kids[x] && kids[m..][y] == kids[m + y];
    }
  }
}
