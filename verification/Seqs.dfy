/** Cutting and joining sequences. */
module Seqs {
  lemma Associate<T>(a: seq<T>, b: seq<T>, c: seq<T>)
    ensures (a + b) + c == a + (b + c)
  {
  }

  lemma Regroup<T>(a: seq<T>, b: seq<T>, c: seq<T>, d: seq<T>)
    ensures (a + b) + (c + d) == a + (b + c) + d
  {
  }

  lemma Tail<T>(a: seq<T>, b: seq<T>)
    requires a != []
    ensures (a + b)[0] == a[0] && (a + b)[1..] == a[1..] + b
  {
  }

  lemma Cut<T>(a: seq<T>, b: seq<T>)
    ensures (a + b)[..|a|] == a && (a + b)[|a|..] == b
  {
  }

  /** Cutting the middle of three parts. */
  lemma CutMiddle<T>(a: seq<T>, m: seq<T>, b: seq<T>, n: nat)
    requires n <= |m|
    ensures (a + m + b)[..|a| + n] == a + m[..n] && (a + m + b)[|a| + n..] == m[n..] + b
  {
  }

  /** Taking an element out of the middle of three parts. */
  lemma OutOfMiddle<T>(a: seq<T>, m: seq<T>, b: seq<T>, n: nat)
    requires n < |m|
    ensures var s := a + m + b; s[..|a| + n] + s[|a| + n + 1..] == a + (m[..n] + m[n + 1..]) + b
  {
    CutMiddle(a, m, b, n);
    CutMiddle(a, m, b, n + 1);
    Regroup(a, m[..n], m[n + 1..], b);
  }

  /** Taking out the element between two parts. */
  lemma TakeOut<T>(a: seq<T>, x: T, b: seq<T>)
    ensures (a + ([x] + b))[..|a|] == a && (a + ([x] + b))[|a|] == x && (a + ([x] + b))[|a| + 1..] == b
  {
  }
}
