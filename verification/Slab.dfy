/** The concurrent slab allocator as a state machine whose steps are the two locked sections of `Allocate`
    (src/slab.h). */
module Slab {

  /** A slot of one of the arrays. */
  datatype Slot = Slot(arr: nat, index: nat)

  /** Where a thread is: outside or before the first section, or after it with the counter value that it drew. */
  datatype Thread = Idle | Exhausted(drawn: nat)

  /** The arrays so far, the shared counter, the threads, and all slots returned, the newest last. */
  datatype State = State(arrays: nat, next: nat, threads: map<nat, Thread>, returned: seq<Slot>)

  ghost predicate Init(s: State) {
    s.arrays == 1 && s.next == 0 && s.returned == [] && forall t :: t in s.threads ==> s.threads[t] == Idle
  }

  /** First section, under the shared lock: draws a counter value and returns the slot if there is one. */
  ghost predicate Draw(s: State, s': State, t: nat, size: nat) {
    && t in s.threads && s.threads[t] == Idle && s.arrays > 0
    && s' == State(s.arrays, s.next + 1,
                   s.threads[t := if s.next < size then Idle else Exhausted(s.next)],
                   if s.next < size then s.returned + [Slot(s.arrays - 1, s.next)] else s.returned)
  }

  /** Second section, under the exclusive lock: if the counter is where this thread left it, starts a new array and
      returns its first slot; otherwise tries again from the start. */
  ghost predicate Renew(s: State, s': State, t: nat) {
    && t in s.threads && s.threads[t].Exhausted?
    && if s.next == s.threads[t].drawn + 1 then
         s' == State(s.arrays + 1, 1, s.threads[t := Idle], s.returned + [Slot(s.arrays, 0)])
       else
         s' == s.(threads := s.threads[t := Idle])
  }

  ghost predicate Step(s: State, s': State, size: nat) {
    exists t :: Draw(s, s', t, size) || Renew(s, s', t)
  }

  ghost predicate Run(states: seq<State>, size: nat) {
    states != [] && Init(states[0]) && forall i {:trigger states[i]} :: 0 < i < |states| ==>
        Step(states[i - 1], states[i], size)
  }

  /** How many slots of an array have been returned. */
  function Used(s: State, size: nat, arr: nat): nat {
    if arr + 1 < s.arrays then size
    else if arr + 1 == s.arrays then (if s.next < size then s.next else size)
    else 0
  }

  /** Exactly the slots in use have been returned, each of them once; a thread only leaves the first section without a
      slot when the array is exhausted; and of an exhausted array the last draw is still with the thread that drew
      it. */
  ghost predicate Inv(s: State, size: nat) {
    && s.arrays >= 1 && size >= 1
    && (forall x :: x in s.returned <==> x.index < Used(s, size, x.arr))
    && (forall i, j :: 0 <= i < j < |s.returned| ==> s.returned[i] != s.returned[j])
    && (forall t :: t in s.threads && s.threads[t].Exhausted? ==> s.threads[t].drawn >= size)
    && (s.next > size ==> exists t :: t in s.threads && s.threads[t] == Exhausted(s.next - 1))
  }

  lemma InitInv(s: State, size: nat)
    requires Init(s) && size >= 1
    ensures Inv(s, size)
  {
  }

  lemma DrawKeeps(s: State, s': State, t: nat, size: nat)
    requires Inv(s, size) && Draw(s, s', t, size)
    ensures Inv(s', size)
  {
    assert s'.threads[t] == if s.next < size then Idle else Exhausted(s.next);
    forall x ensures x in s'.returned <==> x.index < Used(s', size, x.arr) {
      assert x in s'.returned <==> x in s.returned || (s.next < size && x == Slot(s.arrays - 1, s.next));
    }
  }

  lemma RenewKeeps(s: State, s': State, t: nat, size: nat)
    requires Inv(s, size) && Renew(s, s', t)
    ensures Inv(s', size)
  {
    if s.next == s.threads[t].drawn + 1 {
      forall x ensures x in s'.returned <==> x.index < Used(s', size, x.arr) {
        assert x in s'.returned <==> x in s.returned || x == Slot(s.arrays, 0);
      }
    } else if s.next > size {
      var u :| u in s.threads && s.threads[u] == Exhausted(s.next - 1);
      assert u != t && s'.threads[u] == Exhausted(s.next - 1);
    }
  }

  /** Every state of every run satisfies the invariant. */
  lemma {:induction false} RunInv(states: seq<State>, size: nat, i: nat)
    requires Run(states, size) && i < |states| && size >= 1
    ensures Inv(states[i], size)
  {
    if i == 0 {
      InitInv(states[0], size);
    } else {
      RunInv(states, size, i - 1);
      var t :| Draw(states[i - 1], states[i], t, size) || Renew(states[i - 1], states[i], t);
      if Draw(states[i - 1], states[i], t, size) {
        DrawKeeps(states[i - 1], states[i], t, size);
      } else {
        RenewKeeps(states[i - 1], states[i], t, size);
      }
    }
  }

  /** No slot is returned twice, and all of them lie within their arrays. */
  lemma NeverTwice(states: seq<State>, size: nat, i: nat)
    requires Run(states, size) && i < |states| && size >= 1
    ensures forall a, b :: 0 <= a < b < |states[i].returned| ==> states[i].returned[a] != states[i].returned[b]
    ensures forall x :: x in states[i].returned ==> x.arr < states[i].arrays && x.index < size
  {
    RunInv(states, size, i);
  }

  /** A new array is only started when every slot of all arrays before has been returned, whatever other values the
      counter went through in between. */
  lemma RenewedWhenFull(states: seq<State>, size: nat, i: nat, arr: nat, index: nat)
    requires Run(states, size) && i + 1 < |states| && size >= 1
    requires states[i + 1].arrays > states[i].arrays && arr < states[i].arrays && index < size
    ensures Slot(arr, index) in states[i].returned
  {
    RunInv(states, size, i);
    var s, s' := states[i], states[i + 1];
    assert Step(states[i + 1 - 1], states[i + 1], size);
    var t :| Draw(s, s', t, size) || Renew(s, s', t);
    assert s.next >= size;
  }

  /** Allocation never gets stuck: there is a free slot to draw, or a thread whose renewal is going to succeed. */
  lemma NeverStuck(states: seq<State>, size: nat, i: nat)
    requires Run(states, size) && i < |states| && size >= 1
    ensures states[i].next <= size || exists t, s' :: Renew(states[i], s', t) && s'.arrays == states[i].arrays + 1
  {
    RunInv(states, size, i);
    var s := states[i];
    if s.next > size {
      var t :| t in s.threads && s.threads[t] == Exhausted(s.next - 1);
      var s' := State(s.arrays + 1, 1, s.threads[t := Idle], s.returned + [Slot(s.arrays, 0)]);
      assert Renew(s, s', t);
    }
  }
}
