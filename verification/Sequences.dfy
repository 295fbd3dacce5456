/** Sums of sequences, sequences taken element by element, and selections from them. */
module Sequences {

  function SumOf(ns: seq<int>): int {
    if ns == [] then 0 else ns[0] + SumOf(ns[1..])
  }

  lemma {:induction false} SumOfOneMore(ns: seq<int>, n: int)
    ensures SumOf(ns + [n]) == SumOf(ns) + n
  {
    if ns == [] {
      assert [n][1..] == [];
    } else {
      assert (ns + [n])[1..] == ns[1..] + [n];
      SumOfOneMore(ns[1..], n);
    }
  }

  lemma OneMore<T>(before: seq<T>, list: seq<T>, i: nat)
    requires i < |list|
    ensures before + list[..i + 1] == before + list[..i] + [list[i]]
  {}

  // The positions below `n` at which `p` holds, in ascending order.
  ghost predicate Chosen(n: nat, p: nat -> bool, at: seq<nat>) {
    && (forall k :: 0 <= k < |at| ==> at[k] < n && p(at[k]))
    && (forall j, k :: 0 <= j < k < |at| ==> at[j] < at[k])
    && (forall i: nat :: i < n && p(i) ==> i in at)
  }

  lemma ChosenStep(n: nat, p: nat -> bool, at: seq<nat>)
    requires Chosen(n, p, at)
    ensures Chosen(n + 1, p, if p(n) then at + [n] else at)
  {
    var more := at + [n];
    assert more[|at|] == n;
    forall i: nat | i < n && p(i)
      ensures i in more
    {
      var k :| 0 <= k < |at| && at[k] == i;
      assert more[k] == i;
    }
  }

  // What stands at the chosen positions.
  ghost predicate TakenAt<T>(out: seq<T>, at: seq<nat>, f: nat -> T) {
    |out| == |at| && forall k :: 0 <= k < |at| ==> out[k] == f(at[k])
  }

  lemma TakenAtStep<T>(out: seq<T>, at: seq<nat>, f: nat -> T, i: nat)
    requires TakenAt(out, at, f)
    ensures TakenAt(out + [f(i)], at + [i], f)
  {}

  lemma PickNext<T>(p: nat -> bool, f: nat -> T, i: nat, out: seq<T>, more: seq<T>, before: seq<nat>)
    returns (at: seq<nat>)
    requires Chosen(i, p, before) && TakenAt(out, before, f) && more == if p(i) then [f(i)] else []
    ensures Chosen(i + 1, p, at) && TakenAt(out + more, at, f)
  {
    ChosenStep(i, p, before);
    if p(i) {
      at := before + [i];
      TakenAtStep(out, before, f, i);
    } else {
      at := before;
      assert out + [] == out;
    }
  }
}
