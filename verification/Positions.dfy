/** Increasing positions, taken one after another from a sequence as long as a cap allows. */
module Positions {

  predicate Increasing(at: seq<nat>) {
    forall i, j :: 0 <= i < j < |at| ==> at[i] < at[j]
  }

  predicate Below(at: seq<nat>, n: nat) {
    forall j :: 0 <= j < |at| ==> at[j] < n
  }

  /** How many of the positions come before `i`. */
  function CountBelow(at: seq<nat>, i: nat): nat {
    if at == [] then 0 else CountBelow(at[..|at| - 1], i) + if at[|at| - 1] < i then 1 else 0
  }

  lemma {:induction false} AllBelow(at: seq<nat>, n: nat)
    requires Below(at, n)
    ensures CountBelow(at, n) == |at|
  {
    if at != [] {
      AllBelow(at[..|at| - 1], n);
    }
  }

  /** The positions once `n`, which lies behind them all, is taken or left out. */
  function Taking(at: seq<nat>, n: nat, take: bool): seq<nat> {
    if take then at + [n] else at
  }

  lemma TakingKeepsOrder(at: seq<nat>, n: nat, take: bool)
    requires Increasing(at) && Below(at, n)
    ensures Increasing(Taking(at, n, take)) && Below(Taking(at, n, take), n + 1)
  {
  }

  lemma TakingCounts(at: seq<nat>, n: nat, take: bool, i: nat)
    requires i <= n
    ensures CountBelow(Taking(at, n, take), i) == CountBelow(at, i)
  {
    assert (at + [n])[..|at|] == at;
  }

  lemma TakingMembers(at: seq<nat>, n: nat, take: bool, i: nat)
    requires Below(at, n)
    ensures i in Taking(at, n, take) <==> i in at || (i == n && take)
    ensures n !in at
  {
  }

  /** Taking exactly what is wanted and under its cap: `wanted` and `caps` speak of one element each. */
  predicate Takes(at: seq<nat>, wanted: seq<bool>, caps: seq<nat>) {
    && |caps| == |wanted| && Increasing(at) && Below(at, |wanted|)
    && forall i :: 0 <= i < |wanted| ==> (i in at <==> wanted[i] && CountBelow(at, i) < caps[i])
  }

  lemma TakeStep(at: seq<nat>, wanted: seq<bool>, caps: seq<nat>, w: bool, c: nat)
    requires Takes(at, wanted, caps)
    ensures Takes(Taking(at, |wanted|, w && |at| < c), wanted + [w], caps + [c])
  {
    hide CountBelow, Taking, Increasing, Below;
    var n, take := |wanted|, w && |at| < c;
    var bt := Taking(at, n, take);
    AllBelow(at, n);
    TakingKeepsOrder(at, n, take);
    forall i | 0 <= i <= n
      ensures i in bt <==> (wanted + [w])[i] && CountBelow(bt, i) < (caps + [c])[i]
    {
      TakingCounts(at, n, take, i);
      TakingMembers(at, n, take, i);
    }
  }
}
