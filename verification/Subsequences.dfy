/** Subsequences, by the strictly increasing positions of their elements. */
module Subsequences {

  /** Each element of `sub` stands in `all`, at strictly increasing positions `at`. */
  predicate Picks<T(==)>(at: seq<nat>, sub: seq<T>, all: seq<T>) {
    && |at| == |sub|
    && (forall i :: 0 <= i < |at| ==> at[i] < |all| && sub[i] == all[at[i]])
    && (forall i, j :: 0 <= i < j < |at| ==> at[i] < at[j])
  }

  lemma PicksMore<T>(at: seq<nat>, sub: seq<T>, all: seq<T>, more: seq<T>)
    requires Picks(at, sub, all)
    ensures Picks(at, sub, all + more)
  {
  }

  lemma PicksNext<T>(at: seq<nat>, sub: seq<T>, all: seq<T>, x: T)
    requires Picks(at, sub, all)
    ensures Picks(at + [|all|], sub + [x], all + [x])
  {
  }

  lemma PicksFirst<T>(at: seq<nat>, sub: seq<T>, all: seq<T>, n: nat)
    requires Picks(at, sub, all) && n <= |sub|
    ensures Picks(at[..n], sub[..n], all)
  {
  }

  lemma PicksCompose<T>(at: seq<nat>, a: seq<T>, to: seq<nat>, b: seq<T>, c: seq<T>) returns (r: seq<nat>)
    requires Picks(at, a, b) && Picks(to, b, c)
    ensures Picks(r, a, c)
  {
    r := seq(|at|, i requires 0 <= i < |at| => to[at[i]]);
  }
}
