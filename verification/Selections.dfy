/** Which entries of a sequence are kept, told by their places. */
module Selections {
  /** `at` are the places of the entries that `keep` admits: all of them, in order. */
  ghost predicate Selects<T>(s: seq<T>, keep: T -> bool, at: seq<nat>) {
    && (forall j, k :: 0 <= j < k < |at| ==> at[j] < at[k])
    && (forall k :: 0 <= k < |at| ==> at[k] < |s| && keep(s[at[k]]))
    && (forall i :: 0 <= i < |s| && keep(s[i]) ==> i in at)
  }

  /** One more entry, kept or not. */
  lemma SelectsOne<T>(s: seq<T>, n: nat, keep: T -> bool, at: seq<nat>)
    requires n < |s| && Selects(s[..n], keep, at)
    ensures Selects(s[..n + 1], keep, if keep(s[n]) then at + [n] else at)
  {
    var more := if keep(s[n]) then at + [n] else at;
    assert forall i :: 0 <= i < n ==> s[..n + 1][i] == s[..n][i];
    forall i | 0 <= i < n + 1 && keep(s[..n + 1][i])
      ensures i in more
    {
      assert i == n ==> more[|at|] == n;
      assert i < n ==> keep(s[..n][i]) && i in at;
    }
  }

  /** `out` is what `f` makes of the entries at these places. */
  ghost predicate Maps<T, R>(s: seq<T>, at: seq<nat>, f: T -> R, out: seq<R>) {
    && |out| == |at|
    && forall k :: 0 <= k < |at| ==> at[k] < |s| && out[k] == f(s[at[k]])
  }

  /** The kept entries, and what `f` makes of them. */
  function Chosen<T, R>(s: seq<T>, keep: T -> bool, f: T -> R): seq<R> {
    if s == [] then []
    else Chosen(s[..|s| - 1], keep, f) + if keep(s[|s| - 1]) then [f(s[|s| - 1])] else []
  }

  lemma MapsOne<T, R>(s: seq<T>, n: nat, at: seq<nat>, f: T -> R, out: seq<R>, x: R)
    requires n < |s| && Maps(s[..n], at, f, out)
    ensures Maps(s[..n + 1], at, f, out)
    ensures x == f(s[n]) ==> Maps(s[..n + 1], at + [n], f, out + [x])
  {
    assert forall i :: 0 <= i < n ==> s[..n + 1][i] == s[..n][i];
  }

  lemma {:induction false} ChosenAt<T, R>(s: seq<T>, keep: T -> bool, f: T -> R) returns (at: seq<nat>)
    ensures Selects(s, keep, at) && Maps(s, at, f, Chosen(s, keep, f))
  {
    at := [];
    if s != [] {
      var n := |s| - 1;
      var before := ChosenAt(s[..n], keep, f);
      assert s[..n + 1] == s;
      SelectsOne(s, n, keep, before);
      MapsOne(s, n, before, f, Chosen(s[..n], keep, f), f(s[n]));
      at := if keep(s[n]) then before + [n] else before;
      assert !keep(s[n]) ==> Chosen(s, keep, f) == Chosen(s[..n], keep, f);
    }
  }
}
