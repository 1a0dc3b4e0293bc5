/** Small facts about sequences that loops and recursive specifications share. */
module Sequences {

  /** A list grown by one element, with what is still to come. */
  lemma AppendOne<T>(done: seq<T>, x: T, rest: seq<T>)
    ensures done + ([x] + rest) == (done + [x]) + rest
  {
  }

  lemma AppendMany<T>(done: seq<T>, xs: seq<T>, rest: seq<T>)
    ensures done + (xs + rest) == (done + xs) + rest
  {
  }

  /** What is left to read is its first element and what is left after that. */
  lemma Uncons<T>(xs: seq<T>, i: nat)
    requires i < |xs|
    ensures xs[i..] != [] && xs[i..][0] == xs[i] && xs[i..][1..] == xs[i + 1..]
  {
  }

  lemma SliceOfSlice<T>(xs: seq<T>, a: nat, b: nat, lo: nat, hi: nat)
    requires a <= b <= |xs| && lo <= hi <= b - a
    ensures xs[a..b][lo..hi] == xs[a + lo..a + hi]
  {
    var s := xs[a..b];
    assert forall k :: lo <= k < hi ==> s[lo..hi][k - lo] == s[k] == xs[a + k] == xs[a + lo..a + hi][k - lo];
  }

  /** Cutting the end off first or the start off first is the same. */
  lemma CutBothEnds<T>(xs: seq<T>, i: nat, n: nat)
    requires i <= n <= |xs|
    ensures xs[..n][i..] == xs[i..n] && xs[i..][..n - i] == xs[i..n]
  {
    assert forall k :: i <= k < n ==> xs[..n][i..][k - i] == xs[k] == xs[i..n][k - i];
    assert forall k :: i <= k < n ==> xs[i..][..n - i][k - i] == xs[k];
  }

  /** Lists with the same start are the same exactly when their rests are. */
  lemma SameStart<T>(start: seq<T>, xs: seq<T>, ys: seq<T>)
    ensures start + xs == start + ys <==> xs == ys
  {
    assert (start + xs)[|start|..] == xs && (start + ys)[|start|..] == ys;
  }

  function Flatten<T>(gs: seq<seq<T>>): seq<T> {
    if gs == [] then [] else gs[0] + Flatten(gs[1..])
  }

  lemma FlattenCons<T>(g: seq<T>, gs: seq<seq<T>>)
    ensures Flatten([g] + gs) == g + Flatten(gs)
  {
    assert ([g] + gs)[1..] == gs;
  }

  ghost predicate NoRepeats<T>(xs: seq<T>) {
    forall i, j :: 0 <= i < j < |xs| ==> xs[i] != xs[j]
  }

  // ----- picking elements -----

  /** `at` lists, in order, the places of exactly the elements that `keep` holds of. */
  ghost predicate Picked<T(!new)>(xs: seq<T>, keep: T -> bool, at: seq<nat>) {
    && (forall i, j :: 0 <= i < j < |at| ==> at[i] < at[j])
    && (forall i :: 0 <= i < |at| ==> at[i] < |xs| && keep(xs[at[i]]))
    && (forall k :: 0 <= k < |xs| && keep(xs[k]) ==> k in at)
  }

  /** `ys` shows, in order, exactly the elements that `keep` holds of; `at` lists their places. */
  ghost predicate Picks<T(!new), U>(xs: seq<T>, keep: T -> bool, show: T -> U, ys: seq<U>, at: seq<nat>) {
    Picked(xs, keep, at) && |ys| == |at| && forall i :: 0 <= i < |at| ==> ys[i] == show(xs[at[i]])
  }

  function Itself<T>(x: T): T {
    x
  }

  lemma PicksNothing<T(!new), U>(keep: T -> bool, show: T -> U)
    ensures Picks([], keep, show, [], [])
  {
  }

  lemma PicksSnoc<T(!new), U>(xs: seq<T>, x: T, keep: T -> bool, show: T -> U, ys: seq<U>, at: seq<nat>)
    requires Picks(xs, keep, show, ys, at)
    ensures if keep(x) then Picks(xs + [x], keep, show, ys + [show(x)], at + [|xs|]) else Picks(xs + [x], keep, show, ys, at)
  {
    PickedSnoc(xs, x, keep, at);
    forall i | 0 <= i < |at| ensures (xs + [x])[at[i]] == xs[at[i]] {
      assert keep(xs[at[i]]);
    }
    hide Picked;
  }

  lemma PickedSnoc<T(!new)>(xs: seq<T>, x: T, keep: T -> bool, at: seq<nat>)
    requires Picked(xs, keep, at)
    ensures if keep(x) then Picked(xs + [x], keep, at + [|xs|]) else Picked(xs + [x], keep, at)
  {
    var all, at' := xs + [x], if keep(x) then at + [|xs|] else at;
    forall i | 0 <= i < |at| ensures at'[i] == at[i] < |xs| && all[at[i]] == xs[at[i]] && keep(xs[at[i]]) {
    }
    forall k | 0 <= k < |all| && keep(all[k]) ensures k in at' {
      if k < |xs| {
        assert all[k] == xs[k];
        var i :| 0 <= i < |at| && at[i] == k;
        assert at'[i] == k;
      } else {
        assert at'[|at|] == k;
      }
    }
  }
}
