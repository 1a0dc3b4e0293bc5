/** Python's string order and stable sorting by a key order. */
module Ordering {

  /** `a <= b` on strings: by code points, a prefix first. */
  predicate StrLe(a: string, b: string) {
    a == "" || (b != "" && (a[0] < b[0] || (a[0] == b[0] && StrLe(a[1..], b[1..]))))
  }

  lemma {:induction false} StrLeTotal(a: string, b: string)
    ensures StrLe(a, b) || StrLe(b, a)
    ensures StrLe(a, b) && StrLe(b, a) ==> a == b
  {
    if a != "" && b != "" {
      StrLeTotal(a[1..], b[1..]);
      assert a == [a[0]] + a[1..] && b == [b[0]] + b[1..];
    }
  }

  lemma {:induction false} StrLeTransitive(a: string, b: string, c: string)
    requires StrLe(a, b) && StrLe(b, c)
    ensures StrLe(a, c)
  {
    if a != "" && a[0] == b[0] == c[0] {
      StrLeTransitive(a[1..], b[1..], c[1..]);
    }
  }

  /** The texts agree on `k` characters, and then the first one ends or has the smaller one. */
  ghost predicate LessFrom(a: string, b: string, k: int) {
    0 <= k <= |a| && k <= |b| && a[..k] == b[..k] && (k == |a| || (k < |b| && a[k] < b[k]))
  }

  lemma {:induction false} LessFromLe(a: string, b: string, k: int)
    requires LessFrom(a, b, k)
    ensures StrLe(a, b)
  {
    if k > 0 {
      assert a[..k][0] == b[..k][0] && a[1..][..k - 1] == a[..k][1..] && b[1..][..k - 1] == b[..k][1..];
      LessFromLe(a[1..], b[1..], k - 1);
    }
  }

  lemma {:induction false} LeLessFrom(a: string, b: string) returns (k: int)
    requires StrLe(a, b)
    ensures LessFrom(a, b, k)
  {
    k := 0;
    if a != "" && a[0] == b[0] {
      var j := LeLessFrom(a[1..], b[1..]);
      k := j + 1;
      assert a[..k] == [a[0]] + a[1..][..j] && b[..k] == [b[0]] + b[1..][..j];
    }
  }

  /** The first text is a prefix of the second, or smaller where they first differ. */
  lemma StrLeExactly(a: string, b: string)
    ensures StrLe(a, b) <==> exists k :: LessFrom(a, b, k)
  {
    if StrLe(a, b) {
      var k := LeLessFrom(a, b);
    }
    forall k | LessFrom(a, b, k) ensures StrLe(a, b) {
      LessFromLe(a, b, k);
    }
  }

  ghost predicate TotalPreorder<T(!new)>(le: (T, T) -> bool) {
    && (forall a, b :: le(a, b) || le(b, a))
    && (forall a, b, c :: le(a, b) && le(b, c) ==> le(a, c))
  }

  ghost predicate Sorted<T>(le: (T, T) -> bool, xs: seq<T>) {
    forall i, j :: 0 <= i < j < |xs| ==> le(xs[i], xs[j])
  }

  /** The sorted list with `x` put after everything not greater than it. */
  function Insert<T>(le: (T, T) -> bool, xs: seq<T>, x: T): seq<T> {
    if xs == [] then [x]
    else
      var n := |xs| - 1;
      if le(xs[n], x) then xs + [x] else Insert(le, xs[..n], x) + [xs[n]]
  }

  /** `list.sort`: a stable sort. */
  function SortBy<T>(le: (T, T) -> bool, xs: seq<T>): seq<T> {
    if xs == [] then [] else Insert(le, SortBy(le, xs[..|xs| - 1]), xs[|xs| - 1])
  }

  lemma {:induction false} InsertPermutes<T>(le: (T, T) -> bool, xs: seq<T>, x: T)
    ensures multiset(Insert(le, xs, x)) == multiset(xs) + multiset{x}
  {
    if xs != [] {
      var n := |xs| - 1;
      assert xs[..n] + [xs[n]] == xs;
      InsertPermutes(le, xs[..n], x);
    }
  }

  lemma {:induction false} SortPermutes<T>(le: (T, T) -> bool, xs: seq<T>)
    ensures multiset(SortBy(le, xs)) == multiset(xs)
    ensures |SortBy(le, xs)| == |xs|
  {
    if xs != [] {
      var n := |xs| - 1;
      assert xs[..n] + [xs[n]] == xs;
      SortPermutes(le, xs[..n]);
      InsertPermutes(le, SortBy(le, xs[..n]), xs[n]);
    }
    assert |SortBy(le, xs)| == |multiset(SortBy(le, xs))| && |xs| == |multiset(xs)|;
  }

  lemma {:induction false} InsertSorted<T(!new)>(le: (T, T) -> bool, xs: seq<T>, x: T)
    requires TotalPreorder(le) && Sorted(le, xs)
    ensures Sorted(le, Insert(le, xs, x))
  {
    if xs != [] {
      var n := |xs| - 1;
      if le(xs[n], x) {
        forall i, j | 0 <= i < j < |xs + [x]| ensures le((xs + [x])[i], (xs + [x])[j]) {
          if j == |xs| && i < n { assert le(xs[i], xs[n]); }
        }
      } else {
        InsertSorted(le, xs[..n], x);
        InsertPermutes(le, xs[..n], x);
        var r := Insert(le, xs[..n], x);
        forall i | 0 <= i < |r| ensures le(r[i], xs[n]) {
          assert r[i] in multiset(r);
          assert r[i] == x || r[i] in multiset(xs[..n]);
        }
      }
    }
  }

  lemma {:induction false} SortSorts<T(!new)>(le: (T, T) -> bool, xs: seq<T>)
    requires TotalPreorder(le)
    ensures Sorted(le, SortBy(le, xs))
  {
    if xs != [] {
      SortSorts(le, xs[..|xs| - 1]);
      InsertSorted(le, SortBy(le, xs[..|xs| - 1]), xs[|xs| - 1]);
    }
  }

  /** The elements that are tied with `y`, in order. */
  function Tied<T>(le: (T, T) -> bool, xs: seq<T>, y: T): seq<T> {
    if xs == [] then []
    else
      var n := |xs| - 1;
      if le(xs[n], y) && le(y, xs[n]) then Tied(le, xs[..n], y) + [xs[n]] else Tied(le, xs[..n], y)
  }

  lemma TiedSnoc<T>(le: (T, T) -> bool, xs: seq<T>, x: T, y: T)
    ensures Tied(le, xs + [x], y) == if le(x, y) && le(y, x) then Tied(le, xs, y) + [x] else Tied(le, xs, y)
  {
    assert (xs + [x])[..|xs|] == xs;
  }

  lemma {:induction false} InsertTied<T(!new)>(le: (T, T) -> bool, xs: seq<T>, x: T, y: T)
    requires TotalPreorder(le)
    ensures Tied(le, Insert(le, xs, x), y) == Tied(le, xs + [x], y)
  {
    if xs == [] {
      assert xs + [x] == [x];
    } else {
      var n := |xs| - 1;
      if !le(xs[n], x) {
        InsertTied(le, xs[..n], x, y);
        TiedSnoc(le, Insert(le, xs[..n], x), xs[n], y);
        TiedSnoc(le, xs[..n], x, y);
        TiedSnoc(le, xs, x, y);
      }
    }
  }

  /** Sorting keeps tied elements in the order in which they were. */
  lemma {:induction false} SortStable<T(!new)>(le: (T, T) -> bool, xs: seq<T>, y: T)
    requires TotalPreorder(le)
    ensures Tied(le, SortBy(le, xs), y) == Tied(le, xs, y)
  {
    if xs != [] {
      var n := |xs| - 1;
      SortStable(le, xs[..n], y);
      InsertTied(le, SortBy(le, xs[..n]), xs[n], y);
      TiedSnoc(le, SortBy(le, xs[..n]), xs[n], y);
    }
  }

  /** No two elements of the list are tied. */
  ghost predicate NoTies<T>(le: (T, T) -> bool, xs: seq<T>) {
    forall a, b :: a in xs && b in xs && le(a, b) && le(b, a) ==> a == b
  }

  lemma Front<T>(xs: seq<T>)
    requires xs != []
    ensures multiset(xs[..|xs| - 1]) == multiset(xs) - multiset{xs[|xs| - 1]}
    ensures forall a :: a in xs[..|xs| - 1] ==> a in xs
  {
    assert xs[..|xs| - 1] + [xs[|xs| - 1]] == xs;
  }

  lemma FrontSorted<T(!new)>(le: (T, T) -> bool, xs: seq<T>)
    requires Sorted(le, xs) && xs != []
    ensures Sorted(le, xs[..|xs| - 1])
    ensures NoTies(le, xs) ==> NoTies(le, xs[..|xs| - 1])
  {
    Front(xs);
  }

  lemma LastIsGreatest<T(!new)>(le: (T, T) -> bool, xs: seq<T>, ys: seq<T>)
    requires Sorted(le, xs) && Sorted(le, ys) && multiset(xs) == multiset(ys) && |xs| == |ys| > 0
    requires NoTies(le, xs)
    ensures xs[|xs| - 1] == ys[|ys| - 1]
  {
    var n := |xs| - 1;
    var x, y := xs[n], ys[n];
    assert x in multiset(ys) && y in multiset(xs);
    var i :| 0 <= i <= n && ys[i] == x;
    var j :| 0 <= j <= n && xs[j] == y;
    assert i < n ==> le(x, y);
    assert j < n ==> le(y, x);
    assert x in xs && y in xs;
  }

  /** Sorting a list without ties depends only on what is in it, not on its order. */
  lemma {:induction false} SortedUnique<T(!new)>(le: (T, T) -> bool, xs: seq<T>, ys: seq<T>)
    requires Sorted(le, xs) && Sorted(le, ys) && multiset(xs) == multiset(ys)
    requires NoTies(le, xs)
    ensures xs == ys
  {
    hide Sorted, NoTies;
    assert |xs| == |multiset(xs)| && |ys| == |multiset(ys)|;
    if xs != [] {
      var n := |xs| - 1;
      LastIsGreatest(le, xs, ys);
      Front(xs);
      Front(ys);
      FrontSorted(le, xs);
      FrontSorted(le, ys);
      SortedUnique(le, xs[..n], ys[..n]);
      assert xs[..n] + [xs[n]] == xs && ys[..n] + [ys[n]] == ys;
    }
  }
}
