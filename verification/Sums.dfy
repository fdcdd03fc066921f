/** Sums of real amounts over lists, whatever their order. */
module Sums {
  import opened Ordering

  function Sum<T>(f: T -> real, xs: seq<T>): real {
    if xs == [] then 0.0 else f(xs[0]) + Sum(f, xs[1..])
  }

  lemma {:induction false} SumAppend<T>(f: T -> real, xs: seq<T>, ys: seq<T>)
    ensures Sum(f, xs + ys) == Sum(f, xs) + Sum(f, ys)
  {
    if xs == [] {
      assert xs + ys == ys;
    } else {
      SumAppend(f, xs[1..], ys);
      assert (xs + ys)[1..] == xs[1..] + ys;
    }
  }

  lemma SumLast<T>(f: T -> real, xs: seq<T>, x: T)
    ensures Sum(f, xs + [x]) == Sum(f, xs) + f(x)
  {
    SumAppend(f, xs, [x]);
    assert [x][1..] == [];
    assert Sum(f, [x]) == f(x) + Sum(f, [x][1..]);
  }

  function Without<T>(xs: seq<T>, i: nat): seq<T>
    requires i < |xs|
  {
    xs[..i] + xs[i + 1..]
  }

  lemma WithoutElements<T>(xs: seq<T>, i: nat)
    requires i < |xs|
    ensures multiset(Without(xs, i)) == multiset(xs) - multiset{xs[i]}
  {
    assert xs == xs[..i] + ([xs[i]] + xs[i + 1..]);
    assert multiset(xs) == multiset(xs[..i]) + (multiset{xs[i]} + multiset(xs[i + 1..]));
  }

  lemma SumWithout<T>(f: T -> real, xs: seq<T>, i: nat)
    requires i < |xs|
    ensures Sum(f, xs) == f(xs[i]) + Sum(f, Without(xs, i))
  {
    SumAppend(f, xs[..i], xs[i..]);
    SumAppend(f, xs[..i], xs[i + 1..]);
    assert xs == xs[..i] + xs[i..];
    assert xs[i..][0] == xs[i] && xs[i..][1..] == xs[i + 1..];
  }

  /** Replacing one element replaces its amount. */
  lemma SumReplaced<T>(f: T -> real, xs: seq<T>, i: nat, x: T)
    requires i < |xs|
    ensures Sum(f, xs[i := x]) == Sum(f, xs) - f(xs[i]) + f(x)
  {
    SumWithout(f, xs, i);
    SumWithout(f, xs[i := x], i);
    assert Without(xs[i := x], i) == Without(xs, i);
  }

  lemma {:induction false} SumSameElements<T>(f: T -> real, xs: seq<T>, ys: seq<T>)
    requires multiset(xs) == multiset(ys)
    ensures Sum(f, xs) == Sum(f, ys)
    decreases |xs|
  {
    if xs == [] {
      assert |multiset(ys)| == 0;
    } else {
      assert xs[0] in multiset(xs);
      assert xs[0] in ys;
      var j :| 0 <= j < |ys| && ys[j] == xs[0];
      SumWithout(f, ys, j);
      WithoutElements(ys, j);
      WithoutElements(xs, 0);
      assert Without(xs, 0) == xs[1..];
      SumSameElements(f, xs[1..], Without(ys, j));
    }
  }

  lemma {:induction false} SumOfSums<T>(f: T -> real, g: T -> real, h: T -> real, xs: seq<T>)
    requires forall x :: x in xs ==> h(x) == f(x) + g(x)
    ensures Sum(h, xs) == Sum(f, xs) + Sum(g, xs)
  {
    if xs != [] {
      SumOfSums(f, g, h, xs[1..]);
    }
  }

  /** Equally many equal amounts have the same sum. */
  lemma {:induction false} SumOfEquals<T>(f: T -> real, xs: seq<T>, ys: seq<T>, c: real)
    requires |xs| == |ys|
    requires (forall x :: x in xs ==> f(x) == c) && (forall y :: y in ys ==> f(y) == c)
    ensures Sum(f, xs) == Sum(f, ys)
  {
    if xs != [] {
      SumOfEquals(f, xs[1..], ys[1..], c);
    }
  }

  /** Largest first. */
  ghost predicate Descending<T>(f: T -> real, xs: seq<T>) {
    forall i, j :: 0 <= i < j < |xs| ==> f(xs[i]) >= f(xs[j])
  }

  /** Shifting the window of `n` one place down the list cannot raise its sum. */
  lemma {:induction false} WindowShift<T>(f: T -> real, xs: seq<T>, n: nat)
    requires Descending(f, xs) && n < |xs|
    ensures Sum(f, xs[1..][..n]) <= Sum(f, xs[..n])
  {
    if n > 0 {
      WindowShift(f, xs, n - 1);
      assert xs[1..][..n] == xs[1..][..n - 1] + [xs[n]];
      assert xs[..n] == xs[..n - 1] + [xs[n - 1]];
      SumLast(f, xs[1..][..n - 1], xs[n]);
      SumLast(f, xs[..n - 1], xs[n - 1]);
    } else {
      assert xs[1..][..0] == [] && xs[..0] == [];
    }
  }

  lemma DropHead<T>(xs: seq<T>, chosen: seq<T>)
    requires xs != [] && multiset(chosen) <= multiset(xs) && xs[0] !in chosen
    ensures multiset(chosen) <= multiset(xs[1..])
  {
    WithoutElements(xs, 0);
    assert Without(xs, 0) == xs[1..];
    assert multiset(chosen)[xs[0]] == 0;
  }

  lemma DropBothHeads<T>(xs: seq<T>, chosen: seq<T>, j: nat)
    requires xs != [] && multiset(chosen) <= multiset(xs) && j < |chosen| && chosen[j] == xs[0]
    ensures multiset(Without(chosen, j)) <= multiset(xs[1..])
  {
    WithoutElements(xs, 0);
    assert Without(xs, 0) == xs[1..];
    WithoutElements(chosen, j);
  }

  lemma SumOfTop<T>(f: T -> real, xs: seq<T>, n: nat)
    requires 1 <= n <= |xs|
    ensures Sum(f, xs[..n]) == f(xs[0]) + Sum(f, xs[1..][..n - 1])
  {
    assert xs[..n][0] == xs[0] && xs[..n][1..] == xs[1..][..n - 1];
  }

  lemma HeadIsChosen<T>(f: T -> real, xs: seq<T>, chosen: seq<T>, j: nat)
    requires j < |chosen| <= |xs| && chosen[j] == xs[0]
    requires Sum(f, Without(chosen, j)) <= Sum(f, xs[1..][..|chosen| - 1])
    ensures Sum(f, chosen) <= Sum(f, xs[..|chosen|])
  {
    SumOfTop(f, xs, |chosen|);
    SumWithout(f, chosen, j);
  }

  /** The first `n` of a descending list have the largest sum any `n` of its elements can have. */
  lemma {:induction false} TopIsLargest<T>(f: T -> real, xs: seq<T>, chosen: seq<T>)
    requires Descending(f, xs) && multiset(chosen) <= multiset(xs)
    ensures |chosen| <= |xs|
    ensures Sum(f, chosen) <= Sum(f, xs[..|chosen|])
    decreases |xs|, 1
  {
    SizesBounded(xs, chosen);
    if xs != [] && chosen != [] {
      if xs[0] in chosen {
        TopWithHead(f, xs, chosen);
      } else {
        TopWithoutHead(f, xs, chosen);
      }
    }
  }

  lemma {:induction false} TopWithHead<T>(f: T -> real, xs: seq<T>, chosen: seq<T>)
    requires Descending(f, xs) && multiset(chosen) <= multiset(xs)
    requires xs != [] && xs[0] in chosen && |chosen| <= |xs|
    ensures Sum(f, chosen) <= Sum(f, xs[..|chosen|])
    decreases |xs|, 0
  {
    var j :| 0 <= j < |chosen| && chosen[j] == xs[0];
    DropBothHeads(xs, chosen, j);
    TopIsLargest(f, xs[1..], Without(chosen, j));
    HeadIsChosen(f, xs, chosen, j);
  }

  lemma {:induction false} TopWithoutHead<T>(f: T -> real, xs: seq<T>, chosen: seq<T>)
    requires Descending(f, xs) && multiset(chosen) <= multiset(xs)
    requires xs != [] && xs[0] !in chosen
    ensures |chosen| <= |xs| && Sum(f, chosen) <= Sum(f, xs[..|chosen|])
    decreases |xs|, 0
  {
    DropHead(xs, chosen);
    TopIsLargest(f, xs[1..], chosen);
    WindowShift(f, xs, |chosen|);
  }

  lemma SizesBounded<T>(xs: seq<T>, chosen: seq<T>)
    requires multiset(chosen) <= multiset(xs)
    ensures |chosen| <= |xs|
  {
    var rest := multiset(xs) - multiset(chosen);
    assert multiset(xs) == multiset(chosen) + rest;
    assert |multiset(xs)| == |multiset(chosen)| + |rest|;
  }

  predicate AtLeast<T>(f: T -> real, a: T, b: T) {
    f(a) >= f(b)
  }

  lemma LargestFirst<T(!new)>(f: T -> real, xs: seq<T>)
    ensures var sorted := StableSort(xs, (a, b) => AtLeast(f, a, b));
      Descending(f, sorted) && multiset(sorted) == multiset(xs) && |sorted| == |xs|
  {
    var le := (a: T, b: T) => AtLeast(f, a, b);
    assert TotalPreorder(le);
    SortSorted(xs, le);
    SortElements(xs, le);
    var sorted := StableSort(xs, le);
    assert forall i, j :: 0 <= i < j < |sorted| ==> le(sorted[i], sorted[j]);
  }
}
