/** Python's `sorted`: a stable sort, with the laws the scripts rely on. */
module Ordering {

  ghost predicate TotalPreorder<T(!new)>(le: (T, T) -> bool) {
    && (forall a, b :: le(a, b) || le(b, a))
    && (forall a, b, c :: le(a, b) && le(b, c) ==> le(a, c))
  }

  ghost predicate SortedBy<T>(xs: seq<T>, le: (T, T) -> bool) {
    forall i, j :: 0 <= i < j < |xs| ==> le(xs[i], xs[j])
  }

  function Filter<T>(xs: seq<T>, p: T -> bool): seq<T> {
    if xs == [] then [] else if p(xs[0]) then [xs[0]] + Filter(xs[1..], p) else Filter(xs[1..], p)
  }

  function Insert<T>(x: T, ys: seq<T>, le: (T, T) -> bool): seq<T> {
    if ys == [] || le(x, ys[0]) then [x] + ys else [ys[0]] + Insert(x, ys[1..], le)
  }

  /** Elements that compare equal keep their original order. */
  function StableSort<T>(xs: seq<T>, le: (T, T) -> bool): seq<T> {
    if xs == [] then [] else Insert(xs[0], StableSort(xs[1..], le), le)
  }

  lemma {:induction false} InsertElements<T>(x: T, ys: seq<T>, le: (T, T) -> bool)
    ensures multiset(Insert(x, ys, le)) == multiset{x} + multiset(ys)
  {
    if ys != [] && !le(x, ys[0]) {
      InsertElements(x, ys[1..], le);
      assert ys == [ys[0]] + ys[1..];
    }
  }

  lemma {:induction false} SortElements<T>(xs: seq<T>, le: (T, T) -> bool)
    ensures multiset(StableSort(xs, le)) == multiset(xs)
    ensures |StableSort(xs, le)| == |xs|
    ensures forall x :: x in StableSort(xs, le) <==> x in xs
  {
    if xs != [] {
      SortElements(xs[1..], le);
      InsertElements(xs[0], StableSort(xs[1..], le), le);
      assert xs == [xs[0]] + xs[1..];
    }
    assert |multiset(StableSort(xs, le))| == |multiset(xs)|;
    forall x ensures x in StableSort(xs, le) <==> x in xs {
      assert x in StableSort(xs, le) <==> x in multiset(StableSort(xs, le));
      assert x in xs <==> x in multiset(xs);
    }
  }

  lemma {:induction false} InsertSorted<T(!new)>(x: T, ys: seq<T>, le: (T, T) -> bool)
    requires TotalPreorder(le) && SortedBy(ys, le)
    ensures SortedBy(Insert(x, ys, le), le)
  {
    if ys == [] {
    } else if le(x, ys[0]) {
      forall j | 0 <= j < |ys| ensures le(x, ys[j]) { assert j > 0 ==> le(ys[0], ys[j]); }
    } else {
      InsertSorted(x, ys[1..], le);
      InsertElements(x, ys[1..], le);
      var rest := Insert(x, ys[1..], le);
      forall j | 0 <= j < |rest| ensures le(ys[0], rest[j]) {
        assert rest[j] in multiset(rest);
        if rest[j] != x {
          assert rest[j] in ys[1..];
        }
      }
    }
  }

  lemma {:induction false} SortSorted<T(!new)>(xs: seq<T>, le: (T, T) -> bool)
    requires TotalPreorder(le)
    ensures SortedBy(StableSort(xs, le), le)
  {
    if xs != [] {
      SortSorted(xs[1..], le);
      InsertSorted(xs[0], StableSort(xs[1..], le), le);
    }
  }

  lemma {:induction false} FilterElements<T>(xs: seq<T>, p: T -> bool)
    ensures forall x :: x in Filter(xs, p) <==> x in xs && p(x)
    ensures |Filter(xs, p)| <= |xs|
  {
    if xs != [] {
      FilterElements(xs[1..], p);
      assert xs == [xs[0]] + xs[1..];
    }
  }

  lemma {:induction false} FilterAppend<T>(xs: seq<T>, ys: seq<T>, p: T -> bool)
    ensures Filter(xs + ys, p) == Filter(xs, p) + Filter(ys, p)
  {
    if xs == [] {
      assert xs + ys == ys;
    } else {
      FilterAppend(xs[1..], ys, p);
      assert (xs + ys)[1..] == xs[1..] + ys;
    }
  }

  lemma FilterOne<T>(x: T, p: T -> bool)
    ensures Filter([x], p) == if p(x) then [x] else []
  {
    assert [x][1..] == [];
  }

  /** Filtering in two passes is filtering once by the conjunction. */
  lemma {:induction false} FilterTwice<T(!new)>(xs: seq<T>, p: T -> bool, q: T -> bool, both: T -> bool)
    requires forall x :: both(x) <==> p(x) && q(x)
    ensures Filter(Filter(xs, p), q) == Filter(xs, both)
  {
    if xs != [] {
      FilterTwice(xs[1..], p, q, both);
      if p(xs[0]) {
        assert ([xs[0]] + Filter(xs[1..], p))[1..] == Filter(xs[1..], p);
      }
    }
  }

  lemma {:induction false} FilterAll<T>(xs: seq<T>, p: T -> bool)
    requires forall x :: x in xs ==> p(x)
    ensures Filter(xs, p) == xs
  {
    if xs != [] {
      FilterAll(xs[1..], p);
    }
  }

  lemma {:induction false} FilterInsert<T(!new)>(x: T, ys: seq<T>, le: (T, T) -> bool, p: T -> bool)
    requires TotalPreorder(le) && SortedBy(ys, le)
    ensures Filter(Insert(x, ys, le), p) == if p(x) then Insert(x, Filter(ys, p), le) else Filter(ys, p)
  {
    if ys == [] {
    } else if le(x, ys[0]) {
      assert ([x] + ys)[1..] == ys;
      FilterElements(ys, p);
      var kept := Filter(ys, p);
      if kept != [] {
        assert kept[0] in ys;
        var j :| 0 <= j < |ys| && ys[j] == kept[0];
        assert le(x, kept[0]) by { assert j > 0 ==> le(ys[0], ys[j]); }
      }
    } else {
      FilterInsert(x, ys[1..], le, p);
      assert ([ys[0]] + Insert(x, ys[1..], le))[1..] == Insert(x, ys[1..], le);
    }
  }

  /** Dropping elements before or after a stable sort comes to the same thing. */
  lemma {:induction false} FilterCommutesWithSort<T(!new)>(xs: seq<T>, le: (T, T) -> bool, p: T -> bool)
    requires TotalPreorder(le)
    ensures Filter(StableSort(xs, le), p) == StableSort(Filter(xs, p), le)
  {
    if xs != [] {
      FilterCommutesWithSort(xs[1..], le, p);
      SortSorted(xs[1..], le);
      FilterInsert(xs[0], StableSort(xs[1..], le), le, p);
      var kept := Filter(xs[1..], p);
      if p(xs[0]) {
        assert ([xs[0]] + kept)[1..] == kept;
      }
    }
  }

  /** A finite set is at least as large as any of its subsets. */
  lemma {:induction false} SubsetSize<T>(a: set<T>, b: set<T>)
    requires a <= b
    ensures |a| <= |b|
  {
    if a != {} {
      var x :| x in a;
      SubsetSize(a - {x}, b - {x});
    }
  }

  ghost predicate Distinct<T>(xs: seq<T>) {
    forall i, j :: 0 <= i < j < |xs| ==> xs[i] != xs[j]
  }

  lemma {:induction false} FilterOnce<T>(xs: seq<T>, p: T -> bool)
    requires Distinct(xs)
    ensures Distinct(Filter(xs, p))
  {
    if xs != [] {
      FilterOnce(xs[1..], p);
      FilterElements(xs[1..], p);
      assert xs[0] !in xs[1..];
    }
  }

  lemma {:induction false} DistinctByCount<T>(xs: seq<T>)
    ensures Distinct(xs) <==> forall x :: multiset(xs)[x] <= 1
  {
    if xs != [] {
      DistinctByCount(xs[1..]);
      assert xs == [xs[0]] + xs[1..];
      if xs[0] in xs[1..] {
        var j :| 0 <= j < |xs[1..]| && xs[1..][j] == xs[0];
        assert xs[j + 1] == xs[0];
        assert multiset(xs)[xs[0]] >= 2;
      }
      assert Distinct(xs) <==> Distinct(xs[1..]) && xs[0] !in xs[1..];
      assert forall x :: multiset(xs)[x] == (if x == xs[0] then 1 else 0) + multiset(xs[1..])[x];
    }
  }

  lemma SortOnce<T>(xs: seq<T>, le: (T, T) -> bool)
    requires Distinct(xs)
    ensures Distinct(StableSort(xs, le))
  {
    SortElements(xs, le);
    DistinctByCount(xs);
    DistinctByCount(StableSort(xs, le));
  }

  /** Counting a list without repeats counts its set of elements. */
  lemma {:induction false} DistinctSize<T>(xs: seq<T>)
    requires Distinct(xs)
    ensures |set x | x in xs| == |xs|
  {
    if xs != [] {
      DistinctSize(xs[1..]);
      assert xs == [xs[0]] + xs[1..];
      assert xs[0] !in xs[1..];
      assert (set x | x in xs) == {xs[0]} + (set x | x in xs[1..]);
    }
  }
}
