/** The nearest-rank percentile of the rightsizing report. */
module Percentile {
  import opened Ordering

  /** Python's `round(x)`: to the nearest integer, ties to the even one. */
  function RoundHalfEven(x: real): int {
    var low := x.Floor;
    var rest := x - low as real;
    if rest < 0.5 then low
    else if rest > 0.5 then low + 1
    else if low % 2 == 0 then low else low + 1
  }

  predicate RealLe(a: real, b: real) {
    a <= b
  }

  /** pct% of n */
  function Share(pct: real, n: nat): real {
    pct / 100.0 * n as real
  }

  /** The position picked in the sorted samples, after both clamps. */
  function Rank(share: real, n: nat): nat
    requires n > 0
    ensures Rank(share, n) < n
  {
    var index := RoundHalfEven(share + 0.5) - 1;
    var capped := if index < n - 1 then index else n - 1;
    if capped < 0 then 0 else capped
  }

  /** The sample in that position. */
  function Picked(values: seq<real>, share: real): real
    requires values != []
  {
    SortElements(values, RealLe);
    StableSort(values, RealLe)[Rank(share, |values|)]
  }

  /** Python's `round(x, 1)`, on exact numbers. */
  function RoundTenth(x: real): real {
    RoundHalfEven(x * 10.0) as real / 10.0
  }

  method Percentile(values: seq<real>, pct: real) returns (p: real)
    ensures p == if values == [] then 0.0 else RoundTenth(Picked(values, Share(pct, |values|)))
  {
    if values == [] {
      return 0.0;
    }
    var ordered := StableSort(values, RealLe);
    SortElements(values, RealLe);
    p := RoundTenth(ordered[Rank(Share(pct, |ordered|), |ordered|)]);
  }

  /** How many samples are at most `p`, or with `strict` below it. */
  function Count(xs: seq<real>, p: real, strict: bool): nat {
    if xs == [] then 0
    else (if xs[0] < p || (!strict && xs[0] == p) then 1 else 0) + Count(xs[1..], p, strict)
  }

  lemma {:induction false} CountAppend(xs: seq<real>, ys: seq<real>, p: real, strict: bool)
    ensures Count(xs + ys, p, strict) == Count(xs, p, strict) + Count(ys, p, strict)
  {
    if xs == [] {
      assert xs + ys == ys;
    } else {
      CountAppend(xs[1..], ys, p, strict);
      assert (xs + ys)[1..] == xs[1..] + ys;
    }
  }

  lemma {:induction false} CountInsert(x: real, ys: seq<real>, p: real, strict: bool)
    ensures Count(Insert(x, ys, RealLe), p, strict) == Count([x], p, strict) + Count(ys, p, strict)
  {
    assert [x][1..] == [];
    if ys == [] || RealLe(x, ys[0]) {
      CountAppend([x], ys, p, strict);
    } else {
      CountInsert(x, ys[1..], p, strict);
      var rest := Insert(x, ys[1..], RealLe);
      assert ([ys[0]] + rest)[1..] == rest;
    }
  }

  /** Sorting does not change the counts. */
  lemma {:induction false} CountSorted(xs: seq<real>, p: real, strict: bool)
    ensures Count(StableSort(xs, RealLe), p, strict) == Count(xs, p, strict)
  {
    if xs != [] {
      CountSorted(xs[1..], p, strict);
      CountInsert(xs[0], StableSort(xs[1..], RealLe), p, strict);
      assert [xs[0]][1..] == [];
    }
  }

  lemma {:induction false} CountAll(xs: seq<real>, p: real)
    requires forall i :: 0 <= i < |xs| ==> xs[i] <= p
    ensures Count(xs, p, false) == |xs|
  {
    if xs != [] {
      CountAll(xs[1..], p);
    }
  }

  lemma {:induction false} CountNone(xs: seq<real>, p: real)
    requires forall i :: 0 <= i < |xs| ==> xs[i] >= p
    ensures Count(xs, p, true) == 0
  {
    if xs != [] {
      CountNone(xs[1..], p);
    }
  }

  lemma {:induction false} CountBounded(xs: seq<real>, p: real, strict: bool)
    ensures Count(xs, p, strict) <= |xs|
  {
    if xs != [] {
      CountBounded(xs[1..], p, strict);
    }
  }

  /** In sorted order at least k + 1 samples are at most the k-th, and at most k are below it. */
  lemma CountsAround(sorted: seq<real>, k: nat)
    requires SortedBy(sorted, RealLe) && k < |sorted|
    ensures Count(sorted, sorted[k], false) >= k + 1
    ensures Count(sorted, sorted[k], true) <= k
  {
    assert forall i, j :: 0 <= i < j < |sorted| ==> RealLe(sorted[i], sorted[j]);
    assert sorted == sorted[..k + 1] + sorted[k + 1..] && sorted == sorted[..k] + sorted[k..];
    CountAppend(sorted[..k + 1], sorted[k + 1..], sorted[k], false);
    CountAll(sorted[..k + 1], sorted[k]);
    CountAppend(sorted[..k], sorted[k..], sorted[k], true);
    CountNone(sorted[k..], sorted[k]);
    CountBounded(sorted[..k], sorted[k], true);
  }

  /** Rounding and both clamps keep the rank within one of the share. */
  lemma RankBounds(share: real, n: nat)
    requires n > 0 && 0.0 <= share <= n as real
    ensures Rank(share, n) as real <= share <= Rank(share, n) as real + 1.0
  {
    var r := RoundHalfEven(share + 0.5);
    assert share <= r as real <= share + 1.0;
  }

  /** Rounding goes to the nearest integer, and from the middle between two to the even one. */
  lemma RoundsToNearest(x: real, k: int)
    ensures RoundHalfEven(x) == k <==>
      (k as real - 0.5 < x < k as real + 0.5) || (k % 2 == 0 && (x == k as real - 0.5 || x == k as real + 0.5))
  {
    var low := x.Floor;
    assert low as real <= x < low as real + 1.0;
  }

  /**
   The position picked, exactly: the whole part of the share; where the share is a whole number, that number
   if it is odd and the one before if it is even; never past the last sample nor before the first.
   */
  lemma RankSpelled(share: real, n: nat)
    requires n > 0 && 0.0 <= share <= n as real
    ensures var whole := share.Floor;
      var at := if share == whole as real && whole % 2 == 0 then whole - 1 else whole;
      Rank(share, n) == if at < 0 then 0 else if at > n - 1 then n - 1 else at
  {
    var whole := share.Floor;
    RoundsToNearest(share + 0.5, if share == whole as real && whole % 2 == 0 then whole else whole + 1);
  }

  lemma ShareBounds(pct: real, n: nat)
    requires 0.0 <= pct <= 100.0
    ensures 0.0 <= Share(pct, n) <= n as real
  {
    PartOf(pct / 100.0, n);
  }

  lemma {:induction false} PartOf(part: real, n: nat)
    requires 0.0 <= part <= 1.0
    ensures 0.0 <= part * n as real <= n as real
  {
    if n > 0 {
      PartOf(part, n - 1);
      assert part * n as real == part * (n - 1) as real + part;
    }
  }

  lemma PickedSplits(values: seq<real>, share: real)
    requires values != [] && 0.0 <= share <= |values| as real
    ensures var p := Picked(values, share);
      && p in values
      && Count(values, p, false) as real >= share
      && Count(values, p, true) as real <= share
  {
    var sorted := StableSort(values, RealLe);
    var k := Rank(share, |values|);
    SortElements(values, RealLe);
    SortSorted(values, RealLe);
    assert sorted[k] in sorted;
    RankBounds(share, |values|);
    CountsAround(sorted, k);
    CountSorted(values, sorted[k], false);
    CountSorted(values, sorted[k], true);
  }

  lemma {:induction false} CountIs(xs: seq<real>, p: real)
    ensures Count(xs, p, false) == |Filter(xs, (x: real) => x <= p)|
    ensures Count(xs, p, true) == |Filter(xs, (x: real) => x < p)|
  {
    if xs != [] {
      CountIs(xs[1..], p);
    }
  }

  lemma ShareSpelled(pct: real, n: nat)
    ensures 100.0 * Share(pct, n) == pct * n as real
  {
  }

  /**
   A true quantile: for any samples and any percentage, at least that share of the samples is at
   most the result and at most that share lies strictly below it.
   */
  lemma PercentileIsQuantile(values: seq<real>, pct: real)
    requires values != [] && 0.0 <= pct <= 100.0
    ensures var p := Picked(values, Share(pct, |values|));
      && p in values
      && 100.0 * |Filter(values, (x: real) => x <= p)| as real >= pct * |values| as real
      && 100.0 * |Filter(values, (x: real) => x < p)| as real <= pct * |values| as real
  {
    var share := Share(pct, |values|);
    ShareBounds(pct, |values|);
    ShareSpelled(pct, |values|);
    PickedSplits(values, share);
    CountIs(values, Picked(values, share));
  }

  lemma RoundedIsNear(x: real)
    ensures x - 0.05 <= RoundTenth(x) <= x + 0.05
  {
    var r := RoundHalfEven(x * 10.0);
    assert x * 10.0 - 0.5 <= r as real <= x * 10.0 + 0.5;
  }

  lemma {:induction false} CountGrows(xs: seq<real>, p: real, q: real, strict: bool)
    requires p <= q
    ensures Count(xs, p, strict) <= Count(xs, q, strict)
  {
    if xs != [] {
      CountGrows(xs[1..], p, q, strict);
    }
  }

  /** `p` parts the samples at `share`, give or take `slack`. */
  ghost predicate PartsAt(values: seq<real>, p: real, share: real, slack: real) {
    && Count(values, p + slack, false) as real >= share
    && Count(values, p - slack, true) as real <= share
  }

  lemma NearPartsToo(values: seq<real>, p: real, q: real, share: real)
    requires PartsAt(values, p, share, 0.0) && p - 0.05 <= q <= p + 0.05
    ensures PartsAt(values, q, share, 0.05)
  {
    assert p + 0.0 == p && p - 0.0 == p;
    CountGrows(values, p, q + 0.05, false);
    CountGrows(values, q - 0.05, p, true);
  }

  lemma RoundedPicksNear(values: seq<real>, share: real)
    requires values != [] && 0.0 <= share <= |values| as real
    ensures PartsAt(values, RoundTenth(Picked(values, share)), share, 0.05)
  {
    PickedSplits(values, share);
    var p := Picked(values, share);
    assert p + 0.0 == p && p - 0.0 == p;
    RoundedIsNear(p);
    NearPartsToo(values, p, RoundTenth(p), share);
  }

  /** What is reported is rounded to one decimal, so it is a quantile up to half a tenth either way. */
  lemma ReportedIsNearQuantile(values: seq<real>, pct: real)
    requires values != [] && 0.0 <= pct <= 100.0
    ensures var share := Share(pct, |values|);
      PartsAt(values, RoundTenth(Picked(values, share)), share, 0.05)
  {
    ShareBounds(pct, |values|);
    RoundedPicksNear(values, Share(pct, |values|));
  }
}
