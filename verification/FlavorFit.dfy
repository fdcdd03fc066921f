/** How many more instances of a flavor fit, per host and in all. */
module FlavorFit {
  import opened Basics
  import opened Ordering

  /** Python's `int()`: toward zero. */
  function Truncated(x: real): int {
    if x >= 0.0 then x.Floor else -((-x).Floor)
  }

  datatype HostRow = HostRow(name: string, up: bool, vcpuFree: real, memFree: real, diskFree: real)

  datatype Flavor = Flavor(vcpus: nat, ram: nat, disk: nat)

  const UNLIMITED: nat := 1_000_000

  function Min(a: int, b: int): int {
    if a < b then a else b
  }

  /** Floor division by what one instance needs; a need of zero has a fixed answer. */
  function Count(free: int, need: nat, whenZero: int): int {
    if need == 0 then whenZero else free / need
  }

  function Fits(row: HostRow, flavor: Flavor): nat {
    var fits := Min(Min(Count(Truncated(row.vcpuFree), flavor.vcpus, 0), Count(Truncated(row.memFree), flavor.ram, 0)),
                    Count(Truncated(row.diskFree), flavor.disk, UNLIMITED));
    if fits < 0 then 0 else fits
  }

  /** `k` instances stay within what the host really has free. */
  ghost predicate CanHold(row: HostRow, flavor: Flavor, k: nat) {
    k == 0 ||
    (&& (k * flavor.vcpus) as real <= row.vcpuFree
     && (k * flavor.ram) as real <= row.memFree
     && (k * flavor.disk) as real <= row.diskFree)
  }

  lemma FloorDivision(whole: int, need: nat, k: nat)
    requires need > 0
    ensures k <= whole / need <==> k * need <= whole
  {
    var q := whole / need;
    assert whole == q * need + whole % need;
    if q < 0 {
      assert whole < 0;
    } else if k <= q {
      MulMonotone(k, q, need);
    } else {
      MulMonotone(q + 1, k, need);
      MulMonotone(q, q, need);
    }
  }

  lemma TruncationKeeps(free: real, amount: int)
    requires amount > 0
    ensures amount <= Truncated(free) <==> amount as real <= free
  {
  }

  /** Truncating the free amount loses no instance, and floor division counts them all. */
  lemma CountIsLargest(free: real, need: nat, k: nat)
    requires need > 0 && k > 0
    ensures k <= Count(Truncated(free), need, 0) <==> (k * need) as real <= free
  {
    MulMonotone(1, k, need);
    FloorDivision(Truncated(free), need, k);
    TruncationKeeps(free, k * need);
  }

  /** For a flavor with positive needs, `Fits` is the largest number of instances the host can hold. */
  lemma FitsIsLargest(row: HostRow, flavor: Flavor, k: nat)
    requires flavor.vcpus > 0 && flavor.ram > 0 && flavor.disk > 0
    ensures k <= Fits(row, flavor) <==> CanHold(row, flavor, k)
  {
    if k > 0 {
      CountIsLargest(row.vcpuFree, flavor.vcpus, k);
      CountIsLargest(row.memFree, flavor.ram, k);
      CountIsLargest(row.diskFree, flavor.disk, k);
    }
  }

  /** A flavor without disk is counted the same way, but never past a million per host. */
  lemma DisklessIsCapped(row: HostRow, flavor: Flavor, k: nat)
    requires flavor.vcpus > 0 && flavor.ram > 0 && flavor.disk == 0 && row.diskFree >= 0.0
    ensures k <= Fits(row, flavor) <==> CanHold(row, flavor, k) && k <= UNLIMITED
  {
    if k > 0 {
      CountIsLargest(row.vcpuFree, flavor.vcpus, k);
      CountIsLargest(row.memFree, flavor.ram, k);
      assert (k * flavor.disk) as real == 0.0;
    }
  }

  /** Why positive needs are asked for: a flavor with no vCPU need is said to fit nowhere, however much is free. */
  lemma ZeroNeedNeverFits(row: HostRow, flavor: Flavor)
    requires flavor.vcpus == 0 || flavor.ram == 0
    ensures Fits(row, flavor) == 0
  {
  }

  /** A placement puts so many instances on each listed host, none on a host that is not up. */
  ghost predicate Placement(rows: seq<HostRow>, flavor: Flavor, counts: seq<nat>) {
    && |counts| == |rows|
    && forall i :: 0 <= i < |rows| ==> CanHold(rows[i], flavor, counts[i]) && (!rows[i].up ==> counts[i] == 0)
  }

  function TotalOf(counts: seq<nat>): nat {
    if counts == [] then 0 else TotalOf(counts[..|counts| - 1]) + counts[|counts| - 1]
  }

  /** A host and how many fit there. */
  datatype Line = Line(name: string, fits: nat)

  /** A line for each host that is up, in the order listed. */
  function Lines(rows: seq<HostRow>, flavor: Flavor): seq<Line>
    decreases |rows|
  {
    if rows == [] then []
    else
      var last := rows[|rows| - 1];
      Lines(rows[..|rows| - 1], flavor) + if last.up then [Line(last.name, Fits(last, flavor))] else []
  }

  /** The lines are those of the hosts that are up, one each and in the order listed. */
  lemma {:induction false} LinesSpelled(rows: seq<HostRow>, flavor: Flavor) returns (at: seq<nat>)
    ensures |at| == |Lines(rows, flavor)|
    ensures forall i, j :: 0 <= i < j < |at| ==> at[i] < at[j]
    ensures forall i :: 0 <= i < |rows| ==> (rows[i].up <==> i in at)
    ensures forall j :: 0 <= j < |at| ==>
      at[j] < |rows| && Lines(rows, flavor)[j] == Line(rows[at[j]].name, Fits(rows[at[j]], flavor))
    decreases |rows|
  {
    at := [];
    if rows != [] {
      var n := |rows| - 1;
      at := LinesSpelled(rows[..n], flavor);
      if rows[n].up {
        at := at + [n];
      }
    }
  }

  predicate MoreFits(a: Line, b: Line) {
    a.fits >= b.fits
  }

  /** `rest` is what is left of `lines` without `printed`, and has no more room anywhere. */
  ghost predicate SplitsOff(printed: seq<Line>, rest: seq<Line>, lines: seq<Line>) {
    && multiset(printed) + multiset(rest) == multiset(lines)
    && forall i, j :: 0 <= i < |printed| && 0 <= j < |rest| ==> MoreFits(printed[i], rest[j])
  }

  /** The ten lines printed show the most room there is: in descending order, and none left out has more. */
  ghost predicate TopTen(printed: seq<Line>, lines: seq<Line>) {
    && SortedBy(printed, MoreFits)
    && |printed| == Min(10, |lines|)
    && exists rest :: SplitsOff(printed, rest, lines)
  }

  lemma SortedSplits(sorted: seq<Line>, lines: seq<Line>, n: nat)
    requires SortedBy(sorted, MoreFits) && multiset(sorted) == multiset(lines) && n <= |sorted|
    ensures SplitsOff(sorted[..n], sorted[n..], lines) && SortedBy(sorted[..n], MoreFits)
  {
    assert sorted == sorted[..n] + sorted[n..];
    forall i, j | 0 <= i < n && 0 <= j < |sorted| - n ensures MoreFits(sorted[..n][i], sorted[n..][j]) {
      assert sorted[n..][j] == sorted[n + j];
    }
  }

  lemma FirstTenAreTop(lines: seq<Line>)
    ensures var sorted := StableSort(lines, MoreFits);
      TopTen(if |sorted| > 10 then sorted[..10] else sorted, lines)
  {
    var sorted := StableSort(lines, MoreFits);
    SortSorted(lines, MoreFits);
    SortElements(lines, MoreFits);
    var n := Min(10, |sorted|);
    SortedSplits(sorted, lines, n);
    assert |sorted| <= 10 ==> sorted[..n] == sorted;
  }

  /** Each line printed names a listed host that is up and the largest number of instances it can hold. */
  lemma PrintedLinesHold(rows: seq<HostRow>, flavor: Flavor, printed: seq<Line>, k: nat)
    requires flavor.vcpus > 0 && flavor.ram > 0 && flavor.disk > 0
    requires TopTen(printed, Lines(rows, flavor)) && k < |printed|
    ensures exists i ::
      && 0 <= i < |rows| && rows[i].up && rows[i].name == printed[k].name
      && (forall count: nat :: count <= printed[k].fits <==> CanHold(rows[i], flavor, count))
  {
    var lines := Lines(rows, flavor);
    var rest :| SplitsOff(printed, rest, lines);
    assert printed[k] in multiset(printed);
    assert printed[k] in multiset(lines);
    var j :| 0 <= j < |lines| && lines[j] == printed[k];
    var at := LinesSpelled(rows, flavor);
    var i := at[j];
    assert i in at;
    forall count: nat ensures count <= printed[k].fits <==> CanHold(rows[i], flavor, count) {
      FitsIsLargest(rows[i], flavor, count);
    }
  }

  /** What the report prints: the ten hosts with most room, and TOTAL PLACEABLE. */
  method FlavorFit(rows: seq<HostRow>, flavor: Flavor) returns (printed: seq<Line>, total: nat)
    ensures total == TotalOf(BestCounts(rows, flavor))
    ensures TopTen(printed, Lines(rows, flavor))
  {
    total := 0;
    var perHost := [];
    for i := 0 to |rows|
      invariant total == TotalOf(BestCounts(rows[..i], flavor))
      invariant perHost == Lines(rows[..i], flavor)
    {
      var best := BestCounts(rows[..i + 1], flavor);
      assert best[..i] == BestCounts(rows[..i], flavor);
      assert rows[..i + 1][..i] == rows[..i];
      if !rows[i].up {
        continue;
      }
      var fits := Fits(rows[i], flavor);
      total := total + fits;
      perHost := perHost + [Line(rows[i].name, fits)];
    }
    assert rows[..|rows|] == rows;
    FirstTenAreTop(perHost);
    var sorted := StableSort(perHost, MoreFits);
    printed := if |sorted| > 10 then sorted[..10] else sorted;
  }

  function BestCounts(rows: seq<HostRow>, flavor: Flavor): seq<nat> {
    seq(|rows|, i requires 0 <= i < |rows| => if rows[i].up then Fits(rows[i], flavor) else 0)
  }

  lemma {:induction false} SmallerTotals(small: seq<nat>, large: seq<nat>)
    requires |small| == |large| && forall i :: 0 <= i < |small| ==> small[i] <= large[i]
    ensures TotalOf(small) <= TotalOf(large)
  {
    if small != [] {
      SmallerTotals(small[..|small| - 1], large[..|large| - 1]);
    }
  }

  /** TOTAL PLACEABLE is the size of a placement, and no placement is larger. */
  lemma TotalPlaceableIsMaximum(rows: seq<HostRow>, flavor: Flavor)
    requires flavor.vcpus > 0 && flavor.ram > 0 && flavor.disk > 0
    ensures Placement(rows, flavor, BestCounts(rows, flavor))
    ensures forall counts :: Placement(rows, flavor, counts) ==> TotalOf(counts) <= TotalOf(BestCounts(rows, flavor))
  {
    var best := BestCounts(rows, flavor);
    forall i | 0 <= i < |rows| ensures CanHold(rows[i], flavor, best[i]) {
      FitsIsLargest(rows[i], flavor, best[i]);
    }
    forall counts | Placement(rows, flavor, counts) ensures TotalOf(counts) <= TotalOf(best) {
      forall i | 0 <= i < |rows| ensures counts[i] <= best[i] {
        FitsIsLargest(rows[i], flavor, counts[i]);
      }
      SmallerTotals(counts, best);
    }
  }
}
