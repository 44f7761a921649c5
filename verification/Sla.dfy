// The run-level latency gate.
module Sla {
  import opened Events

  datatype Row = Row(ms: nat, file: string, line: nat)

  datatype Thresholds = Thresholds(p95: Option<nat>, max: Option<nat>)

  datatype Breach = P95Over(measured: nat, p95: nat) | MaxOver(measured: nat, max: nat)

  datatype Report = Report(measured: nat, breaches: seq<Breach>, slowest: seq<Row>)

  predicate Sorted(s: seq<nat>) {
    forall i, j :: 0 <= i <= j < |s| ==> s[i] <= s[j]
  }

  /** The 1-based nearest rank, kept inside the slice. */
  function Rank(n: nat, p: nat): nat {
    var rank := (p * n + 99) / 100;
    if rank < 1 then 1 else rank
  }

  function Percentile(sorted: seq<nat>, p: nat): Option<nat> {
    var n := |sorted|;
    if n == 0 then None
    else
      var index := Rank(n, p) - 1;
      Some(sorted[if index < n - 1 then index else n - 1])
  }

  /** How many of the values are at most `v`. */
  function CountUpTo(s: seq<nat>, v: nat): nat {
    if s == [] then 0 else CountUpTo(s[..|s| - 1], v) + if s[|s| - 1] <= v then 1 else 0
  }

  function CountBelow(s: seq<nat>, v: nat): nat {
    if v == 0 then 0 else CountUpTo(s, v - 1)
  }

  // ----- the nearest-rank law

  lemma {:induction false} CountAtLeast(s: seq<nat>, v: nat, k: nat)
    requires k <= |s| && forall i :: 0 <= i < k ==> s[i] <= v
    ensures k <= CountUpTo(s, v)
  {
    if s != [] {
      var n := |s| - 1;
      if k == |s| {
        CountAtLeast(s[..n], v, n);
      } else {
        CountAtLeast(s[..n], v, k);
      }
    }
  }

  lemma {:induction false} CountAtMost(s: seq<nat>, v: nat, k: nat)
    requires k <= |s| && forall i :: k <= i < |s| ==> s[i] > v
    ensures CountUpTo(s, v) <= k
  {
    if s != [] {
      var n := |s| - 1;
      CountAtMost(s[..n], v, if k == |s| then n else k);
    }
  }

  lemma RankIsCeiling(n: nat, p: nat)
    requires n >= 1 && 1 <= p <= 100
    ensures 1 <= Rank(n, p) <= n
    ensures p * n <= 100 * Rank(n, p) && 100 * (Rank(n, p) - 1) < p * n
  {
    PercentBounds(n, p);
    var x := p * n;
    assert x <= 100 * ((x + 99) / 100) < x + 100;
  }

  lemma {:induction false} PercentBounds(n: nat, p: nat)
    requires n >= 1 && 1 <= p <= 100
    ensures n <= p * n <= 100 * n
  {
    if n > 1 {
      PercentBounds(n - 1, p);
      assert p * n == p * (n - 1) + p;
    }
  }

  /** The percentile is an element with at least p% of the values up to it and less than p% below it. */
  lemma NearestRank(sorted: seq<nat>, p: nat)
    requires Sorted(sorted) && sorted != [] && 1 <= p <= 100
    ensures Percentile(sorted, p).Some? && Percentile(sorted, p).value in sorted
    ensures 100 * CountUpTo(sorted, Percentile(sorted, p).value) >= p * |sorted|
    ensures 100 * CountBelow(sorted, Percentile(sorted, p).value) < p * |sorted|
  {
    var rank := Rank(|sorted|, p);
    RankIsCeiling(|sorted|, p);
    var v := sorted[rank - 1];
    CountAtLeast(sorted, v, rank);
    if v > 0 {
      CountAtMost(sorted, v - 1, rank - 1);
    }
  }

  lemma {:induction false} CountMonotone(s: seq<nat>, v: nat, w: nat)
    requires v <= w
    ensures CountUpTo(s, v) <= CountUpTo(s, w)
  {
    if s != [] {
      CountMonotone(s[..|s| - 1], v, w);
    }
  }

  /** The percentile exceeds a budget exactly when fewer than p% of the values keep within it. */
  lemma PercentileOver(sorted: seq<nat>, p: nat, budget: nat)
    requires Sorted(sorted) && sorted != [] && 1 <= p <= 100
    ensures Percentile(sorted, p).Some?
    ensures Percentile(sorted, p).value > budget <==> 100 * CountUpTo(sorted, budget) < p * |sorted|
  {
    NearestRank(sorted, p);
    var v := Percentile(sorted, p).value;
    if v > budget {
      CountMonotone(sorted, budget, v - 1);
    } else {
      CountMonotone(sorted, v, budget);
    }
  }

  // ----- the gate

  function Durations(rows: seq<Row>): (d: seq<nat>)
    ensures |d| == |rows| && forall i :: 0 <= i < |rows| ==> d[i] == rows[i].ms
  {
    seq(|rows|, i requires 0 <= i < |rows| => rows[i].ms)
  }

  ghost predicate SortedRows(rows: seq<Row>) {
    forall i, j :: 0 <= i <= j < |rows| ==> rows[i].ms <= rows[j].ms
  }

  method Insert(rows: seq<Row>, row: Row) returns (r: seq<Row>)
    requires SortedRows(rows)
    ensures SortedRows(r) && multiset(r) == multiset(rows) + multiset{row}
  {
    var i := |rows|;
    while i > 0 && rows[i - 1].ms > row.ms
      invariant 0 <= i <= |rows|
      invariant forall j :: i <= j < |rows| ==> row.ms <= rows[j].ms
    {
      i := i - 1;
    }
    InsertedAt(rows, i, row);
    r := rows[..i] + [row] + rows[i..];
  }

  lemma InsertedAt(rows: seq<Row>, i: nat, row: Row)
    requires SortedRows(rows) && i <= |rows|
    requires i > 0 ==> rows[i - 1].ms <= row.ms
    requires i < |rows| ==> row.ms <= rows[i].ms
    ensures SortedRows(rows[..i] + [row] + rows[i..])
    ensures multiset(rows[..i] + [row] + rows[i..]) == multiset(rows) + multiset{row}
  {
    InsertedBag(rows, i, row);
    SortedConcat(rows[..i], [row], row.ms);
    SortedConcat(rows[..i] + [row], rows[i..], row.ms);
  }

  lemma SortedConcat(a: seq<Row>, b: seq<Row>, m: nat)
    requires SortedRows(a) && SortedRows(b)
    requires forall i :: 0 <= i < |a| ==> a[i].ms <= m
    requires forall i :: 0 <= i < |b| ==> m <= b[i].ms
    ensures SortedRows(a + b)
  {
  }

  lemma InsertedBag(rows: seq<Row>, i: nat, row: Row)
    requires i <= |rows|
    ensures multiset(rows[..i] + [row] + rows[i..]) == multiset(rows) + multiset{row}
  {
    assert rows == rows[..i] + rows[i..];
  }

  method SortByDuration(rows: seq<Row>) returns (r: seq<Row>)
    ensures SortedRows(r) && multiset(r) == multiset(rows)
  {
    r := [];
    for i := 0 to |rows|
      invariant SortedRows(r) && multiset(r) == multiset(rows[..i])
    {
      r := Insert(r, rows[i]);
      assert rows[..i + 1] == rows[..i] + [rows[i]];
    }
    assert rows[..|rows|] == rows;
  }

  /** How many rows keep within `v`: the same in every order. */
  function RowsUpTo(rows: seq<Row>, v: nat): nat {
    CountUpTo(Durations(rows), v)
  }

  lemma LastCounts(rows: seq<Row>, v: nat)
    requires rows != []
    ensures RowsUpTo(rows, v) == RowsUpTo(rows[..|rows| - 1], v) + if rows[|rows| - 1].ms <= v then 1 else 0
  {
    assert Durations(rows)[..|rows| - 1] == Durations(rows[..|rows| - 1]);
  }

  lemma {:induction false} CountWithout(rows: seq<Row>, i: nat, v: nat)
    requires i < |rows|
    ensures RowsUpTo(rows, v) == RowsUpTo(rows[..i] + rows[i + 1..], v) + if rows[i].ms <= v then 1 else 0
  {
    var n := |rows| - 1;
    var rest := rows[..i] + rows[i + 1..];
    LastCounts(rows, v);
    if i == n {
      assert rest == rows[..n];
    } else {
      CountWithout(rows[..n], i, v);
      assert rest[..n - 1] == rows[..n][..i] + rows[..n][i + 1..];
      LastCounts(rest, v);
    }
  }

  lemma CancelOne(a: multiset<Row>, b: multiset<Row>, x: Row)
    requires a + multiset{x} == b + multiset{x}
    ensures a == b
  {
    assert a == (a + multiset{x}) - multiset{x};
    assert b == (b + multiset{x}) - multiset{x};
  }

  lemma WithoutBag(b: seq<Row>, i: nat)
    requires i < |b|
    ensures multiset(b) == multiset(b[..i] + b[i + 1..]) + multiset{b[i]}
  {
    assert b == b[..i] + [b[i]] + b[i + 1..];
  }

  /** Where the last row of `a` stands in a permutation of `a`. */
  lemma FindLast(a: seq<Row>, b: seq<Row>) returns (i: nat)
    requires a != [] && multiset(a) == multiset(b)
    ensures i < |b| && b[i] == a[|a| - 1]
    ensures multiset(a[..|a| - 1]) == multiset(b[..i] + b[i + 1..])
  {
    var n := |a| - 1;
    WithoutBag(a, n);
    assert a[..n] + a[n + 1..] == a[..n];
    assert a[n] in multiset(b);
    i :| 0 <= i < |b| && b[i] == a[n];
    WithoutBag(b, i);
    CancelOne(multiset(a[..n]), multiset(b[..i] + b[i + 1..]), a[n]);
  }

  lemma {:induction false} CountOfPermutation(a: seq<Row>, b: seq<Row>, v: nat)
    requires multiset(a) == multiset(b)
    ensures RowsUpTo(a, v) == RowsUpTo(b, v)
  {
    if a == [] {
      assert |multiset(b)| == 0;
    } else {
      var n := |a| - 1;
      var i := FindLast(a, b);
      CountOfPermutation(a[..n], b[..i] + b[i + 1..], v);
      CountWithout(a, n, v);
      CountWithout(b, i, v);
      assert a[..n] + a[n + 1..] == a[..n];
    }
  }

  /** The rows that keep within `v`. */
  ghost function Within(rows: seq<Row>, v: nat): set<int> {
    set i | 0 <= i < |rows| && rows[i].ms <= v
  }

  lemma {:induction false} WithinCounts(rows: seq<Row>, v: nat)
    ensures RowsUpTo(rows, v) == |Within(rows, v)|
  {
    if rows == [] {
      assert Within(rows, v) == {};
    } else {
      var n := |rows| - 1;
      WithinCounts(rows[..n], v);
      LastCounts(rows, v);
      assert Within(rows, v) == if rows[n].ms <= v then Within(rows[..n], v) + {n} else Within(rows[..n], v);
    }
  }

  ghost predicate P95Breached(rows: seq<Row>, budget: nat) {
    100 * |Within(rows, budget)| < 95 * |rows|
  }

  ghost predicate MaxBreached(rows: seq<Row>, budget: nat) {
    exists i :: 0 <= i < |rows| && rows[i].ms > budget
  }

  /** `v` is the nearest-rank 95th percentile of the rows, in whatever order they stand. */
  ghost predicate IsP95(rows: seq<Row>, v: nat) {
    && (exists i :: 0 <= i < |rows| && rows[i].ms == v)
    && 100 * |Within(rows, v)| >= 95 * |rows|
    && (v > 0 ==> 100 * |Within(rows, v - 1)| < 95 * |rows|)
  }

  ghost predicate IsMax(rows: seq<Row>, v: nat) {
    && (exists i :: 0 <= i < |rows| && rows[i].ms == v)
    && forall i :: 0 <= i < |rows| ==> rows[i].ms <= v
  }

  /** What the report says of the 95th percentile. */
  ghost predicate P95Said(rows: seq<Row>, budget: Option<nat>, breaches: seq<Breach>) {
    if budget.Some? && P95Breached(rows, budget.value)
    then |breaches| == 1 && breaches[0].P95Over? && breaches[0].p95 == budget.value && IsP95(rows, breaches[0].measured)
    else breaches == []
  }

  /** What the report says of the longest step. */
  ghost predicate MaxSaid(rows: seq<Row>, budget: Option<nat>, breaches: seq<Breach>) {
    if budget.Some? && MaxBreached(rows, budget.value)
    then |breaches| == 1 && breaches[0].MaxOver? && breaches[0].max == budget.value && IsMax(rows, breaches[0].measured)
    else breaches == []
  }

  lemma PercentileOfRows(rows: seq<Row>, sorted: seq<Row>)
    requires multiset(rows) == multiset(sorted) && SortedRows(sorted) && sorted != []
    ensures Percentile(Durations(sorted), 95).Some? && IsP95(rows, Percentile(Durations(sorted), 95).value)
  {
    var durations := Durations(sorted);
    NearestRank(durations, 95);
    var v := Percentile(durations, 95).value;
    SameSize(rows, sorted);
    CountOfPermutation(rows, sorted, v);
    WithinCounts(rows, v);
    if v > 0 {
      CountOfPermutation(rows, sorted, v - 1);
      WithinCounts(rows, v - 1);
    }
    var j :| 0 <= j < |durations| && durations[j] == v;
    Somewhere(sorted, rows, j);
  }

  /** A row of one list is a row of its permutation. */
  lemma Somewhere(a: seq<Row>, b: seq<Row>, j: nat)
    requires multiset(a) == multiset(b) && j < |a|
    ensures exists i :: 0 <= i < |b| && b[i] == a[j]
  {
    assert a[j] in multiset(b);
  }

  /** The 95th percentile against its budget. */
  method CheckP95(rows: seq<Row>, sorted: seq<Row>, budget: nat) returns (breaches: seq<Breach>)
    requires multiset(rows) == multiset(sorted) && SortedRows(sorted) && sorted != []
    ensures P95Said(rows, Some(budget), breaches)
  {
    var durations := Durations(sorted);
    var measured := Percentile(durations, 95);
    PercentileOver(durations, 95, budget);
    PercentileOfRows(rows, sorted);
    CountOfPermutation(rows, sorted, budget);
    WithinCounts(rows, budget);
    SameSize(rows, sorted);
    breaches := if measured.value > budget then [P95Over(measured.value, budget)] else [];
  }

  /** The slowest step against its budget. */
  method CheckMax(rows: seq<Row>, sorted: seq<Row>, budget: nat) returns (breaches: seq<Breach>)
    requires multiset(rows) == multiset(sorted) && SortedRows(sorted) && sorted != []
    ensures MaxSaid(rows, Some(budget), breaches)
  {
    LastIsLargest(rows, sorted);
    var measured := sorted[|sorted| - 1].ms;
    breaches := if measured > budget then [MaxOver(measured, budget)] else [];
  }

  method Breaches(rows: seq<Row>, sorted: seq<Row>, thresholds: Thresholds) returns (p95: seq<Breach>, max: seq<Breach>)
    requires multiset(rows) == multiset(sorted) && SortedRows(sorted) && sorted != []
    ensures P95Said(rows, thresholds.p95, p95) && MaxSaid(rows, thresholds.max, max)
  {
    p95, max := [], [];
    if thresholds.p95.Some? {
      p95 := CheckP95(rows, sorted, thresholds.p95.value);
    }
    if thresholds.max.Some? {
      max := CheckMax(rows, sorted, thresholds.max.value);
    }
  }

  /**
   * The gate: the p95 breach is reported exactly when fewer than 95% of the steps
   * keep within the budget, the max breach exactly when some step exceeds it.
   */
  method Evaluate(rows: seq<Row>, thresholds: Thresholds) returns (report: Option<Report>)
    ensures report.Some? <==>
              || (thresholds.p95.Some? && P95Breached(rows, thresholds.p95.value))
              || (thresholds.max.Some? && MaxBreached(rows, thresholds.max.value))
    ensures report.Some? ==>
              && report.value.measured == |rows|
              && AreSlowest(rows, report.value.slowest)
              && exists p95, max :: report.value.breaches == p95 + max
                    && P95Said(rows, thresholds.p95, p95) && MaxSaid(rows, thresholds.max, max)
  {
    if rows == [] {
      return None;
    }
    var sorted := SortByDuration(rows);
    SameSize(rows, sorted);
    var p95, max := Breaches(rows, sorted, thresholds);
    var breaches := p95 + max;
    if breaches == [] {
      return None;
    }
    SlowestAreSlowest(rows, sorted);
    report := Some(Report(|sorted|, breaches, Slowest(sorted)));
  }

  /** The last three rows, last first. */
  function Slowest(sorted: seq<Row>): (slow: seq<Row>)
    ensures |slow| == (if |sorted| < 3 then |sorted| else 3)
    ensures forall i :: 0 <= i < |slow| ==> slow[i] == sorted[|sorted| - 1 - i]
  {
    var n := |sorted|;
    seq(if n < 3 then n else 3, i requires 0 <= i < (if n < 3 then n else 3) => sorted[n - 1 - i])
  }

  /** Up to three of the rows, slowest first, and none of the others is slower. */
  ghost predicate AreSlowest(rows: seq<Row>, slow: seq<Row>) {
    && |slow| == (if |rows| < 3 then |rows| else 3)
    && multiset(slow) <= multiset(rows)
    && (forall i, j :: 0 <= i <= j < |slow| ==> slow[j].ms <= slow[i].ms)
    && forall r, i :: r in multiset(rows) - multiset(slow) && 0 <= i < |slow| ==> r.ms <= slow[i].ms
  }

  lemma {:induction false} ReversedBag(a: seq<Row>, b: seq<Row>)
    requires |a| == |b| && forall i :: 0 <= i < |a| ==> a[i] == b[|b| - 1 - i]
    ensures multiset(a) == multiset(b)
  {
    if a != [] {
      var n := |a| - 1;
      forall i | 0 <= i < n ensures a[1..][i] == b[..n][n - 1 - i] {
        assert a[i + 1] == b[n - (i + 1)];
      }
      ReversedBag(a[1..], b[..n]);
      assert a == [a[0]] + a[1..] && b == b[..n] + [b[n]];
    }
  }

  /** What is left of the rows once the last of them are taken. */
  lemma OthersBag(rows: seq<Row>, sorted: seq<Row>, k: nat, slow: multiset<Row>)
    requires k <= |sorted| && multiset(rows) == multiset(sorted) && slow == multiset(sorted[k..])
    ensures slow <= multiset(rows) && multiset(rows) - slow == multiset(sorted[..k])
  {
    assert sorted == sorted[..k] + sorted[k..];
  }

  lemma OthersNotSlower(sorted: seq<Row>, k: nat, r: Row, j: nat)
    requires SortedRows(sorted) && k <= j < |sorted| && r in multiset(sorted[..k])
    ensures r.ms <= sorted[j].ms
  {
    assert r in sorted[..k];
    var i :| 0 <= i < k && sorted[..k][i] == r;
    assert sorted[i] == r;
  }

  lemma NoOtherSlower(rows: seq<Row>, sorted: seq<Row>, slow: seq<Row>, k: nat)
    requires SortedRows(sorted) && |slow| + k == |sorted|
    requires forall i :: 0 <= i < |slow| ==> slow[i] == sorted[|sorted| - 1 - i]
    requires multiset(rows) - multiset(slow) == multiset(sorted[..k])
    ensures forall r, i :: r in multiset(rows) - multiset(slow) && 0 <= i < |slow| ==> r.ms <= slow[i].ms
  {
    forall r, i | r in multiset(rows) - multiset(slow) && 0 <= i < |slow| ensures r.ms <= slow[i].ms {
      OthersNotSlower(sorted, k, r, |sorted| - 1 - i);
    }
  }

  lemma SlowBag(rows: seq<Row>, sorted: seq<Row>, slow: seq<Row>, k: nat)
    requires multiset(rows) == multiset(sorted) && |slow| + k == |sorted|
    requires forall i :: 0 <= i < |slow| ==> slow[i] == sorted[|sorted| - 1 - i]
    ensures multiset(slow) <= multiset(rows) && multiset(rows) - multiset(slow) == multiset(sorted[..k])
  {
    var tail := sorted[k..];
    assert forall i :: 0 <= i < |slow| ==> slow[i] == tail[|tail| - 1 - i];
    ReversedBag(slow, tail);
    OthersBag(rows, sorted, k, multiset(slow));
  }

  lemma SlowestDescend(sorted: seq<Row>)
    requires SortedRows(sorted)
    ensures forall i, j :: 0 <= i <= j < |Slowest(sorted)| ==> Slowest(sorted)[j].ms <= Slowest(sorted)[i].ms
  {
  }

  lemma SlowestAreSlowest(rows: seq<Row>, sorted: seq<Row>)
    requires multiset(rows) == multiset(sorted) && SortedRows(sorted)
    ensures AreSlowest(rows, Slowest(sorted))
  {
    var slow := Slowest(sorted);
    var k := |sorted| - |slow|;
    SameSize(rows, sorted);
    SlowestDescend(sorted);
    SlowBag(rows, sorted, slow, k);
    NoOtherSlower(rows, sorted, slow, k);
  }

  lemma SameSize(a: seq<Row>, b: seq<Row>)
    requires multiset(a) == multiset(b)
    ensures |a| == |b|
  {
    assert |multiset(a)| == |a| && |multiset(b)| == |b|;
  }

  lemma LastIsLargest(rows: seq<Row>, sorted: seq<Row>)
    requires multiset(rows) == multiset(sorted) && SortedRows(sorted) && sorted != []
    ensures IsMax(rows, sorted[|sorted| - 1].ms)
  {
    Somewhere(sorted, rows, |sorted| - 1);
    forall i | 0 <= i < |rows| ensures rows[i].ms <= sorted[|sorted| - 1].ms {
      Somewhere(rows, sorted, i);
    }
  }
}
