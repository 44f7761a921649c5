// The approximation bound of longest-processing-time-first scheduling, which
// the duration-balanced shard split uses. Jobs and machines only: a job is an
// index into a sequence of costs, a machine is a number below `m`.
module Lpt {
  import opened Arithmetic

  /** Cost that the first `n` jobs of `p`, placed by `a`, put on machine `i`. */
  function Load(p: seq<nat>, a: seq<nat>, i: nat, n: nat): nat
    requires n <= |p| && n <= |a|
  {
    if n == 0 then 0 else Load(p, a, i, n - 1) + if a[n - 1] == i then p[n - 1] else 0
  }

  function Total(p: seq<nat>, n: nat): nat
    requires n <= |p|
  {
    if n == 0 then 0 else Total(p, n - 1) + p[n - 1]
  }

  /** Cost on the machines below `m` together. */
  function LoadsBelow(p: seq<nat>, a: seq<nat>, m: nat, n: nat): nat
    requires n <= |p| && n <= |a|
  {
    if m == 0 then 0 else LoadsBelow(p, a, m - 1, n) + Load(p, a, m - 1, n)
  }

  /** The largest load: when the matrix finishes. */
  function Makespan(p: seq<nat>, a: seq<nat>, m: nat): nat
    requires |p| <= |a|
  {
    if m == 0 then 0
    else
      var rest := Makespan(p, a, m - 1);
      var last := Load(p, a, m - 1, |p|);
      if rest < last then last else rest
  }

  ghost predicate Placement(p: seq<nat>, a: seq<nat>, m: nat) {
    |a| == |p| && forall j :: 0 <= j < |a| ==> a[j] < m
  }

  ghost predicate Descending(p: seq<nat>) {
    forall i, j :: 0 <= i <= j < |p| ==> p[j] <= p[i]
  }

  /** Job `j` went to a machine that was lightest when it was dealt. */
  ghost predicate DealtToLightest(p: seq<nat>, a: seq<nat>, m: nat, j: nat)
    requires j < |p| && j < |a|
  {
    forall i :: 0 <= i < m ==> Load(p, a, a[j], j) <= Load(p, a, i, j)
  }

  ghost predicate Greedy(p: seq<nat>, a: seq<nat>, m: nat) {
    && Placement(p, a, m)
    && forall j :: 0 <= j < |p| ==> DealtToLightest(p, a, m, j)
  }

  // ----- loads, makespan and totals

  lemma {:induction false} MakespanIsMax(p: seq<nat>, a: seq<nat>, m: nat)
    requires |p| <= |a|
    ensures forall i :: 0 <= i < m ==> Load(p, a, i, |p|) <= Makespan(p, a, m)
    ensures m > 0 ==> exists i :: 0 <= i < m && Load(p, a, i, |p|) == Makespan(p, a, m)
  {
    if m > 0 {
      MakespanIsMax(p, a, m - 1);
      if Makespan(p, a, m) == Load(p, a, m - 1, |p|) {
      } else {
        var i :| 0 <= i < m - 1 && Load(p, a, i, |p|) == Makespan(p, a, m - 1);
      }
    }
  }

  lemma {:induction false} LoadMonotone(p: seq<nat>, a: seq<nat>, i: nat, k: nat, n: nat)
    requires k <= n <= |p| && n <= |a|
    ensures Load(p, a, i, k) <= Load(p, a, i, n)
    decreases n
  {
    if k < n {
      LoadMonotone(p, a, i, k, n - 1);
    }
  }

  lemma {:induction false} TotalMonotone(p: seq<nat>, k: nat, n: nat)
    requires k <= n <= |p|
    ensures Total(p, k) <= Total(p, n)
    decreases n
  {
    if k < n {
      TotalMonotone(p, k, n - 1);
    }
  }

  lemma {:induction false} OneMoreJob(p: seq<nat>, a: seq<nat>, m: nat, n: nat)
    requires 0 < n <= |p| && n <= |a|
    ensures LoadsBelow(p, a, m, n)
         == LoadsBelow(p, a, m, n - 1) + if a[n - 1] < m then p[n - 1] else 0
  {
    if m > 0 {
      OneMoreJob(p, a, m - 1, n);
    }
  }

  lemma {:induction false} NoJobsNoLoad(p: seq<nat>, a: seq<nat>, m: nat)
    ensures LoadsBelow(p, a, m, 0) == 0
  {
    if m > 0 {
      NoJobsNoLoad(p, a, m - 1);
    }
  }

  /** No cost is lost or counted twice: the loads add up to the jobs dealt. */
  lemma {:induction false} LoadsPartition(p: seq<nat>, a: seq<nat>, m: nat, n: nat)
    requires n <= |p| && n <= |a|
    requires forall j :: 0 <= j < n ==> a[j] < m
    ensures LoadsBelow(p, a, m, n) == Total(p, n)
  {
    if n == 0 {
      NoJobsNoLoad(p, a, m);
    } else {
      LoadsPartition(p, a, m, n - 1);
      OneMoreJob(p, a, m, n);
    }
  }

  lemma {:induction false} AverageAbove(p: seq<nat>, a: seq<nat>, m: nat, n: nat, x: nat)
    requires n <= |p| && n <= |a|
    requires forall i :: 0 <= i < m ==> x <= Load(p, a, i, n)
    ensures m * x <= LoadsBelow(p, a, m, n)
  {
    if m > 0 {
      AverageAbove(p, a, m - 1, n, x);
      assert m * x == (m - 1) * x + x;
    }
  }

  lemma {:induction false} AverageBelow(p: seq<nat>, a: seq<nat>, m: nat, n: nat, x: nat)
    requires n <= |p| && n <= |a|
    requires forall i :: 0 <= i < m ==> Load(p, a, i, n) <= x
    ensures LoadsBelow(p, a, m, n) <= m * x
  {
    if m > 0 {
      AverageBelow(p, a, m - 1, n, x);
      assert m * x == (m - 1) * x + x;
    }
  }

  /** The job that completed machine `i`'s load. */
  lemma {:induction false} LastJob(p: seq<nat>, a: seq<nat>, i: nat, n: nat) returns (j: nat)
    requires n <= |p| && n <= |a|
    requires Load(p, a, i, n) > 0
    ensures j < n && a[j] == i && Load(p, a, i, n) == Load(p, a, i, j) + p[j]
  {
    if a[n - 1] == i {
      j := n - 1;
    } else {
      j := LastJob(p, a, i, n - 1);
    }
  }

  /** Two different jobs on one machine both count there. */
  lemma {:induction false} TwoJobsOn(p: seq<nat>, a: seq<nat>, i: nat, s: nat, t: nat, n: nat)
    requires s < t < n <= |p| && n <= |a| && a[s] == i && a[t] == i
    ensures p[s] + p[t] <= Load(p, a, i, n)
  {
    LoadMonotone(p, a, i, t + 1, n);
    LoadMonotone(p, a, i, s + 1, t);
  }

  lemma {:induction false} JobOn(p: seq<nat>, a: seq<nat>, i: nat, s: nat, n: nat)
    requires s < n <= |p| && n <= |a| && a[s] == i
    ensures p[s] <= Load(p, a, i, n)
  {
    LoadMonotone(p, a, i, s + 1, n);
  }

  // ----- the averaging half

  /** What greedy placement costs beyond the best split, in terms of the job that ends it. */
  lemma {:induction false} AveragingBound(p: seq<nat>, a: seq<nat>, b: seq<nat>, m: nat, j: nat)
    requires m > 0 && Greedy(p, a, m) && Placement(p, b, m) && j < |p|
    ensures m * Load(p, a, a[j], j) + p[j] <= m * Makespan(p, b, m)
  {
    assert DealtToLightest(p, a, m, j);
    AverageAbove(p, a, m, j, Load(p, a, a[j], j));
    LoadsPartition(p, a, m, j);
    TotalMonotone(p, j + 1, |p|);
    LoadsPartition(p, b, m, |p|);
    MakespanIsMax(p, b, m);
    AverageBelow(p, b, m, |p|, Makespan(p, b, m));
  }

  // ----- the counting half

  /**
   * Counting units: a job that leaves no room for one of size `q` under `limit`
   * counts two, any other job one.
   */
  function Units(p: seq<nat>, limit: nat, q: nat): (u: seq<nat>)
    ensures |u| == |p|
    ensures forall j :: 0 <= j < |p| ==> u[j] == if p[j] + q > limit then 2 else 1
  {
    seq(|p|, j requires 0 <= j < |p| => if p[j] + q > limit then 2 else 1)
  }

  /** With every job above a third of `limit`, a machine within `limit` holds at most two units. */
  lemma {:induction false} AtMostTwoUnits(p: seq<nat>, b: seq<nat>, i: nat, n: nat, limit: nat, q: nat)
    requires n <= |p| && n <= |b|
    requires limit < 3 * q
    requires forall j :: 0 <= j < n ==> q <= p[j]
    requires Load(p, b, i, n) <= limit
    ensures Load(Units(p, limit, q), b, i, n) <= 2
    ensures Load(Units(p, limit, q), b, i, n) == 0 ==> Load(p, b, i, n) == 0
    ensures Load(Units(p, limit, q), b, i, n) == 1 ==> q <= Load(p, b, i, n)
    ensures Load(Units(p, limit, q), b, i, n) == 2 ==> Load(p, b, i, n) + q > limit
  {
    if n > 0 {
      AtMostTwoUnits(p, b, i, n - 1, limit, q);
    }
  }

  /** A machine with no room left for `q` holds at least two units. */
  lemma {:induction false} AtLeastTwoUnits(p: seq<nat>, a: seq<nat>, i: nat, n: nat, limit: nat, q: nat)
    requires n <= |p| && n <= |a|
    requires q <= limit
    requires Load(p, a, i, n) + q > limit
    ensures Load(Units(p, limit, q), a, i, n) >= 2
  {
    var u := Units(p, limit, q);
    var j := LastJob(p, a, i, n);
    if p[j] + q > limit {
      JobOn(u, a, i, j, n);
    } else {
      var k := LastJob(p, a, i, j);
      TwoJobsOn(u, a, i, k, j, n);
    }
  }

  /** The first job whose placement takes its machine past `limit`. */
  lemma {:induction false} FirstOver(p: seq<nat>, a: seq<nat>, limit: nat, m: nat, n: nat) returns (j: nat)
    requires n <= |p| && n <= |a|
    requires exists i :: 0 <= i < m && Load(p, a, i, n) > limit
    ensures j < n && Load(p, a, a[j], j + 1) > limit
    ensures forall i :: 0 <= i < m ==> Load(p, a, i, j) <= limit
  {
    var before := n - 1;
    if exists i :: 0 <= i < m && Load(p, a, i, before) > limit {
      j := FirstOver(p, a, limit, m, before);
    } else {
      j := before;
      var i :| 0 <= i < m && Load(p, a, i, n) > limit;
      assert Load(p, a, i, before) <= limit;
    }
  }

  /**
   * When every job is above a third of what another split achieves, greedy
   * placement is no worse than that split.
   */
  lemma {:induction false} LargeJobsOptimal(p: seq<nat>, a: seq<nat>, b: seq<nat>, m: nat, n: nat)
    requires m > 0 && n <= |p|
    requires Descending(p) && Greedy(p, a, m) && Placement(p, b, m)
    requires n > 0 && Makespan(p, b, m) < 3 * p[n - 1]
    ensures forall i :: 0 <= i < m ==> Load(p, a, i, n) <= Makespan(p, b, m)
  {
    var limit := Makespan(p, b, m);
    if exists i :: 0 <= i < m && Load(p, a, i, n) > limit {
      var j := FirstOver(p, a, limit, m, n);
      var q, next := p[j], j + 1;
      var u := Units(p, limit, q);
      MakespanIsMax(p, b, m);
      JobOn(p, b, b[j], j, |p|);
      assert DealtToLightest(p, a, m, j);
      forall i | 0 <= i < m ensures 2 <= Load(u, a, i, j) {
        AtLeastTwoUnits(p, a, i, j, limit, q);
      }
      forall i | 0 <= i < m ensures Load(u, b, i, next) <= 2 {
        LoadMonotone(p, b, i, next, |p|);
        AtMostTwoUnits(p, b, i, next, limit, q);
      }
      AverageAbove(u, a, m, j, 2);
      AverageBelow(u, b, m, next, 2);
      LoadsPartition(u, a, m, j);
      LoadsPartition(u, b, m, next);
      assert false;
    }
  }

  // ----- the two bounds

  /** Greedy placement in any order is within 2 - 1/m of every other split. */
  lemma {:induction false} ListSchedulingBound(p: seq<nat>, a: seq<nat>, b: seq<nat>, m: nat)
    requires m > 0 && Greedy(p, a, m) && Placement(p, b, m)
    ensures m * Makespan(p, a, m) <= (2 * m - 1) * Makespan(p, b, m)
  {
    MakespanIsMax(p, a, m);
    MakespanIsMax(p, b, m);
    var i :| 0 <= i < m && Load(p, a, i, |p|) == Makespan(p, a, m);
    if Makespan(p, a, m) == 0 {
      TwiceBound(m, 0, 0, Makespan(p, b, m));
    } else {
      var j := LastJob(p, a, i, |p|);
      AveragingBound(p, a, b, m, j);
      JobOn(p, b, b[j], j, |p|);
      TwiceBound(m, Load(p, a, i, j), p[j], Makespan(p, b, m));
    }
  }

  /** Longest-first greedy placement is within 4/3 - 1/(3m) of every other split. */
  lemma {:induction false} LongestFirstBound(p: seq<nat>, a: seq<nat>, b: seq<nat>, m: nat)
    requires m > 0 && Descending(p) && Greedy(p, a, m) && Placement(p, b, m)
    ensures 3 * m * Makespan(p, a, m) <= (4 * m - 1) * Makespan(p, b, m)
  {
    MakespanIsMax(p, a, m);
    var i :| 0 <= i < m && Load(p, a, i, |p|) == Makespan(p, a, m);
    if Makespan(p, a, m) == 0 {
      WithinOptimum(m, 0, Makespan(p, b, m));
    } else {
      var j := LastJob(p, a, i, |p|);
      if Makespan(p, b, m) < 3 * p[j] {
        LargeJobsOptimal(p, a, b, m, j + 1);
        assert Load(p, a, i, j + 1) <= Makespan(p, b, m);
        WithinOptimum(m, Makespan(p, a, m), Makespan(p, b, m));
      } else {
        AveragingBound(p, a, b, m, j);
        FourThirdsBound(m, Load(p, a, i, j), p[j], Makespan(p, b, m));
      }
    }
  }

  // ----- arithmetic of the two bounds

  lemma TwiceBound(m: nat, before: nat, q: nat, best: nat)
    requires m > 0 && m * before + q <= m * best && q <= best
    ensures m * (before + q) <= (2 * m - 1) * best
  {
    Scale(m - 1, q, best);
    Distribute(m, before, q);
    Distribute(m - 1, 1, q);
    Distribute(m, m - 1, best);
  }

  lemma FourThirdsBound(m: nat, before: nat, q: nat, best: nat)
    requires m > 0 && m * before + q <= m * best && 3 * q <= best
    ensures 3 * m * (before + q) <= (4 * m - 1) * best
  {
    Scale(m - 1, 3 * q, best);
    Distribute(m, before, q);
    Distribute(m - 1, 1, q);
    Distribute(3 * m, m - 1, best);
    ThreeTimes(m, before + q);
    ThreeTimes(m, best);
    assert (m - 1) * (3 * q) == 3 * ((m - 1) * q);
  }

  lemma ThreeTimes(m: int, x: int)
    ensures 3 * m * x == 3 * (m * x)
  {
  }

  lemma WithinOptimum(m: nat, x: nat, best: nat)
    requires m > 0 && x <= best
    ensures 3 * m * x <= (4 * m - 1) * best
  {
    Scale(3 * m, x, best);
    Scale(m - 1, 0, best);
    Distribute(3 * m, m - 1, best);
  }
}
