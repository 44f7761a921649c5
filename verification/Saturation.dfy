// The duration-balanced split past the range of its 64-bit sums.
module Saturation {
  import opened Identity
  import opened Lpt
  import opened Timings

  const U: nat := U64_MAX

  // ----- weights listed in the order they are dealt

  /** A scenario dealt before all others heads the order. */
  lemma OrderedPrepend(w: Weights, k: Key, cost: u64)
    requires k !in w
    requires forall j :: j in w ==> w[j] < cost || (w[j] == cost && KeyBefore(k, j))
    ensures Ordered(w[k := cost]) == [k] + Ordered(w)
  {
    var more := w[k := cost];
    assert IsFirst(more, k);
    FirstUnique(more, k, Ordered(more)[0]);
    assert more - {k} == w;
  }

  datatype Row = Row(key: Key, cost: u64)

  predicate Before(r: Row, s: Row) {
    s.cost <= r.cost && KeyBefore(r.key, s.key) && r.key != s.key
  }

  ghost predicate DealtInOrder(rows: seq<Row>) {
    forall i, j :: 0 <= i < j < |rows| ==> Before(rows[i], rows[j])
  }

  /** The weights file that holds these rows. */
  function File(rows: seq<Row>): Weights {
    if rows == [] then map[] else File(rows[1..])[rows[0].key := rows[0].cost]
  }

  lemma {:induction false} FileHolds(rows: seq<Row>, k: Key)
    requires k in File(rows)
    ensures exists i :: 0 <= i < |rows| && rows[i] == Row(k, File(rows)[k])
  {
    if k == rows[0].key {
      assert rows[0] == Row(k, File(rows)[k]);
    } else {
      FileHolds(rows[1..], k);
      var i :| 0 <= i < |rows[1..]| && rows[1..][i] == Row(k, File(rows)[k]);
      assert rows[i + 1] == Row(k, File(rows)[k]);
    }
  }

  lemma TailInOrder(rows: seq<Row>)
    requires DealtInOrder(rows) && rows != []
    ensures DealtInOrder(rows[1..])
  {
    forall i, j | 0 <= i < j < |rows[1..]| ensures Before(rows[1..][i], rows[1..][j]) {
      assert Before(rows[i + 1], rows[j + 1]);
    }
  }

  lemma FirstIsBefore(rows: seq<Row>, k: Key)
    requires DealtInOrder(rows) && rows != [] && k in File(rows[1..])
    ensures Before(rows[0], Row(k, File(rows[1..])[k]))
  {
    FileHolds(rows[1..], k);
    var i :| 0 <= i < |rows[1..]| && rows[1..][i] == Row(k, File(rows[1..])[k]);
    assert Before(rows[0], rows[i + 1]);
  }

  function Keys(rows: seq<Row>): seq<Key> {
    if rows == [] then [] else [rows[0].key] + Keys(rows[1..])
  }

  function RowCosts(rows: seq<Row>): seq<nat> {
    if rows == [] then [] else [rows[0].cost] + RowCosts(rows[1..])
  }

  /** The rows are dealt as they stand. */
  lemma {:induction false} FileOrdered(rows: seq<Row>)
    requires DealtInOrder(rows)
    ensures Ordered(File(rows)) == Keys(rows) && |File(rows)| == |rows|
  {
    if rows != [] {
      TailInOrder(rows);
      FileOrdered(rows[1..]);
      forall k | k in File(rows[1..]) ensures Before(rows[0], Row(k, File(rows[1..])[k])) {
        FirstIsBefore(rows, k);
      }
      OrderedPrepend(File(rows[1..]), rows[0].key, rows[0].cost);
      assert File(rows).Keys == File(rows[1..]).Keys + {rows[0].key};
      assert |File(rows).Keys| == |File(rows)| && |File(rows[1..]).Keys| == |File(rows[1..])|;
    }
  }

  lemma {:induction false} RowAt(rows: seq<Row>, i: nat)
    requires DealtInOrder(rows) && i < |rows|
    ensures |Keys(rows)| == |RowCosts(rows)| == |rows|
    ensures Keys(rows)[i] == rows[i].key && RowCosts(rows)[i] == rows[i].cost
    ensures rows[i].key in File(rows) && File(rows)[rows[i].key] == rows[i].cost
  {
    TailInOrder(rows);
    if i > 0 {
      RowAt(rows[1..], i - 1);
      assert Before(rows[0], rows[i]);
    } else if |rows| > 1 {
      RowAt(rows[1..], 0);
    }
  }

  lemma FileCosts(rows: seq<Row>)
    requires DealtInOrder(rows) && rows != []
    ensures DealtCosts(File(rows)) == RowCosts(rows)
  {
    FileOrdered(rows);
    RowAt(rows, 0);
    forall i | 0 <= i < |rows| ensures DealtCosts(File(rows))[i] == RowCosts(rows)[i] {
      RowAt(rows, i);
    }
  }

  /** The split that sends the rows where `a` says. */
  function SplitAs(rows: seq<Row>, a: seq<nat>): map<Key, nat>
    requires |Keys(rows)| == |a|
  {
    Table(Keys(rows), a)
  }

  lemma SplitAsHolds(rows: seq<Row>, a: seq<nat>)
    requires DealtInOrder(rows) && |a| == |rows| == |Keys(rows)|
    ensures Keys(rows) == Ordered(File(rows)) && SplitAs(rows, a).Keys == File(rows).Keys
    ensures forall i :: 0 <= i < |a| ==> Keys(rows)[i] in SplitAs(rows, a) && SplitAs(rows, a)[Keys(rows)[i]] == a[i]
  {
    FileOrdered(rows);
    OrderedLists(File(rows));
    TableLookup(Keys(rows), a);
    assert SplitAs(rows, a).Keys == File(rows).Keys;
  }

  lemma SplitAsShards(rows: seq<Row>, a: seq<nat>, m: nat)
    requires DealtInOrder(rows) && rows != [] && |a| == |rows| == |Keys(rows)|
    requires forall i :: 0 <= i < |a| ==> a[i] < m
    ensures IsSplit(File(rows), SplitAs(rows, a), m) && Shards(File(rows), SplitAs(rows, a)) == a
  {
    var keys, s := Keys(rows), SplitAs(rows, a);
    SplitAsHolds(rows, a);
    OrderedLists(File(rows));
    forall k | k in s ensures s[k] < m {
      assert k in keys;
      var i :| 0 <= i < |keys| && keys[i] == k;
    }
  }

  // ----- full shards

  /** The first `m` jobs fill a machine each, and `m + 1` more follow. */
  predicate Fills(p: seq<nat>, m: nat) {
    |p| == 2 * m + 1 && forall j :: 0 <= j < m ==> p[j] == U
  }

  /** Where job `j` goes: once round the machines, and round again. */
  function Round(m: nat, j: nat): nat {
    if j < m then j else if j < 2 * m then j - m else 0
  }

  ghost predicate GoesRound(a: seq<nat>, m: nat) {
    |a| == 2 * m + 1 && forall j :: 0 <= j < |a| ==> a[j] == Round(m, j)
  }

  lemma {:induction false} RoundLoads(p: seq<nat>, a: seq<nat>, m: nat, i: nat, n: nat)
    requires Fills(p, m) && GoesRound(a, m) && i < m && n <= |p|
    ensures Load(p, a, i, n) == (if i < n then U else 0) + (if m + i < n then p[m + i] else 0)
         + (if i == 0 && 2 * m < n then p[2 * m] else 0)
    ensures Taken(a, i, n) == (if i < n then 1 else 0) + (if m + i < n then 1 else 0)
         + (if i == 0 && 2 * m < n then 1 else 0)
  {
    if n > 0 {
      RoundLoads(p, a, m, i, n - 1);
      assert a[n - 1] == Round(m, n - 1);
    }
  }

  predicate MachineLighter(p: seq<nat>, a: seq<nat>, n: nat, i: nat, t: nat)
    requires n <= |p| && n <= |a|
  {
    Lighter(Shown(p, a, i, n), Taken(a, i, n), Shown(p, a, t, n), Taken(a, t, n))
  }

  /** A machine lighter than all before it, and no heavier than any after it, is chosen. */
  lemma {:induction false} TargetIs(p: seq<nat>, a: seq<nat>, m: nat, n: nat, t: nat)
    requires n <= |p| && n <= |a| && t < m
    requires forall i :: 0 <= i < t ==> MachineLighter(p, a, n, t, i)
    requires forall i :: t < i < m ==> !MachineLighter(p, a, n, i, t)
    ensures Target(p, a, m, n) == t
  {
    if m > 1 {
      if t == m - 1 {
        assert MachineLighter(p, a, n, t, Target(p, a, m - 1, n));
      } else {
        TargetIs(p, a, m - 1, n, t);
        assert !MachineLighter(p, a, n, m - 1, t);
      }
    }
  }

  /** Once every machine is full their sums say nothing, and jobs go round. */
  lemma RoundChosen(p: seq<nat>, a: seq<nat>, m: nat, j: nat)
    requires Fills(p, m) && GoesRound(a, m) && 0 < m && j < |p|
    ensures Target(p, a, m, j) == Round(m, j)
  {
    var t := Round(m, j);
    RoundLoads(p, a, m, t, j);
    forall i | 0 <= i < m && i != t
      ensures i < t ==> MachineLighter(p, a, j, t, i)
      ensures t < i ==> !MachineLighter(p, a, j, i, t)
    {
      RoundLoads(p, a, m, i, j);
    }
    TargetIs(p, a, m, j, t);
  }

  /** The choice depends on what is placed before. */
  lemma {:induction false} TargetOfPrefix(p: seq<nat>, a: seq<nat>, b: seq<nat>, m: nat, n: nat)
    requires 0 < m && n <= |p| && n <= |a| && n <= |b|
    requires forall j :: 0 <= j < n ==> a[j] == b[j]
    ensures Target(p, a, m, n) == Target(p, b, m, n)
  {
    if m > 1 {
      TargetOfPrefix(p, a, b, m - 1, n);
      var t := Target(p, a, m - 1, n);
      SamePrefix(p, a, b, m - 1, n);
      SamePrefix(p, a, b, t, n);
    }
  }

  lemma RoundStep(p: seq<nat>, a: seq<nat>, m: nat, n: nat)
    requires Fills(p, m) && GoesRound(a, m) && 0 < m && n < |p| && Place(p, m, n) == a[..n]
    ensures Place(p, m, n + 1) == a[..n + 1]
  {
    RoundChosen(p, a, m, n);
    TargetOfPrefix(p, a, a[..n], m, n);
    assert a[..n + 1] == a[..n] + [a[n]];
  }

  lemma {:induction false} PlacedRound(p: seq<nat>, a: seq<nat>, m: nat, n: nat)
    requires Fills(p, m) && GoesRound(a, m) && 0 < m && n <= |p|
    ensures Place(p, m, n) == a[..n]
  {
    if n > 0 {
      PlacedRound(p, a, m, n - 1);
      RoundStep(p, a, m, n - 1);
    }
  }

  lemma FullGoesRound(p: seq<nat>, m: nat)
    requires Fills(p, m) && 0 < m
    ensures GoesRound(Place(p, m, |p|), m)
  {
    var a := seq(|p|, j requires 0 <= j < |p| => Round(m, j));
    PlacedRound(p, a, m, |p|);
    assert a[..|p|] == a;
  }

  // ----- as weights files

  /** The `i`-th of any number of scenarios, in the order of their identities. */
  function Name(i: nat): string {
    if i == 0 then "" else "x" + Name(i - 1)
  }

  lemma {:induction false} NamesInOrder(i: nat, j: nat)
    requires i < j
    ensures StringBefore(Name(i), Name(j))
  {
    if i > 0 {
      NamesInOrder(i - 1, j - 1);
      assert Name(i)[1..] == Name(i - 1) && Name(j)[1..] == Name(j - 1);
    }
  }

  ghost predicate HeaviestFirst(costs: seq<u64>) {
    forall i, j :: 0 <= i < j < |costs| ==> costs[j] <= costs[i]
  }

  function Rows(costs: seq<u64>): (rows: seq<Row>)
    ensures |rows| == |costs|
    ensures forall i :: 0 <= i < |costs| ==> rows[i] == Row(("suite.feature", Name(i)), costs[i])
  {
    seq(|costs|, i requires 0 <= i < |costs| => Row(("suite.feature", Name(i)), costs[i]))
  }

  lemma RowsInOrder(costs: seq<u64>)
    requires HeaviestFirst(costs)
    ensures DealtInOrder(Rows(costs))
  {
    var rows := Rows(costs);
    forall i, j | 0 <= i < j < |rows| ensures Before(rows[i], rows[j]) {
      NamesInOrder(i, j);
      StringTotal(Name(i), Name(j));
    }
  }

  /** The file of these costs is dealt as they stand. */
  lemma FileDealt(costs: seq<u64>)
    requires HeaviestFirst(costs) && costs != []
    ensures var w := File(Rows(costs));
            |w| == |DealtCosts(w)| == |costs| && forall i :: 0 <= i < |costs| ==> DealtCosts(w)[i] == costs[i]
  {
    RowsInOrder(costs);
    FileOrdered(Rows(costs));
    FileCosts(Rows(costs));
    forall i | 0 <= i < |costs| ensures RowCosts(Rows(costs))[i] == costs[i] {
      RowAt(Rows(costs), i);
    }
  }

  /** Its split goes round when the heaviest fill the shards. */
  lemma FileGoesRound(costs: seq<u64>, m: nat)
    requires HeaviestFirst(costs) && 0 < m && |costs| == 2 * m + 1
    requires forall j :: 0 <= j < m ==> costs[j] == U64_MAX
    ensures var w := File(Rows(costs));
            && Split(w, m).Keys == w.Keys
            && Fills(DealtCosts(w), m) && GoesRound(Shards(w, Split(w, m)), m)
  {
    var w := File(Rows(costs));
    FileDealt(costs);
    SplitShards(w, m);
    FullGoesRound(DealtCosts(w), m);
  }

  // ----- the greedy condition is sharp

  /** A full scenario for each of `m` shards, one of cost one, and `m` that cost nothing. */
  function OneTooMany(m: nat): (costs: seq<u64>)
    ensures |costs| == 2 * m + 1
    ensures forall i :: 0 <= i < |costs| ==> costs[i] == if i < m then U64_MAX else if i == m then 1 else 0
  {
    seq(2 * m + 1, i requires 0 <= i < 2 * m + 1 => if i < m then U64_MAX else if i == m then 1 else 0)
  }

  lemma {:induction false} OneTooManyTotal(p: seq<nat>, m: nat, n: nat)
    requires n <= |p| && forall i :: 0 <= i < n ==> p[i] == if i < m then U else if i == m then 1 else 0
    ensures Total(p, n) == (if n <= m then n else m) * U + if m < n then 1 else 0
  {
    if n > 0 {
      OneTooManyTotal(p, m, n - 1);
    }
  }

  lemma OneTooManyMisses(p: seq<nat>, a: seq<nat>, m: nat)
    requires 2 <= m && Fills(p, m) && p[m] == 1 && GoesRound(a, m)
    requires forall i :: m < i < |p| ==> p[i] == 0
    ensures !Greedy(p, a, m)
  {
    RoundLoads(p, a, m, 0, 2 * m);
    RoundLoads(p, a, m, 1, 2 * m);
    assert a[2 * m] == 0 && !DealtToLightest(p, a, m, 2 * m);
  }

  lemma OneTooManyCosts(m: nat)
    requires 2 <= m
    ensures var w, p := File(Rows(OneTooMany(m))), DealtCosts(File(Rows(OneTooMany(m))));
            && |w| == |p| == 2 * m + 1 && AllButLightest(w) == m * U64_MAX + 1
            && forall i :: 0 <= i < |p| ==> p[i] == if i < m then U else if i == m then 1 else 0
  {
    var w := File(Rows(OneTooMany(m)));
    FileDealt(OneTooMany(m));
    OneTooManyTotal(DealtCosts(w), m, 2 * m);
    assert w != map[];
  }

  /**
   * The condition for greediness is sharp at every count from two on: one unit more
   * than the shards hold, and the lightest shard is missed.
   */
  lemma FitIsSharp(m: nat)
    requires 2 <= m
    ensures var w := File(Rows(OneTooMany(m)));
            && AllButLightest(w) == Buckets(m) * U64_MAX + 1 && Split(w, m).Keys == w.Keys
            && !Greedy(DealtCosts(w), Shards(w, Split(w, m)), m)
  {
    var w := File(Rows(OneTooMany(m)));
    OneTooManyCosts(m);
    FileGoesRound(OneTooMany(m), m);
    OneTooManyMisses(DealtCosts(w), Shards(w, Split(w, m)), m);
  }

  // ----- the bound itself can fail

  /** Three full scenarios and two halves, for two shards. */
  function Oversized(): (costs: seq<u64>)
    ensures |costs| == 5 && costs[0] == costs[1] == costs[2] == U64_MAX && costs[3] == costs[4] == U64_MAX / 2
  {
    [U64_MAX, U64_MAX, U64_MAX, U64_MAX / 2, U64_MAX / 2]
  }

  /** The first two on the first shard, the others on the second. */
  predicate Gathers(b: seq<nat>) {
    |b| == 5 && b[0] == 0 && b[1] == 0 && b[2] == 1 && b[3] == 1 && b[4] == 1
  }

  lemma Gathered() returns (b: seq<nat>)
    ensures Gathers(b) && forall i :: 0 <= i < |b| ==> b[i] < 2
  {
    b := [0, 0, 1, 1, 1];
  }

  lemma LoadStep(p: seq<nat>, a: seq<nat>, i: nat, n: nat)
    requires n < |p| == |a|
    ensures Load(p, a, i, n + 1) == Load(p, a, i, n) + if a[n] == i then p[n] else 0
  {
  }

  lemma GatheredLoads(p: seq<nat>, b: seq<nat>, i: nat)
    requires |p| == 5 && Gathers(b) && i < 2
    ensures Load(p, b, i, 5) == if i == 0 then p[0] + p[1] else p[2] + p[3] + p[4]
  {
    LoadStep(p, b, i, 0);
    LoadStep(p, b, i, 1);
    LoadStep(p, b, i, 2);
    LoadStep(p, b, i, 3);
    LoadStep(p, b, i, 4);
  }

  /** Gathering beats going round by more than the bound. */
  lemma GatheringBeats(p: seq<nat>, a: seq<nat>, b: seq<nat>)
    requires Fills(p, 2) && p[2] == U && p[3] == p[4] == U / 2 && GoesRound(a, 2) && Gathers(b)
    ensures 3 * 2 * Makespan(p, a, 2) > (4 * 2 - 1) * Makespan(p, b, 2)
  {
    RoundLoads(p, a, 2, 0, 5);
    GatheredLoads(p, b, 0);
    GatheredLoads(p, b, 1);
    MakespanIsMax(p, a, 2);
    MakespanIsMax(p, b, 2);
  }

  lemma FileGathered(costs: seq<u64>)
    requires HeaviestFirst(costs) && |costs| == 5
    ensures exists other :: IsSplit(File(Rows(costs)), other, 2) && Gathers(Shards(File(Rows(costs)), other))
  {
    var rows := Rows(costs);
    var b := Gathered();
    RowsInOrder(costs);
    RowAt(rows, 0);
    SplitAsShards(rows, b, 2);
    assert Gathers(Shards(File(rows), SplitAs(rows, b)));
  }

  /** A weights file whose split over two shards takes more than the bound allows over another split. */
  lemma SaturationBreaksBound()
    ensures var w := File(Rows(Oversized()));
            && Split(w, 2).Keys == w.Keys
            && exists other :: IsSplit(w, other, 2)
                 && 3 * 2 * MatrixCost(w, Split(w, 2), 2) > (4 * 2 - 1) * MatrixCost(w, other, 2)
  {
    var w := File(Rows(Oversized()));
    FileDealt(Oversized());
    FileGoesRound(Oversized(), 2);
    FileGathered(Oversized());
    var other :| IsSplit(w, other, 2) && Gathers(Shards(w, other));
    GatheringBeats(DealtCosts(w), Shards(w, Split(w, 2)), Shards(w, other));
  }
}
