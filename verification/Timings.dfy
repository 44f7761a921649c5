// The duration-balanced shard split.
module Timings {
  import opened Identity
  import opened Arithmetic
  import opened Lpt

  const U64_MAX: nat := 0xFFFF_FFFF_FFFF_FFFF

  type u64 = x: nat | x <= U64_MAX

  /** Each scenario's measured cost in milliseconds. */
  type Weights = map<Key, u64>

  function SaturatingAdd(x: u64, y: u64): u64 {
    if x + y <= U64_MAX then x + y else U64_MAX
  }

  /** A split has at least one bucket, whatever count was asked for. */
  function Buckets(count: nat): nat {
    if count == 0 then 1 else count
  }

  // ----- the order scenarios are dealt in

  /** Heavier first; equal costs by identity, never by enumeration order. */
  predicate DealtBefore(w: Weights, a: Key, b: Key)
    requires a in w && b in w
  {
    w[a] > w[b] || (w[a] == w[b] && KeyBefore(a, b))
  }

  ghost predicate IsFirst(w: Weights, k: Key) {
    k in w && forall j :: j in w && j != k ==> DealtBefore(w, k, j)
  }

  lemma DealtTotal(w: Weights, a: Key, b: Key)
    requires a in w && b in w
    ensures a == b || DealtBefore(w, a, b) || DealtBefore(w, b, a)
    ensures !(DealtBefore(w, a, b) && DealtBefore(w, b, a))
  {
    KeyTotal(a, b);
  }

  lemma DealtTransitive(w: Weights, a: Key, b: Key, c: Key)
    requires a in w && b in w && c in w && DealtBefore(w, a, b) && DealtBefore(w, b, c)
    ensures DealtBefore(w, a, c)
  {
    if w[a] == w[c] {
      KeyTransitive(a, b, c);
    }
  }

  type SomeWeights = w: Weights | |w| > 0 witness map[("", "") := 0]

  lemma {:induction false} FirstExists(w: SomeWeights)
    ensures exists k :: IsFirst(w, k)
    decreases |w|
  {
    var x :| x in w;
    var rest := w - {x};
    if rest == map[] {
      assert w.Keys == {x} + rest.Keys;
      assert IsFirst(w, x);
    } else {
      FirstExists(rest);
      var k :| IsFirst(rest, k);
      DealtTotal(w, x, k);
      if DealtBefore(w, k, x) {
        assert IsFirst(w, k);
      } else {
        forall j | j in w && j != x ensures DealtBefore(w, x, j) {
          if j != k {
            assert DealtBefore(rest, k, j);
            DealtTransitive(w, x, k, j);
          }
        }
        assert IsFirst(w, x);
      }
    }
  }

  /** The scenarios in the order they are dealt: a function of the weights alone. */
  ghost function Ordered(w: Weights): (keys: seq<Key>)
    decreases |w|
  {
    if w == map[] then []
    else
      FirstExists(w);
      var k :| IsFirst(w, k);
      [k] + Ordered(w - {k})
  }

  lemma FirstUnique(w: Weights, j: Key, k: Key)
    requires IsFirst(w, j) && IsFirst(w, k)
    ensures j == k
  {
    DealtTotal(w, j, k);
  }

  lemma {:induction false} OrderedLists(w: Weights)
    ensures |Ordered(w)| == |w|
    ensures forall k :: k in Ordered(w) <==> k in w
    ensures forall i, j :: 0 <= i < j < |Ordered(w)| ==> Ordered(w)[i] != Ordered(w)[j]
    decreases |w|
  {
    if w != map[] {
      FirstExists(w);
      var keys := Ordered(w);
      var rest := w - {keys[0]};
      OrderedLists(rest);
      assert keys == [keys[0]] + Ordered(rest);
      assert w.Keys == {keys[0]} + rest.Keys;
    }
  }

  function Costs(w: Weights, keys: seq<Key>): (p: seq<nat>)
    requires forall k :: k in keys ==> k in w
    ensures |p| == |keys| && forall i :: 0 <= i < |keys| ==> p[i] == w[keys[i]]
  {
    seq(|keys|, i requires 0 <= i < |keys| => w[keys[i]])
  }

  lemma OrderedHead(w: SomeWeights)
    ensures Ordered(w) != [] && IsFirst(w, Ordered(w)[0])
    ensures Ordered(w) == [Ordered(w)[0]] + Ordered(w - {Ordered(w)[0]})
  {
    FirstExists(w);
  }

  lemma OrderedMember(w: Weights, j: nat)
    requires j < |Ordered(w)|
    ensures Ordered(w)[j] in w
  {
    OrderedLists(w);
    assert Ordered(w)[j] in Ordered(w);
  }

  lemma {:induction false} OrderedDescends(w: Weights, i: nat, j: nat)
    requires i < j < |Ordered(w)|
    ensures Ordered(w)[i] in w && Ordered(w)[j] in w && w[Ordered(w)[j]] <= w[Ordered(w)[i]]
    ensures w[Ordered(w)[j]] == w[Ordered(w)[i]] ==> KeyBefore(Ordered(w)[i], Ordered(w)[j])
    decreases |w|
  {
    OrderedMember(w, i);
    OrderedMember(w, j);
    OrderedHead(w);
    if i > 0 {
      var first := Ordered(w)[0];
      FewerWeights(w, first);
      OrderedDescends(w - {first}, i - 1, j - 1);
    } else {
      OrderedLists(w);
    }
  }

  lemma FewerWeights(w: Weights, k: Key)
    requires k in w
    ensures |w - {k}| < |w|
  {
    assert w.Keys == (w - {k}).Keys + {k};
  }

  /** The costs in the order they are dealt. */
  ghost function DealtCosts(w: Weights): (p: seq<nat>)
    ensures |p| == |w| == |Ordered(w)|
    ensures forall k :: k in Ordered(w) ==> k in w
    ensures forall n :: 0 <= n < |p| ==> Ordered(w)[n] in w && p[n] == w[Ordered(w)[n]]
  {
    OrderedLists(w);
    Costs(w, Ordered(w))
  }

  // ----- where each scenario goes

  /** The load a shard shows: sums saturate instead of wrapping. */
  function Shown(p: seq<nat>, a: seq<nat>, i: nat, n: nat): u64
    requires n <= |p| && n <= |a|
  {
    var load := Load(p, a, i, n);
    if load <= U64_MAX then load else U64_MAX
  }

  /** How many of the first `n` scenarios went to shard `i`. */
  function Taken(a: seq<nat>, i: nat, n: nat): nat
    requires n <= |a|
  {
    if n == 0 then 0 else Taken(a, i, n - 1) + if a[n - 1] == i then 1 else 0
  }

  predicate Lighter(load1: u64, taken1: nat, load2: u64, taken2: nat) {
    load1 < load2 || (load1 == load2 && taken1 < taken2)
  }

  /** The lightest of the first `m` shards, then the one with fewest scenarios, then the lowest. */
  function Target(p: seq<nat>, a: seq<nat>, m: nat, n: nat): (t: nat)
    requires 0 < m && n <= |p| && n <= |a|
    ensures t < m
  {
    if m == 1 then 0
    else
      var t := Target(p, a, m - 1, n);
      if Lighter(Shown(p, a, m - 1, n), Taken(a, m - 1, n), Shown(p, a, t, n), Taken(a, t, n))
      then m - 1 else t
  }

  /** The first `n` placements. */
  function Place(p: seq<nat>, m: nat, n: nat): (a: seq<nat>)
    requires 0 < m && n <= |p|
    ensures |a| == n && forall j :: 0 <= j < n ==> a[j] < m
  {
    if n == 0 then []
    else
      var a := Place(p, m, n - 1);
      a + [Target(p, a, m, n - 1)]
  }

  ghost function ShownAll(p: seq<nat>, a: seq<nat>, m: nat): (loads: seq<u64>)
    requires |a| <= |p|
    ensures |loads| == m && forall i :: 0 <= i < m ==> loads[i] == Shown(p, a, i, |a|)
  {
    seq(m, i requires 0 <= i < m => Shown(p, a, i, |a|))
  }

  ghost function TakenAll(a: seq<nat>, m: nat): (counts: seq<nat>)
    ensures |counts| == m && forall i :: 0 <= i < m ==> counts[i] == Taken(a, i, |a|)
  {
    seq(m, i requires 0 <= i < m => Taken(a, i, |a|))
  }

  /** The identity-to-shard table of a placement. */
  function Table(keys: seq<Key>, a: seq<nat>): map<Key, nat>
    requires |keys| == |a|
  {
    if keys == [] then map[]
    else Table(keys[..|keys| - 1], a[..|a| - 1])[keys[|keys| - 1] := a[|a| - 1]]
  }

  /** The split: a function of the weights and the shard count, nothing else. */
  ghost function Split(w: Weights, count: nat): map<Key, nat> {
    Table(Ordered(w), Place(DealtCosts(w), Buckets(count), |w|))
  }

  // ----- the split as the program computes it

  method FirstDealt(w: SomeWeights) returns (k: Key)
    ensures IsFirst(w, k)
  {
    k :| k in w;
    var todo := w.Keys - {k};
    while todo != {}
      invariant todo <= w.Keys && k in w && k !in todo
      invariant forall j :: j in w && j !in todo && j != k ==> DealtBefore(w, k, j)
      decreases |todo|
    {
      var j :| j in todo;
      todo := todo - {j};
      DealtTotal(w, j, k);
      if DealtBefore(w, j, k) {
        forall i | i in w && i !in todo && i != j ensures DealtBefore(w, j, i) {
          if i != k {
            DealtTransitive(w, j, k, i);
          }
        }
        k := j;
      }
    }
  }

  method SortRows(w: Weights) returns (ordered: seq<Key>)
    ensures ordered == Ordered(w)
  {
    ordered := [];
    var rest := w;
    while rest != map[]
      invariant ordered + Ordered(rest) == Ordered(w)
      decreases |rest|
    {
      var k := FirstDealt(rest);
      FirstExists(rest);
      assert Ordered(rest) == [k] + Ordered(rest - {k}) by {
        var f := Ordered(rest)[0];
        FirstUnique(rest, f, k);
      }
      assert ordered + Ordered(rest) == (ordered + [k]) + Ordered(rest - {k});
      ordered, rest := ordered + [k], rest - {k};
    }
  }

  method LightestShard(load: array<u64>, taken: array<nat>, ghost p: seq<nat>, ghost a: seq<nat>)
    returns (target: nat)
    requires 0 < load.Length == taken.Length
    requires |a| <= |p| && load[..] == ShownAll(p, a, load.Length)
    requires taken[..] == TakenAll(a, taken.Length)
    ensures target < load.Length && target == Target(p, a, load.Length, |a|)
  {
    target := 0;
    for i := 1 to load.Length
      invariant target < i && target == Target(p, a, i, |a|)
    {
      assert load[i] == load[..][i] && load[target] == load[..][target];
      assert taken[i] == taken[..][i] && taken[target] == taken[..][target];
      if Lighter(load[i], taken[i], load[target], taken[target]) {
        target := i;
      }
    }
  }

  /** Deal one scenario to the lightest shard. */
  method DealOne(load: array<u64>, taken: array<nat>, cost: u64, ghost p: seq<nat>, n: nat) returns (target: nat)
    requires 0 < load.Length == taken.Length && n < |p| && p[n] == cost
    requires load[..] == ShownAll(p, Place(p, load.Length, n), load.Length)
    requires taken[..] == TakenAll(Place(p, load.Length, n), load.Length)
    modifies load, taken
    ensures target == Target(p, Place(p, load.Length, n), load.Length, n)
    ensures load[..] == ShownAll(p, Place(p, load.Length, n + 1), load.Length)
    ensures taken[..] == TakenAll(Place(p, load.Length, n + 1), load.Length)
  {
    ghost var loads, counts := load[..], taken[..];
    target := LightestShard(load, taken, p, Place(p, load.Length, n));
    load[target] := SaturatingAdd(load[target], cost);
    taken[target] := taken[target] + 1;
    assert load[..] == loads[target := SaturatingAdd(loads[target], p[n])];
    assert taken[..] == counts[target := counts[target] + 1];
    PlaceStep(p, load.Length, n);
  }

  /** Deal the sorted scenarios one by one. */
  method Deal(weights: Weights, ordered: seq<Key>, buckets: nat) returns (placed: map<Key, nat>)
    requires 0 < buckets && forall k :: k in ordered ==> k in weights
    ensures placed == Table(ordered, Place(Costs(weights, ordered), buckets, |ordered|))
  {
    ghost var p := Costs(weights, ordered);
    var load := new u64[buckets](_ => 0);
    var taken := new nat[buckets](_ => 0);
    placed := map[];
    assert load[..] == ShownAll(p, [], buckets) && taken[..] == TakenAll([], buckets);
    for n := 0 to |ordered|
      invariant load[..] == ShownAll(p, Place(p, buckets, n), buckets)
      invariant taken[..] == TakenAll(Place(p, buckets, n), buckets)
      invariant placed == Table(ordered[..n], Place(p, buckets, n))
    {
      var target := DealOne(load, taken, weights[ordered[n]], p, n);
      placed := placed[ordered[n] := target];
      TableStep(ordered, p, buckets, n);
    }
    assert ordered[..|ordered|] == ordered;
  }

  /** Longest first: heaviest scenario to the lightest shard, repeatedly. */
  method Assign(weights: Weights, count: nat) returns (placed: map<Key, nat>)
    ensures placed == Split(weights, count) && placed.Keys == weights.Keys
    ensures forall k :: k in weights ==> placed[k] < count || (count == 0 && placed[k] == 0)
  {
    var ordered := SortRows(weights);
    OrderedLists(weights);
    placed := Deal(weights, ordered, Buckets(count));
    SplitIsTotal(weights, count);
  }

  /** Dealing one scenario changes one shard's load and count. */
  lemma PlaceStep(p: seq<nat>, m: nat, n: nat)
    requires 0 < m && n < |p| && p[n] <= U64_MAX
    ensures var a, b := Place(p, m, n), Place(p, m, n + 1);
            var t := Target(p, a, m, n);
            && ShownAll(p, b, m) == ShownAll(p, a, m)[t := SaturatingAdd(ShownAll(p, a, m)[t], p[n])]
            && TakenAll(b, m) == TakenAll(a, m)[t := TakenAll(a, m)[t] + 1]
  {
    var a, b := Place(p, m, n), Place(p, m, n + 1);
    forall i | 0 <= i < m
      ensures Load(p, b, i, n) == Load(p, a, i, n) && Taken(b, i, n) == Taken(a, i, n)
    {
      SamePrefix(p, a, b, i, n);
    }
  }

  lemma TableStep(keys: seq<Key>, p: seq<nat>, m: nat, n: nat)
    requires 0 < m && n < |p| == |keys|
    ensures var a := Place(p, m, n);
            Table(keys[..n + 1], Place(p, m, n + 1)) == Table(keys[..n], a)[keys[n] := Target(p, a, m, n)]
  {
    var a, b := Place(p, m, n), Place(p, m, n + 1);
    assert keys[..n + 1][..n] == keys[..n] && b[..n] == a;
  }

  lemma {:induction false} SamePrefix(p: seq<nat>, a: seq<nat>, b: seq<nat>, i: nat, n: nat)
    requires n <= |p| && n <= |a| && n <= |b|
    requires forall j :: 0 <= j < n ==> a[j] == b[j]
    ensures Load(p, a, i, n) == Load(p, b, i, n) && Taken(a, i, n) == Taken(b, i, n)
  {
    if n > 0 {
      SamePrefix(p, a, b, i, n - 1);
    }
  }

  // ----- the split is exact: every weighted scenario in one shard of the matrix

  lemma {:induction false} TableLookup(keys: seq<Key>, a: seq<nat>)
    requires |keys| == |a|
    requires forall i, j :: 0 <= i < j < |keys| ==> keys[i] != keys[j]
    ensures forall k :: k in Table(keys, a) <==> k in keys
    ensures forall j :: 0 <= j < |keys| ==> keys[j] in Table(keys, a) && Table(keys, a)[keys[j]] == a[j]
  {
    if keys != [] {
      var n := |keys| - 1;
      TableLookup(keys[..n], a[..n]);
      assert keys == keys[..n] + [keys[n]];
      forall j | 0 <= j < n ensures Table(keys, a)[keys[j]] == a[j] {
        assert keys[..n][j] == keys[j];
      }
    }
  }

  /** No shard in the table but those of the placement. */
  lemma {:induction false} TableValues(keys: seq<Key>, a: seq<nat>, m: nat)
    requires |keys| == |a| && forall j :: 0 <= j < |a| ==> a[j] < m
    ensures forall k :: k in Table(keys, a) ==> Table(keys, a)[k] < m
  {
    if keys != [] {
      TableValues(keys[..|keys| - 1], a[..|a| - 1], m);
    }
  }

  lemma SplitIsTotal(w: Weights, count: nat)
    ensures Split(w, count).Keys == w.Keys
    ensures forall k :: k in w ==> Split(w, count)[k] < Buckets(count)
  {
    OrderedLists(w);
    var keys, a := Ordered(w), Place(DealtCosts(w), Buckets(count), |w|);
    TableLookup(keys, a);
    TableValues(keys, a, Buckets(count));
    assert Table(keys, a).Keys == w.Keys;
  }

  // ----- the split is balanced: the approximation bound

  /** The shards `s` gives the scenarios, in dealing order. */
  ghost function Shards(w: Weights, s: map<Key, nat>): (a: seq<nat>)
    requires s.Keys == w.Keys
    ensures |a| == |w| == |Ordered(w)|
    ensures forall j :: 0 <= j < |a| ==> Ordered(w)[j] in s && a[j] == s[Ordered(w)[j]]
  {
    OrderedLists(w);
    seq(|w|, j requires 0 <= j < |w| => assert Ordered(w)[j] in Ordered(w); s[Ordered(w)[j]])
  }

  /** What shard `i` of split `s` costs. */
  ghost function ShardCost(w: Weights, s: map<Key, nat>, i: nat): nat
    requires s.Keys == w.Keys
  {
    Load(DealtCosts(w), Shards(w, s), i, |w|)
  }

  /** What the slowest of `m` shards costs. */
  ghost function MatrixCost(w: Weights, s: map<Key, nat>, m: nat): nat
    requires s.Keys == w.Keys
  {
    Makespan(DealtCosts(w), Shards(w, s), m)
  }

  ghost predicate NoShardSaturates(w: Weights, s: map<Key, nat>, m: nat)
    requires s.Keys == w.Keys
  {
    forall i :: 0 <= i < m ==> ShardCost(w, s, i) <= U64_MAX
  }

  ghost predicate IsSplit(w: Weights, s: map<Key, nat>, m: nat) {
    s.Keys == w.Keys && forall k :: k in s ==> s[k] < m
  }

  lemma {:induction false} TargetIsLightest(p: seq<nat>, a: seq<nat>, m: nat, n: nat)
    requires 0 < m && n <= |p| && n <= |a|
    ensures forall i :: 0 <= i < m ==>
              var t := Target(p, a, m, n);
              !Lighter(Shown(p, a, i, n), Taken(a, i, n), Shown(p, a, t, n), Taken(a, t, n))
    ensures forall i :: 0 <= i < Target(p, a, m, n) ==>
              var t := Target(p, a, m, n);
              Lighter(Shown(p, a, t, n), Taken(a, t, n), Shown(p, a, i, n), Taken(a, i, n))
  {
    if m > 1 {
      TargetIsLightest(p, a, m - 1, n);
    }
  }

  lemma {:induction false} PlaceExtends(p: seq<nat>, m: nat, k: nat, n: nat)
    requires 0 < m && k <= n <= |p|
    ensures Place(p, m, n)[..k] == Place(p, m, k)
    decreases n
  {
    if k < n {
      PlaceExtends(p, m, k, n - 1);
      assert Place(p, m, n)[..k] == Place(p, m, n - 1)[..k];
    }
  }

  /** As long as no sum saturates, the lightest shard shown is the lightest shard. */
  lemma {:induction false} PlaceIsGreedy(p: seq<nat>, m: nat)
    requires 0 < m
    requires forall i :: 0 <= i < m ==> Load(p, Place(p, m, |p|), i, |p|) <= U64_MAX
    ensures Greedy(p, Place(p, m, |p|), m)
  {
    var a := Place(p, m, |p|);
    forall j | 0 <= j < |p| ensures DealtToLightest(p, a, m, j) {
      var before := Place(p, m, j);
      PlaceExtends(p, m, j, |p|);
      PlaceExtends(p, m, j + 1, |p|);
      assert a[..j + 1][j] == a[j] == Target(p, before, m, j);
      TargetIsLightest(p, before, m, j);
      forall i | 0 <= i < m ensures Load(p, a, a[j], j) <= Load(p, a, i, j) {
        SamePrefix(p, a, before, i, j);
        SamePrefix(p, a, before, a[j], j);
        LoadMonotone(p, a, i, j, |p|);
        LoadMonotone(p, a, a[j], j, |p|);
        assert !Lighter(Shown(p, before, i, j), Taken(before, i, j),
                        Shown(p, before, a[j], j), Taken(before, a[j], j));
      }
    }
  }

  lemma SplitShards(w: Weights, count: nat)
    ensures Split(w, count).Keys == w.Keys
    ensures Shards(w, Split(w, count)) == Place(DealtCosts(w), Buckets(count), |w|)
  {
    SplitIsTotal(w, count);
    OrderedLists(w);
    TableLookup(Ordered(w), Place(DealtCosts(w), Buckets(count), |w|));
  }

  lemma {:induction false} DealtCostsDescend(w: Weights)
    ensures Descending(DealtCosts(w))
  {
    var p := DealtCosts(w);
    forall i, j | 0 <= i <= j < |p| ensures p[j] <= p[i] {
      if i < j {
        OrderedDescends(w, i, j);
      }
    }
  }

  /** If every shard holds at least `x` and one holds more, together they hold more than `m * x`. */
  lemma {:induction false} OneAboveAverage(p: seq<nat>, a: seq<nat>, m: nat, n: nat, x: nat, t: nat)
    requires n <= |p| && n <= |a| && t < m
    requires (forall i :: 0 <= i < m ==> x <= Load(p, a, i, n)) && x < Load(p, a, t, n)
    ensures m * x < LoadsBelow(p, a, m, n)
  {
    assert m * x == (m - 1) * x + x;
    if t == m - 1 {
      AverageAbove(p, a, m - 1, n, x);
    } else {
      OneAboveAverage(p, a, m - 1, n, x, t);
    }
  }

  /** A saturated shard is not mistaken for the lightest while the total fits in `m` full shards. */
  lemma TargetTrulyLightest(p: seq<nat>, a: seq<nat>, m: nat, n: nat, i: nat)
    requires 0 < m && n <= |p| && n <= |a| && i < m
    requires (forall j :: 0 <= j < n ==> a[j] < m) && Total(p, n) <= m * U64_MAX
    ensures Load(p, a, Target(p, a, m, n), n) <= Load(p, a, i, n)
  {
    var t := Target(p, a, m, n);
    TargetIsLightest(p, a, m, n);
    assert !Lighter(Shown(p, a, i, n), Taken(a, i, n), Shown(p, a, t, n), Taken(a, t, n));
    if Load(p, a, t, n) > U64_MAX {
      forall k | 0 <= k < m ensures U64_MAX <= Load(p, a, k, n) {
        assert !Lighter(Shown(p, a, k, n), Taken(a, k, n), Shown(p, a, t, n), Taken(a, t, n));
      }
      OneAboveAverage(p, a, m, n, U64_MAX, t);
      LoadsPartition(p, a, m, n);
      assert false;
    }
  }

  /** Greedy on the true loads, as long as all jobs but the last fit in `m` full shards. */
  lemma {:induction false} PlaceIsGreedyWithin(p: seq<nat>, m: nat)
    requires 0 < m && (p != [] ==> Total(p, |p| - 1) <= m * U64_MAX)
    ensures Greedy(p, Place(p, m, |p|), m)
  {
    var a := Place(p, m, |p|);
    forall j | 0 <= j < |p| ensures DealtToLightest(p, a, m, j) {
      var before := Place(p, m, j);
      PlaceExtends(p, m, j, |p|);
      PlaceExtends(p, m, j + 1, |p|);
      assert a[..j + 1][j] == a[j] == Target(p, before, m, j);
      TotalMonotone(p, j, |p| - 1);
      forall i | 0 <= i < m ensures Load(p, a, a[j], j) <= Load(p, a, i, j) {
        SamePrefix(p, a, before, i, j);
        SamePrefix(p, a, before, a[j], j);
        TargetTrulyLightest(p, before, m, j, i);
      }
    }
  }

  /** What all scenarios but the lightest cost together. */
  ghost function AllButLightest(w: Weights): nat {
    if w == map[] then 0 else Total(DealtCosts(w), |w| - 1)
  }

  lemma SplitIsGreedy(w: Weights, count: nat)
    requires AllButLightest(w) <= Buckets(count) * U64_MAX
    ensures Split(w, count).Keys == w.Keys
    ensures Greedy(DealtCosts(w), Shards(w, Split(w, count)), Buckets(count))
  {
    SplitShards(w, count);
    PlaceIsGreedyWithin(DealtCosts(w), Buckets(count));
  }

  /**
   * While all scenarios but the lightest fit in the shards' 64-bit sums, the
   * matrix takes at most 4/3 - 1/(3m) of what any other split of the same
   * scenarios over the same shards takes, and at most 2 - 1/m.
   */
  lemma {:induction false} SplitBound(w: Weights, count: nat, other: map<Key, nat>)
    requires IsSplit(w, other, Buckets(count))
    requires AllButLightest(w) <= Buckets(count) * U64_MAX
    ensures Split(w, count).Keys == w.Keys
    ensures var m := Buckets(count);
            3 * m * MatrixCost(w, Split(w, count), m) <= (4 * m - 1) * MatrixCost(w, other, m)
    ensures var m := Buckets(count);
            m * MatrixCost(w, Split(w, count), m) <= (2 * m - 1) * MatrixCost(w, other, m)
  {
    SplitIsGreedy(w, count);
    DealtCostsDescend(w);
    LongestFirstBound(DealtCosts(w), Shards(w, Split(w, count)), Shards(w, other), Buckets(count));
    ListSchedulingBound(DealtCosts(w), Shards(w, Split(w, count)), Shards(w, other), Buckets(count));
  }

  /** In particular when some split, this one or any other, saturates no shard. */
  lemma UnsaturatedFits(w: Weights, count: nat, other: map<Key, nat>)
    requires IsSplit(w, other, Buckets(count)) && NoShardSaturates(w, other, Buckets(count))
    ensures AllButLightest(w) <= Buckets(count) * U64_MAX
  {
    var m, p, a := Buckets(count), DealtCosts(w), Shards(w, other);
    if w != map[] {
      forall i | 0 <= i < m ensures Load(p, a, i, |p|) <= U64_MAX {
        assert ShardCost(w, other, i) <= U64_MAX;
      }
      LoadsPartition(p, a, m, |p|);
      AverageBelow(p, a, m, |p|, U64_MAX);
      TotalMonotone(p, |p| - 1, |p|);
    }
  }

  // ----- equal costs, equal shares

  lemma {:induction false} EqualCosts(p: seq<nat>, m: nat, n: nat, cost: nat)
    requires 0 < m && n <= |p|
    requires forall j :: 0 <= j < n ==> p[j] == cost
    ensures forall i :: 0 <= i < m ==> Load(p, Place(p, m, n), i, n) == cost * Taken(Place(p, m, n), i, n)
    ensures forall i, k :: 0 <= i < m && 0 <= k < m ==>
              Taken(Place(p, m, n), i, n) <= Taken(Place(p, m, n), k, n) + 1
  {
    if n > 0 {
      EqualCosts(p, m, n - 1, cost);
      var a, b := Place(p, m, n - 1), Place(p, m, n);
      var t := Target(p, a, m, n - 1);
      forall i | 0 <= i < m
        ensures Load(p, b, i, n) == cost * Taken(b, i, n)
        ensures Taken(a, t, n - 1) <= Taken(a, i, n - 1)
        ensures Taken(b, i, n) == Taken(a, i, n - 1) + if i == t then 1 else 0
      {
        SamePrefix(p, a, b, i, n - 1);
        Distribute(cost, Taken(a, i, n - 1), 1);
        FewestOfEqual(p, a, m, n - 1, cost, i);
      }
    }
  }

  /** With loads in proportion to counts, the lightest shard has the fewest scenarios. */
  lemma {:induction false} FewestOfEqual(p: seq<nat>, a: seq<nat>, m: nat, n: nat, cost: nat, i: nat)
    requires i < m && n <= |p| && n <= |a|
    requires forall k :: 0 <= k < m ==> Load(p, a, k, n) == cost * Taken(a, k, n)
    ensures Taken(a, Target(p, a, m, n), n) <= Taken(a, i, n)
  {
    var t := Target(p, a, m, n);
    TargetIsLightest(p, a, m, n);
    assert !Lighter(Shown(p, a, i, n), Taken(a, i, n), Shown(p, a, t, n), Taken(a, t, n));
    if Taken(a, t, n) > Taken(a, i, n) {
      Scale(cost, Taken(a, i, n), Taken(a, t, n));
      assert false;
    }
  }

  ghost function Members(s: map<Key, nat>, i: nat): set<Key> {
    set k | k in s && s[k] == i
  }

  lemma {:induction false} TakenCounts(keys: seq<Key>, a: seq<nat>, i: nat)
    requires |keys| == |a|
    requires forall j, k :: 0 <= j < k < |keys| ==> keys[j] != keys[k]
    ensures |Members(Table(keys, a), i)| == Taken(a, i, |a|)
  {
    if keys == [] {
      assert Members(Table(keys, a), i) == {};
    } else {
      var n := |keys| - 1;
      TakenCounts(keys[..n], a[..n], i);
      LastIsNew(keys, a);
      SamePrefix(a, a, a[..n], i, n);
      AddMember(Table(keys[..n], a[..n]), keys[n], a[n], i);
    }
  }

  lemma LastIsNew(keys: seq<Key>, a: seq<nat>)
    requires |keys| == |a| > 0
    requires forall j, k :: 0 <= j < k < |keys| ==> keys[j] != keys[k]
    ensures keys[|keys| - 1] !in Table(keys[..|keys| - 1], a[..|keys| - 1])
  {
    TableLookup(keys[..|keys| - 1], a[..|keys| - 1]);
  }

  lemma AddMember(s: map<Key, nat>, k: Key, shard: nat, i: nat)
    requires k !in s
    ensures |Members(s[k := shard], i)| == |Members(s, i)| + if shard == i then 1 else 0
  {
    assert Members(s[k := shard], i) == if shard == i then Members(s, i) + {k} else Members(s, i);
  }

  /** When all costs are equal, zero included, shard sizes differ by at most one. */
  lemma {:induction false} EqualCostsEqualShares(w: Weights, count: nat, cost: u64, i: nat, j: nat)
    requires forall k :: k in w ==> w[k] == cost
    requires i < Buckets(count) && j < Buckets(count)
    ensures |Members(Split(w, count), i)| <= |Members(Split(w, count), j)| + 1
  {
    OrderedLists(w);
    var keys, p := Ordered(w), DealtCosts(w);
    var a := Place(p, Buckets(count), |w|);
    forall n | 0 <= n < |p| ensures p[n] == cost {
      assert keys[n] in keys;
    }
    EqualCosts(p, Buckets(count), |w|, cost);
    TakenCounts(keys, a, i);
    TakenCounts(keys, a, j);
  }
}
