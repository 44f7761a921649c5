// Which shard of a CI matrix runs a scenario, and in what order.
module Shards {
  import opened Arithmetic
  import opened Identity
  import opened Lpt
  import opened Timings
  import opened Utf8

  const FNV_OFFSET: bv64 := 0xcbf2_9ce4_8422_2325
  const FNV_PRIME: bv64 := 0x0000_0100_0000_01b3

  type Positive = n: nat | n > 0 witness 1

  // ----- bytes and hashes, in wrapping 64-bit arithmetic

  function HashByte(hash: bv64, b: byte): bv64 {
    (hash ^ b as bv64) * FNV_PRIME
  }

  /** Step by step through the bytes, from `start`. */
  function Folded(step: (bv64, byte) -> bv64, start: bv64, bytes: seq<byte>): bv64 {
    if bytes == [] then start
    else step(Folded(step, start, bytes[..|bytes| - 1]), bytes[|bytes| - 1])
  }

  function Fnv(bytes: seq<byte>): bv64 {
    Folded(HashByte, FNV_OFFSET, bytes)
  }

  /** The finalizer: every input bit reaches every output bit. */
  function Avalanche(h: bv64): bv64 {
    var h1 := (h ^ (h >> 33)) * 0xff51_afd7_ed55_8ccd;
    var h2 := (h1 ^ (h1 >> 33)) * 0xc4ce_b9fe_1a85_ec53;
    h2 ^ (h2 >> 33)
  }

  /** The bytes an identity hashes: file, NUL, name. */
  function IdentityBytes(file: string, name: string): seq<byte> {
    Bytes(file) + [0] + Bytes(name)
  }

  function Bucket(file: string, name: string, count: Positive): (b: nat)
    ensures b < count
  {
    Avalanche(Fnv(IdentityBytes(file, name))) as nat % count
  }

  method HashBytes(bytes: seq<byte>) returns (hash: bv64)
    ensures hash == Fnv(bytes)
  {
    hash := FNV_OFFSET;
    for i := 0 to |bytes|
      invariant hash == Folded(HashByte, FNV_OFFSET, bytes[..i])
    {
      assert bytes[..i + 1][..i] == bytes[..i];
      hash := HashByte(hash, bytes[i]);
    }
    assert bytes[..|bytes|] == bytes;
  }

  method ShardBucket(file: string, name: string, count: Positive) returns (bucket: nat)
    ensures bucket == Bucket(file, name, count)
  {
    var hash := HashBytes(IdentityBytes(file, name));
    bucket := Avalanche(hash) as nat % count;
  }

  // ----- the NUL joint keeps different identities apart

  /** No two identities hash the same bytes. */
  lemma IdentityBytesInjective(k: Key, j: Key)
    requires '\0' !in k.0 && '\0' !in k.1 && '\0' !in j.0 && '\0' !in j.1
    ensures IdentityBytes(k.0, k.1) == IdentityBytes(j.0, j.1) <==> k == j
  {
    if IdentityBytes(k.0, k.1) == IdentityBytes(j.0, j.1) {
      Utf8Joint(k.0, j.0, Bytes(k.1), Bytes(j.1));
      Utf8Joint(k.1, j.1, [], []);
    }
  }

  // ----- the shuffle

  /** A stream of numbers: how its seed steps, and what it draws at one. */
  datatype Generator = Generator(next: bv64 -> bv64, draw: bv64 -> bv64)

  function NextSeed(seed: bv64): bv64 {
    seed + 0x9e37_79b9_7f4a_7c15
  }

  function Draw(seed: bv64): bv64 {
    var z1 := (seed ^ (seed >> 30)) * 0xbf58_476d_1ce4_e5b9;
    var z2 := (z1 ^ (z1 >> 27)) * 0x94d0_49bb_1331_11eb;
    z2 ^ (z2 >> 31)
  }

  function SplitMix(): Generator {
    Generator(NextSeed, Draw)
  }

  function Swap<T>(s: seq<T>, i: nat, j: nat): (t: seq<T>)
    requires i < |s| && j < |s|
    ensures |t| == |s|
  {
    s[i := s[j]][j := s[i]]
  }

  /** A position at or below `i`. */
  function Pick(drawn: bv64, i: nat): (j: nat)
    ensures j <= i
  {
    drawn as nat % (i + 1)
  }

  /** Positions `i` down to 1 each swap with a drawn position at or below them. */
  function Dealt<T>(s: seq<T>, g: Generator, seed: bv64, i: nat): (t: seq<T>)
    requires i == 0 || i < |s|
    ensures |t| == |s|
    decreases i
  {
    if i == 0 then s
    else
      var next := g.next(seed);
      Dealt(Swap(s, i, Pick(g.draw(next), i)), g, next, i - 1)
  }

  /** The order a run id deals. */
  function Shuffled<T>(s: seq<T>, runId: string): (t: seq<T>) {
    if s == [] then s else Dealt(s, SplitMix(), Fnv(Bytes(runId)), |s| - 1)
  }

  method SwapInPlace(specs: array<Key>, i: nat, j: nat)
    requires i < specs.Length && j < specs.Length
    modifies specs
    ensures specs[..] == Swap(old(specs[..]), i, j)
  {
    specs[i], specs[j] := specs[j], specs[i];
  }

  /** Swap positions `last` down to 1 with drawn ones, in place. */
  method DealInPlace(specs: array<Key>, g: Generator, start: bv64, last: nat)
    requires last == 0 || last < specs.Length
    modifies specs
    ensures specs[..] == Dealt(old(specs[..]), g, start, last)
  {
    var seed, i := start, last;
    while i > 0
      invariant 0 <= i <= last
      invariant Dealt(specs[..], g, seed, i) == Dealt(old(specs[..]), g, start, last)
    {
      seed := g.next(seed);
      SwapInPlace(specs, i, Pick(g.draw(seed), i));
      i := i - 1;
    }
  }

  method ShuffleSpecs(specs: array<Key>, runId: string)
    modifies specs
    ensures specs[..] == Shuffled(old(specs[..]), runId)
  {
    if specs.Length > 0 {
      var seed := HashBytes(Bytes(runId));
      DealInPlace(specs, SplitMix(), seed, specs.Length - 1);
    }
  }

  lemma SwapPermutes<T>(s: seq<T>, i: nat, j: nat)
    requires i < |s| && j < |s|
    ensures multiset(Swap(s, i, j)) == multiset(s)
  {
  }

  lemma {:induction false} DealtPermutes<T>(s: seq<T>, g: Generator, seed: bv64, i: nat)
    requires i == 0 || i < |s|
    ensures multiset(Dealt(s, g, seed, i)) == multiset(s)
    decreases i
  {
    if i > 0 {
      var next := g.next(seed);
      SwapPermutes(s, i, Pick(g.draw(next), i));
      DealtPermutes(Swap(s, i, Pick(g.draw(next), i)), g, next, i - 1);
    }
  }

  lemma ShuffledPermutes<T>(s: seq<T>, runId: string)
    ensures multiset(Shuffled(s, runId)) == multiset(s)
  {
    if s != [] {
      DealtPermutes(s, SplitMix(), Fnv(Bytes(runId)), |s| - 1);
    }
  }

  // ----- the matrix

  datatype ShardWeights = NoWeights | FromFile(weights: Weights)

  ghost function Placed(w: ShardWeights, count: nat): map<Key, nat> {
    if w.FromFile? then Split(w.weights, count) else map[]
  }

  /** A weighted scenario goes where the split puts it, any other where its hash does. */
  function BucketOf(placed: map<Key, nat>, count: Positive): Key -> nat
  {
    (k: Key) => if k in placed then placed[k] else Bucket(k.0, k.1, count)
  }

  /** What shard `index`, counted from one, keeps of the selection. */
  function Kept(specs: seq<Key>, bucket: Key -> nat, index: Positive): seq<Key>
  {
    if specs == [] then []
    else
      var last := specs[|specs| - 1];
      var rest := Kept(specs[..|specs| - 1], bucket, index);
      if bucket(last) == index - 1 then rest + [last] else rest
  }

  /** Where the split puts the scenarios it weighs, and where the hash puts the others. */
  lemma BucketSpelled(w: ShardWeights, count: Positive, k: Key)
    ensures w.FromFile? && k in w.weights ==>
              k in Split(w.weights, count) && BucketOf(Placed(w, count), count)(k) == Split(w.weights, count)[k]
    ensures !w.FromFile? || k !in w.weights ==>
              BucketOf(Placed(w, count), count)(k) == Bucket(k.0, k.1, count)
  {
    if w.FromFile? {
      SplitIsTotal(w.weights, count);
    }
  }

  /** A shard keeps exactly the scenarios of its bucket. */
  lemma {:induction false} KeptIff(specs: seq<Key>, bucket: Key -> nat, n: Positive, k: Key)
    ensures k in Kept(specs, bucket, n) <==> k in specs && bucket(k) == n - 1
  {
    if specs != [] {
      var last := |specs| - 1;
      KeptIff(specs[..last], bucket, n, k);
      assert specs == specs[..last] + [specs[last]];
    }
  }

  /** In the order of the selection: what it keeps of the front, then what it keeps of the rest. */
  lemma {:induction false} KeptInOrder(front: seq<Key>, rest: seq<Key>, bucket: Key -> nat, n: Positive)
    ensures Kept(front + rest, bucket, n) == Kept(front, bucket, n) + Kept(rest, bucket, n)
    decreases |rest|
  {
    if rest == [] {
      assert front + rest == front;
    } else {
      var last := |rest| - 1;
      var kept := Kept(front, bucket, n) + Kept(rest[..last], bucket, n);
      KeptInOrder(front, rest[..last], bucket, n);
      assert front + rest == front + rest[..last] + [rest[last]];
      KeptMore(front + rest[..last], rest[last], bucket, n);
      if bucket(rest[last]) == n - 1 {
        assert kept + [rest[last]] == Kept(front, bucket, n) + (Kept(rest[..last], bucket, n) + [rest[last]]);
      }
    }
  }

  lemma KeptMore(specs: seq<Key>, k: Key, bucket: Key -> nat, n: Positive)
    ensures Kept(specs + [k], bucket, n)
         == if bucket(k) == n - 1 then Kept(specs, bucket, n) + [k] else Kept(specs, bucket, n)
  {
    assert (specs + [k])[..|specs|] == specs;
  }

  method ShardSpecs(specs: seq<Key>, w: ShardWeights, index: Positive, count: Positive) returns (kept: seq<Key>)
    requires index <= count
    ensures kept == Kept(specs, BucketOf(Placed(w, count), count), index)
    ensures forall k :: k in kept <==> (
              && k in specs
              && if w.FromFile? && k in w.weights
                 then k in Split(w.weights, count) && Split(w.weights, count)[k] == index - 1
                 else Bucket(k.0, k.1, count) == index - 1)
    ensures forall k :: k in kept ==> multiset(kept)[k] == multiset(specs)[k]
  {
    var placed: map<Key, nat> := map[];
    if w.FromFile? {
      placed := Assign(w.weights, count);
    }
    ghost var bucketOf := BucketOf(placed, count);
    kept := [];
    for i := 0 to |specs|
      invariant kept == Kept(specs[..i], bucketOf, index)
    {
      var spec := specs[i];
      var bucket;
      if spec in placed {
        bucket := placed[spec];
      } else {
        bucket := ShardBucket(spec.0, spec.1, count);
      }
      assert bucket == bucketOf(spec);
      if bucket == index - 1 {
        kept := kept + [spec];
      }
      assert specs[..i + 1][..i] == specs[..i];
    }
    assert specs[..|specs|] == specs;
    ShardKeeps(specs, w, count, index);
  }

  lemma ShardKeeps(specs: seq<Key>, w: ShardWeights, count: Positive, index: Positive)
    ensures var kept := Kept(specs, BucketOf(Placed(w, count), count), index);
            && (forall k :: k in kept <==> (
                  && k in specs
                  && if w.FromFile? && k in w.weights
                     then k in Split(w.weights, count) && Split(w.weights, count)[k] == index - 1
                     else Bucket(k.0, k.1, count) == index - 1))
            && (forall k :: k in kept ==> multiset(kept)[k] == multiset(specs)[k])
  {
    var bucket := BucketOf(Placed(w, count), count);
    var kept := Kept(specs, bucket, index);
    forall k: Key
      ensures k in kept <==> (
                && k in specs
                && if w.FromFile? && k in w.weights
                   then k in Split(w.weights, count) && Split(w.weights, count)[k] == index - 1
                   else Bucket(k.0, k.1, count) == index - 1)
    {
      BucketSpelled(w, count, k);
      KeptIff(specs, bucket, index, k);
    }
    forall k | k in kept ensures multiset(kept)[k] == multiset(specs)[k] {
      KeptCount(specs, bucket, index, k);
    }
  }

  lemma BucketOfInRange(w: ShardWeights, count: Positive, k: Key)
    ensures BucketOf(Placed(w, count), count)(k) < count
  {
    if w.FromFile? {
      SplitIsTotal(w.weights, count);
    }
  }

  /** Everything the first `n` runs execute. */
  ghost function Executed(runs: seq<seq<Key>>, n: nat): multiset<Key>
    requires n <= |runs|
  {
    if n == 0 then multiset{} else Executed(runs, n - 1) + multiset(runs[n - 1])
  }

  /** How often shard `n` keeps scenario `k`. */
  lemma {:induction false} KeptCount(specs: seq<Key>, bucket: Key -> nat, n: Positive, k: Key)
    ensures multiset(Kept(specs, bucket, n))[k] == if bucket(k) == n - 1 then multiset(specs)[k] else 0
  {
    if specs != [] {
      var last := specs[|specs| - 1];
      KeptCount(specs[..|specs| - 1], bucket, n, k);
      assert specs == specs[..|specs| - 1] + [last];
    }
  }

  lemma {:induction false} ExecutedCount(specs: seq<Key>, bucket: Key -> nat, runs: seq<seq<Key>>, n: nat, k: Key)
    requires n <= |runs|
    requires forall i :: 0 <= i < n ==> multiset(runs[i]) == multiset(Kept(specs, bucket, i + 1))
    ensures Executed(runs, n)[k] == if bucket(k) < n then multiset(specs)[k] else 0
  {
    if n > 0 {
      ExecutedCount(specs, bucket, runs, n - 1, k);
      KeptCount(specs, bucket, n, k);
    }
  }

  /**
   * Exactly once: whatever the weights file covers, the N shards of a matrix,
   * each shuffled by its own run id, together execute the selection, no
   * scenario dropped and none repeated.
   */
  lemma {:induction false} MatrixRunsSelectionOnce(
    specs: seq<Key>, w: ShardWeights, count: Positive, runIds: seq<string>, runs: seq<seq<Key>>)
    requires |runs| == |runIds| == count
    requires forall i :: 0 <= i < count ==>
               runs[i] == Shuffled(Kept(specs, BucketOf(Placed(w, count), count), i + 1), runIds[i])
    ensures Executed(runs, count) == multiset(specs)
  {
    var bucket := BucketOf(Placed(w, count), count);
    forall i | 0 <= i < count ensures multiset(runs[i]) == multiset(Kept(specs, bucket, i + 1)) {
      ShuffledPermutes(Kept(specs, bucket, i + 1), runIds[i]);
    }
    forall k: Key ensures Executed(runs, count)[k] == multiset(specs)[k] {
      BucketOfInRange(w, count, k);
      ExecutedCount(specs, bucket, runs, count, k);
    }
  }

  // ----- the matrix is balanced: the bound of the split, on what the shards run

  /** What running these scenarios costs. */
  ghost function RunCost(w: Weights, keys: seq<Key>): nat
    requires forall k :: k in keys ==> k in w
  {
    if keys == [] then 0
    else RunCost(w, keys[..|keys| - 1]) + w[keys[|keys| - 1]]
  }

  lemma {:induction false} RunCostWithout(w: Weights, keys: seq<Key>, i: nat)
    requires i < |keys| && forall k :: k in keys ==> k in w
    ensures forall k :: k in keys[..i] + keys[i + 1..] ==> k in w
    ensures RunCost(w, keys) == RunCost(w, keys[..i] + keys[i + 1..]) + w[keys[i]]
  {
    var last := |keys| - 1;
    if i < last {
      RunCostWithout(w, keys[..last], i);
      var rest := keys[..i] + keys[i + 1..];
      assert rest[..|rest| - 1] == keys[..last][..i] + keys[..last][i + 1..];
    } else {
      assert keys[..i] + keys[i + 1..] == keys[..last];
    }
  }

  lemma SameScenarios(keys: seq<Key>, other: seq<Key>)
    requires multiset(keys) == multiset(other)
    ensures forall k :: k in other <==> k in keys
  {
    forall k ensures k in other <==> k in keys {
      assert k in multiset(keys) <==> k in keys;
      assert k in multiset(other) <==> k in other;
    }
  }

  /** The last of `keys` stands somewhere in another order of the same scenarios. */
  lemma LastInOther(keys: seq<Key>, other: seq<Key>) returns (i: nat)
    requires multiset(keys) == multiset(other) && keys != []
    ensures i < |other| && other[i] == keys[|keys| - 1]
    ensures multiset(keys[..|keys| - 1]) == multiset(other[..i] + other[i + 1..])
  {
    var last := |keys| - 1;
    SameScenarios(keys, other);
    assert keys[last] in other;
    i :| 0 <= i < |other| && other[i] == keys[last];
    assert keys == keys[..last] + [keys[last]];
    assert other == other[..i] + [other[i]] + other[i + 1..];
    assert multiset(keys) == multiset(keys[..last]) + multiset{keys[last]};
    assert multiset(other) == multiset(other[..i]) + multiset{other[i]} + multiset(other[i + 1..]);
    assert multiset(other[..i] + other[i + 1..]) == multiset(other[..i]) + multiset(other[i + 1..]);
    assert multiset(keys[..last]) == multiset(keys) - multiset{keys[last]};
  }

  /** The order scenarios run in does not change what they cost. */
  lemma {:induction false} RunCostOfMultiset(w: Weights, keys: seq<Key>, other: seq<Key>)
    requires multiset(keys) == multiset(other)
    requires (forall k :: k in keys ==> k in w) && (forall k :: k in other ==> k in w)
    ensures RunCost(w, keys) == RunCost(w, other)
    decreases |keys|
  {
    if keys != [] {
      var i := LastInOther(keys, other);
      RunCostWithout(w, other, i);
      RunCostOfMultiset(w, keys[..|keys| - 1], other[..i] + other[i + 1..]);
    } else {
      assert |multiset(other)| == 0;
    }
  }

  /** Costs and placements of the listed scenarios. */
  ghost predicate Matches(w: Weights, keys: seq<Key>, p: seq<nat>, a: seq<nat>, bucket: Key -> nat) {
    && |p| == |a| == |keys|
    && forall n :: 0 <= n < |keys| ==> keys[n] in w && p[n] == w[keys[n]] && a[n] == bucket(keys[n])
  }

  /** In dealing order, what a shard keeps costs what the split puts on it. */
  lemma {:induction false} KeptCost(
    w: Weights, keys: seq<Key>, p: seq<nat>, a: seq<nat>, bucket: Key -> nat, index: Positive, n: nat)
    requires n <= |keys| && (forall k :: k in keys ==> k in w) && Matches(w, keys, p, a, bucket)
    ensures forall k :: k in Kept(keys[..n], bucket, index) ==> k in w
    ensures RunCost(w, Kept(keys[..n], bucket, index)) == Load(p, a, index - 1, n)
  {
    if n > 0 {
      KeptCost(w, keys, p, a, bucket, index, n - 1);
      assert keys[..n][..n - 1] == keys[..n - 1];
      var rest := Kept(keys[..n - 1], bucket, index);
      assert (rest + [keys[n - 1]])[..|rest|] == rest;
    }
  }

  /** The selection is what the weights file lists. */
  ghost predicate SelectsWeighted(specs: seq<Key>, w: Weights) {
    forall k :: multiset(specs)[k] == if k in w then 1 else 0
  }

  /** What one shard of the matrix runs costs what the split puts on it. */
  lemma {:induction false} ShardRunCost(specs: seq<Key>, w: Weights, count: Positive, index: Positive)
    requires SelectsWeighted(specs, w)
    ensures Split(w, count).Keys == w.Keys
    ensures var kept := Kept(specs, BucketOf(Placed(FromFile(w), count), count), index);
            && (forall k :: k in kept ==> k in w)
            && RunCost(w, kept) == ShardCost(w, Split(w, count), index - 1)
  {
    var bucket := BucketOf(Placed(FromFile(w), count), count);
    var kept, dealt := Kept(specs, bucket, index), Kept(Ordered(w), bucket, index);
    SplitIsTotal(w, count);
    SplitMatches(w, count);
    KeptCost(w, Ordered(w), DealtCosts(w), Shards(w, Split(w, count)), bucket, index, |Ordered(w)|);
    assert Ordered(w)[..|Ordered(w)|] == Ordered(w);
    SelectedKept(specs, w, bucket, index);
    RunCostOfMultiset(w, dealt, kept);
  }

  lemma SplitMatches(w: Weights, count: Positive)
    ensures Split(w, count).Keys == w.Keys
    ensures forall k :: k in Ordered(w) ==> k in w
    ensures var bucket := BucketOf(Placed(FromFile(w), count), count);
            Matches(w, Ordered(w), DealtCosts(w), Shards(w, Split(w, count)), bucket)
  {
    SplitIsTotal(w, count);
    OrderedLists(w);
    forall n | 0 <= n < |Ordered(w)|
      ensures Shards(w, Split(w, count))[n] == BucketOf(Placed(FromFile(w), count), count)(Ordered(w)[n])
    {
      assert Ordered(w)[n] in w;
      BucketSpelled(FromFile(w), count, Ordered(w)[n]);
    }
  }

  /** A shard of the selection keeps what a shard of the dealing order keeps. */
  lemma SelectedKept(specs: seq<Key>, w: Weights, bucket: Key -> nat, index: Positive)
    requires SelectsWeighted(specs, w)
    ensures multiset(Kept(Ordered(w), bucket, index)) == multiset(Kept(specs, bucket, index))
    ensures forall k :: k in Kept(specs, bucket, index) ==> k in w
  {
    var kept, dealt := Kept(specs, bucket, index), Kept(Ordered(w), bucket, index);
    forall k ensures multiset(dealt)[k] == multiset(kept)[k] && (k in kept ==> k in w) {
      KeptCount(specs, bucket, index, k);
      KeptCount(Ordered(w), bucket, index, k);
      OrderedOnce(w, k);
      assert k in kept <==> k in multiset(kept);
    }
    assert multiset(dealt) == multiset(kept);
  }

  lemma {:induction false} OnceIfDistinct(keys: seq<Key>, k: Key)
    requires forall i, j :: 0 <= i < j < |keys| ==> keys[i] != keys[j]
    ensures multiset(keys)[k] == if k in keys then 1 else 0
  {
    if keys != [] {
      var last := |keys| - 1;
      OnceIfDistinct(keys[..last], k);
      assert keys == keys[..last] + [keys[last]];
    }
  }

  lemma OrderedOnce(w: Weights, k: Key)
    ensures multiset(Ordered(w))[k] == if k in w then 1 else 0
  {
    OrderedLists(w);
    OnceIfDistinct(Ordered(w), k);
  }

  /** No shard of the split exceeds the bound, the slowest one included. */
  lemma ShardWithinBound(w: Weights, count: Positive, shard: nat, other: map<Key, nat>)
    requires shard < count && IsSplit(w, other, count) && AllButLightest(w) <= count * U64_MAX
    ensures Split(w, count).Keys == w.Keys
    ensures 3 * count * ShardCost(w, Split(w, count), shard) <= (4 * count - 1) * MatrixCost(w, other, count)
  {
    SplitBound(w, count, other);
    MakespanIsMax(DealtCosts(w), Shards(w, Split(w, count)), count);
    Scale(3 * count, ShardCost(w, Split(w, count), shard), MatrixCost(w, Split(w, count), count));
  }

  /**
   * When a weights file covers the selection, no job of the matrix runs longer
   * than 4/3 - 1/(3m) of what the slowest job of any other split of the same
   * selection over m jobs takes, as long as all scenarios but the lightest fit
   * in the shards' 64-bit sums.
   */
  lemma {:induction false} MatrixIsBalanced(
    specs: seq<Key>, w: Weights, count: Positive, index: Positive, other: map<Key, nat>)
    requires SelectsWeighted(specs, w) && index <= count
    requires IsSplit(w, other, count) && AllButLightest(w) <= count * U64_MAX
    ensures var kept := Kept(specs, BucketOf(Placed(FromFile(w), count), count), index);
            && (forall k :: k in kept ==> k in w)
            && 3 * count * RunCost(w, kept) <= (4 * count - 1) * MatrixCost(w, other, count)
  {
    ShardRunCost(specs, w, count, index);
    ShardWithinBound(w, count, index - 1, other);
  }
}
