// Flakiness verdicts over a growing history of observed runs.
module Flaky {
  import opened Arithmetic

  datatype Observation = Observation(failed: bool, retried: bool, duration: nat) {
    /** Passed, and at the first attempt. */
    predicate Clean() { !failed && !retried }
  }

  datatype Thresholds = Thresholds(minSamples: nat, recoveryRuns: nat)

  datatype Verdict = Disabled | FlakyNow | Latent | Broken | Recovered | InsufficientData | Healthy

  type History = seq<Observation>

  function Fails(h: History): nat {
    if h == [] then 0 else Fails(h[..|h| - 1]) + if h[|h| - 1].failed then 1 else 0
  }

  /** Consecutive observations whose outcome differs. */
  function Transitions(h: History): nat {
    if |h| < 2 then 0
    else Transitions(h[..|h| - 1]) + if h[|h| - 2].failed != h[|h| - 1].failed then 1 else 0
  }

  function PassOnRetry(h: History): nat {
    if h == [] then 0
    else PassOnRetry(h[..|h| - 1]) + if !h[|h| - 1].failed && h[|h| - 1].retried then 1 else 0
  }

  predicate CleanTail(h: History, n: nat) {
    n > 0 && |h| >= n && forall i :: |h| - n <= i < |h| ==> h[i].Clean()
  }

  function VerdictOf(h: History, quarantined: bool, t: Thresholds): Verdict {
    if |h| < t.minSamples then InsufficientData
    else if quarantined && Fails(h) == |h| then Disabled
    else if quarantined && Fails(h) == 0 && PassOnRetry(h) == 0 then Recovered
    else if Fails(h) == |h| then Broken
    else
      var recovered := CleanTail(h, t.recoveryRuns);
      if Transitions(h) >= 2 && !recovered then FlakyNow
      else if PassOnRetry(h) > 0 && !recovered then Latent
      else Healthy
  }

  // ----- every verdict, in terms of the observations

  ghost predicate Failing(h: History) {
    forall i :: 0 <= i < |h| ==> h[i].failed
  }

  /** Every observation passed at the first attempt. */
  ghost predicate Green(h: History) {
    h != [] && forall i :: 0 <= i < |h| ==> !h[i].failed && !h[i].retried
  }

  /** Some observation passed only on retry. */
  ghost predicate Late(h: History) {
    exists i :: 0 <= i < |h| && !h[i].failed && h[i].retried
  }

  /** The last `r` observations passed at the first attempt. */
  ghost predicate Cleared(h: History, r: nat) {
    r > 0 && |h| >= r && forall i :: |h| - r <= i < |h| ==> !h[i].failed && !h[i].retried
  }

  ghost predicate ChangesAt(h: History, i: int) {
    0 < i < |h| && h[i - 1].failed != h[i].failed
  }

  /** Where the outcome differs from the one before. */
  ghost function Changes(h: History): set<int> {
    set i | 0 < i < |h| && ChangesAt(h, i)
  }

  lemma {:induction false} FailsAre(h: History)
    ensures Fails(h) <= |h|
    ensures Fails(h) == |h| <==> Failing(h)
    ensures Fails(h) == 0 <==> forall i :: 0 <= i < |h| ==> !h[i].failed
  {
    if h != [] {
      FailsAre(h[..|h| - 1]);
    }
  }

  lemma {:induction false} PassOnRetryIs(h: History)
    ensures PassOnRetry(h) > 0 <==> Late(h)
  {
    if h != [] {
      PassOnRetryIs(h[..|h| - 1]);
    }
  }

  lemma ChangesGrow(h: History)
    requires |h| >= 2
    ensures var n := |h| - 1;
            Changes(h) == if ChangesAt(h, n) then Changes(h[..n]) + {n} else Changes(h[..n])
  {
    var n := |h| - 1;
    forall i | 0 < i < n ensures ChangesAt(h, i) <==> ChangesAt(h[..n], i) {
    }
  }

  lemma {:induction false} TransitionsAre(h: History)
    ensures Transitions(h) == |Changes(h)|
  {
    if |h| < 2 {
      assert Changes(h) == {};
    } else {
      TransitionsAre(h[..|h| - 1]);
      ChangesGrow(h);
      assert |h| - 1 !in Changes(h[..|h| - 1]);
    }
  }

  /**
   * Which verdict when. Too few observations outrank everything; then quarantine,
   * then failing throughout; two or more changes of outcome outrank passes on
   * retry; and a clean window of `recoveryRuns` observations clears both.
   */
  lemma VerdictTable(h: History, quarantined: bool, t: Thresholds)
    ensures var v := VerdictOf(h, quarantined, t);
            var judged := |h| >= t.minSamples;
            var open := judged && !Failing(h) && !(quarantined && Green(h));
            var cleared := Cleared(h, t.recoveryRuns);
            && (v == InsufficientData <==> !judged)
            && (v == Disabled <==> judged && quarantined && Failing(h))
            && (v == Recovered <==> judged && quarantined && Green(h))
            && (v == Broken <==> judged && !quarantined && Failing(h))
            && (v == FlakyNow <==> open && |Changes(h)| >= 2 && !cleared)
            && (v == Latent <==> open && |Changes(h)| < 2 && Late(h) && !cleared)
            && (v == Healthy <==> open && ((|Changes(h)| < 2 && !Late(h)) || cleared))
  {
    FailsAre(h);
    PassOnRetryIs(h);
    TransitionsAre(h);
  }

  // ----- the verdict as observations arrive

  /** The verdict of an unquarantined scenario after its first `k` observations. */
  function At(h: History, t: Thresholds, k: nat): Verdict
    requires k <= |h|
  {
    VerdictOf(h[..k], false, t)
  }

  predicate Flagged(v: Verdict) {
    v == FlakyNow || v == Latent
  }

  /** The history has flapped, or passed only on retry, at some point. */
  predicate Unstable(h: History) {
    Transitions(h) >= 2 || PassOnRetry(h) > 0
  }

  lemma {:induction false} UnstableStays(h: History, k: nat, j: nat)
    requires k <= j <= |h| && Unstable(h[..k])
    ensures Unstable(h[..j])
    decreases j
  {
    if k < j {
      UnstableStays(h, k, j - 1);
      assert h[..j][..j - 1] == h[..j - 1];
    }
  }

  lemma {:induction false} FailsAtMost(h: History)
    ensures Fails(h) <= |h|
  {
    if h != [] {
      FailsAtMost(h[..|h| - 1]);
    }
  }

  /** A history with one pass is never again all failures. */
  lemma {:induction false} PassedOnce(h: History, k: nat, j: nat)
    requires k <= j <= |h| && Fails(h[..k]) < k
    ensures Fails(h[..j]) < j
    decreases j
  {
    if k < j {
      PassedOnce(h, k, j - 1);
      assert h[..j][..j - 1] == h[..j - 1];
    }
  }

  /** Judged once, and not broken, a history is healthy exactly when it is stable or has recovered. */
  lemma JudgedByTail(h: History, t: Thresholds, k: nat, j: nat)
    requires k <= j <= |h| && (At(h, t, k) == Healthy || Flagged(At(h, t, k)))
    ensures At(h, t, j) == Healthy <==> !Unstable(h[..j]) || CleanTail(h[..j], t.recoveryRuns)
    ensures At(h, t, j) == Healthy || Flagged(At(h, t, j))
  {
    FailsAtMost(h[..k]);
    PassedOnce(h, k, j);
  }

  /** What flags a healthy history is one of its two newest observations. */
  lemma FallIsRecent(h: History, t: Thresholds, k: nat)
    requires 1 <= k <= |h| && t.recoveryRuns >= 1
    requires At(h, t, k - 1) == Healthy && Flagged(At(h, t, k))
    ensures !h[k - 1].Clean() || (k >= 2 && !h[k - 2].Clean())
  {
    var r := t.recoveryRuns;
    JudgedByTail(h, t, k - 1, k - 1);
    JudgedByTail(h, t, k, k);
    assert h[..k][..k - 1] == h[..k - 1];
    if CleanTail(h[..k - 1], r) && h[k - 1].Clean() {
      forall i | k - r <= i < k ensures h[..k][i].Clean() {
        assert i < k - 1 ==> h[..k - 1][i].Clean();
      }
      assert false;
    }
  }

  lemma UncleanBreaksTail(h: History, i: nat, r: nat)
    requires i < |h| && !h[i].Clean() && i + r >= |h|
    ensures !CleanTail(h, r)
  {
  }

  /**
   * Dwell time: a scenario that falls from healthy at its k-th observation is
   * not healthy again before the (k + r - 1)-th.
   */
  lemma DwellTime(h: History, t: Thresholds, k: nat, j: nat)
    requires 1 <= k <= j <= |h| && j + 1 < k + t.recoveryRuns
    requires At(h, t, k - 1) == Healthy && Flagged(At(h, t, k))
    ensures Flagged(At(h, t, j))
  {
    JudgedByTail(h, t, k, k);
    JudgedByTail(h, t, k, j);
    UnstableStays(h, k, j);
    FallIsRecent(h, t, k);
    if !h[k - 1].Clean() {
      UncleanBreaksTail(h[..j], k - 1, t.recoveryRuns);
    } else {
      UncleanBreaksTail(h[..j], k - 2, t.recoveryRuns);
    }
  }

  predicate Falls(h: History, t: Thresholds, k: nat)
    requires k <= |h|
  {
    k >= 1 && At(h, t, k - 1) == Healthy && Flagged(At(h, t, k))
  }

  /** Two falls are at least `recoveryRuns` observations apart. */
  lemma FallsApart(h: History, t: Thresholds, k: nat, j: nat)
    requires k < j <= |h| && Falls(h, t, k) && Falls(h, t, j)
    ensures k + t.recoveryRuns <= j
  {
    if j < k + t.recoveryRuns {
      DwellTime(h, t, k, j - 1);
    }
  }

  function FallCount(h: History, t: Thresholds, n: nat): nat
    requires n <= |h|
  {
    if n == 0 then 0 else FallCount(h, t, n - 1) + if Falls(h, t, n) then 1 else 0
  }

  /** The latest fall so far, zero if there was none. */
  function LastFall(h: History, t: Thresholds, n: nat): (k: nat)
    requires n <= |h|
    ensures k <= n && (k > 0 ==> Falls(h, t, k))
  {
    if n == 0 then 0 else if Falls(h, t, n) then n else LastFall(h, t, n - 1)
  }

  /** `c` falls, the latest at `k`, each `r` after the one before. */
  predicate Spread(r: nat, c: nat, k: nat) {
    (c == 0 <==> k == 0) && (c > 0 ==> r * (c - 1) < k)
  }

  lemma {:induction false} FallsSpread(h: History, t: Thresholds, n: nat)
    requires n <= |h|
    ensures Spread(t.recoveryRuns, FallCount(h, t, n), LastFall(h, t, n))
  {
    if n > 0 {
      FallsSpread(h, t, n - 1);
      var c, k := FallCount(h, t, n - 1), LastFall(h, t, n - 1);
      if Falls(h, t, n) {
        if k > 0 {
          FallsApart(h, t, k, n);
        }
        OneMoreFall(t.recoveryRuns, c, k, n);
      }
    }
  }

  lemma OneMoreFall(r: nat, c: nat, k: nat, n: nat)
    requires Spread(r, c, k) && n > 0 && (k > 0 ==> k + r <= n)
    ensures Spread(r, c + 1, n)
  {
    if c > 0 {
      assert r * c == r * (c - 1) + r;
    }
  }

  lemma SpreadBound(r: nat, c: nat, k: nat, n: nat)
    requires r >= 1 && Spread(r, c, k) && k <= n
    ensures c <= n / r + 1
  {
    if c > 0 {
      Quotient(n, r);
      AtMost(r, c - 1, n / r, n);
    }
  }

  lemma Quotient(n: nat, r: nat)
    requires r >= 1
    ensures n < r * (n / r) + r
  {
  }

  lemma {:induction false} AtMost(r: nat, q: nat, d: nat, n: nat)
    requires r * q <= n < r * d + r
    ensures q <= d
  {
    assert r * (d + 1) == r * d + r;
    if q > d {
      Scale(r, d + 1, q);
    }
  }

  ghost function FallSet(h: History, t: Thresholds, n: nat): set<nat>
    requires n <= |h|
  {
    set k | 1 <= k <= n && Falls(h, t, k)
  }

  lemma FallSetGrows(h: History, t: Thresholds, n: nat)
    requires 0 < n <= |h|
    ensures FallSet(h, t, n) == if Falls(h, t, n) then FallSet(h, t, n - 1) + {n} else FallSet(h, t, n - 1)
  {
    forall k ensures k in FallSet(h, t, n) <==> k in FallSet(h, t, n - 1) || (k == n && Falls(h, t, n)) {
    }
  }

  lemma {:induction false} FallsAre(h: History, t: Thresholds, n: nat)
    requires n <= |h|
    ensures FallCount(h, t, n) == |FallSet(h, t, n)|
  {
    if n > 0 {
      FallsAre(h, t, n - 1);
      FallSetGrows(h, t, n);
      assert n !in FallSet(h, t, n - 1);
    }
  }

  /** So `n` observations hold at most `n / r + 1` falls: steps from healthy to flaky or latent. */
  lemma FallsBounded(h: History, t: Thresholds)
    requires t.recoveryRuns >= 1
    ensures var falls := set k {:trigger h[..k]} | 1 <= k <= |h|
                           && VerdictOf(h[..k - 1], false, t) == Healthy
                           && VerdictOf(h[..k], false, t) in {FlakyNow, Latent};
            |falls| <= |h| / t.recoveryRuns + 1
  {
    FallsSpread(h, t, |h|);
    SpreadBound(t.recoveryRuns, FallCount(h, t, |h|), LastFall(h, t, |h|), |h|);
    FallsAre(h, t, |h|);
    var falls := set k {:trigger h[..k]} | 1 <= k <= |h|
                   && VerdictOf(h[..k - 1], false, t) == Healthy
                   && VerdictOf(h[..k], false, t) in {FlakyNow, Latent};
    assert falls == FallSet(h, t, |h|);
  }

  /** With a recovery window of zero a flagged scenario never becomes healthy. */
  lemma NoWindowNoRecovery(h: History, t: Thresholds, k: nat, j: nat)
    requires k <= j <= |h| && t.recoveryRuns == 0 && Flagged(At(h, t, k))
    ensures Flagged(At(h, t, j))
  {
    JudgedByTail(h, t, k, k);
    JudgedByTail(h, t, k, j);
    UnstableStays(h, k, j);
  }

  /** A clean window is enough: the verdict recovers exactly when it has been earned. */
  lemma RecoversWhenEarned(h: History, t: Thresholds, k: nat, j: nat)
    requires k <= j <= |h| && Flagged(At(h, t, k))
    ensures At(h, t, j) == Healthy <==> CleanTail(h[..j], t.recoveryRuns)
  {
    JudgedByTail(h, t, k, k);
    JudgedByTail(h, t, k, j);
    UnstableStays(h, k, j);
  }
}
