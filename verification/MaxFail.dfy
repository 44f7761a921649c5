// `--max-fail N` under concurrent emitters.
module MaxFail {
  import opened Events

  /** Where one emission stands: before the counter, about to cancel, about to forward, forwarded. */
  datatype Pc = Waiting | Tripping | Forwarding | Done

  const U32: nat := 0x1_0000_0000

  /**
   * The shared state of the sink and one program counter per emission. Emission
   * `i` is some thread's call with `events[i]`; calls interleave freely.
   */
  datatype RawWorld = World(events: seq<Event>, threshold: Threshold, failed: nat, cancels: nat, pcs: seq<Pc>,
                            log: seq<Event>)

  type World = w: RawWorld | |w.pcs| == |w.events| witness World([], 1, 0, 0, [], [])

  /** At least one, and a 32-bit number. */
  type Threshold = n: nat | 0 < n < U32 witness 1

  predicate SuiteFailure(e: Event) {
    e.ScenarioFinished? && e.status == Failed && e.phase.None?
  }

  function Start(events: seq<Event>, threshold: Threshold): World {
    World(events, threshold, 0, 0, seq(|events|, _ => Waiting), [])
  }

  /** The next atomic step of emission `i`; a finished one has none left. */
  function Act(w: World, i: nat): World
    requires i < |w.events|
  {
    match w.pcs[i]
    case Waiting =>
      if SuiteFailure(w.events[i]) then
        var count := (w.failed + 1) % U32;
        w.(failed := count, pcs := w.pcs[i := if count == w.threshold then Tripping else Forwarding])
      else w.(pcs := w.pcs[i := Forwarding])
    case Tripping => w.(cancels := w.cancels + 1, pcs := w.pcs[i := Forwarding])
    case Forwarding => w.(log := w.log + [w.events[i]], pcs := w.pcs[i := Done])
    case Done => w
  }

  /** The world after a schedule: which emission moves at each step. */
  ghost function After(w: World, schedule: seq<nat>): (r: World)
    requires forall s :: 0 <= s < |schedule| ==> schedule[s] < |w.events|
    ensures r.events == w.events && r.threshold == w.threshold
  {
    if schedule == [] then w else Act(After(w, schedule[..|schedule| - 1]), schedule[|schedule| - 1])
  }

  // ----- counting over emissions

  function Failures(events: seq<Event>): nat {
    if events == [] then 0
    else Failures(events[..|events| - 1]) + if SuiteFailure(events[|events| - 1]) then 1 else 0
  }

  function Sum(xs: seq<nat>): nat {
    if xs == [] then 0 else Sum(xs[..|xs| - 1]) + xs[|xs| - 1]
  }

  lemma {:induction false} SumUpdate(xs: seq<nat>, i: nat, x: nat)
    requires i < |xs|
    ensures Sum(xs[i := x]) == Sum(xs) - xs[i] + x
  {
    var n := |xs| - 1;
    if i == n {
      assert xs[i := x][..n] == xs[..n];
    } else {
      assert xs[i := x][..n] == xs[..n][i := x];
      SumUpdate(xs[..n], i, x);
    }
  }

  /** One where emission `i` is a suite failure past the counter. */
  ghost function Counted(w: World): seq<nat>
  {
    seq(|w.pcs|, i requires 0 <= i < |w.pcs| => if SuiteFailure(w.events[i]) && w.pcs[i] != Waiting then 1 else 0)
  }

  ghost function Trippers(w: World): seq<nat>
  {
    seq(|w.pcs|, i requires 0 <= i < |w.pcs| => if w.pcs[i] == Tripping then 1 else 0)
  }

  ghost function Forwarded(w: World, e: Event): seq<nat>
  {
    seq(|w.pcs|, i requires 0 <= i < |w.pcs| => if w.pcs[i] == Done && w.events[i] == e then 1 else 0)
  }

  /** Ones where only suite failures stand count at most the failures, and fewer if one is left out. */
  lemma {:induction false} SumAtMost(events: seq<Event>, xs: seq<nat>)
    requires |xs| == |events|
    requires forall i :: 0 <= i < |xs| ==> xs[i] <= if SuiteFailure(events[i]) then 1 else 0
    ensures Sum(xs) <= Failures(events)
    ensures (exists i :: 0 <= i < |xs| && xs[i] == 0 && SuiteFailure(events[i])) ==> Sum(xs) < Failures(events)
  {
    if xs != [] {
      var n := |xs| - 1;
      SumAtMost(events[..n], xs[..n]);
      if i :| 0 <= i < |xs| && xs[i] == 0 && SuiteFailure(events[i]) {
        assert i < n ==> xs[..n][i] == 0 && SuiteFailure(events[..n][i]);
      }
    }
  }

  lemma {:induction false} SumZero(xs: seq<nat>)
    requires forall i :: 0 <= i < |xs| ==> xs[i] == 0
    ensures Sum(xs) == 0
  {
    if xs != [] {
      SumZero(xs[..|xs| - 1]);
    }
  }

  // ----- the invariant

  /** Ones at the places of a set add up to its size. */
  lemma {:induction false} SumIsCount(xs: seq<nat>, places: set<nat>)
    requires forall i :: i in places ==> i < |xs|
    requires forall i :: 0 <= i < |xs| ==> xs[i] == if i in places then 1 else 0
    ensures Sum(xs) == |places|
  {
    if xs == [] {
      assert places == {};
    } else {
      var n := |xs| - 1;
      SumIsCount(xs[..n], places - {n});
      if n in places {
        assert places == places - {n} + {n};
      } else {
        assert places == places - {n};
      }
    }
  }

  /** How many suite failures have passed the counter. */
  ghost function Passed(w: World): nat {
    Sum(Counted(w))
  }

  /** How often `n` failures bring a 32-bit counter to the threshold: again each time it comes round. */
  function Trips(n: nat, threshold: Threshold): nat {
    if n < threshold then 0 else (n - threshold) / U32 + 1
  }

  lemma NextQuotient(d: nat)
    ensures (d + 1) / U32 == d / U32 + if (d + 1) % U32 == 0 then 1 else 0
  {
  }

  lemma ShiftedRemainder(d: nat, t: nat)
    requires t < U32
    ensures (d + t) % U32 == t <==> d % U32 == 0
  {
  }

  lemma TripsStep(n: nat, threshold: Threshold)
    ensures Trips(n + 1, threshold) == Trips(n, threshold) + if (n + 1) % U32 == threshold then 1 else 0
  {
    if threshold <= n {
      NextQuotient(n - threshold);
      ShiftedRemainder(n + 1 - threshold, threshold);
    } else {
      assert n + 1 <= threshold < U32;
    }
  }

  /** Not before the threshold, and once until the counter has come round. */
  lemma TripsOnce(n: nat, threshold: Threshold)
    ensures Trips(n, threshold) == 0 <==> n < threshold
    ensures Trips(n, threshold) == 1 <==> threshold <= n < threshold + U32
  {
  }

  /**
   * The counter counts the failures past it, modulo 2^32; a cancellation is done
   * or due for each time it reached the threshold; the log holds each forwarded
   * event once.
   */
  ghost predicate Invariant(w: World) {
    && w.failed == Passed(w) % U32
    && w.cancels + Sum(Trippers(w)) == Trips(Passed(w), w.threshold)
    && forall e :: multiset(w.log)[e] == Sum(Forwarded(w, e))
  }

  lemma StartInvariant(events: seq<Event>, threshold: Threshold)
    ensures Invariant(Start(events, threshold))
  {
    var w := Start(events, threshold);
    SumZero(Counted(w));
    SumZero(Trippers(w));
    forall e ensures multiset(w.log)[e] == Sum(Forwarded(w, e)) {
      SumZero(Forwarded(w, e));
    }
  }

  lemma CountedMoves(w: World, i: nat)
    requires i < |w.events|
    ensures Sum(Counted(Act(w, i))) == Sum(Counted(w)) - Counted(w)[i] + Counted(Act(w, i))[i]
  {
    SumUpdate(Counted(w), i, Counted(Act(w, i))[i]);
    assert Counted(Act(w, i)) == Counted(w)[i := Counted(Act(w, i))[i]];
  }

  lemma TrippersMove(w: World, i: nat)
    requires i < |w.events|
    ensures Sum(Trippers(Act(w, i))) == Sum(Trippers(w)) - Trippers(w)[i] + Trippers(Act(w, i))[i]
  {
    SumUpdate(Trippers(w), i, Trippers(Act(w, i))[i]);
    assert Trippers(Act(w, i)) == Trippers(w)[i := Trippers(Act(w, i))[i]];
  }

  lemma ForwardedMoves(w: World, i: nat, e: Event)
    requires i < |w.events|
    ensures Sum(Forwarded(Act(w, i), e)) == Sum(Forwarded(w, e)) - Forwarded(w, e)[i] + Forwarded(Act(w, i), e)[i]
  {
    SumUpdate(Forwarded(w, e), i, Forwarded(Act(w, i), e)[i]);
    assert Forwarded(Act(w, i), e) == Forwarded(w, e)[i := Forwarded(Act(w, i), e)[i]];
  }

  lemma LogMoves(w: World, i: nat, e: Event)
    requires Invariant(w) && i < |w.events|
    ensures multiset(Act(w, i).log)[e] == Sum(Forwarded(Act(w, i), e))
  {
    ForwardedMoves(w, i, e);
    assert multiset(w.log)[e] == Sum(Forwarded(w, e));
  }

  /** Does emission `i`'s next step count a failure? */
  predicate Counts(w: World, i: nat)
    requires i < |w.events|
  {
    w.pcs[i] == Waiting && SuiteFailure(w.events[i])
  }

  lemma PassedMoves(w: World, i: nat)
    requires i < |w.events|
    ensures Passed(Act(w, i)) == Passed(w) + if Counts(w, i) then 1 else 0
  {
    CountedMoves(w, i);
  }

  lemma TrippingMoves(w: World, i: nat)
    requires i < |w.events|
    ensures Sum(Trippers(Act(w, i))) == Sum(Trippers(w)) - (if w.pcs[i] == Tripping then 1 else 0)
         + (if Counts(w, i) && Act(w, i).failed == w.threshold then 1 else 0)
  {
    TrippersMove(w, i);
  }

  lemma CounterWraps(n: nat)
    ensures (n % U32 + 1) % U32 == (n + 1) % U32
  {
  }

  lemma CountsMove(w: World, i: nat)
    requires Invariant(w) && i < |w.events|
    ensures var v := Act(w, i);
            && v.failed == Passed(v) % U32
            && v.cancels + Sum(Trippers(v)) == Trips(Passed(v), v.threshold)
  {
    PassedMoves(w, i);
    TrippingMoves(w, i);
    if Counts(w, i) {
      CounterWraps(Passed(w));
      TripsStep(Passed(w), w.threshold);
    }
  }

  lemma ActKeepsInvariant(w: World, i: nat)
    requires Invariant(w) && i < |w.events|
    ensures Invariant(Act(w, i))
  {
    CountsMove(w, i);
    forall e ensures multiset(Act(w, i).log)[e] == Sum(Forwarded(Act(w, i), e)) {
      LogMoves(w, i, e);
    }
  }

  lemma {:induction false} AlwaysInvariant(events: seq<Event>, threshold: Threshold, schedule: seq<nat>)
    requires forall s :: 0 <= s < |schedule| ==> schedule[s] < |events|
    ensures Invariant(After(Start(events, threshold), schedule))
  {
    if schedule == [] {
      StartInvariant(events, threshold);
    } else {
      var n := |schedule| - 1;
      AlwaysInvariant(events, threshold, schedule[..n]);
      ActKeepsInvariant(After(Start(events, threshold), schedule[..n]), schedule[n]);
    }
  }

  // ----- the promise

  ghost predicate AllDone(w: World) {
    forall i :: 0 <= i < |w.pcs| ==> w.pcs[i] == Done
  }

  lemma {:induction false} DoneSums(events: seq<Event>, xs: seq<nat>, e: Event, ys: seq<nat>)
    requires |xs| == |ys| == |events|
    requires forall i :: 0 <= i < |events| ==> xs[i] == if SuiteFailure(events[i]) then 1 else 0
    requires forall i :: 0 <= i < |events| ==> ys[i] == if events[i] == e then 1 else 0
    ensures Sum(xs) == Failures(events) && Sum(ys) == multiset(events)[e]
  {
    if events != [] {
      var n := |events| - 1;
      DoneSums(events[..n], xs[..n], e, ys[..n]);
      assert events == events[..n] + [events[n]];
    }
  }

  /** A suite failure is a scenario's close with status failed, outside the setup and teardown phases. */
  lemma FailuresAre(events: seq<Event>)
    ensures Failures(events)
         == |set i | 0 <= i < |events| && events[i].ScenarioFinished? && events[i].status == Failed
                     && events[i].phase == None|
  {
    var marks := seq(|events|, i requires 0 <= i < |events| => if SuiteFailure(events[i]) then 1 else 0);
    FailuresAreMarks(events, marks);
    SumIsCount(marks, set i | 0 <= i < |events| && events[i].ScenarioFinished? && events[i].status == Failed
                              && events[i].phase == None);
  }

  lemma {:induction false} FailuresAreMarks(events: seq<Event>, marks: seq<nat>)
    requires |marks| == |events|
    requires forall i :: 0 <= i < |events| ==> marks[i] == if SuiteFailure(events[i]) then 1 else 0
    ensures Failures(events) == Sum(marks)
  {
    if events != [] {
      FailuresAreMarks(events[..|events| - 1], marks[..|events| - 1]);
    }
  }

  lemma PassedAre(w: World)
    ensures Passed(w)
         == |set i | 0 <= i < |w.events| && w.pcs[i] != Waiting && w.events[i].ScenarioFinished?
                     && w.events[i].status == Failed && w.events[i].phase == None|
  {
    SumIsCount(Counted(w), set i | 0 <= i < |w.events| && w.pcs[i] != Waiting && w.events[i].ScenarioFinished?
                                   && w.events[i].status == Failed && w.events[i].phase == None);
  }

  /**
   * In every interleaving the run is cancelled only after N suite failures, and at
   * most once as long as fewer than N + 2^32 are emitted.
   */
  lemma CancelsAtMostOnce(events: seq<Event>, threshold: Threshold, schedule: seq<nat>)
    requires forall s :: 0 <= s < |schedule| ==> schedule[s] < |events|
    ensures var w := After(Start(events, threshold), schedule);
            var passed := set i | 0 <= i < |events| && w.pcs[i] != Waiting && events[i].ScenarioFinished?
                                  && events[i].status == Failed && events[i].phase == None;
            var failures := set i | 0 <= i < |events| && events[i].ScenarioFinished? && events[i].status == Failed
                                    && events[i].phase == None;
            && (w.cancels >= 1 ==> |passed| >= threshold)
            && (|failures| < threshold + U32 ==> w.cancels <= 1)
  {
    var w := After(Start(events, threshold), schedule);
    AlwaysInvariant(events, threshold, schedule);
    SumAtMost(events, Counted(w));
    TripsOnce(Passed(w), threshold);
    PassedAre(w);
    FailuresAre(events);
  }

  lemma WhenAllDone(w: World)
    requires Invariant(w) && AllDone(w)
    ensures w.cancels == Trips(Failures(w.events), w.threshold)
    ensures multiset(w.log) == multiset(w.events)
  {
    SumZero(Trippers(w));
    var e := RunFinished(0, 0, 0, false);
    DoneSums(w.events, Counted(w), e, Forwarded(w, e));
    forall e: Event ensures multiset(w.log)[e] == multiset(w.events)[e] {
      DoneSums(w.events, Counted(w), e, Forwarded(w, e));
    }
  }

  /**
   * Once every emission is through: cancelled if and only if N suite failures were
   * emitted, exactly once if and only if fewer than N + 2^32 were, and every event
   * forwarded exactly once.
   */
  lemma TripsExactlyAtThreshold(events: seq<Event>, threshold: Threshold, schedule: seq<nat>)
    requires forall s :: 0 <= s < |schedule| ==> schedule[s] < |events|
    ensures var w := After(Start(events, threshold), schedule);
            var failures := set i | 0 <= i < |events| && events[i].ScenarioFinished? && events[i].status == Failed
                                    && events[i].phase == None;
            AllDone(w) ==>
              && (w.cancels >= 1 <==> |failures| >= threshold)
              && (w.cancels == 1 <==> threshold <= |failures| < threshold + U32)
              && multiset(w.log) == multiset(events)
  {
    var w := After(Start(events, threshold), schedule);
    AlwaysInvariant(events, threshold, schedule);
    TripsOnce(Failures(events), threshold);
    FailuresAre(events);
    if AllDone(w) {
      WhenAllDone(w);
    }
  }
}
