// The sinks a run writes its record through.
module Sinks {
  import opened Sequences
  import opened Identity
  import opened Events
  import opened Records
  import opened Report

  // ----- worker slots

  /** The least number from `i` on that is not taken. */
  function FirstFree(taken: set<nat>, i: nat): (slot: nat)
    ensures i <= slot <= i + |taken|
    ensures slot !in taken && forall j :: i <= j < slot ==> j in taken
    decreases |taken|
  {
    if i !in taken then i
    else
      var slot := FirstFree(taken - {i}, i + 1);
      assert forall j :: i <= j < slot ==> j in taken by {
        forall j | i <= j < slot ensures j in taken {
          if j != i {
            assert j in taken - {i};
          }
        }
      }
      slot
  }

  lemma FirstFreeUnique(taken: set<nat>, slot: nat)
    requires slot !in taken && forall j :: 0 <= j < slot ==> j in taken
    ensures FirstFree(taken, 0) == slot
  {
    var free := FirstFree(taken, 0);
    assert free == slot || free < slot || slot < free;
  }

  /** What starting or finishing a scenario does to the occupied slots. */
  function Occupy(slots: map<Key, nat>, e: Event): map<Key, nat> {
    if e.ScenarioStarted? then slots[(e.scenario, e.file) := FirstFree(slots.Values, 0)]
    else if e.ScenarioFinished? then slots - {(e.scenario, e.file)}
    else slots
  }

  function Occupied(es: seq<Event>): map<Key, nat> {
    if es == [] then map[] else Occupy(Occupied(es[..|es| - 1]), es[|es| - 1])
  }

  ghost predicate Injective(slots: map<Key, nat>) {
    forall j, k :: j in slots && k in slots && j != k ==> slots[j] != slots[k]
  }

  /** An event as the timed sink records it. */
  function Stamped(e: Event, now: nat, slots: map<Key, nat>): Event {
    match e
    case ScenarioStarted(scenario, file, _, _, phase, exclusive) =>
      ScenarioStarted(scenario, file, Some(now), Some(FirstFree(slots.Values, 0)), phase, exclusive)
    case ScenarioFinished(scenario, file, status, _, _, phase, reason, tags) =>
      ScenarioFinished(scenario, file, status, Some(now), None, phase, reason, tags)
    case _ => e
  }

  /** The innermost sink: stamps scenario events with time and worker slot, and records. */
  class TimedSink {
    var slots: map<Key, nat>
    var log: seq<Event>

    constructor ()
      ensures slots == map[] && log == []
    {
      slots, log := map[], [];
    }

    method AcquireSlot(key: Key) returns (slot: nat)
      modifies `slots
      ensures slot == FirstFree(old(slots).Values, 0)
      ensures slots == old(slots)[key := slot]
    {
      var taken := slots.Values;
      var bound := |taken|;
      slot := 0;
      ghost var free := FirstFree(taken, 0);
      while slot <= bound && slot in taken
        invariant slot <= free
      {
        slot := slot + 1;
      }
      FirstFreeUnique(taken, slot);
      slots := slots[key := slot];
    }

    method ReleaseSlot(key: Key)
      modifies `slots
      ensures slots == old(slots) - {key}
    {
      slots := slots - {key};
    }

    method Emit(e: Event, now: nat)
      modifies this
      ensures slots == Occupy(old(slots), e)
      ensures log == old(log) + [Stamped(e, now, old(slots))]
    {
      match e {
        case ScenarioStarted(scenario, file, _, _, phase, exclusive) =>
          var slot := AcquireSlot((scenario, file));
          log := log + [ScenarioStarted(scenario, file, Some(now), Some(slot), phase, exclusive)];
        case ScenarioFinished(scenario, file, status, _, _, phase, reason, tags) =>
          ReleaseSlot((scenario, file));
          log := log + [ScenarioFinished(scenario, file, status, Some(now), None, phase, reason, tags)];
        case _ =>
          log := log + [e];
      }
    }
  }

  /** Scenarios that are live together always hold different slots. */
  lemma {:induction false} LiveSlotsDiffer(es: seq<Event>)
    ensures Injective(Occupied(es))
  {
    if es != [] {
      var before := es[..|es| - 1];
      LiveSlotsDiffer(before);
      var free := FirstFree(Occupied(before).Values, 0);
      assert forall k :: k in Occupied(before) ==> Occupied(before)[k] in Occupied(before).Values;
    }
  }

  lemma {:induction false} ValuesOfInjective(slots: map<Key, nat>)
    requires Injective(slots)
    ensures |slots.Values| == |slots|
    decreases |slots|
  {
    if slots == map[] {
      assert slots.Values == {};
    } else {
      var k :| k in slots;
      var rest := slots - {k};
      assert slots.Keys == rest.Keys + {k};
      ValuesOfInjective(rest);
      assert slots.Values == rest.Values + {slots[k]} by {
        forall v | v in slots.Values ensures v in rest.Values + {slots[k]} {
          var j :| j in slots && slots[j] == v;
          if j != k {
            assert j in rest && rest[j] == v;
          }
        }
      }
      assert slots[k] !in rest.Values;
    }
  }

  /** With at most `jobs` live at once and no live scenario started again, slots stay below `jobs`. */
  lemma SlotsBelowJobs(es: seq<Event>, e: Event, jobs: nat)
    requires e.ScenarioStarted? && (e.scenario, e.file) !in Occupied(es)
    requires |Occupy(Occupied(es), e)| <= jobs
    ensures FirstFree(Occupied(es).Values, 0) < jobs
  {
    var before, after, key := Occupied(es), Occupy(Occupied(es), e), (e.scenario, e.file);
    LiveSlotsDiffer(es);
    ValuesOfInjective(before);
    assert after.Keys == before.Keys + {key};
    assert |after.Keys| == |before.Keys| + 1;
  }

  // ----- a whole stream through the timed sink

  /** What the sink records of a stream, each event at its own time. */
  function Recorded(es: seq<Event>, times: seq<nat>): (log: seq<Event>)
    requires |es| == |times|
    ensures |log| == |es|
  {
    if es == [] then []
    else
      var n := |es| - 1;
      Recorded(es[..n], times[..n]) + [Stamped(es[n], times[n], Occupied(es[..n]))]
  }

  method RecordAll(es: seq<Event>, times: seq<nat>) returns (sink: TimedSink)
    requires |es| == |times|
    ensures fresh(sink) && sink.slots == Occupied(es) && sink.log == Recorded(es, times)
    ensures forall i :: 0 <= i < |es| && es[i].ScenarioStarted? ==>
              sink.log[i].ScenarioStarted? && sink.log[i].timestamp == Some(times[i])
    ensures forall i :: 0 <= i < |es| && es[i].ScenarioFinished? ==>
              sink.log[i].ScenarioFinished? && sink.log[i].timestamp == Some(times[i])
  {
    sink := new TimedSink();
    for i := 0 to |es|
      invariant fresh(sink) && sink.slots == Occupied(es[..i]) && sink.log == Recorded(es[..i], times[..i])
    {
      assert es[..i + 1][..i] == es[..i] && times[..i + 1][..i] == times[..i];
      sink.Emit(es[i], times[i]);
    }
    assert es[..|es|] == es && times[..|es|] == times;
    AllTimesRecorded(es, times, sink.log);
  }

  /**
   * Each event is recorded in its place and at its own time: a start with that
   * time and some worker, a finish with that time and no worker, all else as it is.
   */
  lemma TimesRecorded(es: seq<Event>, times: seq<nat>, i: nat)
    requires |es| == |times| && i < |es|
    ensures var e, r := es[i], Recorded(es, times)[i];
            && (e.ScenarioStarted? ==>
                  && r.ScenarioStarted? && r.worker.Some?
                  && r == ScenarioStarted(e.scenario, e.file, Some(times[i]), r.worker, e.phase, e.exclusive))
            && (e.ScenarioFinished? ==>
                  r == ScenarioFinished(e.scenario, e.file, e.status, Some(times[i]), None, e.phase, e.reason, e.tags))
            && (!e.ScenarioStarted? && !e.ScenarioFinished? ==> r == e)
  {
    RecordedAt(es, times, i);
  }

  /** One event later a start still counts unless the event is its finish. */
  lemma LiveLater(es: seq<Event>, k: Key, i: int)
    requires es != [] && i < |es| - 1
    ensures var n := |es| - 1;
            LiveSince(es, k, i) <==>
              LiveSince(es[..n], k, i) && !(es[n].ScenarioFinished? && (es[n].scenario, es[n].file) == k)
  {
  }

  lemma AllTimesRecorded(es: seq<Event>, times: seq<nat>, log: seq<Event>)
    requires |es| == |times| && log == Recorded(es, times)
    ensures forall i :: 0 <= i < |es| && es[i].ScenarioStarted? ==>
              log[i].ScenarioStarted? && log[i].timestamp == Some(times[i])
    ensures forall i :: 0 <= i < |es| && es[i].ScenarioFinished? ==>
              log[i].ScenarioFinished? && log[i].timestamp == Some(times[i])
  {
    forall i | 0 <= i < |es|
      ensures es[i].ScenarioStarted? ==> log[i].ScenarioStarted? && log[i].timestamp == Some(times[i])
      ensures es[i].ScenarioFinished? ==> log[i].ScenarioFinished? && log[i].timestamp == Some(times[i])
    {
      TimesRecorded(es, times, i);
    }
  }

  /** A scenario holds a slot from its start until its finish. */
  lemma {:induction false} LiveIff(es: seq<Event>, k: Key)
    ensures k in Occupied(es) <==> exists i :: LiveSince(es, k, i)
  {
    if es != [] {
      var n := |es| - 1;
      LiveIff(es[..n], k);
      if es[n].ScenarioStarted? && (es[n].scenario, es[n].file) == k {
        assert LiveSince(es, k, n);
      } else {
        forall i ensures LiveSince(es, k, i) <==>
          LiveSince(es[..n], k, i) && !(es[n].ScenarioFinished? && (es[n].scenario, es[n].file) == k)
        {
          if i < n {
            LiveLater(es, k, i);
          }
        }
      }
    }
  }

  ghost predicate LiveSince(es: seq<Event>, k: Key, i: int) {
    && 0 <= i < |es| && es[i].ScenarioStarted? && (es[i].scenario, es[i].file) == k
    && forall j :: i < j < |es| && es[j].ScenarioFinished? ==> (es[j].scenario, es[j].file) != k
  }

  lemma {:induction false} RecordedAt(es: seq<Event>, times: seq<nat>, i: nat)
    requires |es| == |times| && i < |es|
    ensures Recorded(es, times)[i] == Stamped(es[i], times[i], Occupied(es[..i]))
  {
    var n := |es| - 1;
    if i < n {
      assert es[..n][..i] == es[..i];
      RecordedAt(es[..n], times[..n], i);
    }
  }

  /** No live scenario starts again, and at most `jobs` are live at once. */
  ghost predicate AtMostLive(es: seq<Event>, jobs: nat) {
    forall i :: 0 <= i < |es| && es[i].ScenarioStarted? ==>
      (es[i].scenario, es[i].file) !in Occupied(es[..i]) && |Occupied(es[..i + 1])| <= jobs
  }

  /**
   * In the recorded stream every start carries a worker below `jobs`, the least
   * one that no live scenario holds.
   */
  lemma WorkersBelowJobs(es: seq<Event>, times: seq<nat>, jobs: nat, i: nat)
    requires |es| == |times| && AtMostLive(es, jobs) && i < |es| && es[i].ScenarioStarted?
    ensures var e, live := Recorded(es, times)[i], Occupied(es[..i]).Values;
            && e.ScenarioStarted? && e.worker.Some? && e.worker.value < jobs
            && e.worker.value !in live && forall w :: 0 <= w < e.worker.value ==> w in live
  {
    RecordedAt(es, times, i);
    assert es[..i + 1][..i] == es[..i];
    SlotsBelowJobs(es[..i], es[i], jobs);
  }

  // ----- head and tail, phases

  predicate HeadOrTail(e: Event) {
    e.RunStarted? || e.RunFinished?
  }

  /** The pool's sink: a nested runner's own head and tail are dropped. */
  function Suppressed(es: seq<Event>): seq<Event> {
    if es == [] then []
    else
      var rest := Suppressed(es[..|es| - 1]);
      if HeadOrTail(es[|es| - 1]) then rest else rest + [es[|es| - 1]]
  }

  /** A phase's label on its scenario events. */
  function Labelled(name: string, e: Event): Event {
    match e
    case ScenarioStarted(scenario, file, timestamp, worker, _, exclusive) =>
      ScenarioStarted(scenario, file, timestamp, worker, Some(name), exclusive)
    case ScenarioFinished(scenario, file, status, timestamp, worker, _, reason, tags) =>
      ScenarioFinished(scenario, file, status, timestamp, worker, Some(name), reason, tags)
    case _ => e
  }

  function LabelAll(name: string, es: seq<Event>): seq<Event> {
    if es == [] then [] else LabelAll(name, es[..|es| - 1]) + [Labelled(name, es[|es| - 1])]
  }

  /** A phase's sink: suppressed and labelled. */
  function PhaseEvents(name: string, es: seq<Event>): seq<Event> {
    LabelAll(name, Suppressed(es))
  }

  // ----- the run record

  /** The single owner of a record's head and tail. */
  class RunRecord {
    const sink: TimedSink
    var passed: nat
    var failed: nat
    var skipped: nat

    constructor Open(sink: TimedSink, head: Event, now: nat)
      requires head.RunStarted?
      modifies sink
      ensures this.sink == sink && passed == failed == skipped == 0
      ensures sink.log == old(sink.log) + [head]
    {
      this.sink := sink;
      passed, failed, skipped := 0, 0, 0;
      new;
      sink.Emit(head, now);
    }

    /** Fold the suite's own totals. */
    method Add(totals: RunTotals)
      modifies `passed, `failed, `skipped
      ensures passed == old(passed) + totals.passed
      ensures failed == old(failed) + totals.failed
      ensures skipped == old(skipped) + totals.skipped
    {
      passed, failed, skipped := passed + totals.passed, failed + totals.failed, skipped + totals.skipped;
    }

    /** Leaving the guard's scope: the tail, unless a panic is unwinding through it. */
    method Drop(panicking: bool, cancelled: bool, now: nat)
      modifies sink
      ensures sink.log == old(sink.log) + if panicking then [] else [RunFinished(passed, failed, skipped, cancelled)]
    {
      if panicking {
        assert sink.log + [] == sink.log;
      } else {
        sink.Emit(RunFinished(passed, failed, skipped, cancelled), now);
      }
    }
  }

  /**
   * One run: what setup, the pool and teardown emit, in the order the sink sees
   * it; whether the run ended before its pool; the suite's totals; how it ended.
   */
  datatype RawPlan = Plan(head: Event, setup: seq<Event>, endsEarly: bool, pool: seq<Event>, totals: RunTotals,
                       teardown: seq<Event>, cancelled: bool, panics: bool)

  type Plan = p: RawPlan | p.head.RunStarted?
    witness Plan(RunStarted("", None, map[], false, None), [], false, [], RunTotals(0, 0, 0), [], false, false)

  function Body(plan: Plan): seq<Event> {
    var setup := PhaseEvents("setup", plan.setup);
    if plan.endsEarly then setup
    else setup + (Suppressed(plan.pool) + PhaseEvents("teardown", plan.teardown))
  }

  function Totals(plan: Plan): RunTotals {
    if plan.endsEarly then RunTotals(0, 0, 0) else plan.totals
  }

  function Tail(plan: Plan): Event {
    RunFinished(Totals(plan).passed, Totals(plan).failed, Totals(plan).skipped, plan.cancelled)
  }

  /** The record a run writes, timing aside. */
  function Written(plan: Plan): seq<Event> {
    [plan.head] + Body(plan) + if plan.panics then [] else [Tail(plan)]
  }

  lemma {:induction false} StripAllConcat(a: seq<Event>, b: seq<Event>)
    ensures StripAll(a + b) == StripAll(a) + StripAll(b)
  {
    if b == [] {
      assert a + b == a;
    } else {
      assert (a + b)[..|a + b| - 1] == a + b[..|b| - 1];
      StripAllConcat(a, b[..|b| - 1]);
    }
  }

  lemma StampedStrips(e: Event, now: nat, slots: map<Key, nat>)
    ensures Strip(Stamped(e, now, slots)) == Strip(e)
  {
  }

  lemma StripOneMore(log: seq<Event>, stamped: Event, es: seq<Event>, e: Event)
    requires StripAll(log) == StripAll(es) && Strip(stamped) == Strip(e)
    ensures StripAll(log + [stamped]) == StripAll(es + [e])
  {
    assert (log + [stamped])[..|log|] == log && (es + [e])[..|es|] == es;
  }

  /** Every scenario event carries its time, and every start a worker. */
  ghost predicate AllTimed(log: seq<Event>) {
    forall i :: 0 <= i < |log| ==>
      && (log[i].ScenarioStarted? ==> log[i].timestamp.Some? && log[i].worker.Some?)
      && (log[i].ScenarioFinished? ==> log[i].timestamp.Some? && log[i].worker.None?)
  }

  lemma TimedMore(log: seq<Event>, e: Event, now: nat, slots: map<Key, nat>)
    requires AllTimed(log)
    ensures AllTimed(log + [Stamped(e, now, slots)])
  {
  }

  method EmitOne(sink: TimedSink, e: Event, ghost written: seq<Event>)
    requires StripAll(sink.log) == StripAll(written) && AllTimed(sink.log)
    modifies sink
    ensures StripAll(sink.log) == StripAll(written + [e]) && AllTimed(sink.log)
  {
    var now: nat := *;
    ghost var stamped := Stamped(e, now, sink.slots);
    StampedStrips(e, now, sink.slots);
    StripOneMore(sink.log, stamped, written, e);
    TimedMore(sink.log, e, now, sink.slots);
    sink.Emit(e, now);
  }

  lemma SuppressedStep(written: seq<Event>, es: seq<Event>, i: nat)
    requires i < |es|
    ensures written + Suppressed(es[..i + 1])
         == if HeadOrTail(es[i]) then written + Suppressed(es[..i]) else written + Suppressed(es[..i]) + [es[i]]
  {
    assert es[..i + 1][..i] == es[..i];
  }

  lemma PhaseStep(written: seq<Event>, name: string, es: seq<Event>, i: nat)
    requires i < |es|
    ensures written + PhaseEvents(name, es[..i + 1])
         == if HeadOrTail(es[i]) then written + PhaseEvents(name, es[..i])
            else written + PhaseEvents(name, es[..i]) + [Labelled(name, es[i])]
  {
    assert es[..i + 1][..i] == es[..i];
    var was := Suppressed(es[..i]);
    assert (was + [es[i]])[..|was|] == was;
  }

  /** Emit through the pool's sink. */
  method EmitPool(sink: TimedSink, es: seq<Event>, ghost written: seq<Event>)
    requires StripAll(sink.log) == StripAll(written) && AllTimed(sink.log)
    modifies sink
    ensures StripAll(sink.log) == StripAll(written + Suppressed(es)) && AllTimed(sink.log)
  {
    assert written + [] == written;
    for i := 0 to |es|
      invariant AllTimed(sink.log)
      invariant StripAll(sink.log) == StripAll(written + Suppressed(es[..i]))
    {
      SuppressedStep(written, es, i);
      if !HeadOrTail(es[i]) {
        EmitOne(sink, es[i], written + Suppressed(es[..i]));
      }
    }
    assert es[..|es|] == es;
  }

  /** Emit through a phase's sink. */
  method EmitPhase(sink: TimedSink, name: string, es: seq<Event>, ghost written: seq<Event>)
    requires StripAll(sink.log) == StripAll(written) && AllTimed(sink.log)
    modifies sink
    ensures StripAll(sink.log) == StripAll(written + PhaseEvents(name, es)) && AllTimed(sink.log)
  {
    assert written + [] == written;
    for i := 0 to |es|
      invariant AllTimed(sink.log)
      invariant StripAll(sink.log) == StripAll(written + PhaseEvents(name, es[..i]))
    {
      PhaseStep(written, name, es, i);
      if !HeadOrTail(es[i]) {
        EmitOne(sink, Labelled(name, es[i]), written + PhaseEvents(name, es[..i]));
      }
    }
    assert es[..|es|] == es;
  }

  /** The pool and teardown, with the suite's totals in between. */
  method EmitSuite(record: RunRecord, plan: Plan, ghost written: seq<Event>)
    requires StripAll(record.sink.log) == StripAll(written) && AllTimed(record.sink.log)
    requires record.passed == record.failed == record.skipped == 0
    modifies record, record.sink
    ensures StripAll(record.sink.log)
         == StripAll(written + (Suppressed(plan.pool) + PhaseEvents("teardown", plan.teardown)))
    ensures RunTotals(record.passed, record.failed, record.skipped) == plan.totals
    ensures AllTimed(record.sink.log)
  {
    ghost var pool, teardown := Suppressed(plan.pool), PhaseEvents("teardown", plan.teardown);
    EmitPool(record.sink, plan.pool, written);
    record.Add(plan.totals);
    EmitPhase(record.sink, "teardown", plan.teardown, written + pool);
    Reassociate(written, pool, teardown);
  }

  /** Setup, then, unless it ended the run, the rest. */
  method EmitBody(record: RunRecord, plan: Plan, ghost written: seq<Event>)
    requires StripAll(record.sink.log) == StripAll(written) && AllTimed(record.sink.log)
    requires record.passed == record.failed == record.skipped == 0
    modifies record, record.sink
    ensures StripAll(record.sink.log) == StripAll(written + Body(plan))
    ensures RunTotals(record.passed, record.failed, record.skipped) == Totals(plan)
    ensures AllTimed(record.sink.log)
  {
    EmitPhase(record.sink, "setup", plan.setup, written);
    ghost var setup := PhaseEvents("setup", plan.setup);
    if !plan.endsEarly {
      EmitSuite(record, plan, written + setup);
      Reassociate(written, setup, Suppressed(plan.pool) + PhaseEvents("teardown", plan.teardown));
    }
  }

  /** A whole run through its guard and sinks. */
  method Execute(plan: Plan) returns (log: seq<Event>)
    ensures StripAll(log) == StripAll(Written(plan)) && AllTimed(log)
  {
    var sink := new TimedSink();
    var now: nat := *;
    var record := new RunRecord.Open(sink, plan.head, now);
    assert sink.log == [plan.head];
    EmitBody(record, plan, [plan.head]);
    ghost var before, written := sink.log, [plan.head] + Body(plan);
    record.Drop(plan.panics, plan.cancelled, now);
    log := sink.log;
    if plan.panics {
      assert before + [] == before && written + [] == written;
    } else {
      StripOneMore(before, Tail(plan), written, Tail(plan));
    }
  }

  // ----- what readers find

  ghost predicate NoHeadOrTail(es: seq<Event>) {
    forall i :: 0 <= i < |es| ==> !HeadOrTail(es[i])
  }

  lemma {:induction false} SuppressedDrops(es: seq<Event>)
    ensures NoHeadOrTail(Suppressed(es))
  {
    if es != [] {
      SuppressedDrops(es[..|es| - 1]);
    }
  }

  lemma {:induction false} LabelAllAt(name: string, es: seq<Event>)
    ensures |LabelAll(name, es)| == |es|
    ensures forall i :: 0 <= i < |es| ==> LabelAll(name, es)[i] == Labelled(name, es[i])
  {
    if es != [] {
      LabelAllAt(name, es[..|es| - 1]);
    }
  }

  lemma PhaseHasNoHeadOrTail(name: string, es: seq<Event>)
    ensures NoHeadOrTail(PhaseEvents(name, es))
  {
    SuppressedDrops(es);
    LabelAllAt(name, Suppressed(es));
  }

  lemma NoneInBoth(a: seq<Event>, b: seq<Event>)
    requires NoHeadOrTail(a) && NoHeadOrTail(b)
    ensures NoHeadOrTail(a + b)
  {
  }

  lemma BodyHasNoHeadOrTail(plan: Plan)
    ensures NoHeadOrTail(Body(plan))
  {
    var setup, teardown := PhaseEvents("setup", plan.setup), PhaseEvents("teardown", plan.teardown);
    PhaseHasNoHeadOrTail("setup", plan.setup);
    SuppressedDrops(plan.pool);
    PhaseHasNoHeadOrTail("teardown", plan.teardown);
    NoneInBoth(Suppressed(plan.pool), teardown);
    NoneInBoth(setup, Suppressed(plan.pool) + teardown);
  }

  /** Events other than heads and tails leave the run-level part of a record alone. */
  lemma {:induction false} RunLevelKept(before: seq<Event>, es: seq<Event>)
    requires NoHeadOrTail(es)
    ensures var r, s := Parsed(before + es), Parsed(before);
            r.head == s.head && r.completion == s.completion && r.totals == s.totals
            && r.legacyMultiPair == s.legacyMultiPair
  {
    if es == [] {
      assert before + es == before;
    } else {
      var n := |es| - 1;
      RunLevelKept(before, es[..n]);
      assert (before + es)[..|before + es| - 1] == before + es[..n];
    }
  }

  /** Exactly one head, first; on every exit but a panic exactly one tail, last. */
  lemma OneHeadOneTail(plan: Plan)
    ensures var es := Written(plan);
            && (forall i :: 0 <= i < |es| ==> (es[i].RunStarted? <==> i == 0))
            && (forall i :: 0 <= i < |es| ==> (es[i].RunFinished? <==> !plan.panics && i == |es| - 1))
  {
    BodyHasNoHeadOrTail(plan);
    var es, body := Written(plan), Body(plan);
    forall i | 0 < i <= |body| ensures es[i] == body[i - 1] {
    }
  }

  /** The record reads back with the suite's own totals and the way the run ended. */
  lemma ReadsBackTotals(plan: Plan)
    ensures var r := Parsed(Written(plan));
            && !r.legacyMultiPair
            && r.head == Head(true, plan.head.env, plan.head.metadata, plan.head.rerunOf)
            && r.totals == (if plan.panics then None
                            else if plan.endsEarly then Some(RunTotals(0, 0, 0)) else Some(plan.totals))
            && r.completion == (if plan.panics then Incomplete
                                else if plan.cancelled then Cancelled else Completed)
  {
    var start := [plan.head];
    BodyHasNoHeadOrTail(plan);
    assert start[..0] == [];
    assert Read(start) == Step(EMPTY, plan.head);
    RunLevelKept(start, Body(plan));
    var es := Written(plan);
    if plan.panics {
      assert es == start + Body(plan);
    } else {
      assert es[..|es| - 1] == start + Body(plan) && es[|es| - 1] == Tail(plan);
    }
  }

  // ----- phases as readers see them

  /** All closes of `k` carry `phase`. */
  ghost predicate ClosesAs(es: seq<Event>, k: Key, phase: Option<string>) {
    forall i :: 0 <= i < |es| && Closes(es[i], k) ==> es[i].phase == phase
  }

  lemma {:induction false} EntryPhase(es: seq<Event>, k: Key, phase: Option<string>)
    requires ClosesNameFile(es) && ClosesAs(es, k, phase) && Closed(es, k)
    ensures k in Parsed(es).scenarios && Parsed(es).scenarios[k].phase == phase
  {
    var n := |es| - 1;
    if Closes(es[n], k) {
      EntryOfClose(es, n, k);
    } else {
      var i :| 0 <= i < |es| && Closes(es[i], k);
      assert Closes(es[..n][i], k);
      EntryPhase(es[..n], k, phase);
      EntryStays(es, n, k);
    }
  }

  lemma {:induction false} SuppressedCloses(es: seq<Event>, e: Event)
    requires !HeadOrTail(e)
    ensures e in Suppressed(es) <==> e in es
  {
    if es != [] {
      var n := |es| - 1;
      SuppressedCloses(es[..n], e);
      assert e in es <==> e in es[..n] || e == es[n];
    }
  }

  /** The phases and the pool close different identities: a phase feature is no suite scenario. */
  ghost predicate PhasesApart(plan: Plan) {
    forall k :: Closed(plan.pool, k) ==> !Closed(plan.setup, k) && !Closed(plan.teardown, k)
  }

  /** The pool's runner knows no phases. */
  ghost predicate PoolUnlabelled(plan: Plan) {
    forall i :: 0 <= i < |plan.pool| && plan.pool[i].ScenarioFinished? ==> plan.pool[i].phase.None?
  }

  ghost predicate NamesFiles(plan: Plan) {
    ClosesNameFile(plan.setup) && ClosesNameFile(plan.pool) && ClosesNameFile(plan.teardown)
  }

  /**
   * Where an event in the record came from: the pool, as it was, or a phase, whose
   * label its scenario events carry, starts and closes alike.
   */
  lemma EventComesFrom(plan: Plan, e: Event)
    requires !e.RunStarted? && !e.RunFinished?
    ensures e in Written(plan) <==>
              || LabelledFrom("setup", plan.setup, e)
              || (!plan.endsEarly && (e in plan.pool || LabelledFrom("teardown", plan.teardown, e)))
  {
    SuppressedCloses(plan.pool, e);
    PhaseEvent("setup", plan.setup, e);
    PhaseEvent("teardown", plan.teardown, e);
    InWritten(plan, e);
  }

  lemma InWritten(plan: Plan, e: Event)
    requires !HeadOrTail(e)
    ensures e in Written(plan) <==>
              || e in PhaseEvents("setup", plan.setup)
              || (!plan.endsEarly && (e in Suppressed(plan.pool) || e in PhaseEvents("teardown", plan.teardown)))
  {
    var tail := if plan.panics then [] else [Tail(plan)];
    assert e !in [plan.head] && e !in tail;
    assert e in Written(plan) <==> e in Body(plan);
  }

  ghost predicate LabelledFrom(name: string, es: seq<Event>, e: Event) {
    exists s :: s in es && !s.RunStarted? && !s.RunFinished? && LabelledAs(name, s, e)
  }

  /** `l` is `e` with the label in place of its phase if it is a scenario's start or close, and else `e`. */
  predicate LabelledAs(name: string, e: Event, l: Event) {
    if e.ScenarioStarted? then
      l == ScenarioStarted(e.scenario, e.file, e.timestamp, e.worker, Some(name), e.exclusive)
    else if e.ScenarioFinished? then
      l == ScenarioFinished(e.scenario, e.file, e.status, e.timestamp, e.worker, Some(name), e.reason, e.tags)
    else l == e
  }

  lemma LabelledIs(name: string, e: Event, l: Event)
    ensures l == Labelled(name, e) <==> LabelledAs(name, e, l)
  {
  }

  /**
   * A phase's events arrive in their own order, the nested runner's heads and
   * tails left out and every scenario event labelled.
   */
  lemma PhaseInOrder(name: string, es: seq<Event>) returns (at: seq<nat>)
    ensures Places(es, at) && |at| == |PhaseEvents(name, es)|
    ensures forall i :: 0 <= i < |at| ==> LabelledAs(name, es[at[i]], PhaseEvents(name, es)[i])
  {
    at := PoolInOrder(es);
    LabelAllAt(name, Suppressed(es));
    forall i | 0 <= i < |at| ensures LabelledAs(name, es[at[i]], PhaseEvents(name, es)[i]) {
      LabelledIs(name, es[at[i]], PhaseEvents(name, es)[i]);
    }
  }

  /** The record's sections: head, setup, and unless the run ended early the pool, then teardown; the tail last. */
  lemma WrittenInOrder(plan: Plan) returns (pool: nat, teardown: nat, end: nat)
    ensures 1 <= pool <= teardown <= end <= |Written(plan)|
    ensures Written(plan)[0] == plan.head && Written(plan)[1..pool] == PhaseEvents("setup", plan.setup)
    ensures plan.endsEarly ==> pool == end
    ensures !plan.endsEarly ==>
              && Written(plan)[pool..teardown] == Suppressed(plan.pool)
              && Written(plan)[teardown..end] == PhaseEvents("teardown", plan.teardown)
    ensures |Written(plan)| == end + if plan.panics then 0 else 1
  {
    var setup, teardownEvents := PhaseEvents("setup", plan.setup), PhaseEvents("teardown", plan.teardown);
    var tail := if plan.panics then [] else [Tail(plan)];
    pool := 1 + |setup|;
    teardown := if plan.endsEarly then pool else pool + |Suppressed(plan.pool)|;
    end := if plan.endsEarly then pool else teardown + |teardownEvents|;
    if plan.endsEarly {
      Sections(plan.head, setup, [], [], tail);
      assert setup + ([] + []) == setup;
    } else {
      Sections(plan.head, setup, Suppressed(plan.pool), teardownEvents, tail);
    }
  }

  lemma Sections(head: Event, a: seq<Event>, b: seq<Event>, c: seq<Event>, tail: seq<Event>)
    ensures var es, m, n := [head] + (a + (b + c)) + tail, 1 + |a|, 1 + |a| + |b|;
            && es[0] == head && es[1..m] == a && es[m..n] == b && es[n..n + |c|] == c
            && |es| == n + |c| + |tail|
  {
  }

  ghost predicate Ascending(at: seq<nat>, n: nat) {
    && (forall i, j :: 0 <= i < j < |at| ==> at[i] < at[j])
    && (forall i :: 0 <= i < |at| ==> at[i] < n)
  }

  /** The events at these places, in this order. */
  function At(es: seq<Event>, at: seq<nat>): (picked: seq<Event>)
    requires forall i :: 0 <= i < |at| ==> at[i] < |es|
    ensures |picked| == |at| && forall i :: 0 <= i < |at| ==> picked[i] == es[at[i]]
  {
    seq(|at|, i requires 0 <= i < |at| => es[at[i]])
  }

  /** The places, in order, of all events but heads and tails. */
  ghost predicate Places(es: seq<Event>, at: seq<nat>) {
    && Ascending(at, |es|)
    && forall i :: 0 <= i < |es| ==> (i in at <==> !es[i].RunStarted? && !es[i].RunFinished?)
  }

  /** The pool's events arrive as they are and in their own order, without heads and tails. */
  lemma {:induction false} PoolInOrder(es: seq<Event>) returns (at: seq<nat>)
    ensures Places(es, at) && Suppressed(es) == At(es, at)
  {
    if es == [] {
      at := [];
    } else {
      var before := PoolInOrder(es[..|es| - 1]);
      at := OneMorePlace(es, before);
    }
  }

  lemma OneMorePlace(es: seq<Event>, before: seq<nat>) returns (at: seq<nat>)
    requires es != [] && Places(es[..|es| - 1], before)
    ensures Places(es, at)
    ensures At(es, at)
         == if HeadOrTail(es[|es| - 1]) then At(es[..|es| - 1], before)
            else At(es[..|es| - 1], before) + [es[|es| - 1]]
  {
    if HeadOrTail(es[|es| - 1]) {
      at := before;
      PlaceLeftOut(es, at);
    } else {
      at := before + [|es| - 1];
      PlaceAdded(es, before);
    }
  }

  lemma PlaceLeftOut(es: seq<Event>, at: seq<nat>)
    requires es != [] && Places(es[..|es| - 1], at) && HeadOrTail(es[|es| - 1])
    ensures Places(es, at) && At(es, at) == At(es[..|es| - 1], at)
  {
    var n := |es| - 1;
    assert n !in at;
    forall i | 0 <= i < n ensures i in at <==> !es[i].RunStarted? && !es[i].RunFinished? {
      assert es[..n][i] == es[i];
    }
  }

  lemma PlaceAdded(es: seq<Event>, before: seq<nat>)
    requires es != [] && Places(es[..|es| - 1], before) && !HeadOrTail(es[|es| - 1])
    ensures Places(es, before + [|es| - 1])
    ensures At(es, before + [|es| - 1]) == At(es[..|es| - 1], before) + [es[|es| - 1]]
  {
    var n := |es| - 1;
    var at := before + [n];
    assert at[|before|] == n;
    forall i | 0 <= i < n ensures i in at <==> !es[i].RunStarted? && !es[i].RunFinished? {
      assert es[..n][i] == es[i];
      assert i in at <==> i in before;
    }
  }

  lemma PhaseEvent(name: string, es: seq<Event>, e: Event)
    ensures e in PhaseEvents(name, es) <==> LabelledFrom(name, es, e)
  {
    var kept := Suppressed(es);
    LabelAllAt(name, kept);
    SuppressedDrops(es);
    if e in PhaseEvents(name, es) {
      var i :| 0 <= i < |kept| && LabelAll(name, kept)[i] == e;
      SuppressedCloses(es, kept[i]);
      assert kept[i] in kept;
      LabelledIs(name, kept[i], e);
    }
    if LabelledFrom(name, es, e) {
      LabelledIsEmitted(name, es, e);
    }
  }

  lemma LabelledIsEmitted(name: string, es: seq<Event>, e: Event)
    requires LabelledFrom(name, es, e)
    ensures e in PhaseEvents(name, es)
  {
    var kept := Suppressed(es);
    LabelAllAt(name, kept);
    var s :| s in es && !s.RunStarted? && !s.RunFinished? && LabelledAs(name, s, e);
    LabelledIs(name, s, e);
    SuppressedCloses(es, s);
    var i :| 0 <= i < |kept| && kept[i] == s;
    assert LabelAll(name, kept)[i] == e;
  }

  function PhaseOf(e: Event): Option<string>
    requires e.ScenarioStarted? || e.ScenarioFinished?
  {
    e.phase
  }

  /** With a pool that labels nothing, a record's labels tell which phase, or the pool, a scenario event is from. */
  lemma LabelTellsPhase(plan: Plan, e: Event)
    requires (e.ScenarioStarted? || e.ScenarioFinished?) && e in Written(plan)
    requires forall s :: s in plan.pool && (s.ScenarioStarted? || s.ScenarioFinished?) ==> PhaseOf(s).None?
    ensures PhaseOf(e) == Some("setup") <==> LabelledFrom("setup", plan.setup, e)
    ensures PhaseOf(e) == Some("teardown") <==> !plan.endsEarly && LabelledFrom("teardown", plan.teardown, e)
    ensures PhaseOf(e) == None <==> !plan.endsEarly && e in plan.pool
  {
    EventComesFrom(plan, e);
    assert "setup" != "teardown";
  }

  lemma ClosedIffMember(es: seq<Event>, k: Key)
    ensures Closed(es, k) <==> exists e :: e in es && Closes(e, k)
  {
    if Closed(es, k) {
      var i :| 0 <= i < |es| && Closes(es[i], k);
      assert es[i] in es;
    }
  }

  lemma WrittenNamesFiles(plan: Plan)
    requires NamesFiles(plan)
    ensures ClosesNameFile(Written(plan))
  {
    var es := Written(plan);
    forall i | 0 <= i < |es| && es[i].ScenarioFinished? ensures es[i].file != "" {
      EventComesFrom(plan, es[i]);
      assert es[i] in es;
    }
  }

  lemma PoolCloseUnlabelled(plan: Plan, k: Key, e: Event)
    requires PoolUnlabelled(plan) && PhasesApart(plan)
    requires Closed(plan.pool, k) && e in Written(plan) && Closes(e, k)
    ensures e.phase.None?
  {
    EventComesFrom(plan, e);
    ClosedIffMember(plan.setup, k);
    ClosedIffMember(plan.teardown, k);
  }

  /** What the pool closed is a suite entry. */
  lemma PoolIsSuite(plan: Plan, k: Key)
    requires !plan.endsEarly
    requires NamesFiles(plan) && PoolUnlabelled(plan) && PhasesApart(plan) && Closed(plan.pool, k)
    ensures k in Parsed(Written(plan)).scenarios && Parsed(Written(plan)).scenarios[k].IsSuite()
  {
    var es := Written(plan);
    WrittenNamesFiles(plan);
    forall i | 0 <= i < |es| && Closes(es[i], k) ensures es[i].phase == None {
      assert es[i] in es;
      PoolCloseUnlabelled(plan, k, es[i]);
    }
    ClosedIffMember(plan.pool, k);
    var e :| e in plan.pool && Closes(e, k);
    EventComesFrom(plan, e);
    ClosedIffMember(es, k);
    EntryPhase(es, k, None);
  }

  /** What only a phase closed is not. */
  lemma PhaseIsNoSuite(plan: Plan, k: Key)
    requires NamesFiles(plan)
    requires (plan.endsEarly || !Closed(plan.pool, k)) && k in Parsed(Written(plan)).scenarios
    ensures Parsed(Written(plan)).scenarios[k].phase.Some?
  {
    var es := Written(plan);
    WrittenNamesFiles(plan);
    EntriesAreCloses(es, k);
    ClosedIffMember(plan.pool, k);
    forall i | 0 <= i < |es| && Closes(es[i], k) ensures es[i].phase.Some? {
      assert es[i] in es;
      EventComesFrom(plan, es[i]);
    }
    EntryLabelled(es, k);
  }

  /** A record's suite entries are exactly the scenarios its pool closed, none if the run ended before it. */
  lemma SuiteIsPool(plan: Plan, k: Key)
    requires NamesFiles(plan) && PoolUnlabelled(plan) && PhasesApart(plan)
    ensures !plan.endsEarly && Closed(plan.pool, k)
       <==> k in Parsed(Written(plan)).scenarios && Parsed(Written(plan)).scenarios[k].IsSuite()
  {
    if !plan.endsEarly && Closed(plan.pool, k) {
      PoolIsSuite(plan, k);
    } else if k in Parsed(Written(plan)).scenarios {
      PhaseIsNoSuite(plan, k);
    }
  }

  lemma {:induction false} EntryLabelled(es: seq<Event>, k: Key)
    requires ClosesNameFile(es) && Closed(es, k)
    requires forall i :: 0 <= i < |es| && Closes(es[i], k) ==> es[i].phase.Some?
    ensures k in Parsed(es).scenarios && Parsed(es).scenarios[k].phase.Some?
  {
    var n := |es| - 1;
    if Closes(es[n], k) {
      EntryOfClose(es, n, k);
    } else {
      var i :| 0 <= i < |es| && Closes(es[i], k);
      assert Closes(es[..n][i], k);
      EntryLabelled(es[..n], k);
      EntryStays(es, n, k);
    }
  }
}
