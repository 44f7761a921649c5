// The second reader of a record: the outcomes a rerun's report carries over.
module Carried {
  import opened Identity
  import opened Events
  import opened Records

  datatype StepOutcome = StepOutcome(file: string, text: string, status: Status, attempts: nat, duration: nat)

  datatype Outcome = Outcome(file: string, name: string, status: Status, reason: Option<string>,
                             tags: seq<string>, steps: seq<StepOutcome>)
  {
    function Identity(): Key { (file, name) }
  }

  datatype Carry = Carry(steps: map<Key, seq<StepOutcome>>, outcomes: seq<Outcome>)

  function Outcomes(steps: map<Key, seq<StepOutcome>>, k: Key): seq<StepOutcome> {
    if k in steps then steps[k] else []
  }

  function StepOutcomeOf(e: Event): StepOutcome
    requires e.StepFinished?
  {
    StepOutcome(e.file, e.text, e.status, e.attempts, e.duration)
  }

  ghost function CarryStep(c: Carry, e: Event, exclude: set<Key>): Carry {
    if e.StepFinished? then
      var k := (e.file, e.scenario);
      c.(steps := c.steps[k := Outcomes(c.steps, k) + [StepOutcomeOf(e)]])
    else if e.ScenarioFinished? && e.phase.None? then
      var k := Adopted(c.steps, (e.file, e.scenario));
      var outcome := Outcome(e.file, e.scenario, e.status, e.reason, e.tags, Outcomes(c.steps, k));
      Carry(c.steps - {k}, if k in exclude then c.outcomes else c.outcomes + [outcome])
    else c
  }

  ghost function CarryAll(es: seq<Event>, exclude: set<Key>): Carry {
    if es == [] then Carry(map[], [])
    else CarryStep(CarryAll(es[..|es| - 1], exclude), es[|es| - 1], exclude)
  }

  /** Suite outcomes of a base record, leaving out what the rerun ran itself. */
  method CarriedOutcomes(events: seq<Event>, exclude: set<Key>) returns (outcomes: seq<Outcome>)
    ensures outcomes == CarryAll(events, exclude).outcomes
  {
    var steps: map<Key, seq<StepOutcome>> := map[];
    outcomes := [];
    for i := 0 to |events|
      invariant Carry(steps, outcomes) == CarryAll(events[..i], exclude)
    {
      assert events[..i + 1][..i] == events[..i];
      var e := events[i];
      if e.StepFinished? {
        var k := (e.file, e.scenario);
        steps := steps[k := Outcomes(steps, k) + [StepOutcomeOf(e)]];
      } else if e.ScenarioFinished? && e.phase.None? {
        var key := (e.file, e.scenario);
        if key.0 == "" && key !in steps {
          var named := Named(steps, key.1);
          AdoptsOnlyUnambiguously(steps, key);
          if |named| == 1 {
            key :| key in named;
          }
        }
        var closing := Outcomes(steps, key);
        steps := steps - {key};
        if key !in exclude {
          outcomes := outcomes + [Outcome(e.file, e.scenario, e.status, e.reason, e.tags, closing)];
        }
      }
    }
    assert events[..|events|] == events;
  }

  /** The steps of `k`, in the order they finished. */
  function StepList(es: seq<Event>, k: Key): seq<StepOutcome> {
    if es == [] then []
    else
      var last := es[|es| - 1];
      var rest := StepList(es[..|es| - 1], k);
      if StepOf(last, k) then rest + [StepOutcomeOf(last)] else rest
  }

  /** The list follows the events: what the first ones give, then what the others do. */
  lemma {:induction false} StepListInOrder(a: seq<Event>, b: seq<Event>, k: Key)
    ensures StepList(a + b, k) == StepList(a, k) + StepList(b, k)
  {
    if b == [] {
      assert a + b == a;
    } else {
      var n := |b| - 1;
      assert (a + b)[..|a + b| - 1] == a + b[..n];
      StepListInOrder(a, b[..n], k);
    }
  }

  /** A finished step of the scenario gives one outcome, which says what the event says. */
  lemma StepListOfOne(e: Event, k: Key)
    ensures StepList([e], k)
         == if e.StepFinished? && (e.file, e.scenario) == k
            then [StepOutcome(e.file, e.text, e.status, e.attempts, e.duration)] else []
  {
    assert [e][..0] == [];
  }

  // ----- what each reader holds for an open scenario

  lemma OtherEventsKeepOutcomes(c: Carry, e: Event, exclude: set<Key>, k: Key)
    requires !About(e, k) && (e.ScenarioFinished? ==> e.file != "")
    ensures Outcomes(CarryStep(c, e, exclude).steps, k) == Outcomes(c.steps, k)
  {
    if e.ScenarioFinished? {
      NamedCloseKeepsItsKey(c.steps, (e.file, e.scenario));
    }
  }

  lemma {:induction false} OpenOutcomes(es: seq<Event>, exclude: set<Key>, k: Key)
    requires ClosesNameFile(es) && !Closed(es, k)
    ensures Outcomes(CarryAll(es, exclude).steps, k) == StepList(es, k)
  {
    if es != [] {
      var before, e := es[..|es| - 1], es[|es| - 1];
      OpenOutcomes(before, exclude, k);
      if !About(e, k) {
        OtherEventsKeepOutcomes(CarryAll(before, exclude), e, exclude, k);
      }
    }
  }

  /** After a suite close the steps start anew: those since then. */
  lemma {:induction false} OutcomesSince(es: seq<Event>, exclude: set<Key>, i: nat, k: Key)
    requires ClosesNameFile(es) && i < |es| && Closes(es[i], k) && es[i].phase.None?
    requires forall j :: i < j < |es| ==> !Closes(es[j], k)
    ensures Outcomes(CarryAll(es, exclude).steps, k) == StepList(es[i + 1..], k)
  {
    var n := |es| - 1;
    var before, e := es[..n], es[n];
    if i == n {
      NamedCloseKeepsItsKey(CarryAll(before, exclude).steps, k);
    } else {
      OutcomesSince(before, exclude, i, k);
      assert es[i + 1..][..n - i - 1] == before[i + 1..];
      if !About(e, k) {
        OtherEventsKeepOutcomes(CarryAll(before, exclude), e, exclude, k);
      }
    }
  }

  /** How many of the steps carry `text`. */
  function OccursIn(steps: seq<StepOutcome>, text: string): nat {
    if steps == [] then 0 else OccursIn(steps[..|steps| - 1], text) + if steps[|steps| - 1].text == text then 1 else 0
  }

  /** The `x`-th step listed, under the key the record gives it. */
  ghost predicate StepMatches(steps: StepBuffer, list: seq<StepOutcome>, x: nat)
    requires x < |list|
  {
    var key := (list[x].text, OccursIn(list[..x], list[x].text));
    key in steps && steps[key] == StepRun(list[x].attempts, list[x].duration)
  }

  /** The same steps: each one's n-th occurrence has the n-th one's metrics, and there are no others. */
  ghost predicate SameSteps(steps: StepBuffer, list: seq<StepOutcome>) {
    |steps| == |list| && forall x :: 0 <= x < |list| ==> StepMatches(steps, list, x)
  }

  lemma {:induction false} ListCounts(es: seq<Event>, k: Key, text: string)
    ensures OccursIn(StepList(es, k), text) == Occurrences(es, k, text)
  {
    if es != [] {
      var before, e := es[..|es| - 1], es[|es| - 1];
      ListCounts(before, k, text);
      var list := StepList(before, k);
      assert StepOf(e, k) ==> StepList(es, k)[..|list|] == list;
    }
  }

  lemma SameStepsGrow(steps: StepBuffer, list: seq<StepOutcome>, o: StepOutcome)
    requires SameSteps(steps, list) && (o.text, OccursIn(list, o.text)) !in steps
    ensures SameSteps(steps[(o.text, OccursIn(list, o.text)) := StepRun(o.attempts, o.duration)], list + [o])
  {
    var key, now := (o.text, OccursIn(list, o.text)), list + [o];
    var steps' := steps[key := StepRun(o.attempts, o.duration)];
    assert steps'.Keys == steps.Keys + {key};
    assert |steps'.Keys| == |steps'| && |steps.Keys| == |steps|;
    forall x | 0 <= x < |now| ensures StepMatches(steps', now, x) {
      if x < |list| {
        assert now[..x] == list[..x] && StepMatches(steps, list, x);
      } else {
        assert now[..x] == list;
      }
    }
  }

  lemma {:induction false} OpenStepsMatch(es: seq<Event>, k: Key)
    requires ClosesNameFile(es) && !Closed(es, k)
    ensures SameSteps(Buffered(Read(es).pending, k), StepList(es, k))
  {
    if es != [] {
      var before, e := es[..|es| - 1], es[|es| - 1];
      OpenStepsMatch(before, k);
      if About(e, k) {
        SeenCounts(before, k, e.text);
        ListCounts(before, k, e.text);
        BufferedSteps(before, k);
        SameStepsGrow(Buffered(Read(before).pending, k), StepList(before, k), StepOutcomeOf(e));
      } else {
        OtherEventsLeaveAlone(Read(before), e, k);
      }
    }
  }

  // ----- the two readers agree

  /** Outcome `o` says of its scenario what the record says. */
  ghost predicate Agrees(entries: map<Key, ScenarioRun>, o: Outcome, exclude: set<Key>) {
    var k := o.Identity();
    && k in entries && k !in exclude
    && var run := entries[k];
    && run.IsSuite() && run.status == o.status && run.reason == o.reason && run.tags == o.tags
    && SameSteps(run.steps, o.steps)
  }

  ghost predicate Listed(outcomes: seq<Outcome>, k: Key) {
    exists n :: 0 <= n < |outcomes| && outcomes[n].Identity() == k
  }

  /** The outcomes are exactly the suite entries outside `exclude`, each once. */
  ghost predicate SameSuite(entries: map<Key, ScenarioRun>, outcomes: seq<Outcome>, exclude: set<Key>) {
    && (forall n :: 0 <= n < |outcomes| ==> Agrees(entries, outcomes[n], exclude))
    && (forall k :: k in entries && entries[k].IsSuite() && k !in exclude ==> Listed(outcomes, k))
    && (forall n, m :: 0 <= n < m < |outcomes| ==> outcomes[n].Identity() != outcomes[m].Identity())
  }

  lemma StillAgrees(entries: map<Key, ScenarioRun>, o: Outcome, exclude: set<Key>, k: Key, run: ScenarioRun)
    requires Agrees(entries, o, exclude) && k !in entries
    ensures Agrees(entries[k := run], o, exclude) && o.Identity() != k
  {
  }

  lemma StillListed(outcomes: seq<Outcome>, o: Outcome, k: Key)
    requires Listed(outcomes, k)
    ensures Listed(outcomes + [o], k)
  {
    var n :| 0 <= n < |outcomes| && outcomes[n].Identity() == k;
    assert (outcomes + [o])[n] == outcomes[n];
  }

  /** An entry the outcomes leave out: a phase's, or an excluded one. */
  lemma EntryLeftOut(
    entries: map<Key, ScenarioRun>, outcomes: seq<Outcome>, exclude: set<Key>, k: Key, run: ScenarioRun)
    requires SameSuite(entries, outcomes, exclude) && k !in entries
    requires !run.IsSuite() || k in exclude
    ensures SameSuite(entries[k := run], outcomes, exclude)
  {
    forall n | 0 <= n < |outcomes| ensures Agrees(entries[k := run], outcomes[n], exclude) {
      StillAgrees(entries, outcomes[n], exclude, k, run);
    }
  }

  lemma EntryListed(
    entries: map<Key, ScenarioRun>, outcomes: seq<Outcome>, exclude: set<Key>, k: Key, run: ScenarioRun, o: Outcome)
    requires SameSuite(entries, outcomes, exclude) && k !in entries
    requires o.Identity() == k && Agrees(entries[k := run], o, exclude)
    ensures SameSuite(entries[k := run], outcomes + [o], exclude)
  {
    var entries', now := entries[k := run], outcomes + [o];
    forall n | 0 <= n < |outcomes|
      ensures Agrees(entries', now[n], exclude) && now[n].Identity() != k
    {
      StillAgrees(entries, outcomes[n], exclude, k, run);
    }
    forall j | j in entries' && entries'[j].IsSuite() && j !in exclude ensures Listed(now, j) {
      if j == k {
        assert now[|outcomes|].Identity() == k;
      } else {
        StillListed(outcomes, o, j);
      }
    }
  }

  /** What one close adds to each reader's result. */
  lemma CloseAdds(before: seq<Event>, e: Event, exclude: set<Key>) returns (run: ScenarioRun, o: Outcome)
    requires e.ScenarioFinished? && e.file != "" && ClosesNameFile(before)
    requires !Closed(before, (e.file, e.scenario))
    ensures var k := (e.file, e.scenario);
            && Step(Read(before), e).record.scenarios == Parsed(before).scenarios[k := run]
            && CarryStep(CarryAll(before, exclude), e, exclude).outcomes
               == (if run.IsSuite() && k !in exclude
                   then CarryAll(before, exclude).outcomes + [o] else CarryAll(before, exclude).outcomes)
            && o.Identity() == k && run.status == o.status && run.reason == o.reason && run.tags == o.tags
            && SameSteps(run.steps, o.steps)
  {
    var k := (e.file, e.scenario);
    OpenOutcomes(before, exclude, k);
    OpenStepsMatch(before, k);
    NamedCloseKeepsItsKey(Read(before).pending, k);
    NamedCloseKeepsItsKey(CarryAll(before, exclude).steps, k);
    run := ScenarioRun(e.status, Buffered(Read(before).pending, k), e.phase, e.reason, e.tags);
    o := Outcome(e.file, e.scenario, e.status, e.reason, e.tags, Outcomes(CarryAll(before, exclude).steps, k));
  }

  /**
   * With one close per identity, the carried outcomes list exactly the record's
   * suite scenarios outside `exclude`, each once, with the same verdict and
   * the same steps: attempts and durations, occurrence by occurrence.
   */
  lemma {:induction false} ReadersAgree(es: seq<Event>, exclude: set<Key>)
    requires ClosesNameFile(es) && ClosesOnce(es)
    ensures SameSuite(Parsed(es).scenarios, CarryAll(es, exclude).outcomes, exclude)
  {
    if es != [] {
      var n := |es| - 1;
      var before, e := es[..n], es[n];
      ReadersAgree(before, exclude);
      if e.ScenarioFinished? {
        var k := (e.file, e.scenario);
        assert forall i :: 0 <= i < n ==> before[i] == es[i];
        assert !Closed(before, k);
        EntriesAreCloses(before, k);
        var run, o := CloseAdds(before, e, exclude);
        if run.IsSuite() && k !in exclude {
          EntryListed(Parsed(before).scenarios, CarryAll(before, exclude).outcomes, exclude, k, run, o);
        } else {
          EntryLeftOut(Parsed(before).scenarios, CarryAll(before, exclude).outcomes, exclude, k, run);
        }
      }
    }
  }

  lemma OutcomesGrow(c: Carry, e: Event, exclude: set<Key>)
    ensures c.outcomes <= CarryStep(c, e, exclude).outcomes
  {
  }

  lemma CloseCarries(es: seq<Event>, exclude: set<Key>, k: Key)
    requires es != [] && ClosesNameFile(es) && !Closed(es[..|es| - 1], k)
    requires Closes(es[|es| - 1], k) && es[|es| - 1].phase.None? && k !in exclude
    ensures var e := es[|es| - 1];
            Outcome(k.0, k.1, e.status, e.reason, e.tags, StepList(es[..|es| - 1], k))
            in CarryAll(es, exclude).outcomes
  {
    var before := es[..|es| - 1];
    OpenOutcomes(before, exclude, k);
    NamedCloseKeepsItsKey(CarryAll(before, exclude).steps, k);
  }

  /** A carried outcome holds its scenario's steps in the order they finished. */
  lemma {:induction false} CarriedSteps(es: seq<Event>, exclude: set<Key>, i: nat, k: Key)
    requires ClosesNameFile(es) && ClosesOnce(es) && i < |es| && Closes(es[i], k)
    requires es[i].phase.None? && k !in exclude
    ensures Outcome(k.0, k.1, es[i].status, es[i].reason, es[i].tags, StepList(es[..i], k))
         in CarryAll(es, exclude).outcomes
  {
    var n := |es| - 1;
    var before := es[..n];
    assert forall j :: 0 <= j < n ==> before[j] == es[j];
    if i < n {
      assert before[..i] == es[..i];
      CarriedSteps(before, exclude, i, k);
      OutcomesGrow(CarryAll(before, exclude), es[n], exclude);
    } else {
      assert !Closed(before, k);
      CloseCarries(es, exclude, k);
    }
  }
}
