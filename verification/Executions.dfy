// Chains of reruns as runs, not as records: what a run must do for its record to be trusted.
module Executions {
  import opened Identity
  import opened Events
  import opened Records
  import opened Rerun
  import opened Sinks

  /** A run of `selected` that wrote the first `written` events of its record before it ended or was killed. */
  datatype Execution = Execution(selected: set<Key>, plan: Plan, written: nat) {

    /** Its record is complete: nothing killed it, no panic suppressed its tail. */
    predicate Whole() { written >= |Written(plan)| && !plan.panics }

    ghost function AsRun(): Run { Run(selected, FirstOf(Written(plan), written)) }
  }

  function FirstOf(es: seq<Event>, n: nat): seq<Event> {
    if n < |es| then es[..n] else es
  }

  /**
   * The pool closes only what was selected, each scenario once, under its file and
   * with no phase; phase features are no suite scenarios.
   */
  ghost predicate Conforms(x: Execution, suite: set<Key>) {
    && x.selected <= suite
    && NamesFiles(x.plan) && PoolUnlabelled(x.plan) && ClosesOnce(x.plan.pool)
    && (forall k :: Closed(x.plan.pool, k) ==> k in x.selected)
    && (forall k :: k in suite ==> !Closed(x.plan.setup, k) && !Closed(x.plan.teardown, k))
  }

  /** A close by cancellation: skipped, and not because the author said so. */
  predicate MechanicalClose(e: Event) {
    e.ScenarioFinished? && e.status == Skipped &&
    !(e.reason.Some? && |e.reason.value| > 0 && e.reason.value[0] == '@')
  }

  ghost predicate Drains(es: seq<Event>, k: Key) {
    exists e :: e in es && Closes(e, k) && MechanicalClose(e)
  }

  // ----- the closes in a record

  /** The close an entry comes from. */
  lemma {:induction false} EntryFrom(es: seq<Event>, k: Key) returns (e: Event)
    requires ClosesNameFile(es) && Closed(es, k)
    ensures e in es && Closes(e, k) && k in Parsed(es).scenarios
    ensures var run := Parsed(es).scenarios[k];
            run.status == e.status && run.reason == e.reason && run.phase == e.phase
  {
    var n := |es| - 1;
    if Closes(es[n], k) {
      EntryOfClose(es, n, k);
      e := es[n];
    } else {
      var i :| 0 <= i < |es| && Closes(es[i], k);
      assert Closes(es[..n][i], k);
      e := EntryFrom(es[..n], k);
      EntryStays(es, n, k);
    }
  }

  /** A close of a suite scenario is the pool's; one without a phase too. */
  lemma ClosedByPool(x: Execution, suite: set<Key>, e: Event, k: Key)
    requires Conforms(x, suite) && e in Written(x.plan) && Closes(e, k) && (k in suite || e.phase.None?)
    ensures !x.plan.endsEarly && e in x.plan.pool
  {
    EventComesFrom(x.plan, e);
    ClosedIffMember(x.plan.setup, k);
    ClosedIffMember(x.plan.teardown, k);
  }

  lemma PoolClosesOnce(x: Execution, suite: set<Key>, e: Event, f: Event, k: Key)
    requires Conforms(x, suite) && e in x.plan.pool && f in x.plan.pool && Closes(e, k) && Closes(f, k)
    ensures e == f && e.phase.None?
  {
    var i :| 0 <= i < |x.plan.pool| && x.plan.pool[i] == e;
    var j :| 0 <= j < |x.plan.pool| && x.plan.pool[j] == f;
  }

  lemma StreamNamesFiles(x: Execution, suite: set<Key>)
    requires Conforms(x, suite)
    ensures ClosesNameFile(x.AsRun().stream)
  {
    WrittenNamesFiles(x.plan);
  }

  /** What the record says of a suite scenario is what the pool's close said. */
  lemma EntryOfPool(x: Execution, suite: set<Key>, k: Key)
    requires Conforms(x, suite) && k in suite
    ensures x.AsRun().Entry(k).Some? <==> Closed(x.AsRun().stream, k)
    ensures x.AsRun().Entry(k).Some? ==>
              && !x.plan.endsEarly && Closed(x.plan.pool, k) && x.AsRun().Entry(k).value.IsSuite()
              && (MechanicalSkip(x.AsRun().Entry(k).value) <==> Drains(x.AsRun().stream, k))
              && (Drains(x.AsRun().stream, k) <==> Drains(x.plan.pool, k))
  {
    var es := x.AsRun().stream;
    StreamNamesFiles(x, suite);
    EntriesAreCloses(es, k);
    if Closed(es, k) {
      var e := EntryFrom(es, k);
      OnlyClose(x, suite, k, e);
    }
  }

  lemma OnlyClose(x: Execution, suite: set<Key>, k: Key, e: Event)
    requires Conforms(x, suite) && k in suite && e in x.AsRun().stream && Closes(e, k)
    ensures !x.plan.endsEarly && Closed(x.plan.pool, k) && e.phase.None?
    ensures Drains(x.AsRun().stream, k) <==> MechanicalClose(e)
    ensures Drains(x.plan.pool, k) <==> MechanicalClose(e)
  {
    var es := x.AsRun().stream;
    ClosedByPool(x, suite, e, k);
    ClosedIffMember(x.plan.pool, k);
    PoolClosesOnce(x, suite, e, e, k);
    if Drains(es, k) {
      var f :| f in es && Closes(f, k) && MechanicalClose(f);
      ClosedByPool(x, suite, f, k);
      PoolClosesOnce(x, suite, e, f, k);
    }
    if Drains(x.plan.pool, k) {
      var f :| f in x.plan.pool && Closes(f, k) && MechanicalClose(f);
      PoolClosesOnce(x, suite, e, f, k);
    }
  }

  /** A complete record holds every close of the pool. */
  lemma WholeHolds(x: Execution, suite: set<Key>, k: Key)
    requires Conforms(x, suite) && k in suite && x.Whole()
    ensures Closed(x.AsRun().stream, k) <==> !x.plan.endsEarly && Closed(x.plan.pool, k)
  {
    var es := Written(x.plan);
    assert x.AsRun().stream == es;
    ClosedIffMember(es, k);
    ClosedIffMember(x.plan.pool, k);
    if e :| e in es && Closes(e, k) {
      ClosedByPool(x, suite, e, k);
    }
    if !x.plan.endsEarly && Closed(x.plan.pool, k) {
      var e :| e in x.plan.pool && Closes(e, k);
      EventComesFrom(x.plan, e);
    }
  }

  // ----- how a record ends

  lemma CompletionOf(x: Execution, suite: set<Key>)
    requires Conforms(x, suite)
    ensures x.AsRun().Record().completion
         == if !x.Whole() then Incomplete else if x.plan.cancelled then Cancelled else Completed
  {
    var plan, es := x.plan, x.AsRun().stream;
    if x.Whole() {
      assert es == Written(plan);
      ReadsBackTotals(plan);
    } else if es != [] {
      var start, body := [plan.head], Body(plan)[..|es| - 1];
      assert es == start + body;
      BodyHasNoHeadOrTail(plan);
      RunLevelKept(start, body);
      assert start[..0] == [];
      assert Read(start) == Step(EMPTY, plan.head);
    }
  }

  // ----- when a run accounts for what it selected

  /**
   * A run with a complete record reached its pool and closed all it selected, and
   * skipped for cancellation only when cancelled; a run killed before its tail
   * had recorded no such skip.
   */
  ghost predicate Sound(x: Execution) {
    forall k :: k in x.selected ==>
      if x.Whole()
      then !x.plan.endsEarly && Closed(x.plan.pool, k) && (Drains(x.plan.pool, k) ==> x.plan.cancelled)
      else !Drains(x.AsRun().stream, k)
  }

  lemma OnlySelected(x: Execution, suite: set<Key>)
    requires Conforms(x, suite)
    ensures RunsOnlySelected(x.AsRun(), suite)
  {
    var run := x.AsRun();
    StreamNamesFiles(x, suite);
    forall k | k in run.Record().scenarios && (k in suite || run.Record().scenarios[k].IsSuite())
      ensures k in x.selected && run.Record().scenarios[k].IsSuite()
    {
      EntriesAreCloses(run.stream, k);
      var e := EntryFrom(run.stream, k);
      ClosedByPool(x, suite, e, k);
      ClosedIffMember(x.plan.pool, k);
      PoolClosesOnce(x, suite, e, e, k);
    }
  }

  /** The exact condition on a run for its record to account for what it selected. */
  lemma AccountsIffSound(x: Execution, suite: set<Key>)
    requires Conforms(x, suite)
    ensures Accounts(x.AsRun()) <==> Sound(x)
  {
    CompletionOf(x, suite);
    var run := x.AsRun();
    forall k | k in x.selected
      ensures (match run.Record().completion
               case Completed => run.Entry(k).Some? && !MechanicalSkip(run.Entry(k).value)
               case Cancelled => run.Entry(k).Some?
               case Incomplete => run.Entry(k).Some? ==> !MechanicalSkip(run.Entry(k).value))
         <==> if x.Whole()
              then !x.plan.endsEarly && Closed(x.plan.pool, k) && (Drains(x.plan.pool, k) ==> x.plan.cancelled)
              else !Drains(run.stream, k)
    {
      EntryOfPool(x, suite, k);
      if x.Whole() {
        WholeHolds(x, suite, k);
      } else {
        ClosedIffMember(run.stream, k);
      }
    }
  }

  /** A rerun of this run's record leaves out only proven scenarios if and only if the run was sound. */
  lemma LeavesOutOnlyProvenIffSound(x: Execution, suite: set<Key>)
    requires Conforms(x, suite)
    ensures LeavesOutOnlyProven(x.AsRun()) <==> Sound(x)
  {
    OnlySelected(x, suite);
    FilterExactlyWhenAccounted(x.AsRun(), suite);
    AccountsIffSound(x, suite);
  }

  /** A run that drains nothing may be killed anywhere. */
  lemma KilledAnywhere(x: Execution, suite: set<Key>)
    requires Conforms(x, suite) && !x.Whole()
    requires forall k :: k in x.selected ==> !Drains(x.plan.pool, k)
    ensures Sound(x)
  {
    forall k | k in x.selected ensures !Drains(x.AsRun().stream, k) {
      if Drains(x.AsRun().stream, k) {
        var e :| e in x.AsRun().stream && Closes(e, k) && MechanicalClose(e);
        OnlyClose(x, suite, k, e);
      }
    }
  }

  // ----- chains of runs

  /** Each run executes what its predecessor's record keeps. */
  ghost predicate ExecutionChain(xs: seq<Execution>, suite: set<Key>) {
    && |xs| > 0 && xs[0].selected == suite
    && (forall i :: 0 <= i < |xs| ==> Conforms(xs[i], suite) && Sound(xs[i]))
    && (forall i :: 0 < i < |xs| ==> xs[i].selected == set k | k in suite && xs[i - 1].AsRun().Filter().Keeps(k))
  }

  ghost function AsRuns(xs: seq<Execution>): (runs: seq<Run>)
    ensures |runs| == |xs| && forall i :: 0 <= i < |xs| ==> runs[i] == xs[i].AsRun()
  {
    seq(|xs|, i requires 0 <= i < |xs| => xs[i].AsRun())
  }

  lemma ChainOfRecords(xs: seq<Execution>, suite: set<Key>)
    requires ExecutionChain(xs, suite)
    ensures RerunChain(AsRuns(xs), suite)
  {
    forall i | 0 <= i < |xs| ensures RunsOnlySelected(xs[i].AsRun(), suite) && Accounts(xs[i].AsRun()) {
      OnlySelected(xs[i], suite);
      AccountsIffSound(xs[i], suite);
    }
  }

  /**
   * Over every chain of sound runs, completed, cancelled or killed in any order: a
   * scenario not proven by its newest verdict is kept by the next filter, and
   * after a complete record nothing is left to rerun exactly when all are proven.
   */
  lemma ChainProvesSuite(xs: seq<Execution>, suite: set<Key>)
    requires ExecutionChain(xs, suite)
    ensures var runs := AsRuns(xs);
            forall k :: k in suite ==> runs[|runs| - 1].Filter().Keeps(k) || ProvenBy(runs, k)
    ensures var runs := AsRuns(xs);
            xs[|xs| - 1].Whole() ==>
              (NothingToRerun(runs[|runs| - 1].Record()) <==> forall k :: k in suite ==> ProvenBy(runs, k))
  {
    var runs := AsRuns(xs);
    ChainOfRecords(xs, suite);
    forall k | k in suite ensures runs[|runs| - 1].Filter().Keeps(k) || ProvenBy(runs, k) {
      RerunClosure(runs, suite, k);
    }
    if xs[|xs| - 1].Whole() {
      CompletionOf(xs[|xs| - 1], suite);
      NothingToRerunMeansProven(runs, suite);
    }
  }
}
