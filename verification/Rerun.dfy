// `--rerun`: what a prior record says to run again, over whole chains of runs.
module Rerun {
  import opened Identity
  import opened Events
  import opened Records

  datatype RerunFilter = RerunFilter(queued: set<Key>, finishedWhenTruncated: Option<set<Key>>) {

    /** Does this selected scenario run? */
    predicate Keeps(k: Key) {
      k in queued || (finishedWhenTruncated.Some? && k !in finishedWhenTruncated.value)
    }

    predicate BaseTruncated() { finishedWhenTruncated.Some? }
  }

  datatype RerunCandidates = RerunCandidates(scenarios: set<Key>, neverRan: nat, filter: RerunFilter)

  /** An authored skip's reason is its tag spelling; mechanical prose never starts so. */
  predicate AuthoredSkip(run: ScenarioRun) {
    run.status == Skipped && run.reason.Some? && |run.reason.value| > 0 && run.reason.value[0] == '@'
  }

  predicate MechanicalSkip(run: ScenarioRun) {
    run.status == Skipped && !AuthoredSkip(run)
  }

  /** A verdict nothing remains to be done about. */
  predicate Proven(run: ScenarioRun) {
    run.status == Passed || run.status == Warned || AuthoredSkip(run)
  }

  ghost function SuiteKeys(r: Record): set<Key> {
    set k | k in r.scenarios && r.scenarios[k].IsSuite()
  }

  ghost function NeverRan(r: Record): set<Key> {
    set k | k in SuiteKeys(r) && r.completion == Cancelled && MechanicalSkip(r.scenarios[k])
  }

  ghost function Queued(r: Record): set<Key> {
    NeverRan(r) + set k | k in SuiteKeys(r) && r.scenarios[k].status == Failed
  }

  ghost function FilterOf(r: Record): RerunFilter {
    RerunFilter(Queued(r), if r.completion == Incomplete then Some(SuiteKeys(r)) else None)
  }

  function Added(s: set<Key>, yes: bool, k: Key): set<Key> {
    if yes then s + {k} else s
  }

  lemma OneLess(all: set<Key>, todo: set<Key>, k: Key)
    requires k in todo
    ensures all - (todo - {k}) == Added(all - todo, k in all, k)
    ensures |all - (todo - {k})| == |all - todo| + if k in all then 1 else 0
  {
    assert all - (todo - {k}) == Added(all - todo, k in all, k);
  }

  /** What one entry adds to the rerun. */
  method Classify(run: ScenarioRun, cancelled: bool) returns (suite: bool, queue: bool, never: bool)
    ensures suite == run.IsSuite()
    ensures never == (suite && cancelled && MechanicalSkip(run))
    ensures queue == (never || (suite && run.status == Failed))
  {
    suite, queue, never := run.IsSuite(), false, false;
    if suite {
      if run.status == Failed {
        queue := true;
      } else if run.status == Skipped && cancelled && !AuthoredSkip(run) {
        queue, never := true, true;
      }
    }
  }

  /** The loop over a record's entries, against the sets its results stand for. */
  method SortOut(entries: map<Key, ScenarioRun>, cancelled: bool, ghost suite: set<Key>, ghost queued: set<Key>,
                 ghost never: set<Key>)
    returns (finished: set<Key>, scenarios: set<Key>, neverRan: nat)
    requires suite <= entries.Keys && queued <= entries.Keys && never <= entries.Keys
    requires forall k :: k in entries ==>
               && (k in suite <==> entries[k].IsSuite())
               && (k in never <==> entries[k].IsSuite() && cancelled && MechanicalSkip(entries[k]))
               && (k in queued <==> k in never || (entries[k].IsSuite() && entries[k].status == Failed))
    ensures finished == suite && scenarios == queued && neverRan == |never|
  {
    finished, scenarios, neverRan := {}, {}, 0;
    var todo := entries.Keys;
    NothingLess(suite, todo);
    NothingLess(queued, todo);
    NothingLess(never, todo);
    while todo != {}
      invariant todo <= entries.Keys
      invariant finished == suite - todo
      invariant scenarios == queued - todo
      invariant neverRan == |never - todo|
      decreases |todo|
    {
      var key :| key in todo;
      var ran, queue, unreached := Classify(entries[key], cancelled);
      OneLess(suite, todo, key);
      OneLess(queued, todo, key);
      OneLess(never, todo, key);
      finished := Added(finished, ran, key);
      scenarios := Added(scenarios, queue, key);
      neverRan := neverRan + if unreached then 1 else 0;
      todo := todo - {key};
    }
    AllDone(suite);
    AllDone(queued);
    AllDone(never);
  }

  lemma NothingLess(all: set<Key>, todo: set<Key>)
    requires all <= todo
    ensures all - todo == {} && |all - todo| == 0
  {
  }

  lemma AllDone(all: set<Key>)
    ensures all - {} == all
  {
  }

  method CandidatesOf(events: seq<Event>) returns (c: RerunCandidates)
    ensures var r := Parsed(events);
            c == RerunCandidates(Queued(r), |NeverRan(r)|, FilterOf(r))
  {
    var record := ParseRecord(events);
    var finished, scenarios, neverRan := SortOut(
      record.scenarios, record.completion == Cancelled, SuiteKeys(record), Queued(record), NeverRan(record));
    var truncated := record.completion == Incomplete;
    c := RerunCandidates(scenarios, neverRan, RerunFilter(scenarios, if truncated then Some(finished) else None));
  }

  // ----- what the filter keeps, outright

  /** A skip the author did not ask for: no reason, or one that does not start with an at sign. */
  predicate SkippedUnasked(run: ScenarioRun) {
    run.status == Skipped && (run.reason.None? || run.reason.value == "" || run.reason.value[0] != '@')
  }

  /**
   * A scenario is kept if and only if its suite entry failed, or a cancelled run
   * skipped it unasked, or a run without a tail holds no suite entry for it.
   */
  lemma KeepsIff(es: seq<Event>, k: Key)
    ensures var r := Parsed(es);
            FilterOf(r).Keeps(k) <==>
              || (k in r.scenarios && r.scenarios[k].phase == None && r.scenarios[k].status == Failed)
              || (k in r.scenarios && r.scenarios[k].phase == None && r.completion == Cancelled
                  && SkippedUnasked(r.scenarios[k]))
              || (r.completion == Incomplete && !(k in r.scenarios && r.scenarios[k].phase == None))
  {
  }

  /** What the candidates list and count, outright. */
  lemma CandidatesSpelled(es: seq<Event>)
    ensures var r := Parsed(es);
            && Queued(r) == (set k | k in r.scenarios && r.scenarios[k].phase == None
                              && (r.scenarios[k].status == Failed
                                  || (r.completion == Cancelled && SkippedUnasked(r.scenarios[k]))))
            && NeverRan(r) == (set k | k in r.scenarios && r.scenarios[k].phase == None
                                && r.completion == Cancelled && SkippedUnasked(r.scenarios[k]))
  {
  }

  /** No rerun executes a scenario the record proves: passed, warned, or skipped at its author's word. */
  lemma ProvenNotRerun(es: seq<Event>, k: Key)
    requires k in Parsed(es).scenarios && Parsed(es).scenarios[k].phase == None
    requires var run := Parsed(es).scenarios[k];
             || run.status == Passed || run.status == Warned
             || (run.status == Skipped && run.reason.Some? && run.reason.value != "" && run.reason.value[0] == '@')
    ensures !FilterOf(Parsed(es)).Keeps(k)
  {
    KeepsIff(es, k);
  }

  // ----- one run

  /** A run executed `selected` and left `stream` behind. */
  datatype Run = Run(selected: set<Key>, stream: seq<Event>) {
    ghost function Record(): Record { Parsed(stream) }

    ghost function Filter(): RerunFilter { FilterOf(Record()) }

    ghost function Entry(k: Key): Option<ScenarioRun> {
      if k in Record().scenarios then Some(Record().scenarios[k]) else None
    }
  }

  /** A run closes only what it selected as suite scenarios; phase features are no part of the suite. */
  ghost predicate RunsOnlySelected(run: Run, suite: set<Key>) {
    && run.selected <= suite
    && SuiteKeys(run.Record()) <= run.selected
    && forall k :: k in run.Record().scenarios && k in suite ==> run.Record().scenarios[k].IsSuite()
  }

  /** What the record must hold for its filter to be trusted. */
  ghost predicate Accounts(run: Run) {
    forall k :: k in run.selected ==>
      match run.Record().completion
      case Completed => run.Entry(k).Some? && !MechanicalSkip(run.Entry(k).value)
      case Cancelled => run.Entry(k).Some?
      case Incomplete => run.Entry(k).Some? ==> !MechanicalSkip(run.Entry(k).value)
  }

  /** Whatever the next rerun leaves out, this run proved. */
  ghost predicate LeavesOutOnlyProven(run: Run) {
    forall k :: k in run.selected && !run.Filter().Keeps(k) ==> run.Entry(k).Some? && Proven(run.Entry(k).value)
  }

  /**
   * The exact condition on one record: a rerun leaves out only proven scenarios
   * if and only if a completed or cancelled record closes all it selected and
   * mechanical skips stand only in a cancelled one.
   */
  lemma FilterExactlyWhenAccounted(run: Run, suite: set<Key>)
    requires RunsOnlySelected(run, suite)
    ensures LeavesOutOnlyProven(run) <==> Accounts(run)
  {
    forall k | k in run.selected
      ensures (!run.Filter().Keeps(k) ==> run.Entry(k).Some? && Proven(run.Entry(k).value))
         <==> match run.Record().completion
              case Completed => run.Entry(k).Some? && !MechanicalSkip(run.Entry(k).value)
              case Cancelled => run.Entry(k).Some?
              case Incomplete => run.Entry(k).Some? ==> !MechanicalSkip(run.Entry(k).value)
    {
      if run.Entry(k).Some? {
        assert k in SuiteKeys(run.Record());
      }
    }
  }

  // ----- chains of reruns

  /** The first run executes the suite, every later one what its predecessor's filter keeps. */
  ghost predicate RerunChain(runs: seq<Run>, suite: set<Key>) {
    && |runs| > 0 && runs[0].selected == suite
    && (forall i :: 0 < i < |runs| ==>
          runs[i].selected == set k | k in suite && runs[i - 1].Filter().Keeps(k))
    && (forall i :: 0 <= i < |runs| ==> RunsOnlySelected(runs[i], suite) && Accounts(runs[i]))
  }

  /** The newest verdict the chain holds on `k`. */
  ghost function Newest(runs: seq<Run>, k: Key): Option<ScenarioRun> {
    if runs == [] then None
    else
      var last := runs[|runs| - 1];
      if last.Entry(k).Some? then last.Entry(k) else Newest(runs[..|runs| - 1], k)
  }

  ghost predicate ProvenBy(runs: seq<Run>, k: Key) {
    Newest(runs, k).Some? && Proven(Newest(runs, k).value)
  }

  /**
   * Over every chain of completed, cancelled and truncated runs: a suite
   * scenario whose newest verdict is not proven is kept by the next filter.
   */
  lemma {:induction false} RerunClosure(runs: seq<Run>, suite: set<Key>, k: Key)
    requires RerunChain(runs, suite) && k in suite
    ensures runs[|runs| - 1].Filter().Keeps(k) || ProvenBy(runs, k)
    decreases |runs|
  {
    var n := |runs| - 1;
    var last := runs[n];
    FilterExactlyWhenAccounted(last, suite);
    if k !in last.selected {
      var earlier := runs[..n];
      RerunClosure(earlier, suite, k);
      assert earlier[n - 1] == runs[n - 1];
      assert !runs[n - 1].Filter().Keeps(k);
      assert k !in SuiteKeys(last.Record());
    }
  }

  /** When `--rerun` prints that there is nothing to rerun. */
  ghost predicate NothingToRerun(r: Record) {
    Queued(r) == {} && !FilterOf(r).BaseTruncated()
  }

  /** After a run with a tail, nothing is left to rerun exactly when the whole suite is proven. */
  lemma {:induction false} NothingToRerunMeansProven(runs: seq<Run>, suite: set<Key>)
    requires RerunChain(runs, suite)
    requires runs[|runs| - 1].Record().completion != Incomplete
    ensures NothingToRerun(runs[|runs| - 1].Record()) <==> forall k :: k in suite ==> ProvenBy(runs, k)
  {
    var last := runs[|runs| - 1];
    if NothingToRerun(last.Record()) {
      forall k | k in suite ensures ProvenBy(runs, k) {
        RerunClosure(runs, suite, k);
      }
    } else {
      var k :| k in Queued(last.Record());
      assert Newest(runs, k) == last.Entry(k);
      assert !ProvenBy(runs, k) && k in suite;
    }
  }

  /** A truncated record never reads as nothing to rerun. */
  lemma TruncatedAlwaysReruns(run: Run)
    requires run.Record().completion == Incomplete
    ensures !NothingToRerun(run.Record())
    ensures forall k :: run.Entry(k).None? ==> run.Filter().Keeps(k)
  {
  }

  // ----- the records that do not account for what they selected

  const HEAD: Event := RunStarted("r", None, map[], false, None)

  /**
   * Interrupted twice: the first interrupt records the drained scenario as
   * skipped, the second kills the process before its tail. The record is
   * truncated, counts the scenario as finished, and the rerun leaves it out.
   */
  lemma SecondInterruptLosesSkipped(k: Key)
    requires k.0 != ""
    ensures var close := ScenarioFinished(k.1, k.0, Skipped, None, None, None, Some("run cancelled"), []);
            var run := Run({k}, [HEAD, close]);
            !run.Filter().Keeps(k) && !ProvenBy([run], k)
  {
    var close := ScenarioFinished(k.1, k.0, Skipped, None, None, None, Some("run cancelled"), []);
    var es := [HEAD, close];
    var run := Run({k}, es);
    assert es[..1] == [HEAD] && es[..1][..0] == [];
    assert Read(es[..1]) == Step(Read(es[..1][..0]), HEAD);
    NamedCloseKeepsItsKey(Read(es[..1]).pending, k);
    assert run.Record().completion == Incomplete;
    assert run.Entry(k).Some? && MechanicalSkip(run.Entry(k).value);
    assert run.Record().scenarios[k].IsSuite() && k in SuiteKeys(run.Record());
    assert Newest([run], k) == run.Entry(k);
  }

  /**
   * A setup that aborts the run before its suite still writes a tail: the
   * record reads as completed, names no scenario, and the rerun prints that
   * there is nothing to do.
   */
  lemma AbortedSetupReadsAsDone(k: Key)
    ensures var run := Run({k}, [HEAD, RunFinished(0, 0, 0, false)]);
            NothingToRerun(run.Record()) && Newest([run], k).None?
  {
    var es := [HEAD, RunFinished(0, 0, 0, false)];
    var run := Run({k}, es);
    assert es[..1] == [HEAD] && es[..1][..0] == [];
    assert Read(es[..1]) == Step(Read(es[..1][..0]), HEAD);
    assert run.Record().scenarios == map[];
    assert [run][..0] == [];
  }
}
