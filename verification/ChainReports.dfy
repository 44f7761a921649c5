// What the reports of a chain of reruns cover: the page composed over all of it, and
// the JUnit file carried over one link.
module ChainReports {
  import opened Identity
  import opened Events
  import opened Records
  import opened Carried
  import opened Report
  import opened Rerun

  // ----- the page is the chain's newest verdicts

  /** `run` is on disk under `id`, and `next` names it. */
  ghost predicate Links(disk: map<string, seq<Event>>, id: string, run: Run, next: Run) {
    IsDirectoryName(id) && id in disk && disk[id] == run.stream && Link(next) == Some(id)
  }

  /** Every run but the first names its predecessor, whose record is on disk under an id of its own. */
  ghost predicate Linked(runs: seq<Run>, ids: seq<string>, disk: map<string, seq<Event>>) {
    && |runs| == |ids| + 1
    && Link(runs[0]).None?
    && (forall i :: 0 <= i < |ids| ==> Links(disk, ids[i], runs[i], runs[i + 1]))
    && (forall i, j :: 0 <= i < j < |ids| ==> ids[i] != ids[j])
  }

  ghost function Link(run: Run): Option<string> {
    run.Record().head.rerunOf
  }

  /** The streams before run `n`, newest first. */
  ghost function Earlier(runs: seq<Run>, n: nat): seq<seq<Event>>
    requires n <= |runs|
  {
    if n == 0 then [] else [runs[n - 1].stream] + Earlier(runs, n - 1)
  }

  lemma {:induction false} EarlierAt(runs: seq<Run>, n: nat)
    requires n <= |runs|
    ensures |Earlier(runs, n)| == n && forall i :: 0 <= i < n ==> Earlier(runs, n)[i] == runs[n - 1 - i].stream
  {
    if n > 0 {
      EarlierAt(runs, n - 1);
    }
  }

  /** One link followed. */
  lemma LinkFollowed(
    disk: map<string, seq<Event>>, id: string, run: Run, next: Run, seen: set<string>)
    requires Links(disk, id, run, next) && id !in seen
    ensures Bases(disk, Link(next), seen) == [run.stream] + Bases(disk, Link(run), seen + {id})
  {
  }

  /** The links visit exactly the chain. */
  lemma {:induction false} BasesAreEarlier(
    runs: seq<Run>, ids: seq<string>, disk: map<string, seq<Event>>, n: nat, seen: set<string>)
    requires Linked(runs, ids, disk) && n < |runs|
    requires forall i :: 0 <= i < n ==> ids[i] !in seen
    ensures Bases(disk, Link(runs[n]), seen) == Earlier(runs, n)
  {
    if n > 0 {
      var m := n - 1;
      assert Links(disk, ids[m], runs[m], runs[m + 1]);
      LinkFollowed(disk, ids[m], runs[m], runs[n], seen);
      BasesAreEarlier(runs, ids, disk, m, seen + {ids[m]});
    }
  }

  ghost function Lookup(entries: map<Key, ScenarioRun>, k: Key): Option<ScenarioRun> {
    if k in entries then Some(entries[k]) else None
  }

  ghost predicate AllOnlySelected(runs: seq<Run>, suite: set<Key>) {
    forall i :: 0 <= i < |runs| ==> RunsOnlySelected(runs[i], suite)
  }

  lemma SuiteEntryOf(run: Run, suite: set<Key>, k: Key)
    requires RunsOnlySelected(run, suite) && k in suite
    ensures Lookup(SuiteEntries(run.stream), k) == run.Entry(k)
  {
  }

  /** Under what newer runs say, the overlay says what the earlier runs' newest does. */
  lemma {:induction false} OverlaidNewest(
    entries: map<Key, ScenarioRun>, runs: seq<Run>, n: nat, suite: set<Key>, k: Key)
    requires n <= |runs| && AllOnlySelected(runs, suite) && k in suite
    ensures Lookup(Overlaid(entries, Earlier(runs, n)), k)
         == if k in entries then Some(entries[k]) else Newest(runs[..n], k)
    decreases n
  {
    if n > 0 {
      var base, bases := runs[n - 1].stream, Earlier(runs, n);
      assert bases[0] == base && bases[1..] == Earlier(runs, n - 1);
      OverlaidNewest(SuiteEntries(base) + entries, runs, n - 1, suite, k);
      SuiteEntryOf(runs[n - 1], suite, k);
      assert runs[..n][..n - 1] == runs[..n - 1];
    }
  }

  /** What the page of `run` shows of `k`. */
  ghost function PageEntry(run: Run, disk: map<string, seq<Event>>, k: Key): Option<ScenarioRun>
    requires run.stream != []
  {
    Entry(Page(run.stream, Bases(disk, Link(run), {})), k)
  }

  /**
   * On a linked chain, the entry of each suite scenario on the page of run `n` is
   * the newest verdict the chain holds on it up to that run.
   */
  lemma {:induction false} PageIsNewest(
    runs: seq<Run>, ids: seq<string>, disk: map<string, seq<Event>>, n: nat, suite: set<Key>, k: Key)
    requires Linked(runs, ids, disk) && AllOnlySelected(runs, suite) && k in suite && n < |runs|
    requires Composable(runs[n].stream) && EachClosesOnce(Earlier(runs, n))
    ensures PageEntry(runs[n], disk, k) == Newest(runs[..n + 1], k)
  {
    BasesAreEarlier(runs, ids, disk, n, {});
    PageIsUnion(runs[n].stream, disk);
    OverlaidNewest(runs[n].Record().scenarios, runs, n, suite, k);
    assert runs[..n + 1][..n] == runs[..n];
  }

  /** Once the first run has closed a scenario, the chain holds a verdict on it. */
  lemma {:induction false} NewestExists(runs: seq<Run>, n: nat, k: Key)
    requires n < |runs| && runs[0].Entry(k).Some?
    ensures Newest(runs[..n + 1], k).Some?
  {
    if n > 0 {
      NewestExists(runs, n - 1, k);
      assert runs[..n + 1][..n] == runs[..n];
    }
  }

  /** So after a first run that ended, every page covers the whole suite, however long the chain. */
  lemma {:induction false} PageCoversSuite(
    runs: seq<Run>, ids: seq<string>, disk: map<string, seq<Event>>, n: nat, suite: set<Key>, k: Key)
    requires Linked(runs, ids, disk) && RerunChain(runs, suite) && k in suite && n < |runs|
    requires runs[0].Record().completion != Incomplete
    requires Composable(runs[n].stream) && EachClosesOnce(Earlier(runs, n))
    ensures PageEntry(runs[n], disk, k).Some?
  {
    PageIsNewest(runs, ids, disk, n, suite, k);
    assert Accounts(runs[0]);
    NewestExists(runs, n, k);
  }

  // ----- the JUnit file goes back one link

  /** The scenarios in a rerun's JUnit file: its own, and those carried from its base. */
  ghost function JUnit(base: Run, rerun: Run): set<Key> {
    rerun.selected + set o | o in CarryAll(base.stream, rerun.selected).outcomes :: o.Identity()
  }

  /** `rerun` executed what `base` says to. */
  ghost predicate Follows(base: Run, rerun: Run, suite: set<Key>) {
    rerun.selected == set k | k in suite && base.Filter().Keeps(k)
  }

  /** The carried outcomes add exactly the suite scenarios of the base's record. */
  lemma JUnitHolds(base: Run, rerun: Run)
    requires ClosesNameFile(base.stream) && ClosesOnce(base.stream)
    ensures JUnit(base, rerun) == rerun.selected + SuiteKeys(base.Record())
  {
    ReadersAgree(base.stream, rerun.selected);
    forall k ensures k in JUnit(base, rerun) <==> k in rerun.selected || k in SuiteKeys(base.Record()) {
      CarriedIsSuite(base.Record(), CarryAll(base.stream, rerun.selected).outcomes, rerun.selected, k);
    }
  }

  lemma {:induction false} CarriedIsSuite(record: Record, outcomes: seq<Outcome>, exclude: set<Key>, k: Key)
    requires SameSuite(record.scenarios, outcomes, exclude)
    ensures (exists o :: o in outcomes && o.Identity() == k) <==> k in SuiteKeys(record) && k !in exclude
  {
    if o :| o in outcomes && o.Identity() == k {
      var n :| 0 <= n < |outcomes| && outcomes[n] == o;
      assert Agrees(record.scenarios, outcomes[n], exclude);
    }
    if k in SuiteKeys(record) && k !in exclude {
      assert Listed(outcomes, k);
    }
  }

  /**
   * The exact condition for a rerun's JUnit file to cover the whole suite: its base
   * was truncated, so that everything it had not finished is rerun, or had itself
   * executed all of it.
   */
  lemma JUnitCoversIff(base: Run, rerun: Run, suite: set<Key>)
    requires RunsOnlySelected(base, suite) && Accounts(base) && Follows(base, rerun, suite)
    requires ClosesNameFile(base.stream) && ClosesOnce(base.stream)
    ensures JUnit(base, rerun) == suite <==> base.Record().completion == Incomplete || base.selected == suite
    ensures base.Record().completion != Incomplete ==> JUnit(base, rerun) == base.selected
  {
    JUnitHolds(base, rerun);
    if base.Record().completion == Incomplete {
      assert forall k :: k in suite ==> k in rerun.selected || k in SuiteKeys(base.Record());
    } else {
      forall k ensures k in JUnit(base, rerun) <==> k in base.selected {
        if k in base.selected {
          assert base.Entry(k).Some?;
        }
      }
    }
  }

  /** Over a chain: whether the JUnit file of run `n` is whole depends on its base alone. */
  lemma {:induction false} ChainJUnit(runs: seq<Run>, suite: set<Key>, n: nat)
    requires RerunChain(runs, suite) && 0 < n < |runs|
    requires ClosesNameFile(runs[n - 1].stream) && ClosesOnce(runs[n - 1].stream)
    ensures var base := runs[n - 1];
            JUnit(base, runs[n]) == suite <==> base.Record().completion == Incomplete || base.selected == suite
  {
    JUnitCoversIff(runs[n - 1], runs[n], suite);
  }

  // ----- a third run whose JUnit file is not whole

  function Verdict(k: Key, status: Status): Event {
    ScenarioFinished(k.1, k.0, status, None, None, None, None, [])
  }

  /** The closes of these verdicts, in order. */
  function Verdicts(vs: seq<(Key, Status)>): seq<Event> {
    if vs == [] then [] else Verdicts(vs[..|vs| - 1]) + [Verdict(vs[|vs| - 1].0, vs[|vs| - 1].1)]
  }

  /** The entries they leave. */
  function Entries(vs: seq<(Key, Status)>): map<Key, ScenarioRun> {
    if vs == [] then map[]
    else Entries(vs[..|vs| - 1])[vs[|vs| - 1].0 := ScenarioRun(vs[|vs| - 1].1, map[], None, None, [])]
  }

  function Stream(vs: seq<(Key, Status)>): seq<Event> {
    [HEAD] + Verdicts(vs) + [RunFinished(0, 0, 0, false)]
  }

  ghost predicate NamedKeys(vs: seq<(Key, Status)>) {
    forall i :: 0 <= i < |vs| ==> vs[i].0.0 != ""
  }

  lemma {:induction false} VerdictsRead(vs: seq<(Key, Status)>)
    requires NamedKeys(vs)
    ensures var r := Read([HEAD] + Verdicts(vs));
            r.pending == map[] && r.record.scenarios == Entries(vs)
  {
    var es := [HEAD] + Verdicts(vs);
    if vs == [] {
      assert es == [HEAD] && es[..0] == [];
      assert Read(es) == Step(EMPTY, HEAD);
    } else {
      var n := |vs| - 1;
      VerdictsRead(vs[..n]);
      var before := [HEAD] + Verdicts(vs[..n]);
      assert es == before + [Verdict(vs[n].0, vs[n].1)] && es[..|before|] == before;
      NamedCloseKeepsItsKey(Read(before).pending, vs[n].0);
    }
  }

  lemma StreamReads(vs: seq<(Key, Status)>)
    requires NamedKeys(vs)
    ensures Parsed(Stream(vs)).scenarios == Entries(vs) && Parsed(Stream(vs)).completion == Completed
  {
    var before := [HEAD] + Verdicts(vs);
    VerdictsRead(vs);
    assert Stream(vs)[..|before|] == before;
  }

  /** A completed run of these verdicts, none of them a skip. */
  lemma VerdictRun(selected: set<Key>, vs: seq<(Key, Status)>, suite: set<Key>)
    requires NamedKeys(vs) && Entries(vs).Keys == selected <= suite
    requires forall k :: k in Entries(vs) ==> Entries(vs)[k].IsSuite() && Entries(vs)[k].status != Skipped
    ensures var run := Run(selected, Stream(vs));
            && RunsOnlySelected(run, suite) && Accounts(run)
            && run.Record().scenarios == Entries(vs) && run.Record().completion == Completed
    ensures forall k ::
              Run(selected, Stream(vs)).Filter().Keeps(k) <==> k in selected && Entries(vs)[k].status == Failed
  {
    StreamReads(vs);
  }

  predicate ThreeKeys(a: Key, b: Key, c: Key) {
    a != b && b != c && a != c && a.0 != "" && b.0 != "" && c.0 != ""
  }

  function First(a: Key, b: Key, c: Key): Run {
    Run({a, b, c}, Stream([(a, Failed), (b, Failed), (c, Passed)]))
  }

  function Second(a: Key, b: Key): Run {
    Run({a, b}, Stream([(a, Passed), (b, Failed)]))
  }

  function Third(b: Key): Run {
    Run({b}, Stream([(b, Passed)]))
  }

  lemma EntriesOf(a: Key, b: Key, c: Key, x: Status, y: Status, z: Status)
    requires ThreeKeys(a, b, c)
    ensures Entries([(a, x)]) == map[a := ScenarioRun(x, map[], None, None, [])]
    ensures Entries([(a, x), (b, y)])
         == map[a := ScenarioRun(x, map[], None, None, []), b := ScenarioRun(y, map[], None, None, [])]
    ensures Entries([(a, x), (b, y), (c, z)])
         == map[a := ScenarioRun(x, map[], None, None, []), b := ScenarioRun(y, map[], None, None, []),
                c := ScenarioRun(z, map[], None, None, [])]
  {
    assert [(a, x)][..0] == [];
    assert [(a, x), (b, y)][..1] == [(a, x)];
    assert [(a, x), (b, y), (c, z)][..2] == [(a, x), (b, y)];
  }

  lemma FirstRun(a: Key, b: Key, c: Key)
    requires ThreeKeys(a, b, c)
    ensures RunsOnlySelected(First(a, b, c), {a, b, c}) && Accounts(First(a, b, c))
    ensures forall k :: First(a, b, c).Filter().Keeps(k) <==> k == a || k == b
    ensures First(a, b, c).Entry(c) == Some(ScenarioRun(Passed, map[], None, None, []))
  {
    EntriesOf(a, b, c, Failed, Failed, Passed);
    VerdictRun({a, b, c}, [(a, Failed), (b, Failed), (c, Passed)], {a, b, c});
  }

  lemma SecondRun(a: Key, b: Key, c: Key)
    requires ThreeKeys(a, b, c)
    ensures RunsOnlySelected(Second(a, b), {a, b, c}) && Accounts(Second(a, b))
    ensures forall k :: Second(a, b).Filter().Keeps(k) <==> k == b
    ensures Second(a, b).Entry(c).None? && Second(a, b).Record().completion == Completed
  {
    EntriesOf(a, b, c, Passed, Failed, Passed);
    VerdictRun({a, b}, [(a, Passed), (b, Failed)], {a, b, c});
  }

  lemma ThirdRun(a: Key, b: Key, c: Key)
    requires ThreeKeys(a, b, c)
    ensures RunsOnlySelected(Third(b), {a, b, c}) && Accounts(Third(b)) && Third(b).Entry(c).None?
  {
    EntriesOf(b, a, c, Passed, Passed, Passed);
    VerdictRun({b}, [(b, Passed)], {a, b, c});
  }

  lemma SecondVerdicts(a: Key, b: Key)
    ensures Second(a, b).stream == [HEAD, Verdict(a, Passed), Verdict(b, Failed), RunFinished(0, 0, 0, false)]
  {
    var vs := [(a, Passed), (b, Failed)];
    assert vs[..1] == [(a, Passed)];
    assert [(a, Passed)][..0] == [];
    assert Verdicts([(a, Passed)]) == [Verdict(a, Passed)];
    assert Verdicts(vs) == [Verdict(a, Passed)] + [Verdict(b, Failed)];
  }

  lemma SecondStream(a: Key, b: Key)
    requires a != b && a.0 != "" && b.0 != ""
    ensures ClosesNameFile(Second(a, b).stream) && ClosesOnce(Second(a, b).stream)
  {
    SecondVerdicts(a, b);
  }

  lemma ThreeRunsFollow(a: Key, b: Key, c: Key)
    requires ThreeKeys(a, b, c)
    ensures Follows(First(a, b, c), Second(a, b), {a, b, c}) && Follows(Second(a, b), Third(b), {a, b, c})
  {
    FirstRun(a, b, c);
    SecondRun(a, b, c);
  }

  lemma ChainOfThree(r: Run, s: Run, t: Run, suite: set<Key>)
    requires r.selected == suite && Follows(r, s, suite) && Follows(s, t, suite)
    requires RunsOnlySelected(r, suite) && RunsOnlySelected(s, suite) && RunsOnlySelected(t, suite)
    requires Accounts(r) && Accounts(s) && Accounts(t)
    ensures RerunChain([r, s, t], suite)
  {
  }

  lemma ThreeRunsChain(a: Key, b: Key, c: Key)
    requires ThreeKeys(a, b, c)
    ensures RerunChain([First(a, b, c), Second(a, b), Third(b)], {a, b, c})
  {
    FirstRun(a, b, c);
    SecondRun(a, b, c);
    ThirdRun(a, b, c);
    ThreeRunsFollow(a, b, c);
    ChainOfThree(First(a, b, c), Second(a, b), Third(b), {a, b, c});
  }

  lemma ThreeRunsProve(a: Key, b: Key, c: Key)
    requires ThreeKeys(a, b, c)
    ensures ProvenBy([First(a, b, c), Second(a, b), Third(b)], c)
  {
    var runs := [First(a, b, c), Second(a, b), Third(b)];
    FirstRun(a, b, c);
    SecondRun(a, b, c);
    ThirdRun(a, b, c);
    assert runs[..2] == [First(a, b, c), Second(a, b)] && runs[..2][..1] == [First(a, b, c)];
    assert Newest(runs, c) == Newest(runs[..2], c) == Newest(runs[..2][..1], c) == First(a, b, c).Entry(c);
  }

  /**
   * Three scenarios; the first run fails two, the second one of these, the third
   * none. The chain is sound and proves `c`, and the third run's JUnit file has no `c`.
   */
  lemma ThirdJUnitIsPartial(a: Key, b: Key, c: Key)
    requires ThreeKeys(a, b, c)
    ensures var runs := [First(a, b, c), Second(a, b), Third(b)];
            RerunChain(runs, {a, b, c}) && ProvenBy(runs, c) && c !in JUnit(runs[1], runs[2])
  {
    var suite := {a, b, c};
    ThreeRunsChain(a, b, c);
    ThreeRunsProve(a, b, c);
    ThreeRunsFollow(a, b, c);
    SecondRun(a, b, c);
    SecondStream(a, b);
    JUnitCoversIff(Second(a, b), Third(b), suite);
  }
}
