// `proef report` over a chain of reruns: the composed event stream.
module Report {
  import opened Identity
  import opened Events
  import opened Records

  // ----- the slice one base contributes

  /** Does `e` belong to a suite scenario the newer runs did not close? */
  predicate Carries(e: Event, have: set<Key>) {
    match e
    case ScenarioStarted(_, _, _, _, _, _) => e.phase.None? && (e.file, e.scenario) !in have
    case ScenarioFinished(_, _, _, _, _, _, _, _) => e.phase.None? && (e.file, e.scenario) !in have
    case StepFinished(_, _, _, _, _, _) => (e.file, e.scenario) !in have
    case _ => false
  }

  /** Carried scenarios stay off the timeline. */
  function Strip(e: Event): Event {
    match e
    case ScenarioStarted(scenario, file, _, _, phase, exclusive) =>
      ScenarioStarted(scenario, file, None, None, phase, exclusive)
    case ScenarioFinished(scenario, file, status, _, _, phase, reason, tags) =>
      ScenarioFinished(scenario, file, status, None, None, phase, reason, tags)
    case _ => e
  }

  function CarriedEvents(base: seq<Event>, have: set<Key>): seq<Event> {
    if base == [] then []
    else
      var last := base[|base| - 1];
      var rest := CarriedEvents(base[..|base| - 1], have);
      if Carries(last, have) then rest + [Strip(last)] else rest
  }

  method CarriedScenarioEvents(base: seq<Event>, rerun: Record) returns (carried: seq<Event>)
    ensures carried == CarriedEvents(base, rerun.scenarios.Keys)
  {
    carried := [];
    for i := 0 to |base|
      invariant carried == CarriedEvents(base[..i], rerun.scenarios.Keys)
    {
      if Carries(base[i], rerun.scenarios.Keys) {
        carried := carried + [Strip(base[i])];
      }
      assert base[..i + 1][..i] == base[..i];
    }
    assert base[..|base|] == base;
  }

  /** How many scenarios a slice holds: one close each. */
  function CountCloses(es: seq<Event>): nat {
    if es == [] then 0 else CountCloses(es[..|es| - 1]) + if es[|es| - 1].ScenarioFinished? then 1 else 0
  }

  method CountCarried(carried: seq<Event>) returns (n: nat)
    ensures n == CountCloses(carried)
  {
    n := 0;
    for i := 0 to |carried|
      invariant n == CountCloses(carried[..i])
    {
      if carried[i].ScenarioFinished? {
        n := n + 1;
      }
      assert carried[..i + 1][..i] == carried[..i];
    }
    assert carried[..|carried|] == carried;
  }

  // ----- the chain

  /** A run id is one path component. */
  predicate IsDirectoryName(id: string) {
    id != "" && id != "." && id != ".." && '/' !in id
  }

  /** The base streams the report visits: each link once, stopping at a repeat or a missing record. */
  ghost function Bases(disk: map<string, seq<Event>>, link: Option<string>, seen: set<string>): seq<seq<Event>>
    decreases |disk.Keys - seen|
  {
    if link.None? || link.value in seen || !IsDirectoryName(link.value) || link.value !in disk then []
    else
      var id := link.value;
      assert disk.Keys - (seen + {id}) < disk.Keys - seen;
      Fewer(disk.Keys - (seen + {id}), disk.Keys - seen);
      [disk[id]] + Bases(disk, Parsed(disk[id]).head.rerunOf, seen + {id})
  }

  lemma Fewer<T>(a: set<T>, b: set<T>)
    requires a < b
    ensures |a| < |b|
  {
    assert b == a + (b - a);
  }

  type Stream = es: seq<Event> | es != [] witness [RunFinished(0, 0, 0, false)]

  /** One base spliced in behind the head. */
  ghost function Splice(events: Stream, base: seq<Event>): Stream
  {
    events[..1] + CarriedEvents(base, Parsed(events).scenarios.Keys) + events[1..]
  }

  ghost function Composed(events: Stream, bases: seq<seq<Event>>): Stream
    decreases |bases|
  {
    if bases == [] then events else Composed(Splice(events, bases[0]), bases[1..])
  }

  ghost function CarriedCount(events: Stream, bases: seq<seq<Event>>): nat
    decreases |bases|
  {
    if bases == [] then 0
    else
      CountCloses(CarriedEvents(bases[0], Parsed(events).scenarios.Keys))
        + CarriedCount(Splice(events, bases[0]), bases[1..])
  }

  /** A composed page declines the newest run's tail totals. */
  function WithoutTail(es: seq<Event>): seq<Event> {
    if es == [] then []
    else
      var rest := WithoutTail(es[..|es| - 1]);
      if es[|es| - 1].RunFinished? then rest else rest + [es[|es| - 1]]
  }

  method DropTail(es: seq<Event>) returns (kept: seq<Event>)
    ensures kept == WithoutTail(es)
  {
    kept := [];
    for i := 0 to |es|
      invariant kept == WithoutTail(es[..i])
    {
      if !es[i].RunFinished? {
        kept := kept + [es[i]];
      }
      assert es[..i + 1][..i] == es[..i];
    }
    assert es[..|es|] == es;
  }

  /** The page's stream: the composed chain, without tail totals once something was carried. */
  ghost function Page(events: Stream, bases: seq<seq<Event>>): seq<Event>
  {
    if CarriedCount(events, bases) > 0 then WithoutTail(Composed(events, bases)) else Composed(events, bases)
  }

  ghost predicate Reachable(disk: map<string, seq<Event>>, id: string, seen: set<string>) {
    id !in seen && IsDirectoryName(id) && id in disk
  }

  /** Following one link. */
  lemma ChainStep(events: seq<Event>, disk: map<string, seq<Event>>, id: string, seen: set<string>)
    requires events != [] && Reachable(disk, id, seen)
    ensures |disk.Keys - (seen + {id})| < |disk.Keys - seen|
    ensures var next, rest := Splice(events, disk[id]), Bases(disk, Parsed(disk[id]).head.rerunOf, seen + {id});
            && next != []
            && Composed(events, Bases(disk, Some(id), seen)) == Composed(next, rest)
            && CarriedCount(events, Bases(disk, Some(id), seen))
               == CountCloses(CarriedEvents(disk[id], Parsed(events).scenarios.Keys)) + CarriedCount(next, rest)
  {
    assert disk.Keys - (seen + {id}) < disk.Keys - seen;
    Fewer(disk.Keys - (seen + {id}), disk.Keys - seen);
    var bases := Bases(disk, Some(id), seen);
    assert bases[0] == disk[id] && bases[1..] == Bases(disk, Parsed(disk[id]).head.rerunOf, seen + {id});
  }

  /** Splice one base into the stream in place. */
  method SpliceBase(events: Stream, base: seq<Event>) returns (spliced: Stream, count: nat)
    ensures spliced == Splice(events, base)
    ensures count == CountCloses(CarriedEvents(base, Parsed(events).scenarios.Keys))
  {
    var composed := ParseRecord(events);
    var carried := CarriedScenarioEvents(base, composed);
    spliced, count := events, 0;
    if carried != [] {
      count := CountCarried(carried);
      spliced := events[..1] + carried + events[1..];
    } else {
      assert events[..1] + [] + events[1..] == events;
    }
  }

  /** Walk the links and compose; ends on every disk, cyclic links included. */
  method ComposeReport(newest: seq<Event>, disk: map<string, seq<Event>>) returns (events: seq<Event>, total: nat)
    ensures newest == [] ==> events == [] && total == 0
    ensures newest != [] ==>
              var bases := Bases(disk, Parsed(newest).head.rerunOf, {});
              events == Page(newest, bases) && total == CarriedCount(newest, bases)
    ensures total > 0 ==> (forall i :: 0 <= i < |events| ==> !events[i].RunFinished?) && Parsed(events).totals.None?
    ensures newest != [] && total == 0 ==> SameRun(Parsed(events), Parsed(newest))
  {
    events, total := newest, 0;
    if newest == [] {
      return;
    }
    events, total := ComposeChain(newest, disk);
    if total > 0 {
      events := DropTail(events);
    }
    ghost var bases := Bases(disk, Parsed(newest).head.rerunOf, {});
    ghost var at := PageDeclinesTail(newest, bases);
    ComposedRun(newest, bases);
  }

  /** The walk itself, on a record that is not empty. */
  method ComposeChain(newest: Stream, disk: map<string, seq<Event>>) returns (events: Stream, total: nat)
    ensures var bases := Bases(disk, Parsed(newest).head.rerunOf, {});
            events == Composed(newest, bases) && total == CarriedCount(newest, bases)
  {
    events, total := newest, 0;
    var rec := ParseRecord(newest);
    var link, seen := rec.head.rerunOf, {};
    ghost var bases := Bases(disk, link, seen);
    while link.Some?
      invariant Composed(events, Bases(disk, link, seen)) == Composed(newest, bases)
      invariant total + CarriedCount(events, Bases(disk, link, seen)) == CarriedCount(newest, bases)
      decreases |disk.Keys - seen|, link.Some?
    {
      var id := link.value;
      if id in seen || !IsDirectoryName(id) || id !in disk {
        assert Bases(disk, link, seen) == [] == Bases(disk, None, seen);
        link := None;
      } else {
        ChainStep(events, disk, id, seen);
        var count;
        events, count := SpliceBase(events, disk[id]);
        total := total + count;
        var baseRecord := ParseRecord(disk[id]);
        link, seen := baseRecord.head.rerunOf, seen + {id};
      }
    }
  }

  // ----- what the composed stream parses to

  lemma {:induction false} KeyedConcat(a: seq<Event>, b: seq<Event>, k: Key)
    ensures Keyed(a + b, k) == Keyed(a, k) + Keyed(b, k)
  {
    if b == [] {
      assert a + b == a;
    } else {
      var n := |b| - 1;
      assert (a + b)[..|a + b| - 1] == a + b[..n];
      KeyedConcat(a, b[..n], k);
    }
  }

  function StripAll(es: seq<Event>): seq<Event> {
    if es == [] then [] else StripAll(es[..|es| - 1]) + [Strip(es[|es| - 1])]
  }

  /** Timing plays no part in what a stream parses to. */
  lemma {:induction false} StripInvisible(es: seq<Event>)
    ensures Read(StripAll(es)) == Read(es)
  {
    if es != [] {
      var n := |es| - 1;
      StripInvisible(es[..n]);
      assert StripAll(es)[..|StripAll(es)| - 1] == StripAll(es[..n]);
      assert Step(Read(es[..n]), Strip(es[n])) == Step(Read(es[..n]), es[n]);
    }
  }

  lemma KeyedOne(e: Event, k: Key)
    ensures Keyed([e], k) == if About(e, k) then [e] else []
  {
    assert [e][..0] == [];
  }

  lemma {:induction false} NothingCarriedOf(base: seq<Event>, have: set<Key>, k: Key)
    requires k in have
    ensures Keyed(CarriedEvents(base, have), k) == []
  {
    if base != [] {
      var n := |base| - 1;
      NothingCarriedOf(base[..n], have, k);
      if Carries(base[n], have) {
        assert !About(Strip(base[n]), k);
        KeyedOne(Strip(base[n]), k);
        KeyedConcat(CarriedEvents(base[..n], have), [Strip(base[n])], k);
      }
    }
  }

  lemma CarriedLast(before: seq<Event>, e: Event, have: set<Key>)
    ensures CarriedEvents(before + [e], have)
         == if Carries(e, have) then CarriedEvents(before, have) + [Strip(e)] else CarriedEvents(before, have)
  {
    assert (before + [e])[..|before|] == before;
  }

  lemma StripLast(es: seq<Event>, e: Event)
    ensures StripAll(es + [e]) == StripAll(es) + [Strip(e)]
  {
    assert (es + [e])[..|es|] == es;
  }

  lemma StripKeepsAbout(e: Event, k: Key)
    ensures About(Strip(e), k) <==> About(e, k)
  {
  }

  lemma CarriedOneMoreOf(before: seq<Event>, e: Event, have: set<Key>, k: Key)
    requires k !in have && (Closes(e, k) ==> e.phase.None?)
    requires Keyed(CarriedEvents(before, have), k) == StripAll(Keyed(before, k))
    ensures Keyed(CarriedEvents(before + [e], have), k) == StripAll(Keyed(before + [e], k))
  {
    CarriedLast(before, e, have);
    KeyedOneMore(before, e, k);
    KeyedOneMore(CarriedEvents(before, have), Strip(e), k);
    StripKeepsAbout(e, k);
    StripLast(Keyed(before, k), e);
  }

  lemma KeyedOneMore(es: seq<Event>, e: Event, k: Key)
    ensures Keyed(es + [e], k) == if About(e, k) then Keyed(es, k) + [e] else Keyed(es, k)
  {
    assert (es + [e])[..|es|] == es;
  }

  /** All events of `k` travel when no newer run closed it and none of its closes is a phase's. */
  lemma {:induction false} AllCarriedOf(base: seq<Event>, have: set<Key>, k: Key)
    requires k !in have
    requires forall i :: 0 <= i < |base| && Closes(base[i], k) ==> base[i].phase.None?
    ensures Keyed(CarriedEvents(base, have), k) == StripAll(Keyed(base, k))
  {
    if base != [] {
      var n := |base| - 1;
      var before, e := base[..n], base[n];
      AllCarriedOf(before, have, k);
      CarriedOneMoreOf(before, e, have, k);
      assert before + [e] == base;
    }
  }

  /** What the parsed stream says of `k`. */
  ghost function Entry(es: seq<Event>, k: Key): Option<ScenarioRun> {
    if k in Parsed(es).scenarios then Some(Parsed(es).scenarios[k]) else None
  }

  lemma EntryIsLocal(es: seq<Event>, fs: seq<Event>, k: Key)
    requires ClosesNameFile(es) && ClosesNameFile(fs) && Keyed(es, k) == Keyed(fs, k)
    ensures Entry(es, k) == Entry(fs, k)
  {
    ReadIsLocal(es, k);
    ReadIsLocal(fs, k);
  }

  lemma {:induction false} KeyedCloses(es: seq<Event>, k: Key)
    requires ClosesNameFile(es)
    ensures ClosesNameFile(Keyed(es, k))
    ensures Closed(Keyed(es, k), k) <==> Closed(es, k)
  {
    if es != [] {
      var n := |es| - 1;
      var before, e := es[..n], es[n];
      KeyedCloses(before, k);
      var ks := Keyed(before, k);
      assert forall i :: 0 <= i < n ==> before[i] == es[i];
      if Closed(before, k) {
        var i :| 0 <= i < |ks| && Closes(ks[i], k);
        assert Closes(Keyed(es, k)[i], k);
        var j :| 0 <= j < n && Closes(before[j], k);
        assert Closes(es[j], k);
      } else if Closes(e, k) {
        assert Closes(Keyed(es, k)[|ks|], k);
      }
    }
  }

  /** The head starts the stream, closes name their file. */
  ghost predicate Composable(es: seq<Event>) {
    es != [] && es[0].RunStarted? && ClosesNameFile(es)
  }

  lemma {:induction false} CarriedNameFile(base: seq<Event>, have: set<Key>)
    requires ClosesNameFile(base)
    ensures ClosesNameFile(CarriedEvents(base, have))
  {
    if base != [] {
      CarriedNameFile(base[..|base| - 1], have);
    }
  }

  lemma SpliceComposable(events: seq<Event>, base: seq<Event>)
    requires Composable(events) && ClosesNameFile(base)
    ensures Composable(Splice(events, base))
  {
    var carried := CarriedEvents(base, Parsed(events).scenarios.Keys);
    CarriedNameFile(base, Parsed(events).scenarios.Keys);
    var es := Splice(events, base);
    forall i | 0 <= i < |es| && es[i].ScenarioFinished? ensures es[i].file != "" {
      if 1 <= i <= |carried| {
        assert es[i] == carried[i - 1];
      } else if i > |carried| {
        assert es[i] == events[i - |carried|];
      }
    }
  }

  lemma KeyedAround(head: seq<Event>, carried: seq<Event>, rest: seq<Event>, k: Key)
    requires Keyed(head, k) == []
    ensures Keyed(head + carried + rest, k) == Keyed(carried, k) + Keyed(head + rest, k)
  {
    KeyedConcat(head + carried, rest, k);
    KeyedConcat(head, carried, k);
    KeyedConcat(head, rest, k);
  }

  lemma SpliceKeyed(events: seq<Event>, base: seq<Event>, k: Key)
    requires Composable(events)
    ensures var carried := CarriedEvents(base, Parsed(events).scenarios.Keys);
            Keyed(Splice(events, base), k) == Keyed(carried, k) + Keyed(events, k)
  {
    var head, rest := events[..1], events[1..];
    assert head[..0] == [] && head + rest == events;
    KeyedAround(head, CarriedEvents(base, Parsed(events).scenarios.Keys), rest, k);
  }

  /** The suite entries of a base. */
  ghost function SuiteEntries(base: seq<Event>): map<Key, ScenarioRun> {
    map k | k in Parsed(base).scenarios && Parsed(base).scenarios[k].IsSuite() :: Parsed(base).scenarios[k]
  }

  /** A scenario the newer runs closed keeps their entry. */
  lemma NewerWins(events: seq<Event>, base: seq<Event>, k: Key)
    requires Composable(events) && ClosesNameFile(base) && k in Parsed(events).scenarios
    ensures Entry(Splice(events, base), k) == Entry(events, k)
  {
    SpliceComposable(events, base);
    SpliceKeyed(events, base, k);
    NothingCarriedOf(base, Parsed(events).scenarios.Keys, k);
    EntryIsLocal(Splice(events, base), events, k);
  }

  /** Steps a newer run left unfinished come after the close and stay unattached. */
  lemma UnfinishedStepsStayOut(closed: seq<Event>, unfinished: seq<Event>, k: Key)
    requires ClosesNameFile(closed + unfinished) && !Closed(unfinished, k)
    ensures Entry(closed + unfinished, k) == Entry(closed, k)
  {
    var all := closed + unfinished;
    assert all[..|closed|] == closed;
    forall j | |closed| <= j < |all| ensures !Closes(all[j], k) {
      assert all[j] == unfinished[j - |closed|];
    }
    EntryStays(all, |closed|, k);
  }

  /** A scenario no newer run closed takes the base's suite entry, if there is one. */
  lemma OlderFills(events: seq<Event>, base: seq<Event>, k: Key)
    requires Composable(events) && ClosesNameFile(base) && ClosesOnce(base) && k !in Parsed(events).scenarios
    ensures Entry(Splice(events, base), k)
         == if k in SuiteEntries(base) then Some(SuiteEntries(base)[k]) else None
  {
    var have := Parsed(events).scenarios.Keys;
    var carried := CarriedEvents(base, have);
    SpliceComposable(events, base);
    SpliceKeyed(events, base, k);
    var older, newer := Keyed(carried, k), Keyed(events, k);
    CarriedNameFile(base, have);
    KeyedCloses(carried, k);
    KeyedCloses(events, k);
    KeyedCloses(Splice(events, base), k);
    EntriesAreCloses(events, k);
    EntriesAreCloses(base, k);
    ReadIsLocal(Splice(events, base), k);
    UnfinishedStepsStayOut(older, newer, k);
    assert Entry(Splice(events, base), k) == Entry(older, k);
    if exists i :: 0 <= i < |base| && Closes(base[i], k) && base[i].phase.Some? {
      var i :| 0 <= i < |base| && Closes(base[i], k) && base[i].phase.Some?;
      EntryOfClose(base, i, k);
      PhaseCloseNotCarried(base, have, i, k);
      EntriesAreCloses(older, k);
    } else {
      AllCarriedOf(base, have, k);
      StripInvisible(Keyed(base, k));
      ReadIsLocal(base, k);
      if k in Parsed(base).scenarios {
        var i :| 0 <= i < |base| && Closes(base[i], k);
        EntryOfClose(base, i, k);
      }
    }
  }

  /** A carried close is one of the base's, and no phase's. */
  lemma {:induction false} CarriedCloseFrom(base: seq<Event>, have: set<Key>, k: Key)
    requires Closed(CarriedEvents(base, have), k)
    ensures exists j :: 0 <= j < |base| && Closes(base[j], k) && base[j].phase.None?
  {
    var n := |base| - 1;
    var carried, all := CarriedEvents(base[..n], have), CarriedEvents(base, have);
    var i :| 0 <= i < |all| && Closes(all[i], k);
    if i < |carried| {
      assert Closes(carried[i], k);
      CarriedCloseFrom(base[..n], have, k);
      var j :| 0 <= j < n && Closes(base[..n][j], k) && base[..n][j].phase.None?;
      assert base[j] == base[..n][j];
    } else {
      assert Closes(base[n], k) && base[n].phase.None?;
    }
  }

  lemma PhaseCloseNotCarried(base: seq<Event>, have: set<Key>, i: nat, k: Key)
    requires i < |base| && Closes(base[i], k) && base[i].phase.Some?
    requires forall j :: 0 <= j < |base| && j != i ==> !Closes(base[j], k)
    ensures !Closed(CarriedEvents(base, have), k)
  {
    if Closed(CarriedEvents(base, have), k) {
      CarriedCloseFrom(base, have, k);
    }
  }

  /** One base adds its suite scenarios under what is already composed. */
  lemma SpliceIsUnion(events: seq<Event>, base: seq<Event>)
    requires Composable(events) && ClosesNameFile(base) && ClosesOnce(base)
    ensures Parsed(Splice(events, base)).scenarios == SuiteEntries(base) + Parsed(events).scenarios
  {
    var union := SuiteEntries(base) + Parsed(events).scenarios;
    var after := Parsed(Splice(events, base)).scenarios;
    forall k: Key ensures k in after <==> k in union
                  ensures k in after ==> after[k] == union[k]
    {
      if k in Parsed(events).scenarios {
        NewerWins(events, base, k);
      } else {
        OlderFills(events, base, k);
      }
    }
    assert after.Keys == union.Keys;
  }

  /** The newest run over each base's suite scenarios, newest first. */
  ghost function Overlaid(entries: map<Key, ScenarioRun>, bases: seq<seq<Event>>): map<Key, ScenarioRun>
    decreases |bases|
  {
    if bases == [] then entries else Overlaid(SuiteEntries(bases[0]) + entries, bases[1..])
  }

  /** No base closes an identity twice, or without naming its file. */
  ghost predicate EachClosesOnce(bases: seq<seq<Event>>) {
    forall i :: 0 <= i < |bases| ==> ClosesNameFile(bases[i]) && ClosesOnce(bases[i])
  }

  lemma BasesAfter(bases: seq<seq<Event>>)
    requires bases != [] && EachClosesOnce(bases)
    ensures ClosesNameFile(bases[0]) && ClosesOnce(bases[0]) && EachClosesOnce(bases[1..])
  {
  }

  /** Composing a chain is the left-biased union of its records. */
  lemma {:induction false} ComposedIsUnion(events: seq<Event>, bases: seq<seq<Event>>)
    requires Composable(events)
    requires EachClosesOnce(bases)
    ensures Composable(Composed(events, bases))
    ensures Parsed(Composed(events, bases)).scenarios == Overlaid(Parsed(events).scenarios, bases)
    decreases |bases|
  {
    if bases != [] {
      BasesAfter(bases);
      SpliceComposable(events, bases[0]);
      SpliceIsUnion(events, bases[0]);
      ComposedIsUnion(Splice(events, bases[0]), bases[1..]);
    }
  }

  // ----- the carried count

  lemma {:induction false} SuiteClose(es: seq<Event>, e: Event)
    requires e.ScenarioFinished? && ClosesNameFile(es + [e]) && ClosesOnce(es + [e])
    ensures (e.file, e.scenario) !in Parsed(es).scenarios
    ensures SuiteEntries(es + [e]).Keys
         == SuiteEntries(es).Keys + if e.phase.None? then {(e.file, e.scenario)} else {}
  {
    var k, all := (e.file, e.scenario), es + [e];
    assert all[..|es|] == es && all[|es|] == e;
    forall i | 0 <= i < |es| ensures es[i] == all[i] && !Closes(es[i], k) {
      assert all[i] == es[i];
    }
    assert ClosesNameFile(es);
    EntriesAreCloses(es, k);
    NamedCloseKeepsItsKey(Read(es).pending, k);
  }

  /** How many suite scenarios a base has that newer runs lack. */
  ghost function Adds(base: seq<Event>, have: set<Key>): nat {
    |SuiteEntries(base).Keys - have|
  }

  lemma AddsAfterClose(es: seq<Event>, e: Event, have: set<Key>)
    requires e.ScenarioFinished? && ClosesNameFile(es + [e]) && ClosesOnce(es + [e])
    ensures Adds(es + [e], have) == Adds(es, have) + if Carries(e, have) then 1 else 0
  {
    SuiteClose(es, e);
    SuiteGrows(SuiteEntries(es).Keys, SuiteEntries(es + [e]).Keys, (e.file, e.scenario), e.phase.None?, have);
  }

  lemma AddsAfterOther(es: seq<Event>, e: Event, have: set<Key>)
    requires !e.ScenarioFinished?
    ensures Adds(es + [e], have) == Adds(es, have)
  {
    assert (es + [e])[..|es|] == es;
    assert Parsed(es + [e]).scenarios == Parsed(es).scenarios;
  }

  /** One base's carried closes are the suite scenarios it adds. */
  lemma {:induction false} CarriedClosesCount(base: seq<Event>, have: set<Key>)
    requires ClosesNameFile(base) && ClosesOnce(base)
    ensures CountCloses(CarriedEvents(base, have)) == Adds(base, have)
  {
    if base == [] {
      assert SuiteEntries(base).Keys - have == {};
    } else {
      var before, e := base[..|base| - 1], base[|base| - 1];
      assert before + [e] == base;
      CarriedClosesCount(before, have);
      CarriedOneMore(before, e, have);
      if e.ScenarioFinished? {
        AddsAfterClose(before, e, have);
      } else {
        AddsAfterOther(before, e, have);
      }
    }
  }

  lemma CarriedOneMore(es: seq<Event>, e: Event, have: set<Key>)
    ensures CountCloses(CarriedEvents(es + [e], have))
         == CountCloses(CarriedEvents(es, have)) + if Carries(e, have) && e.ScenarioFinished? then 1 else 0
  {
    assert (es + [e])[..|es|] == es;
    CountOneMore(CarriedEvents(es, have), Strip(e));
  }

  lemma CountOneMore(es: seq<Event>, e: Event)
    ensures CountCloses(es + [e]) == CountCloses(es) + if e.ScenarioFinished? then 1 else 0
  {
    assert (es + [e])[..|es|] == es;
  }

  lemma SuiteGrows(was: set<Key>, now: set<Key>, k: Key, suite: bool, have: set<Key>)
    requires k !in was && now == was + if suite then {k} else {}
    ensures |now - have| == |was - have| + if suite && k !in have then 1 else 0
  {
    assert now - have == if suite && k !in have then (was - have) + {k} else was - have;
  }

  /** The banner's number is the number of scenarios the chain added to the page. */
  lemma {:induction false} CarriedCountIsAdded(events: seq<Event>, bases: seq<seq<Event>>)
    requires Composable(events)
    requires EachClosesOnce(bases)
    ensures |Parsed(Composed(events, bases)).scenarios| == |Parsed(events).scenarios| + CarriedCount(events, bases)
    decreases |bases|
  {
    if bases != [] {
      BasesAfter(bases);
      var base, have := bases[0], Parsed(events).scenarios.Keys;
      var next := Splice(events, base);
      SpliceComposable(events, base);
      SpliceIsUnion(events, base);
      CarriedClosesCount(base, have);
      assert Parsed(next).scenarios.Keys == have + (SuiteEntries(base).Keys - have);
      assert |Parsed(next).scenarios.Keys| == |have| + |SuiteEntries(base).Keys - have|;
      CarriedCountIsAdded(next, bases[1..]);
    }
  }

  /** Readers that agree on the scenarios read the next event alike. */
  ghost predicate SameScenarios(r: Reader, s: Reader) {
    r.pending == s.pending && r.seen == s.seen && r.record.scenarios == s.record.scenarios
  }

  lemma SameScenariosStep(r: Reader, s: Reader, e: Event)
    requires SameScenarios(r, s)
    ensures SameScenarios(Step(r, e), Step(s, e))
    ensures e.RunFinished? ==> SameScenarios(r, Step(s, e))
  {
    if e.StepFinished? {
      assert Seen(r, (e.file, e.scenario), e.text) == Seen(s, (e.file, e.scenario), e.text);
    }
  }

  /** Declining the tail totals changes no scenario. */
  lemma {:induction false} TailIsNoScenario(es: seq<Event>)
    ensures SameScenarios(Read(WithoutTail(es)), Read(es))
  {
    if es != [] {
      var n := |es| - 1;
      TailIsNoScenario(es[..n]);
      SameScenariosStep(Read(WithoutTail(es[..n])), Read(es[..n]), es[n]);
      if !es[n].RunFinished? {
        assert WithoutTail(es)[..|WithoutTail(es)| - 1] == WithoutTail(es[..n]);
      }
    }
  }

  /** The page lists the newest run over its whole chain, whatever the links on disk. */
  lemma PageIsUnion(newest: seq<Event>, disk: map<string, seq<Event>>)
    requires Composable(newest)
    requires EachClosesOnce(Bases(disk, Parsed(newest).head.rerunOf, {}))
    ensures var bases := Bases(disk, Parsed(newest).head.rerunOf, {});
            && Parsed(Page(newest, bases)).scenarios == Overlaid(Parsed(newest).scenarios, bases)
            && |Parsed(Page(newest, bases)).scenarios| == |Parsed(newest).scenarios| + CarriedCount(newest, bases)
  {
    var bases := Bases(disk, Parsed(newest).head.rerunOf, {});
    ComposedIsUnion(newest, bases);
    CarriedCountIsAdded(newest, bases);
    TailIsNoScenario(Composed(newest, bases));
  }

  // ----- the run-level part of the page

  /** Two records say the same of their run. */
  predicate SameRun(r: Record, s: Record) {
    r.head == s.head && r.totals == s.totals && r.completion == s.completion && r.legacyMultiPair == s.legacyMultiPair
  }

  predicate NoRunEvents(es: seq<Event>) {
    forall i :: 0 <= i < |es| ==> !es[i].RunStarted? && !es[i].RunFinished?
  }

  lemma {:induction false} RunAfter(before: seq<Event>, es: seq<Event>)
    requires NoRunEvents(es)
    ensures SameRun(Parsed(before + es), Parsed(before))
  {
    if es == [] {
      assert before + es == before;
    } else {
      var n := |es| - 1;
      RunAfter(before, es[..n]);
      assert (before + es)[..|before + es| - 1] == before + es[..n];
    }
  }

  lemma SameRunStep(es: seq<Event>, fs: seq<Event>, e: Event)
    requires SameRun(Parsed(es), Parsed(fs))
    ensures SameRun(Parsed(es + [e]), Parsed(fs + [e]))
  {
    assert (es + [e])[..|es|] == es && (fs + [e])[..|fs|] == fs;
  }

  /** Events of scenarios put in anywhere leave the run-level part alone. */
  lemma {:induction false} RunWithin(a: seq<Event>, b: seq<Event>, c: seq<Event>)
    requires NoRunEvents(b)
    ensures SameRun(Parsed(a + b + c), Parsed(a + c))
  {
    if c == [] {
      RunAfter(a, b);
      assert a + b + c == a + b && a + c == a;
    } else {
      var n := |c| - 1;
      RunWithin(a, b, c[..n]);
      SameRunStep(a + b + c[..n], a + c[..n], c[n]);
      assert a + b + c[..n] + [c[n]] == a + b + c && a + c[..n] + [c[n]] == a + c;
    }
  }

  lemma {:induction false} CarriedNoRunEvents(base: seq<Event>, have: set<Key>)
    ensures NoRunEvents(CarriedEvents(base, have))
  {
    if base != [] {
      CarriedNoRunEvents(base[..|base| - 1], have);
    }
  }

  /** Composing keeps the newest run's head, totals and completion. */
  lemma {:induction false} ComposedRun(events: Stream, bases: seq<seq<Event>>)
    ensures SameRun(Parsed(Composed(events, bases)), Parsed(events))
    decreases |bases|
  {
    if bases != [] {
      var have := Parsed(events).scenarios.Keys;
      CarriedNoRunEvents(bases[0], have);
      RunWithin(events[..1], CarriedEvents(bases[0], have), events[1..]);
      assert events[..1] + events[1..] == events;
      ComposedRun(Splice(events, bases[0]), bases[1..]);
    }
  }

  /** `kept` is what is left of `es` without its run's tail: everything else, in order. */
  ghost predicate KeepsAllButTails(es: seq<Event>, kept: seq<Event>, at: seq<nat>) {
    && |at| == |kept|
    && (forall i :: 0 <= i < |at| ==> at[i] < |es| && kept[i] == es[at[i]] && !es[at[i]].RunFinished?)
    && (forall i, j :: 0 <= i < j < |at| ==> at[i] < at[j])
    && (forall j :: 0 <= j < |es| && !es[j].RunFinished? ==> j in at)
  }

  lemma KeepsOther(es: seq<Event>, kept: seq<Event>, at: seq<nat>, e: Event)
    requires KeepsAllButTails(es, kept, at) && !e.RunFinished?
    ensures KeepsAllButTails(es + [e], kept + [e], at + [|es|])
  {
    var all, more := es + [e], at + [|es|];
    forall j | 0 <= j < |all| && !all[j].RunFinished? ensures j in more {
      if j == |es| {
        assert more[|at|] == j;
      } else {
        assert j in at;
      }
    }
  }

  lemma DropsTail(es: seq<Event>, kept: seq<Event>, at: seq<nat>, e: Event)
    requires KeepsAllButTails(es, kept, at) && e.RunFinished?
    ensures KeepsAllButTails(es + [e], kept, at)
  {
  }

  lemma {:induction false} WithoutTailKeeps(es: seq<Event>) returns (at: seq<nat>)
    ensures KeepsAllButTails(es, WithoutTail(es), at)
  {
    if es == [] {
      at := [];
    } else {
      var n := |es| - 1;
      at := WithoutTailKeeps(es[..n]);
      assert es == es[..n] + [es[n]];
      if es[n].RunFinished? {
        DropsTail(es[..n], WithoutTail(es[..n]), at, es[n]);
      } else {
        KeepsOther(es[..n], WithoutTail(es[..n]), at, es[n]);
        at := at + [n];
      }
    }
  }

  /**
   * A page that carries anything declines the newest run's tail: no tail, no
   * totals, and every other event of the composed stream, in order. A page that
   * carries nothing is the composed stream, with the newest run's totals and the
   * way it ended.
   */
  lemma PageDeclinesTail(newest: Stream, bases: seq<seq<Event>>) returns (at: seq<nat>)
    ensures var page := Page(newest, bases);
            if CarriedCount(newest, bases) > 0 then
              && (forall i :: 0 <= i < |page| ==> !page[i].RunFinished?)
              && Parsed(page).totals == None
              && KeepsAllButTails(Composed(newest, bases), page, at)
            else
              && page == Composed(newest, bases)
              && Parsed(page).totals == Parsed(newest).totals
              && Parsed(page).completion == Parsed(newest).completion
  {
    at := WithoutTailKeeps(Composed(newest, bases));
    ComposedRun(newest, bases);
    TotalsIffTail(Page(newest, bases));
  }

  /** `e` is the start `s` of a suite scenario newer runs lack, untimed. */
  predicate StartOf(s: Event, e: Event, have: set<Key>) {
    && s.ScenarioStarted? && s.phase == None && (s.file, s.scenario) !in have
    && e == ScenarioStarted(s.scenario, s.file, None, None, None, s.exclusive)
  }

  /** `e` is the close `s` of such a scenario, untimed. */
  predicate CloseOf(s: Event, e: Event, have: set<Key>) {
    && s.ScenarioFinished? && s.phase == None && (s.file, s.scenario) !in have
    && e == ScenarioFinished(s.scenario, s.file, s.status, None, None, None, s.reason, s.tags)
  }

  /** `e` is a step of such a scenario, as it is. */
  predicate SameStep(s: Event, e: Event, have: set<Key>) {
    s == e && e.StepFinished? && (e.file, e.scenario) !in have
  }

  predicate TravelsAs(s: Event, e: Event, have: set<Key>) {
    StartOf(s, e, have) || CloseOf(s, e, have) || SameStep(s, e, have)
  }

  lemma TravelsIff(s: Event, e: Event, have: set<Key>)
    ensures TravelsAs(s, e, have) <==> Carries(s, have) && e == Strip(s)
  {
  }

  /** What a base's slice holds: the starts, steps and closes of suite scenarios newer runs lack. */
  lemma {:induction false} CarriedSpelled(base: seq<Event>, have: set<Key>, e: Event)
    ensures e in CarriedEvents(base, have) <==> exists s :: s in base && TravelsAs(s, e, have)
  {
    if base != [] {
      var n := |base| - 1;
      CarriedSpelled(base[..n], have, e);
      TravelsIff(base[n], e, have);
      assert base == base[..n] + [base[n]];
      assert forall s :: s in base <==> s in base[..n] || s == base[n];
    }
  }

  /** The ids of the bases visited. */
  ghost function BaseIds(disk: map<string, seq<Event>>, link: Option<string>, seen: set<string>): seq<string>
    decreases |disk.Keys - seen|
  {
    if link.None? || link.value in seen || !IsDirectoryName(link.value) || link.value !in disk then []
    else
      var id := link.value;
      Fewer(disk.Keys - (seen + {id}), disk.Keys - seen);
      [id] + BaseIds(disk, Parsed(disk[id]).head.rerunOf, seen + {id})
  }

  ghost predicate LinksTo(disk: map<string, seq<Event>>, id: string, next: string) {
    id in disk && Parsed(disk[id]).head.rerunOf == Some(next)
  }

  lemma OneMoreLink(disk: map<string, seq<Event>>, id: string, rest: seq<string>)
    requires id in disk && (rest != [] ==> LinksTo(disk, id, rest[0]))
    requires forall i :: 0 < i < |rest| ==> LinksTo(disk, rest[i - 1], rest[i])
    ensures var ids := [id] + rest;
            forall i :: 0 < i < |ids| ==> LinksTo(disk, ids[i - 1], ids[i])
  {
    var ids := [id] + rest;
    forall i | 0 < i < |ids| ensures LinksTo(disk, ids[i - 1], ids[i]) {
      assert ids[i] == rest[i - 1];
    }
  }

  /**
   * The bases are the records the links name, each read from disk and linked from
   * the one before, and no id is visited twice.
   */
  lemma {:induction false} BasesOnDisk(disk: map<string, seq<Event>>, link: Option<string>, seen: set<string>)
    ensures var ids, bases := BaseIds(disk, link, seen), Bases(disk, link, seen);
            && |ids| == |bases|
            && (forall i :: 0 <= i < |ids| ==> ids[i] in disk && bases[i] == disk[ids[i]] && ids[i] !in seen)
            && (forall i, j :: 0 <= i < j < |ids| ==> ids[i] != ids[j])
            && (ids != [] ==> link == Some(ids[0]))
            && (forall i :: 0 < i < |ids| ==> LinksTo(disk, ids[i - 1], ids[i]))
    decreases |disk.Keys - seen|
  {
    if link.Some? && link.value !in seen && IsDirectoryName(link.value) && link.value in disk {
      var id := link.value;
      Fewer(disk.Keys - (seen + {id}), disk.Keys - seen);
      var next := Parsed(disk[id]).head.rerunOf;
      BasesOnDisk(disk, next, seen + {id});
      OneMoreLink(disk, id, BaseIds(disk, next, seen + {id}));
    }
  }

  /** A link the walk follows: one path component, not seen before, with a record on disk. */
  ghost predicate LeadsOn(disk: map<string, seq<Event>>, link: Option<string>, seen: set<string>) {
    && link.Some? && link.value !in seen && link.value in disk
    && link.value != "" && link.value != "." && link.value != ".." && '/' !in link.value
  }

  /** The walk goes on exactly while the next link leads on. */
  lemma WalksOnIff(disk: map<string, seq<Event>>, link: Option<string>, seen: set<string>)
    ensures LeadsOn(disk, link, seen) ==>
              && Bases(disk, link, seen)
                 == [disk[link.value]] + Bases(disk, Parsed(disk[link.value]).head.rerunOf, seen + {link.value})
    ensures !LeadsOn(disk, link, seen) ==> Bases(disk, link, seen) == []
  {
  }
}
