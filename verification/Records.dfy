// Reading a run record: the fold from an event stream to scenario outcomes.
module Records {
  import opened Identity
  import opened Events

  datatype StepRun = StepRun(attempts: nat, duration: nat)

  /** Steps keyed by authored text and 0-based occurrence. */
  type StepBuffer = map<(string, nat), StepRun>

  datatype ScenarioRun = ScenarioRun(status: Status, steps: StepBuffer, phase: Option<string>,
                                     reason: Option<string>, tags: seq<string>)
  {
    predicate IsSuite() { phase.None? }
  }

  datatype RunCompletion = Completed | Cancelled | Incomplete

  datatype RunTotals = RunTotals(passed: nat, failed: nat, skipped: nat)

  datatype Head = Head(seen: bool, env: Option<string>, metadata: map<string, string>, rerunOf: Option<string>)

  datatype Record = Record(head: Head, scenarios: map<Key, ScenarioRun>, completion: RunCompletion,
                           totals: Option<RunTotals>, legacyMultiPair: bool)

  /** What the reader holds part way through a stream. */
  datatype Reader = Reader(record: Record, pending: map<Key, StepBuffer>, seen: map<(Key, string), nat>)

  const EMPTY: Reader :=
    Reader(Record(Head(false, None, map[], None), map[], Incomplete, None, false), map[], map[])

  // ----- one event

  /** The first head wins, whatever it carries. */
  function FoldHead(head: Head, e: Event): Head
    requires e.RunStarted?
  {
    if head.seen then head else Head(true, e.env, e.metadata, e.rerunOf)
  }

  function Seen(r: Reader, k: Key, text: string): nat {
    if (k, text) in r.seen then r.seen[(k, text)] else 0
  }

  function Buffered(pending: map<Key, StepBuffer>, k: Key): StepBuffer {
    if k in pending then pending[k] else map[]
  }

  /** Pending scenarios of this name, in whatever file. */
  function Named<V>(pending: map<Key, V>, name: string): set<Key> {
    set k | k in pending && k.1 == name
  }

  /**
   * The identity a close attaches to: its own, unless it names no file, nothing
   * is buffered under it, and exactly one pending scenario has its name.
   */
  ghost function Adopted<V>(pending: map<Key, V>, key: Key): Key {
    if key !in pending && key.0 == "" && |Named(pending, key.1)| == 1
    then var k :| k in Named(pending, key.1); k
    else key
  }

  function StepStep(r: Reader, e: Event): Reader
    requires e.StepFinished?
  {
    var k := (e.file, e.scenario);
    var ord := Seen(r, k, e.text);
    r.(seen := r.seen[(k, e.text) := ord + 1],
       pending := r.pending[k := Buffered(r.pending, k)[(e.text, ord) := StepRun(e.attempts, e.duration)]])
  }

  ghost function StepClose(r: Reader, e: Event): Reader
    requires e.ScenarioFinished?
  {
    var k := Adopted(r.pending, (e.file, e.scenario));
    var run := ScenarioRun(e.status, Buffered(r.pending, k), e.phase, e.reason, e.tags);
    r.(pending := r.pending - {k}, record := r.record.(scenarios := r.record.scenarios[k := run]))
  }

  function StepTail(r: Reader, e: Event): Reader
    requires e.RunFinished?
  {
    r.(record := r.record.(legacyMultiPair := r.record.totals.Some?,
                           completion := if e.cancelled then Cancelled else Completed,
                           totals := Some(RunTotals(e.passed, e.failed, e.skipped))))
  }

  ghost function Step(r: Reader, e: Event): Reader {
    match e
    case StepFinished(_, _, _, _, _, _) => StepStep(r, e)
    case RunStarted(_, _, _, _, _) => r.(record := r.record.(head := FoldHead(r.record.head, e)))
    case ScenarioFinished(_, _, _, _, _, _, _, _) => StepClose(r, e)
    case RunFinished(_, _, _, _) => StepTail(r, e)
    case _ => r
  }

  ghost function Read(es: seq<Event>): Reader {
    if es == [] then EMPTY else Step(Read(es[..|es| - 1]), es[|es| - 1])
  }

  /** The record an event stream stands for. */
  ghost function Parsed(es: seq<Event>): Record {
    Read(es).record
  }

  // ----- the reader as the program runs it

  method TakePendingSteps(pending: map<Key, StepBuffer>, key: Key)
    returns (steps: StepBuffer, key': Key, pending': map<Key, StepBuffer>)
    ensures key' == Adopted(pending, key)
    ensures steps == Buffered(pending, key') && pending' == pending - {key'}
  {
    if key in pending {
      return pending[key], key, pending - {key};
    }
    if key.0 == "" {
      var named := Named(pending, key.1);
      if |named| == 1 {
        var found :| found in named;
        AdoptsOnlyUnambiguously(pending, key);
        return pending[found], found, pending - {found};
      }
    }
    assert pending - {key} == pending;
    return map[], key, pending;
  }

  method ParseRecord(events: seq<Event>) returns (record: Record)
    ensures record == Parsed(events)
  {
    var r := EMPTY;
    for i := 0 to |events|
      invariant r == Read(events[..i])
    {
      assert events[..i + 1][..i] == events[..i];
      var e := events[i];
      match e {
        case StepFinished(_, _, _, _, _, _) =>
          r := StepStep(r, e);
        case RunStarted(_, _, _, _, _) =>
          r := r.(record := r.record.(head := FoldHead(r.record.head, e)));
        case ScenarioFinished(_, _, _, _, _, _, _, _) =>
          var steps, key, pending := TakePendingSteps(r.pending, (e.file, e.scenario));
          var run := ScenarioRun(e.status, steps, e.phase, e.reason, e.tags);
          r := r.(pending := pending, record := r.record.(scenarios := r.record.scenarios[key := run]));
        case RunFinished(_, _, _, _) =>
          r := StepTail(r, e);
        case _ =>
      }
    }
    assert events[..|events|] == events;
    record := r.record;
  }

  // ----- when a close adopts another file's steps

  /** A close attaches to another file's identity exactly when it names none and one candidate is pending. */
  lemma AdoptsOnlyUnambiguously<V>(pending: map<Key, V>, key: Key)
    ensures Adopted(pending, key) != key
       <==> key.0 == "" && key !in pending && exists k :: Named(pending, key.1) == {k}
    ensures Adopted(pending, key) != key ==>
              Named(pending, key.1) == {Adopted(pending, key)} && Adopted(pending, key).1 == key.1
  {
    var named := Named(pending, key.1);
    if |named| == 1 {
      var k :| k in named;
      assert |named - {k}| == 0;
      assert named == {k} + (named - {k}) == {k};
    } else if exists k :: named == {k} {
      assert false;
    }
  }

  lemma NamedCloseKeepsItsKey<V>(pending: map<Key, V>, key: Key)
    requires key.0 != ""
    ensures Adopted(pending, key) == key
  {
  }

  // ----- interleaving does not matter

  /** Two readers hold the same about scenario `k`. */
  ghost predicate SameOn(r: Reader, s: Reader, k: Key) {
    && (k in r.pending <==> k in s.pending)
    && (k in r.pending ==> r.pending[k] == s.pending[k])
    && (forall text :: Seen(r, k, text) == Seen(s, k, text))
    && (k in r.record.scenarios <==> k in s.record.scenarios)
    && (k in r.record.scenarios ==> r.record.scenarios[k] == s.record.scenarios[k])
  }

  predicate About(e: Event, k: Key) {
    Closes(e, k) || StepOf(e, k)
  }

  lemma OtherEventsLeaveAlone(r: Reader, e: Event, k: Key)
    requires !About(e, k) && (e.ScenarioFinished? ==> e.file != "")
    ensures SameOn(Step(r, e), r, k)
  {
    match e
    case StepFinished(_, _, _, _, _, _) =>
      assert (e.file, e.scenario) != k;
    case ScenarioFinished(_, _, _, _, _, _, _, _) =>
      NamedCloseKeepsItsKey(r.pending, (e.file, e.scenario));
    case _ =>
  }

  lemma OwnEventsActLocally(r: Reader, s: Reader, e: Event, k: Key)
    requires About(e, k) && (e.ScenarioFinished? ==> e.file != "") && SameOn(r, s, k)
    ensures SameOn(Step(r, e), Step(s, e), k)
  {
    forall text ensures Seen(Step(r, e), k, text) == Seen(Step(s, e), k, text) {
      assert Seen(r, k, text) == Seen(s, k, text);
    }
    if e.ScenarioFinished? {
      NamedCloseKeepsItsKey(r.pending, k);
      NamedCloseKeepsItsKey(s.pending, k);
    } else {
      assert Buffered(r.pending, k) == Buffered(s.pending, k);
    }
  }

  lemma SameOnTransitive(r: Reader, s: Reader, t: Reader, k: Key)
    requires SameOn(r, s, k) && SameOn(s, t, k)
    ensures SameOn(r, t, k)
  {
  }

  /** What the record says of `k` depends on the events of `k` alone. */
  lemma {:induction false} ReadIsLocal(es: seq<Event>, k: Key)
    requires ClosesNameFile(es)
    ensures SameOn(Read(es), Read(Keyed(es, k)), k)
  {
    if es != [] {
      var before, e := es[..|es| - 1], es[|es| - 1];
      ReadIsLocal(before, k);
      if About(e, k) {
        OwnEventsActLocally(Read(before), Read(Keyed(before, k)), e, k);
        assert Keyed(es, k)[..|Keyed(es, k)| - 1] == Keyed(before, k);
      } else {
        OtherEventsLeaveAlone(Read(before), e, k);
        assert Keyed(es, k) == Keyed(before, k);
        SameOnTransitive(Read(es), Read(before), Read(Keyed(es, k)), k);
      }
    }
  }

  /** Any two interleavings of the same per-scenario streams give the same scenario map. */
  lemma InterleavingIrrelevant(es: seq<Event>, fs: seq<Event>)
    requires ClosesNameFile(es) && ClosesNameFile(fs)
    requires forall k :: Keyed(es, k) == Keyed(fs, k)
    ensures Parsed(es).scenarios == Parsed(fs).scenarios
  {
    var a, b := Parsed(es).scenarios, Parsed(fs).scenarios;
    forall k: Key ensures k in a <==> k in b
                  ensures k in a ==> a[k] == b[k]
    {
      ReadIsLocal(es, k);
      ReadIsLocal(fs, k);
    }
    assert a.Keys == b.Keys;
  }

  // ----- no step is lost or duplicated

  lemma {:induction false} SeenCounts(es: seq<Event>, k: Key, text: string)
    ensures Seen(Read(es), k, text) == Occurrences(es, k, text)
  {
    if es != [] {
      SeenCounts(es[..|es| - 1], k, text);
    }
  }

  /** The step keys buffered for an open scenario are exactly the occurrences so far. */
  lemma {:induction false} BufferedSteps(es: seq<Event>, k: Key)
    requires ClosesNameFile(es) && !Closed(es, k)
    ensures var b := Buffered(Read(es).pending, k);
            forall t, o: nat :: (t, o) in b <==> o < Occurrences(es, k, t)
  {
    if es != [] {
      var before, e := es[..|es| - 1], es[|es| - 1];
      BufferedSteps(before, k);
      if About(e, k) {
        SeenCounts(before, k, e.text);
      } else {
        OtherEventsLeaveAlone(Read(before), e, k);
      }
    }
  }

  lemma {:induction false} OccurrencesRise(es: seq<Event>, k: Key, text: string, i: nat)
    requires i <= |es|
    ensures Occurrences(es[..i], k, text) <= Occurrences(es, k, text)
  {
    if i == |es| {
      assert es[..i] == es;
    } else {
      assert es[..|es| - 1][..i] == es[..i];
      OccurrencesRise(es[..|es| - 1], k, text, i);
    }
  }

  /** After a close the buffer starts anew: it holds the occurrences since then, numbered on. */
  lemma {:induction false} BufferedSince(es: seq<Event>, i: nat, k: Key)
    requires ClosesNameFile(es) && i < |es| && Closes(es[i], k)
    requires forall j :: i < j < |es| ==> !Closes(es[j], k)
    ensures var b := Buffered(Read(es).pending, k);
            forall t, o: nat :: (t, o) in b <==> Occurrences(es[..i], k, t) <= o < Occurrences(es, k, t)
  {
    var n := |es| - 1;
    var before, e := es[..n], es[n];
    if i == n {
      NamedCloseKeepsItsKey(Read(before).pending, k);
    } else {
      assert before[..i] == es[..i];
      BufferedSince(before, i, k);
      if About(e, k) {
        SeenCounts(before, k, e.text);
        OccurrencesRise(before, k, e.text, i);
      } else {
        OtherEventsLeaveAlone(Read(before), e, k);
      }
    }
  }

  lemma {:induction false} BufferedMetrics(es: seq<Event>, k: Key, x: nat)
    requires ClosesNameFile(es) && !Closed(es, k) && x < |es| && StepOf(es[x], k)
    ensures var b, key := Buffered(Read(es).pending, k), (es[x].text, Occurrences(es[..x], k, es[x].text));
            key in b && b[key] == StepRun(es[x].attempts, es[x].duration)
  {
    var n := |es| - 1;
    var before, e := es[..n], es[n];
    if x == n {
      SeenCounts(before, k, e.text);
    } else {
      assert before[..x] == es[..x];
      BufferedMetrics(before, k, x);
      if About(e, k) {
        SeenCounts(before, k, e.text);
        OccurrencesGrow(before, k, x);
      } else {
        OtherEventsLeaveAlone(Read(before), e, k);
      }
    }
  }

  lemma {:induction false} OccurrencesGrow(es: seq<Event>, k: Key, x: nat)
    requires x < |es| && StepOf(es[x], k)
    ensures Occurrences(es[..x], k, es[x].text) < Occurrences(es, k, es[x].text)
  {
    var n := |es| - 1;
    if x < n {
      assert es[..n][..x] == es[..x];
      OccurrencesGrow(es[..n], k, x);
    }
  }

  /** Once closed for the last time, a scenario's entry stays. */
  lemma {:induction false} EntryStays(es: seq<Event>, i: nat, k: Key)
    requires ClosesNameFile(es) && i <= |es|
    requires forall j :: i <= j < |es| ==> !Closes(es[j], k)
    ensures (k in Parsed(es).scenarios <==> k in Parsed(es[..i]).scenarios)
    ensures k in Parsed(es).scenarios ==> Parsed(es).scenarios[k] == Parsed(es[..i]).scenarios[k]
  {
    var n := |es| - 1;
    if i == |es| {
      assert es[..i] == es;
    } else {
      assert es[..n][..i] == es[..i];
      EntryStays(es[..n], i, k);
      if !About(es[n], k) {
        OtherEventsLeaveAlone(Read(es[..n]), es[n], k);
      }
    }
  }

  /** The entry a close writes. */
  lemma EntryOfClose(es: seq<Event>, i: nat, k: Key)
    requires ClosesNameFile(es) && i < |es| && Closes(es[i], k)
    requires forall j :: i < j < |es| ==> !Closes(es[j], k)
    ensures k in Parsed(es).scenarios
    ensures Parsed(es).scenarios[k]
         == ScenarioRun(es[i].status, Buffered(Read(es[..i]).pending, k), es[i].phase, es[i].reason, es[i].tags)
  {
    EntryStays(es, i + 1, k);
    assert es[..i + 1][..i] == es[..i];
    NamedCloseKeepsItsKey(Read(es[..i]).pending, k);
  }

  /**
   * For an identity closed once, at `i`: each text's step keys are exactly its
   * occurrences before the close, numbered from zero, each with its own metrics.
   */
  lemma StepsExact(es: seq<Event>, i: nat, k: Key)
    requires ClosesNameFile(es) && i < |es| && Closes(es[i], k)
    requires forall j :: 0 <= j < |es| && j != i ==> !Closes(es[j], k)
    ensures k in Parsed(es).scenarios
    ensures forall t, o: nat ::
              (t, o) in Parsed(es).scenarios[k].steps <==> o < Occurrences(es[..i], k, t)
    ensures forall x {:trigger es[x]} :: 0 <= x < i && StepOf(es[x], k) ==>
              var steps, key := Parsed(es).scenarios[k].steps, (es[x].text, Occurrences(es[..x], k, es[x].text));
              key in steps && steps[key] == StepRun(es[x].attempts, es[x].duration)
  {
    var before := es[..i];
    assert !Closed(before, k);
    EntryOfClose(es, i, k);
    BufferedSteps(before, k);
    forall x {:trigger es[x]} | 0 <= x < i && StepOf(es[x], k)
      ensures var steps, key := Parsed(es).scenarios[k].steps, (es[x].text, Occurrences(es[..x], k, es[x].text));
              key in steps && steps[key] == StepRun(es[x].attempts, es[x].duration)
    {
      assert before[..x] == es[..x];
      BufferedMetrics(before, k, x);
    }
  }

  /** Only closed scenarios have an entry, and every closed one does. */
  lemma {:induction false} EntriesAreCloses(es: seq<Event>, k: Key)
    requires ClosesNameFile(es)
    ensures k in Parsed(es).scenarios <==> Closed(es, k)
  {
    if es != [] {
      var n := |es| - 1;
      var before, e := es[..n], es[n];
      EntriesAreCloses(before, k);
      assert forall i :: 0 <= i < n ==> before[i] == es[i];
      if Closes(e, k) {
        EntryOfClose(es, n, k);
      } else if !About(e, k) {
        OtherEventsLeaveAlone(Read(before), e, k);
      }
      assert Closed(es, k) <==> Closed(before, k) || Closes(e, k);
    }
  }

  // ----- heads and tails

  /** What a record says of its run: the first head's fields. */
  lemma {:induction false} FirstHead(es: seq<Event>, i: nat)
    requires i < |es| && es[i].RunStarted? && forall j :: 0 <= j < i ==> !es[j].RunStarted?
    ensures Parsed(es).head == Head(true, es[i].env, es[i].metadata, es[i].rerunOf)
  {
    var n := |es| - 1;
    if i < n {
      FirstHead(es[..n], i);
    } else {
      NoHead(es[..n]);
    }
  }

  lemma {:induction false} NoHead(es: seq<Event>)
    requires forall j :: 0 <= j < |es| ==> !es[j].RunStarted?
    ensures Parsed(es).head == Head(false, None, map[], None)
  {
    if es != [] {
      NoHead(es[..|es| - 1]);
    }
  }

  /** The last tail decides the totals and how the run ended. */
  lemma {:induction false} LastTail(es: seq<Event>, i: nat)
    requires i < |es| && es[i].RunFinished? && forall j :: i < j < |es| ==> !es[j].RunFinished?
    ensures Parsed(es).totals == Some(RunTotals(es[i].passed, es[i].failed, es[i].skipped))
    ensures Parsed(es).completion == if es[i].cancelled then Cancelled else Completed
    ensures Parsed(es).legacyMultiPair <==> exists j :: 0 <= j < i && es[j].RunFinished?
  {
    var n := |es| - 1;
    if i < n {
      LastTail(es[..n], i);
      assert forall j :: 0 <= j < i ==> es[..n][j] == es[j];
    } else {
      TotalsIffTail(es[..n]);
      assert forall j :: 0 <= j < n ==> es[..n][j] == es[j];
    }
  }

  /** Without a tail the record is incomplete. */
  lemma {:induction false} TotalsIffTail(es: seq<Event>)
    ensures Parsed(es).totals.Some? <==> exists j :: 0 <= j < |es| && es[j].RunFinished?
    ensures Parsed(es).totals.None? ==> Parsed(es).completion == Incomplete && !Parsed(es).legacyMultiPair
    ensures Parsed(es).totals.Some? ==> Parsed(es).completion != Incomplete
  {
    if es != [] {
      var n := |es| - 1;
      TotalsIffTail(es[..n]);
      assert forall j :: 0 <= j < n ==> es[..n][j] == es[j];
      if es[n].RunFinished? {
        assert es[n].RunFinished?;
      }
    }
  }
}
