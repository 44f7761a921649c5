// The event stream a run writes, which is its record.
module Events {
  import opened Identity

  datatype Option<+T> = None | Some(value: T)

  datatype Status = Passed | Failed | Skipped | Warned

  datatype Event =
    | RunStarted(runId: string, env: Option<string>, metadata: map<string, string>, shuffled: bool,
                 rerunOf: Option<string>)
    | ScenarioStarted(scenario: string, file: string, timestamp: Option<nat>, worker: Option<nat>,
                      phase: Option<string>, exclusive: bool)
    | BatchStarted(scenario: string, engine: string, batchSteps: nat)
    | EntryRunning(scenario: string, engine: string, entry: nat, retry: nat)
    | StepFinished(scenario: string, file: string, text: string, status: Status, attempts: nat, duration: nat)
    | ScenarioFinished(scenario: string, file: string, status: Status, timestamp: Option<nat>,
                       worker: Option<nat>, phase: Option<string>, reason: Option<string>, tags: seq<string>)
    | RunFinished(passed: nat, failed: nat, skipped: nat, cancelled: bool)

  /** Does `e` close scenario `k`? */
  predicate Closes(e: Event, k: Key) {
    e.ScenarioFinished? && e.file == k.0 && e.scenario == k.1
  }

  /** Is `e` a finished step of scenario `k`? */
  predicate StepOf(e: Event, k: Key) {
    e.StepFinished? && e.file == k.0 && e.scenario == k.1
  }

  ghost predicate Closed(es: seq<Event>, k: Key) {
    exists i :: 0 <= i < |es| && Closes(es[i], k)
  }

  /** Every close names its file: no record from before the field existed. */
  ghost predicate ClosesNameFile(es: seq<Event>) {
    forall i :: 0 <= i < |es| && es[i].ScenarioFinished? ==> es[i].file != ""
  }

  /** No identity is closed twice. */
  ghost predicate ClosesOnce(es: seq<Event>) {
    forall i, j :: 0 <= i < j < |es| && es[i].ScenarioFinished? && es[j].ScenarioFinished? ==>
      (es[i].file, es[i].scenario) != (es[j].file, es[j].scenario)
  }

  /** The events of one scenario: its steps and its closes, in order. */
  function Keyed(es: seq<Event>, k: Key): seq<Event> {
    if es == [] then []
    else
      var last := es[|es| - 1];
      var rest := Keyed(es[..|es| - 1], k);
      if Closes(last, k) || StepOf(last, k) then rest + [last] else rest
  }

  /** How many finished steps of `k` carry `text`. */
  function Occurrences(es: seq<Event>, k: Key, text: string): nat {
    if es == [] then 0
    else
      var last := es[|es| - 1];
      Occurrences(es[..|es| - 1], k, text) + if StepOf(last, k) && last.text == text then 1 else 0
  }
}
