// The watch loop and its interrupt handler, as two interleaved processes.
module Watch {

  /** The handler: not fired, `stop` stored, current token cancelled. */
  datatype Handler = Idle | Stopped | Finished

  /** Where the loop stands. A token is a number. */
  datatype Loop =
    | Minting
    | Storing(t: nat)
    | Checking(t: nat)
    | Starting(t: nat)
    | Running(t: nat)
    | Ended
    | PollStop
    | PollChange
    | DrainChange
    | DrainStop
    | Left

  /** `startedAfterStop` counts runs that began once `stop` was set. */
  datatype State = State(stop: bool, current: nat, cancelled: set<nat>, next: nat, handler: Handler, loop: Loop,
                         startedAfterStop: nat)

  /** The handler's next step: store `stop`, then cancel whatever token is current. */
  ghost predicate HandlerStep(s: State, s': State) {
    match s.handler
    case Idle => s' == s.(stop := true, handler := Stopped)
    case Stopped => s' == s.(cancelled := s.cancelled + {s.current}, handler := Finished)
    case Finished => false
  }

  /** The loop's next step; runs, file changes and timeouts end as they may. */
  ghost predicate LoopStep(s: State, s': State) {
    match s.loop
    case Minting => s' == s.(next := s.next + 1, loop := Storing(s.next))
    case Storing(t) => s' == s.(current := t, loop := Checking(t))
    case Checking(t) => s' == s.(loop := if s.stop then Left else Starting(t))
    case Starting(t) =>
      s' == s.(loop := Running(t), startedAfterStop := s.startedAfterStop + if s.stop then 1 else 0)
    case Running(t) => s' == s.(loop := Ended)
    case Ended => s' == s.(loop := if s.stop then Left else PollStop)
    case PollStop => s' == s.(loop := if s.stop then Left else PollChange)
    case PollChange => s' == s.(loop := PollStop) || s' == s.(loop := DrainChange) || s' == s.(loop := Left)
    case DrainChange => s' == s.(loop := DrainStop) || s' == s.(loop := Minting)
    case DrainStop => s' == s.(loop := if s.stop then Left else DrainChange)
    case Left => false
  }

  ghost predicate Step(s: State, s': State) {
    HandlerStep(s, s') || LoopStep(s, s')
  }

  ghost predicate Initial(s: State) {
    s == State(false, 0, {}, 1, Idle, Minting, 0)
  }

  /** An interleaving: each step is the handler's or the loop's. */
  ghost predicate Trace(states: seq<State>) {
    && |states| > 0 && Initial(states[0])
    && forall i :: 0 < i < |states| ==> Step(states[i - 1], states[i])
  }

  ghost predicate Invariant(s: State) {
    && (s.handler.Idle? <==> !s.stop)
    && (s.loop.Checking? || s.loop.Starting? || s.loop.Running? ==> s.current == s.loop.t)
    && (s.handler.Finished? && (s.loop.Starting? || s.loop.Running?) ==> s.loop.t in s.cancelled)
    && (!s.stop ==> s.startedAfterStop == 0)
    && s.startedAfterStop + (if s.loop.Starting? then 1 else 0) <= 1
  }

  lemma StepKeepsInvariant(s: State, s': State)
    requires Invariant(s) && Step(s, s')
    ensures Invariant(s')
  {
  }

  lemma {:induction false} TraceKeepsInvariant(states: seq<State>, i: nat)
    requires Trace(states) && i < |states|
    ensures Invariant(states[i])
  {
    if i > 0 {
      TraceKeepsInvariant(states, i - 1);
      StepKeepsInvariant(states[i - 1], states[i]);
    }
  }

  /** Once the handler is through, a run in progress holds a cancelled token. */
  lemma InterruptReachesRun(states: seq<State>, i: nat)
    requires Trace(states) && i < |states|
    requires states[i].handler.Finished? && states[i].loop.Running?
    ensures states[i].loop.t in states[i].cancelled
  {
    TraceKeepsInvariant(states, i);
  }

  /** At most one run starts after `stop` is set. */
  lemma OneRunAfterStop(states: seq<State>, i: nat)
    requires Trace(states) && i < |states|
    ensures states[i].startedAfterStop <= 1
  {
    TraceKeepsInvariant(states, i);
  }

  /** Once `stop` is set, only a run already past its check may start. */
  lemma {:induction false} NoRunAfterThat(states: seq<State>, i: nat, j: nat)
    requires Trace(states) && i <= j < |states|
    requires states[i].stop && !states[i].loop.Starting?
    ensures states[j].stop && !states[j].loop.Starting?
    ensures states[j].startedAfterStop == states[i].startedAfterStop
    decreases j
  {
    if i < j {
      NoRunAfterThat(states, i, j - 1);
    }
  }

  /** A token is cancelled only by the handler, and only the one it found current. */
  lemma CancelStep(s: State, s': State)
    requires Step(s, s')
    requires (s.cancelled != {} ==> s.handler.Finished?) && |s.cancelled| <= 1
    ensures (s'.cancelled != {} ==> s'.handler.Finished?) && |s'.cancelled| <= 1
  {
    if s.handler.Stopped? {
      assert s.cancelled == {} && s.cancelled + {s.current} == {s.current};
    }
  }

  lemma {:induction false} OnlyHandlerCancels(states: seq<State>, i: nat)
    requires Trace(states) && i < |states|
    ensures states[i].cancelled != {} ==> states[i].handler.Finished?
    ensures |states[i].cancelled| <= 1
  {
    if i > 0 {
      OnlyHandlerCancels(states, i - 1);
      CancelStep(states[i - 1], states[i]);
    }
  }

  /** How many loop steps remain once `stop` is set, at most. */
  function Rank(l: Loop): nat {
    match l
    case PollChange => 5
    case DrainChange => 4
    case Minting => 3
    case Starting(_) => 3
    case Storing(_) => 2
    case Running(_) => 2
    case Checking(_) => 1
    case Ended => 1
    case PollStop => 1
    case DrainStop => 1
    case Left => 0
  }

  /** How many of the steps from `i` to `j` were the loop's. */
  ghost function LoopSteps(states: seq<State>, i: nat, j: nat): nat
    requires i <= j < |states|
  {
    if i == j then 0 else LoopSteps(states, i, j - 1) + OneIfLoop(states[j - 1], states[j])
  }

  ghost function OneIfLoop(s: State, s': State): nat {
    if LoopStep(s, s') then 1 else 0
  }

  lemma StopLowersRank(s: State, s': State)
    requires s.stop && Step(s, s')
    ensures s'.stop && Rank(s'.loop) + OneIfLoop(s, s') <= Rank(s.loop)
  {
  }

  lemma RankBound(l: Loop)
    ensures Rank(l) <= 5 && (Rank(l) == 0 ==> l.Left?)
  {
  }

  /** After an interrupt the loop makes at most five more steps, wherever it was, and leaves. */
  lemma {:induction false} LeavesPromptly(states: seq<State>, i: nat, j: nat)
    requires Trace(states) && i <= j < |states| && states[i].stop
    ensures states[j].stop
    ensures LoopSteps(states, i, j) + Rank(states[j].loop) <= Rank(states[i].loop) <= 5
    ensures LoopSteps(states, i, j) == 5 ==> states[j].loop.Left?
    decreases j
  {
    RankBound(states[i].loop);
    RankBound(states[j].loop);
    if i < j {
      LeavesPromptly(states, i, j - 1);
      StopLowersRank(states[j - 1], states[j]);
    }
  }
}
