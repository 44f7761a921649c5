// `secret set` and `secret rm` by concurrent processes: lock, read, modify, rename.
module SecretStore {

  /** Secret names to encrypted tokens. */
  type Store = map<string, string>

  datatype Op = Set(name: string, token: string) | Rm(name: string)

  function Apply(store: Store, op: Op): Store {
    match op
    case Set(name, token) => store[name := token]
    case Rm(name) => store - {name}
  }

  /** Removing an absent name is refused. */
  predicate Allowed(store: Store, op: Op) {
    op.Rm? ==> op.name in store
  }

  /**
   * Where one process stands. `Died` is any end without success or refusal, an
   * error reported included; `committed` says whether the rename had happened:
   * setting the file's mode afterwards may still fail.
   */
  datatype Pc =
    | Waiting
    | Locked
    | Loaded(copy: Store)
    | Saving(copy: Store)
    | Renamed
    | Succeeded
    | Refused
    | Died(committed: bool)

  /** `history` lists the processes whose rename took effect, in order. */
  datatype State = State(ops: seq<Op>, store: Store, holder: int, pcs: seq<Pc>, history: seq<nat>)

  const NOBODY: int := -1

  /** The next step of process `i`; a live process may also die, and its lock goes with it. */
  ghost predicate StepBy(s: State, s': State, i: nat) {
    i < |s.pcs| && |s.ops| == |s.pcs| &&
    var freed := if s.holder == i then NOBODY else s.holder;
    match s.pcs[i]
    case Waiting =>
      || s' == s.(pcs := s.pcs[i := Died(false)])
      || (s.holder == NOBODY && s' == s.(holder := i, pcs := s.pcs[i := Locked]))
    case Locked =>
      || s' == s.(holder := freed, pcs := s.pcs[i := Died(false)])
      || s' == s.(pcs := s.pcs[i := Loaded(s.store)])
    case Loaded(copy) =>
      || s' == s.(holder := freed, pcs := s.pcs[i := Died(false)])
      || (if Allowed(copy, s.ops[i]) then s' == s.(pcs := s.pcs[i := Saving(Apply(copy, s.ops[i]))])
          else s' == s.(holder := freed, pcs := s.pcs[i := Refused]))
    case Saving(copy) =>
      || s' == s.(holder := freed, pcs := s.pcs[i := Died(false)])
      || s' == s.(store := copy, pcs := s.pcs[i := Renamed], history := s.history + [i])
    case Renamed =>
      || s' == s.(holder := freed, pcs := s.pcs[i := Died(true)])
      || s' == s.(holder := freed, pcs := s.pcs[i := Succeeded])
    case Succeeded => false
    case Refused => false
    case Died(_) => false
  }

  /** One process moves, or none does. */
  ghost predicate Step(s: State, s': State) {
    s' == s || exists i :: StepBy(s, s', i)
  }

  /** Each process has one operation; the store parses; nobody holds the lock. */
  ghost predicate Initial(s: State) {
    && |s.ops| == |s.pcs| && s.holder == NOBODY && s.history == []
    && forall i :: 0 <= i < |s.pcs| ==> s.pcs[i].Waiting?
  }

  ghost predicate StepAt(states: seq<State>, i: int) {
    0 < i < |states| && Step(states[i - 1], states[i])
  }

  ghost predicate Trace(states: seq<State>) {
    && |states| > 0 && Initial(states[0])
    && forall i :: 0 < i < |states| ==> StepAt(states, i)
  }

  // ----- the serial order

  /** The operations of `history`, one after another. */
  function Serial(start: Store, ops: seq<Op>, history: seq<nat>): Store
    requires forall h :: 0 <= h < |history| ==> history[h] < |ops|
  {
    if history == [] then start
    else Apply(Serial(start, ops, history[..|history| - 1]), ops[history[|history| - 1]])
  }

  /** In that order no operation would have been refused. */
  ghost predicate AllAllowed(start: Store, ops: seq<Op>, history: seq<nat>)
    requires forall h :: 0 <= h < |history| ==> history[h] < |ops|
  {
    forall h :: 0 <= h < |history| ==> Allowed(Serial(start, ops, history[..h]), ops[history[h]])
  }

  predicate Holding(pc: Pc) {
    pc.Locked? || pc.Loaded? || pc.Saving? || pc.Renamed?
  }

  predicate Committed(pc: Pc) {
    pc.Renamed? || pc.Succeeded? || (pc.Died? && pc.committed)
  }

  ghost predicate Distinct(history: seq<nat>) {
    forall g, h :: 0 <= g < h < |history| ==> history[g] != history[h]
  }

  ghost predicate InRange(s: State) {
    && |s.ops| == |s.pcs|
    && forall h :: 0 <= h < |s.history| ==> s.history[h] < |s.ops|
  }

  /** Only the holder of the lock is inside the critical section, and what it holds is current. */
  ghost predicate LockInvariant(s: State) {
    && |s.ops| == |s.pcs|
    && (forall i :: 0 <= i < |s.pcs| ==> (Holding(s.pcs[i]) <==> s.holder == i))
    && (forall i :: 0 <= i < |s.pcs| && s.pcs[i].Loaded? ==> s.pcs[i].copy == s.store)
    && (forall i :: 0 <= i < |s.pcs| && s.pcs[i].Saving? ==>
          Allowed(s.store, s.ops[i]) && s.pcs[i].copy == Apply(s.store, s.ops[i]))
  }

  /** The store is the serial outcome of the commits; each process committed at most once. */
  ghost predicate HistoryInvariant(start: Store, s: State) {
    && InRange(s)
    && s.store == Serial(start, s.ops, s.history)
    && AllAllowed(start, s.ops, s.history)
    && Distinct(s.history)
    && forall i :: 0 <= i < |s.pcs| ==> (i in s.history <==> Committed(s.pcs[i]))
  }

  lemma StepKeepsLock(s: State, s': State, i: nat)
    requires LockInvariant(s) && StepBy(s, s', i)
    ensures LockInvariant(s')
  {
  }

  lemma CommitAppends(start: Store, ops: seq<Op>, history: seq<nat>, i: nat)
    requires forall h :: 0 <= h < |history| ==> history[h] < |ops|
    requires i < |ops| && AllAllowed(start, ops, history) && Allowed(Serial(start, ops, history), ops[i])
    ensures Serial(start, ops, history + [i]) == Apply(Serial(start, ops, history), ops[i])
    ensures AllAllowed(start, ops, history + [i])
  {
    var more := history + [i];
    assert more[..|history|] == history;
    forall h | 0 <= h < |more| ensures Allowed(Serial(start, ops, more[..h]), ops[more[h]]) {
      if h < |history| {
        assert more[..h] == history[..h] && more[h] == history[h];
      }
    }
  }

  /** Steps other than the rename commit nothing. */
  lemma QuietStep(s: State, s': State, i: nat)
    requires StepBy(s, s', i) && (!s.pcs[i].Saving? || s'.history == s.history)
    ensures s'.ops == s.ops && s'.store == s.store && s'.history == s.history && |s'.pcs| == |s.pcs|
    ensures forall j :: 0 <= j < |s.pcs| ==> (Committed(s'.pcs[j]) <==> Committed(s.pcs[j]))
  {
  }

  lemma RenameStep(start: Store, s: State, s': State, i: nat)
    requires LockInvariant(s) && HistoryInvariant(start, s) && i < |s.pcs| && s.pcs[i].Saving?
    requires s' == s.(store := s.pcs[i].copy, pcs := s.pcs[i := Renamed], history := s.history + [i])
    ensures HistoryInvariant(start, s')
  {
    CommitAppends(start, s.ops, s.history, i);
    assert i !in s.history;
    forall j | 0 <= j < |s'.pcs| ensures j in s'.history <==> Committed(s'.pcs[j]) {
      assert j in s'.history <==> j in s.history || j == i;
    }
  }

  lemma {:induction false} TraceKeepsInvariants(states: seq<State>, n: nat)
    requires Trace(states) && n < |states|
    ensures LockInvariant(states[n]) && HistoryInvariant(states[0].store, states[n])
    ensures states[n].ops == states[0].ops
  {
    if n > 0 {
      TraceKeepsInvariants(states, n - 1);
      assert StepAt(states, n);
      if states[n] != states[n - 1] {
        var i: nat :| StepBy(states[n - 1], states[n], i);
        StepKeepsLock(states[n - 1], states[n], i);
        if states[n - 1].pcs[i].Saving? && states[n].history != states[n - 1].history {
          RenameStep(states[0].store, states[n - 1], states[n], i);
        } else {
          QuietStep(states[n - 1], states[n], i);
        }
      }
    }
  }

  /**
   * Serializability: in every interleaving, crashes included, the store is what
   * the committed operations give one after another, none of them refused in
   * that order; every operation that reported success is among them, once.
   */
  lemma StoreIsSerial(states: seq<State>, n: nat)
    requires Trace(states) && n < |states|
    ensures var s := states[n];
            && InRange(s) && Distinct(s.history)
            && s.store == Serial(states[0].store, s.ops, s.history)
            && AllAllowed(states[0].store, s.ops, s.history)
            && (forall i :: 0 <= i < |s.pcs| && s.pcs[i].Succeeded? ==> i in s.history)
            && (forall i :: 0 <= i < |s.pcs| && i in s.history ==> Committed(s.pcs[i]))
  {
    TraceKeepsInvariants(states, n);
  }

  ghost predicate Ended(pc: Pc) {
    pc.Succeeded? || pc.Refused?
  }

  /** A process that reported success took effect, one that was refused did not. */
  lemma TookEffectIffSucceeded(states: seq<State>, n: nat, i: nat)
    requires Trace(states) && n < |states| && i < |states[n].pcs| && Ended(states[n].pcs[i])
    ensures i in states[n].history <==> states[n].pcs[i].Succeeded?
  {
    TraceKeepsInvariants(states, n);
  }

  /**
   * With every process through and none dead, the store is what exactly the
   * successful operations give, each once, one after another.
   */
  lemma FinalStoreIsSuccesses(states: seq<State>, n: nat)
    requires Trace(states) && n < |states|
    requires forall i :: 0 <= i < |states[n].pcs| ==> Ended(states[n].pcs[i])
    ensures var s := states[n];
            && InRange(s) && Distinct(s.history)
            && (forall i :: 0 <= i < |s.pcs| ==> (i in s.history <==> s.pcs[i].Succeeded?))
            && s.ops == states[0].ops
            && s.store == Serial(states[0].store, s.ops, s.history)
            && AllAllowed(states[0].store, s.ops, s.history)
  {
    TraceKeepsInvariants(states, n);
  }

  /** Mutual exclusion, and no lost update: what a process is about to save extends the current store. */
  lemma NoLostUpdate(states: seq<State>, n: nat, i: nat, j: nat)
    requires Trace(states) && n < |states| && i < |states[n].pcs| && j < |states[n].pcs|
    requires states[n].pcs[i].Saving? && Holding(states[n].pcs[j])
    ensures i == j && i < |states[n].ops|
    ensures states[n].pcs[i].copy == Apply(states[n].store, states[n].ops[i])
  {
    TraceKeepsInvariants(states, n);
  }

  // ----- what the store holds, in terms of the operations alone

  /** Place `h` of the history is the last that concerns `name`. */
  ghost predicate LastOn(ops: seq<Op>, history: seq<nat>, h: nat, name: string)
    requires forall g :: 0 <= g < |history| ==> history[g] < |ops|
  {
    && h < |history| && ops[history[h]].name == name
    && forall g :: h < g < |history| ==> ops[history[g]].name != name
  }

  ghost predicate Untouched(ops: seq<Op>, history: seq<nat>, name: string)
    requires forall g :: 0 <= g < |history| ==> history[g] < |ops|
  {
    forall g :: 0 <= g < |history| ==> ops[history[g]].name != name
  }

  lemma {:induction false} SerialReads(start: Store, ops: seq<Op>, history: seq<nat>, h: nat, name: string)
    requires forall g :: 0 <= g < |history| ==> history[g] < |ops|
    requires LastOn(ops, history, h, name)
    ensures var store, op := Serial(start, ops, history), ops[history[h]];
            && (name in store <==> op.Set?)
            && (op.Set? ==> store[name] == op.token)
  {
    var n := |history| - 1;
    if h < n {
      SerialReads(start, ops, history[..n], h, name);
    }
  }

  lemma {:induction false} SerialKeeps(start: Store, ops: seq<Op>, history: seq<nat>, name: string)
    requires forall g :: 0 <= g < |history| ==> history[g] < |ops|
    requires Untouched(ops, history, name)
    ensures var store := Serial(start, ops, history);
            && (name in store <==> name in start)
            && (name in start ==> store[name] == start[name])
  {
    if history != [] {
      SerialKeeps(start, ops, history[..|history| - 1], name);
    }
  }

  /**
   * In every interleaving a name is in the store if and only if the last committed
   * operation on it set it, and then with that operation's token; a name no
   * committed operation is about is as it was at the start.
   */
  lemma StoreHoldsLastSet(states: seq<State>, n: nat, name: string)
    requires Trace(states) && n < |states|
    ensures InRange(states[n])
    ensures var s := states[n];
            forall h: nat :: LastOn(s.ops, s.history, h, name) ==>
              && (name in s.store <==> s.ops[s.history[h]].Set?)
              && (name in s.store ==> s.store[name] == s.ops[s.history[h]].token)
    ensures var s, start := states[n], states[0].store;
            Untouched(s.ops, s.history, name) ==>
              && (name in s.store <==> name in start)
              && (name in start ==> s.store[name] == start[name])
  {
    TraceKeepsInvariants(states, n);
    var s, start := states[n], states[0].store;
    forall h: nat | LastOn(s.ops, s.history, h, name)
      ensures name in s.store <==> s.ops[s.history[h]].Set?
      ensures name in s.store ==> s.store[name] == s.ops[s.history[h]].token
    {
      SerialReads(start, s.ops, s.history, h, name);
    }
    if Untouched(s.ops, s.history, name) {
      SerialKeeps(start, s.ops, s.history, name);
    }
  }

  lemma RefusingStep(s: State, s': State, j: nat, i: nat)
    requires LockInvariant(s) && StepBy(s, s', j)
    requires i < |s.pcs| && i < |s'.pcs| && s'.pcs[i].Refused? && !s.pcs[i].Refused?
    ensures s'.ops == s.ops && s'.store == s.store && i == j && s.pcs[i].Loaded? && !Allowed(s.store, s.ops[i])
  {
  }

  lemma LockHeld(states: seq<State>, n: nat)
    requires Trace(states) && n < |states|
    ensures LockInvariant(states[n])
  {
    TraceKeepsInvariants(states, n);
  }

  lemma Refusal(s: State, s': State, i: nat)
    requires LockInvariant(s) && Step(s, s')
    requires i < |s.pcs| && i < |s'.pcs| && s'.pcs[i].Refused? && !s.pcs[i].Refused?
    ensures i < |s'.ops| && s'.ops[i].Rm? && s'.ops[i].name !in s'.store
  {
    var j: nat :| StepBy(s, s', j);
    RefusingStep(s, s', j, i);
  }

  /** A process is refused only for removing a name the store does not hold then; setting never is. */
  lemma RefusedForAbsentName(states: seq<State>, n: nat, i: nat)
    requires Trace(states) && 0 < n < |states| && i < |states[n].pcs| && i < |states[n - 1].pcs|
    requires states[n].pcs[i].Refused? && !states[n - 1].pcs[i].Refused?
    ensures i < |states[n].ops| && states[n].ops[i].Rm?
    ensures states[n].ops[i].name !in states[n].store
  {
    LockHeld(states, n - 1);
    assert StepAt(states, n);
    Refusal(states[n - 1], states[n], i);
  }

  /** A removal that took effect found its name in the store of that moment. */
  lemma RemovedWasThere(states: seq<State>, n: nat, h: nat)
    requires Trace(states) && n < |states| && h < |states[n].history|
    ensures InRange(states[n])
    ensures var s := states[n];
            var op := s.ops[s.history[h]];
            op.Rm? ==> op.name in Serial(states[0].store, s.ops, s.history[..h])
  {
    TraceKeepsInvariants(states, n);
    var s := states[n];
    assert Allowed(Serial(states[0].store, s.ops, s.history[..h]), s.ops[s.history[h]]);
  }

  // ----- the machine moves: one process alone gets through

  /** Alone, `set` succeeds and adds its token; `rm` succeeds and removes a name that is there. */
  lemma AloneSucceeds(store: Store, op: Op) returns (states: seq<State>)
    requires op.Rm? ==> op.name in store
    ensures Trace(states) && states[0] == State([op], store, NOBODY, [Waiting], [])
    ensures var s := states[|states| - 1];
            && s.pcs == [Succeeded]
            && s.store == match op case Set(name, token) => store[name := token] case Rm(name) => store - {name}
  {
    var start := State([op], store, NOBODY, [Waiting], []);
    var locked := start.(holder := 0, pcs := [Locked]);
    var loaded := locked.(pcs := [Loaded(store)]);
    var saving := loaded.(pcs := [Saving(Apply(store, op))]);
    var renamed := saving.(store := Apply(store, op), pcs := [Renamed], history := [0]);
    var done := renamed.(holder := NOBODY, pcs := [Succeeded]);
    states := [start, locked, loaded, saving, renamed, done];
    assert StepBy(start, locked, 0);
    assert StepBy(locked, loaded, 0);
    assert StepBy(loaded, saving, 0);
    assert StepBy(saving, renamed, 0);
    assert StepBy(renamed, done, 0);
  }

  /** Alone, `rm` of a name that is not there is refused and changes nothing. */
  lemma AloneRefused(store: Store, name: string) returns (states: seq<State>)
    requires name !in store
    ensures Trace(states) && states[0] == State([Rm(name)], store, NOBODY, [Waiting], [])
    ensures states[|states| - 1] == State([Rm(name)], store, NOBODY, [Refused], [])
  {
    var start := State([Rm(name)], store, NOBODY, [Waiting], []);
    var locked := start.(holder := 0, pcs := [Locked]);
    var loaded := locked.(pcs := [Loaded(store)]);
    var refused := loaded.(holder := NOBODY, pcs := [Refused]);
    states := [start, locked, loaded, refused];
    assert StepBy(start, locked, 0);
    assert StepBy(locked, loaded, 0);
    assert StepBy(loaded, refused, 0);
  }
}
