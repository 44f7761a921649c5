// `secret set` end to end: the key first, then the store, by concurrent processes.
module SecretKeys {
  import KeyFile
  import SecretStore

  /** Processes working on the key file and on the store; process `i` is the same one in both. */
  datatype State = State(keys: KeyFile.State, store: SecretStore.State)

  /** Which key a token was made under. */
  type KeyOf = string -> nat

  /** Process `i` holds the key its token is made under. */
  ghost predicate HasItsKey(s: State, keyOf: KeyOf, i: nat) {
    && i < |s.keys.pcs| && i < |s.store.ops|
    && s.keys.pcs[i].HasKey?
    && (s.store.ops[i].Set? ==> s.keys.pcs[i].key == keyOf(s.store.ops[i].token))
  }

  /** A setter asks for the lock only with a key in hand; a removal needs none. */
  ghost predicate MayMove(s: State, s': State, keyOf: KeyOf, i: nat) {
    i < |s.store.pcs| && i < |s.store.ops| && i < |s'.store.pcs| &&
    (s.store.pcs[i].Waiting? && s'.store.pcs[i].Locked? && s.store.ops[i].Set? ==> HasItsKey(s, keyOf, i))
  }

  /** One process moves, on the key file or on the store. */
  ghost predicate Step(s: State, s': State, keyOf: KeyOf) {
    || (s'.store == s.store && KeyFile.Step(s.keys, s'.keys))
    || (s'.keys == s.keys && exists i: nat :: SecretStore.StepBy(s.store, s'.store, i) && MayMove(s, s', keyOf, i))
  }

  ghost predicate Trace(states: seq<State>, keyOf: KeyOf) {
    && |states| > 0 && KeyFile.Initial(states[0].keys) && SecretStore.Initial(states[0].store)
    && forall i :: 0 < i < |states| ==> Step(states[i - 1], states[i], keyOf)
  }

  // ----- each half is a run of its own machine

  function KeysOf(states: seq<State>): (keys: seq<KeyFile.State>)
    ensures |keys| == |states| && forall i :: 0 <= i < |states| ==> keys[i] == states[i].keys
  {
    seq(|states|, i requires 0 <= i < |states| => states[i].keys)
  }

  function StoresOf(states: seq<State>): (stores: seq<SecretStore.State>)
    ensures |stores| == |states| && forall i :: 0 <= i < |states| ==> stores[i] == states[i].store
  {
    seq(|states|, i requires 0 <= i < |states| => states[i].store)
  }

  lemma {:induction false} Halves(states: seq<State>, keyOf: KeyOf)
    requires Trace(states, keyOf)
    ensures KeyFile.Trace(KeysOf(states)) && SecretStore.Trace(StoresOf(states))
  {
    forall i | 0 < i < |states|
      ensures KeyFile.Step(KeysOf(states)[i - 1], KeysOf(states)[i])
      ensures SecretStore.StepAt(StoresOf(states), i)
    {
      assert Step(states[i - 1], states[i], keyOf);
    }
  }

  // ----- every token in the store is made under the key in the file

  predicate Started(pc: SecretStore.Pc) {
    SecretStore.Holding(pc) || SecretStore.Committed(pc)
  }

  /** A setter past its wait still holds the key its token is made under. */
  ghost predicate KeysHeld(s: State, keyOf: KeyOf) {
    && |s.store.ops| == |s.store.pcs|
    && forall i :: 0 <= i < |s.store.pcs| && s.store.ops[i].Set? && Started(s.store.pcs[i]) ==> HasItsKey(s, keyOf, i)
  }

  /** A key once obtained is kept. */
  lemma KeyStepKeepsKeys(s: State, s': State, keyOf: KeyOf, j: nat)
    requires KeysHeld(s, keyOf) && s'.store == s.store && KeyFile.StepBy(s.keys, s'.keys, j)
    ensures KeysHeld(s', keyOf)
  {
    forall i | 0 <= i < |s.store.pcs| && HasItsKey(s, keyOf, i) ensures HasItsKey(s', keyOf, i) {
    }
  }

  lemma StoreStepKeepsKeys(s: State, s': State, keyOf: KeyOf, j: nat)
    requires KeysHeld(s, keyOf) && s'.keys == s.keys
    requires SecretStore.StepBy(s.store, s'.store, j) && MayMove(s, s', keyOf, j)
    ensures KeysHeld(s', keyOf)
  {
    forall i | 0 <= i < |s.store.pcs| && s.store.ops[i].Set? && Started(s'.store.pcs[i])
      ensures HasItsKey(s', keyOf, i)
    {
      assert i != j ==> s'.store.pcs[i] == s.store.pcs[i];
    }
  }

  lemma StepKeepsKeys(s: State, s': State, keyOf: KeyOf)
    requires KeysHeld(s, keyOf) && Step(s, s', keyOf)
    ensures KeysHeld(s', keyOf)
  {
    if s'.keys == s.keys && exists i: nat :: SecretStore.StepBy(s.store, s'.store, i) && MayMove(s, s', keyOf, i) {
      var i: nat :| SecretStore.StepBy(s.store, s'.store, i) && MayMove(s, s', keyOf, i);
      StoreStepKeepsKeys(s, s', keyOf, i);
    } else if s' != s {
      var j: nat :| KeyFile.StepBy(s.keys, s'.keys, j);
      KeyStepKeepsKeys(s, s', keyOf, j);
    }
  }

  lemma {:induction false} TraceKeepsKeys(states: seq<State>, keyOf: KeyOf, n: nat)
    requires Trace(states, keyOf) && n < |states|
    ensures KeysHeld(states[n], keyOf)
  {
    if n > 0 {
      TraceKeepsKeys(states, keyOf, n - 1);
      StepKeepsKeys(states[n - 1], states[n], keyOf);
    }
  }

  /** Whatever `set` commits is made under the one key the key file holds. */
  lemma {:induction false} CommittedUnderOneKey(states: seq<State>, keyOf: KeyOf, n: nat, i: nat)
    requires Trace(states, keyOf) && n < |states|
    requires i in states[n].store.history && i < |states[n].store.ops| && states[n].store.ops[i].Set?
    ensures states[n].keys.file == KeyFile.Whole(keyOf(states[n].store.ops[i].token))
  {
    Halves(states, keyOf);
    TraceKeepsKeys(states, keyOf, n);
    KeyFile.TraceKeepsInvariant(KeysOf(states), n);
    SecretStore.TraceKeepsInvariants(StoresOf(states), n);
  }

  /** Where a token in the serial store comes from. */
  lemma {:induction false} TokenFrom(
    start: SecretStore.Store, ops: seq<SecretStore.Op>, history: seq<nat>, name: string)
    requires forall h :: 0 <= h < |history| ==> history[h] < |ops|
    requires name in SecretStore.Serial(start, ops, history)
    ensures var token := SecretStore.Serial(start, ops, history)[name];
            || (name in start && start[name] == token)
            || exists i :: i in history && i < |ops| && ops[i] == SecretStore.Set(name, token)
  {
    if history != [] {
      var n := |history| - 1;
      if name in SecretStore.Serial(start, ops, history[..n]) {
        TokenFrom(start, ops, history[..n], name);
      }
      assert history[n] in history;
    }
  }

  /**
   * In every interleaving of processes that create the key and set secrets, every
   * token in the store that was not there from the start decrypts under the key in
   * the key file.
   */
  lemma {:induction false} StoreUnderOneKey(states: seq<State>, keyOf: KeyOf, n: nat, name: string)
    requires Trace(states, keyOf) && n < |states| && name in states[n].store.store
    ensures var token := states[n].store.store[name];
            || (name in states[0].store.store && states[0].store.store[name] == token)
            || states[n].keys.file == KeyFile.Whole(keyOf(token))
  {
    var s := states[n].store;
    Halves(states, keyOf);
    SecretStore.TraceKeepsInvariants(StoresOf(states), n);
    TokenFrom(states[0].store.store, s.ops, s.history, name);
    if i :| i in s.history && i < |s.ops| && s.ops[i] == SecretStore.Set(name, s.store[name]) {
      CommittedUnderOneKey(states, keyOf, n, i);
    }
  }
}
