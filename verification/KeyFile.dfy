// Creating the project key on first use, by processes that race for it.
module KeyFile {

  /** The key file: absent, created but not fully written, or holding a key. A key is a number. */
  datatype Content = Absent | Partial | Whole(key: nat)

  /** Where one process stands in `load_or_create_key`. */
  datatype Pc =
    | ReadFirst
    | Generated(key: nat)
    | Writing(key: nat)
    | ReadAgain
    | HasKey(key: nat)
    | Failed

  datatype State = State(file: Content, pcs: seq<Pc>)

  /** Reading the file: a key if it holds one, an error if it does not decode. */
  function Decoded(file: Content): Pc {
    if file.Whole? then HasKey(file.key) else Failed
  }

  /** The next step of process `i`. Any live process may also die, or meet an I/O error. */
  ghost predicate StepBy(s: State, s': State, i: nat) {
    i < |s.pcs| &&
    match s.pcs[i]
    case ReadFirst =>
      || s' == s.(pcs := s.pcs[i := Failed])
      || (!s.file.Absent? && s' == s.(pcs := s.pcs[i := Decoded(s.file)]))
      || (s.file.Absent? && exists k: nat :: s' == s.(pcs := s.pcs[i := Generated(k)]))
    case Generated(k) =>
      || s' == s.(pcs := s.pcs[i := Failed])
      || (s.file.Absent? && s' == State(Partial, s.pcs[i := Writing(k)]))
      || (!s.file.Absent? && s' == s.(pcs := s.pcs[i := ReadAgain]))
    case Writing(k) =>
      || s' == s.(pcs := s.pcs[i := Failed])
      || s' == s
      || s' == State(Whole(k), s.pcs[i := HasKey(k)])
    case ReadAgain =>
      || s' == s.(pcs := s.pcs[i := Failed])
      || s' == s.(pcs := s.pcs[i := Decoded(s.file)])
    case HasKey(_) => false
    case Failed => false
  }

  /** One process moves, or none does. */
  ghost predicate Step(s: State, s': State) {
    s' == s || exists i :: StepBy(s, s', i)
  }

  /** All processes start by reading; the file may hold a key already. */
  ghost predicate Initial(s: State) {
    !s.file.Partial? && forall i :: 0 <= i < |s.pcs| ==> s.pcs[i].ReadFirst?
  }

  ghost predicate Trace(states: seq<State>) {
    && |states| > 0 && Initial(states[0])
    && forall i :: 0 < i < |states| ==> Step(states[i - 1], states[i])
  }

  ghost predicate Invariant(s: State) {
    && (forall i :: 0 <= i < |s.pcs| && s.pcs[i].Writing? ==> s.file.Partial?)
    && (forall i, j :: 0 <= i < j < |s.pcs| && s.pcs[i].Writing? ==> !s.pcs[j].Writing?)
    && (forall i :: 0 <= i < |s.pcs| && s.pcs[i].HasKey? ==> s.file == Whole(s.pcs[i].key))
  }

  lemma StepKeepsInvariant(s: State, s': State, i: nat)
    requires Invariant(s) && StepBy(s, s', i)
    ensures Invariant(s')
  {
  }

  lemma {:induction false} TraceKeepsInvariant(states: seq<State>, n: nat)
    requires Trace(states) && n < |states|
    ensures Invariant(states[n])
  {
    if n > 0 {
      TraceKeepsInvariant(states, n - 1);
      if states[n] != states[n - 1] {
        var i :| StepBy(states[n - 1], states[n], i);
        StepKeepsInvariant(states[n - 1], states[n], i);
      }
    }
  }

  /** Every process that obtains a key through the file obtains the same key. */
  lemma KeysAgree(states: seq<State>, n: nat, i: nat, j: nat)
    requires Trace(states) && n < |states| && i < |states[n].pcs| && j < |states[n].pcs|
    requires states[n].pcs[i].HasKey? && states[n].pcs[j].HasKey?
    ensures states[n].pcs[i].key == states[n].pcs[j].key
    ensures states[n].file == Whole(states[n].pcs[i].key)
  {
    TraceKeepsInvariant(states, n);
  }

  /** A key, once in the file, stays. */
  lemma {:induction false} KeyStays(states: seq<State>, n: nat, m: nat)
    requires Trace(states) && n <= m < |states| && states[n].file.Whole?
    ensures states[m].file == states[n].file
    decreases m
  {
    if n < m {
      KeyStays(states, n, m - 1);
      TraceKeepsInvariant(states, m - 1);
      assert Step(states[m - 1], states[m]);
    }
  }

  ghost predicate NoWriter(s: State) {
    forall i :: 0 <= i < |s.pcs| ==> !s.pcs[i].Writing?
  }

  /**
   * A process that dies between creating the file and writing it leaves a file
   * no later process can use: no key is ever obtained again.
   */
  lemma {:induction false} AbandonedFileBlocksAll(states: seq<State>, n: nat, m: nat)
    requires Trace(states) && n <= m < |states|
    requires states[n].file.Partial? && NoWriter(states[n])
    ensures states[m].file.Partial? && NoWriter(states[m])
    ensures forall i :: 0 <= i < |states[m].pcs| ==> !states[m].pcs[i].HasKey?
    decreases m
  {
    TraceKeepsInvariant(states, m);
    if n < m {
      AbandonedFileBlocksAll(states, n, m - 1);
      assert Step(states[m - 1], states[m]);
    }
  }
}
