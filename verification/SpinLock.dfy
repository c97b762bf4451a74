/** The spinning reader/writer lock, as the steps of any number of threads. A load and the
    compare-and-swap that follows it are separate steps; other threads act in between. */
module SpinLocks {

  const WRITER: nat := 0x8000_0000

  /** The lock word. */
  type Word = n: nat | n < 2 * WRITER

  /** Where a thread is: outside, in the reader loop with a value loaded, or holding the lock. */
  datatype Pc = Outside | Loaded(e: Word) | Reading | Writing

  datatype State = State(word: Word, pcs: seq<Pc>)

  predicate Init(s: State) {
    s.word == 0 && forall t :: 0 <= t < |s.pcs| ==> s.pcs[t] == Outside
  }

  function Go(s: State, t: nat, pc: Pc, word: Word): State
    requires t < |s.pcs|
  {
    State(word, s.pcs[t := pc])
  }

  /** Load the word, keeping the reader bits. */
  ghost predicate LoadReaders(s: State, n: State, t: nat) {
    t < |s.pcs| && (s.pcs[t].Outside? || s.pcs[t].Loaded?) && n == Go(s, t, Loaded(s.word % WRITER), s.word)
  }

  /** Swap in one more reader; succeeds only if the word is what was loaded. */
  ghost predicate EnterReader(s: State, n: State, t: nat) {
    t < |s.pcs| && s.pcs[t].Loaded? && s.word == s.pcs[t].e && n == Go(s, t, Reading, (s.word + 1) % (2 * WRITER))
  }

  /** A swap that fails, for a changed word or for no reason, starts the loop again. */
  ghost predicate FailReader(s: State, n: State, t: nat) {
    t < |s.pcs| && s.pcs[t].Loaded? && n == Go(s, t, Outside, s.word)
  }

  ghost predicate LeaveReader(s: State, n: State, t: nat) {
    t < |s.pcs| && s.pcs[t].Reading? && n == Go(s, t, Outside, (s.word - 1) % (2 * WRITER))
  }

  /** Swap in the writer bit; succeeds only on a word of zero. */
  ghost predicate EnterWriter(s: State, n: State, t: nat) {
    t < |s.pcs| && s.pcs[t].Outside? && s.word == 0 && n == Go(s, t, Writing, WRITER)
  }

  /** Clear the writer bit. */
  ghost predicate LeaveWriter(s: State, n: State, t: nat) {
    t < |s.pcs| && s.pcs[t].Writing? && n == Go(s, t, Outside, s.word % WRITER)
  }

  ghost predicate Step(s: State, n: State, t: nat) {
    || LoadReaders(s, n, t)
    || EnterReader(s, n, t)
    || FailReader(s, n, t)
    || LeaveReader(s, n, t)
    || EnterWriter(s, n, t)
    || LeaveWriter(s, n, t)
  }

  /** Some thread takes a step. */
  ghost predicate Next(s: State, n: State) {
    exists t :: Step(s, n, t)
  }

  function Readers(pcs: seq<Pc>): nat {
    if pcs == [] then 0 else Readers(pcs[..|pcs| - 1]) + if pcs[|pcs| - 1] == Reading then 1 else 0
  }

  function Writers(pcs: seq<Pc>): nat {
    if pcs == [] then 0 else Writers(pcs[..|pcs| - 1]) + if pcs[|pcs| - 1] == Writing then 1 else 0
  }

  /** The word says how many threads hold the lock and how, and a writer is alone. */
  ghost predicate Inv(s: State) {
    && s.word == Readers(s.pcs) + WRITER * Writers(s.pcs)
    && Writers(s.pcs) <= 1
    && (Writers(s.pcs) == 1 ==> Readers(s.pcs) == 0)
    && forall t :: 0 <= t < |s.pcs| && s.pcs[t].Loaded? ==> s.pcs[t].e < WRITER
  }

  function One(b: bool): nat {
    if b then 1 else 0
  }

  /** One thread moving changes the counts by that thread alone. */
  lemma {:induction false} CountMove(pcs: seq<Pc>, t: nat, pc: Pc)
    requires t < |pcs|
    ensures Readers(pcs[t := pc]) == Readers(pcs) - One(pcs[t] == Reading) + One(pc == Reading)
    ensures Writers(pcs[t := pc]) == Writers(pcs) - One(pcs[t] == Writing) + One(pc == Writing)
    ensures pcs[t] == Reading ==> 0 < Readers(pcs)
    ensures pcs[t] == Writing ==> 0 < Writers(pcs)
  {
    var n := |pcs| - 1;
    var moved := pcs[t := pc];
    if t < n {
      CountMove(pcs[..n], t, pc);
      assert moved[..n] == pcs[..n][t := pc];
    } else {
      assert moved[..n] == pcs[..n];
    }
  }

  lemma {:induction false} NobodyInside(pcs: seq<Pc>)
    requires forall t :: 0 <= t < |pcs| ==> pcs[t] == Outside
    ensures Readers(pcs) == 0 && Writers(pcs) == 0
  {
    if pcs != [] {
      NobodyInside(pcs[..|pcs| - 1]);
    }
  }

  /** Every step of every thread keeps the invariant. */
  lemma StepKeepsInv(s: State, n: State, t: nat)
    requires Inv(s) && Step(s, n, t)
    ensures Inv(n)
  {
    hide Readers, Writers;
    CountMove(s.pcs, t, n.pcs[t]);
  }

  /** A run: each state follows from the one before by a step of some thread. */
  ghost predicate Run(states: seq<State>) {
    && states != []
    && Init(states[0])
    && forall i :: 0 <= i < |states| - 1 ==> Next(states[i], states[i + 1])
  }

  /** However many threads there are and however their steps interleave, the word is the number of
      readers plus the writer bit, and there is at most one writer, never together with a reader. */
  lemma {:induction false} AlwaysExact(states: seq<State>)
    requires Run(states)
    ensures Inv(states[|states| - 1])
  {
    hide Inv, Step, Init;
    var n := |states| - 1;
    if n == 0 {
      StartsWell(states[0]);
    } else {
      var before := states[..n];
      forall i | 0 <= i < n - 1 ensures Next(before[i], before[i + 1]) {
        assert Next(states[i], states[i + 1]);
      }
      AlwaysExact(before);
      assert Next(states[n - 1], states[n - 1 + 1]);
      var t :| Step(states[n - 1], states[n], t);
      StepKeepsInv(states[n - 1], states[n], t);
    }
  }

  lemma StartsWell(s: State)
    requires Init(s)
    ensures Inv(s)
  {
    hide Readers, Writers;
    NobodyInside(s.pcs);
  }

  /** A load is always possible for a thread that does not hold the lock, and it does not see the writer
      bit. */
  lemma LoadsExactly(s: State, t: nat)
    ensures (exists n :: LoadReaders(s, n, t)) <==> t < |s.pcs| && (s.pcs[t].Outside? || s.pcs[t].Loaded?)
    ensures forall n :: LoadReaders(s, n, t) ==>
              t < |n.pcs| && n.pcs[t] == Loaded(if s.word < WRITER then s.word else s.word - WRITER)
  {
    if t < |s.pcs| && (s.pcs[t].Outside? || s.pcs[t].Loaded?) {
      assert LoadReaders(s, Go(s, t, Loaded(s.word % WRITER), s.word), t);
    }
  }

  /** A reader can enter exactly when the word is still what it loaded, also beside other readers; then there
      is one reader more, and nobody else moves. */
  lemma ReaderEntersExactly(s: State, t: nat)
    requires Inv(s)
    ensures (exists n :: EnterReader(s, n, t)) <==> t < |s.pcs| && s.pcs[t] == Loaded(s.word)
    ensures forall n :: EnterReader(s, n, t) ==>
              Next(s, n) && n == State(s.word + 1, s.pcs[t := Reading]) && Readers(n.pcs) == Readers(s.pcs) + 1
  {
    hide Readers, Writers;
    if t < |s.pcs| && s.pcs[t] == Loaded(s.word) {
      assert Step(s, Go(s, t, Reading, (s.word + 1) % (2 * WRITER)), t);
      CountMove(s.pcs, t, Reading);
    }
  }

  /** A writer can enter exactly when the word is zero, and somebody who holds the lock can always leave. */
  lemma WriterEntersExactly(s: State, t: nat)
    requires Inv(s)
    ensures 2 * WRITER == 0x1_0000_0000
    ensures (exists n :: EnterWriter(s, n, t)) <==> t < |s.pcs| && s.pcs[t] == Outside && s.word == 0
    ensures (exists n :: LeaveWriter(s, n, t)) <==> t < |s.pcs| && s.pcs[t] == Writing
    ensures (exists n :: LeaveReader(s, n, t)) <==> t < |s.pcs| && s.pcs[t] == Reading
    ensures forall n :: LeaveWriter(s, n, t) ==> n == State(0, s.pcs[t := Outside])
    ensures forall n :: LeaveReader(s, n, t) ==> n.word + 1 == s.word && n.pcs == s.pcs[t := Outside]
  {
    hide Readers, Writers;
    if t < |s.pcs| {
      CountMove(s.pcs, t, Outside);
      if s.pcs[t] == Outside && s.word == 0 {
        assert EnterWriter(s, Go(s, t, Writing, WRITER), t);
      }
      if s.pcs[t] == Writing {
        assert LeaveWriter(s, Go(s, t, Outside, s.word % WRITER), t);
      }
      if s.pcs[t] == Reading {
        assert LeaveReader(s, Go(s, t, Outside, (s.word - 1) % (2 * WRITER)), t);
      }
    }
  }

  /** A thread that writes is alone. */
  lemma WriterAlone(s: State, t: nat, u: nat)
    requires Inv(s) && t < |s.pcs| && u < |s.pcs| && t != u && s.pcs[t] == Writing
    ensures s.pcs[u] != Reading && s.pcs[u] != Writing
  {
    hide Readers, Writers;
    CountMove(s.pcs, t, Outside);
    CountMove(s.pcs, u, Outside);
    CountMove(s.pcs[t := Outside], u, Outside);
  }

  /** The lock is open to a writer exactly when nobody holds it. */
  lemma OpenExactly(s: State)
    requires Inv(s)
    ensures s.word == 0 <==> forall t :: 0 <= t < |s.pcs| ==> s.pcs[t] != Reading && s.pcs[t] != Writing
  {
    hide Readers, Writers;
    forall t | 0 <= t < |s.pcs| && (s.pcs[t] == Reading || s.pcs[t] == Writing) ensures s.word != 0 {
      CountMove(s.pcs, t, Outside);
    }
    if forall t :: 0 <= t < |s.pcs| ==> s.pcs[t] != Reading && s.pcs[t] != Writing {
      NobodyHolds(s.pcs);
    }
  }

  lemma {:induction false} NobodyHolds(pcs: seq<Pc>)
    requires forall t :: 0 <= t < |pcs| ==> pcs[t] != Reading && pcs[t] != Writing
    ensures Readers(pcs) == 0 && Writers(pcs) == 0
  {
    if pcs != [] {
      NobodyHolds(pcs[..|pcs| - 1]);
    }
  }
}
