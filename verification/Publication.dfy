/** The double-buffered job heap: one submitter builds the next heap out of the lock and swaps it in
    under the writer lock; any number of workers copy the current one under the reader lock, entry by
    entry. Thread 0 of the lock is the submitter, thread `w + 1` is worker `w`. */
module Publication {
  import Spin = SpinLocks
  import opened PriorityHeaps

  /** Where the submitter is: between submissions, writing the heap nobody reads, done with that,
      and then, with the lock, before the swap, after it, and after the new job number is stored. */
  datatype Sub = Idle | Building | Ready | Entered | Swapped | Stored

  /** Where a worker is: without the lock, about to compare job numbers, with `k` entries copied, and
      about to leave. */
  datatype Phase = Away | Checking | Copying(k: nat) | Leaving

  /** A worker with its own heap, the job number it recorded, and the heap as it was when it did. */
  datatype Worker = Worker(phase: Phase, local: seq<Node>, maxId: nat, copied: seq<Node>)

  /** `history[id]` is the heap that was published with job number `id`. */
  datatype State = State(lock: Spin.State, left: seq<Node>, right: seq<Node>, readLeft: bool, jobId: nat,
                         sub: Sub, workers: seq<Worker>, history: seq<seq<Node>>)
  {
    function ReadHeap(): seq<Node> {
      if readLeft then left else right
    }

    function WriteHeap(): seq<Node> {
      if readLeft then right else left
    }
  }

  ghost predicate Init(s: State) {
    && Spin.Init(s.lock)
    && |s.lock.pcs| == |s.workers| + 1
    && s.left == [] && s.right == []
    && s.jobId == 0 && s.sub == Idle && s.history == [[]]
    && forall w :: 0 <= w < |s.workers| ==> s.workers[w] == Worker(Away, [], 0, [])
  }

  // What the submitter does

  /** Write anything to the heap that is not being read. */
  ghost predicate Scribble(s: State, n: State) {
    && (s.sub == Idle || s.sub == Building)
    && exists h :: n == (if s.readLeft then s.(right := h, sub := Building) else s.(left := h, sub := Building))
  }

  /** The new heap is complete: what a submission builds out of the heap that is read. */
  ghost predicate Finish(s: State, n: State) {
    s.sub == Building && NextHeap(s.ReadHeap(), s.WriteHeap()) && n == s.(sub := Ready)
  }

  ghost predicate LockHeap(s: State, n: State) {
    && s.sub == Ready
    && |s.lock.pcs| > 0
    && Spin.EnterWriter(s.lock, n.lock, 0)
    && n == s.(sub := Entered, lock := n.lock)
  }

  ghost predicate Swap(s: State, n: State) {
    s.sub == Entered && n == s.(sub := Swapped, readLeft := !s.readLeft)
  }

  ghost predicate StoreId(s: State, n: State) {
    s.sub == Swapped && n == s.(sub := Stored, jobId := s.jobId + 1, history := s.history + [s.ReadHeap()])
  }

  ghost predicate UnlockHeap(s: State, n: State) {
    s.sub == Stored && |s.lock.pcs| > 0 && Spin.LeaveWriter(s.lock, n.lock, 0) && n == s.(sub := Idle, lock := n.lock)
  }

  ghost predicate SubmitterStep(s: State, n: State) {
    Scribble(s, n) || Finish(s, n) || LockHeap(s, n) || Swap(s, n) || StoreId(s, n) || UnlockHeap(s, n)
  }

  // What worker `w` does

  function Set(s: State, w: nat, worker: Worker, lock: Spin.State): State
    requires w < |s.workers|
  {
    s.(workers := s.workers[w := worker], lock := lock)
  }

  /** The reader loop of the lock, up to the swap that succeeds. */
  ghost predicate Spins(s: State, n: State, w: nat) {
    && w < |s.workers|
    && s.workers[w].phase == Away
    && (Spin.LoadReaders(s.lock, n.lock, w + 1) || Spin.FailReader(s.lock, n.lock, w + 1))
    && n == Set(s, w, s.workers[w], n.lock)
  }

  ghost predicate Enter(s: State, n: State, w: nat) {
    && w < |s.workers|
    && s.workers[w].phase == Away
    && Spin.EnterReader(s.lock, n.lock, w + 1)
    && n == Set(s, w, s.workers[w].(phase := Checking), n.lock)
  }

  /** A newer job number starts a copy: the length first, the entries not yet. */
  ghost predicate Check(s: State, n: State, w: nat) {
    && w < |s.workers|
    && s.workers[w].phase == Checking
    && if s.jobId > s.workers[w].maxId
       then exists h :: |h| == |s.ReadHeap()| && n == Set(s, w, s.workers[w].(phase := Copying(0), local := h), s.lock)
       else n == Set(s, w, s.workers[w].(phase := Leaving), s.lock)
  }

  /** Loading entry `k` of a heap gives `x`; past the end it gives anything. */
  ghost predicate Loads(heap: seq<Node>, k: nat, x: Node) {
    k < |heap| ==> x == heap[k]
  }

  /** Copy one entry of whatever heap is current now. */
  ghost predicate CopyOne(s: State, n: State, w: nat) {
    && w < |s.workers|
    && var me := s.workers[w];
    && me.phase.Copying?
    && var k := me.phase.k;
    && k < |me.local|
    && exists x :: Loads(s.ReadHeap(), k, x)
                   && n == Set(s, w, me.(phase := Copying(k + 1), local := me.local[k := x]), s.lock)
  }

  /** All entries are copied: record the job number as it is now. */
  ghost predicate Record(s: State, n: State, w: nat) {
    && w < |s.workers|
    && var me := s.workers[w];
    && me.phase.Copying?
    && me.phase.k == |me.local|
    && n == Set(s, w, me.(phase := Leaving, maxId := s.jobId, copied := me.local), s.lock)
  }

  ghost predicate Leave(s: State, n: State, w: nat) {
    && w < |s.workers|
    && s.workers[w].phase == Leaving
    && Spin.LeaveReader(s.lock, n.lock, w + 1)
    && n == Set(s, w, s.workers[w].(phase := Away), n.lock)
  }

  /** Without the lock, a worker changes its own heap at will. */
  ghost predicate Drain(s: State, n: State, w: nat) {
    && w < |s.workers|
    && s.workers[w].phase == Away
    && exists h :: n == Set(s, w, s.workers[w].(local := h), s.lock)
  }

  ghost predicate WorkerStep(s: State, n: State, w: nat) {
    || Spins(s, n, w)
    || Enter(s, n, w)
    || Check(s, n, w)
    || CopyOne(s, n, w)
    || Record(s, n, w)
    || Leave(s, n, w)
    || Drain(s, n, w)
  }

  ghost predicate Next(s: State, n: State) {
    SubmitterStep(s, n) || exists w :: WorkerStep(s, n, w)
  }

  // The invariant

  predicate Inside(sub: Sub) {
    sub == Entered || sub == Swapped || sub == Stored
  }

  /** The submitter holds the writer lock exactly between its swap of the lock word and its release;
      the readable heap is the one last published, except in between. */
  ghost predicate SubmitterInv(s: State) {
    && Spin.Inv(s.lock)
    && |s.lock.pcs| == |s.workers| + 1
    && (s.lock.pcs[0] == Spin.Writing <==> Inside(s.sub))
    && (s.lock.pcs[0] == Spin.Writing || s.lock.pcs[0] == Spin.Outside)
    && |s.history| == s.jobId + 1
    && (s.sub != Swapped ==> s.ReadHeap() == s.history[s.jobId])
    && (s.sub == Ready || s.sub == Entered ==> NextHeap(s.ReadHeap(), s.WriteHeap()))
    && (s.sub == Swapped ==> NextHeap(s.history[s.jobId], s.ReadHeap()))
    && s.history[0] == []
    && forall id :: 0 <= id < s.jobId ==> NextHeap(s.history[id], s.history[id + 1])
  }

  /** A worker holds the reader lock exactly while it compares and copies; what it has copied so far
      is the start of the readable heap, and what it recorded was published under that number. */
  ghost predicate WorkerInv(s: State, w: nat)
    requires w < |s.workers| && |s.lock.pcs| == |s.workers| + 1 && |s.history| == s.jobId + 1
  {
    var me := s.workers[w];
    && s.lock.pcs[w + 1] != Spin.Writing
    && (s.lock.pcs[w + 1] == Spin.Reading <==> me.phase != Away)
    && (me.phase.Copying? ==>
          && me.phase.k <= |me.local| == |s.ReadHeap()|
          && forall j :: 0 <= j < me.phase.k ==> me.local[j] == s.ReadHeap()[j])
    && me.maxId <= s.jobId
    && me.copied == s.history[me.maxId]
    && (me.phase == Leaving ==> me.maxId == s.jobId)
  }

  ghost predicate Inv(s: State) {
    SubmitterInv(s) && forall w :: 0 <= w < |s.workers| ==> WorkerInv(s, w)
  }

  /** While a worker is inside, the submitter is not. */
  lemma NotBothInside(s: State, w: nat)
    requires SubmitterInv(s) && w < |s.workers| && s.lock.pcs[w + 1] == Spin.Reading
    ensures !Inside(s.sub)
  {
    hide Spin.Inv;
    if s.lock.pcs[0] == Spin.Writing {
      Spin.WriterAlone(s.lock, 0, w + 1);
    }
  }

  lemma SubmitterKeepsInv(s: State, n: State)
    requires Inv(s) && SubmitterStep(s, n)
    ensures Inv(n)
  {
    hide NextHeap, Spin.Inv;
    if s.lock != n.lock {
      Spin.StepKeepsInv(s.lock, n.lock, 0);
    }
    forall w | 0 <= w < |s.workers| ensures WorkerInv(n, w) {
      assert WorkerInv(s, w);
      if s.lock.pcs[w + 1] == Spin.Reading {
        NotBothInside(s, w);
      }
    }
  }

  /** Everything but worker `w` and its place in the lock is as it was. */
  ghost predicate OnlyWorker(s: State, n: State, w: nat)
    requires w < |s.workers| && |s.lock.pcs| == |s.workers| + 1
  {
    && n == s.(workers := n.workers, lock := n.lock)
    && |n.workers| == |s.workers| && |n.lock.pcs| == |s.lock.pcs|
    && (forall v :: 0 <= v < |s.workers| && v != w ==> n.workers[v] == s.workers[v])
    && (forall t :: 0 <= t < |s.lock.pcs| && t != w + 1 ==> n.lock.pcs[t] == s.lock.pcs[t])
    && (n.lock == s.lock || Spin.Step(s.lock, n.lock, w + 1))
  }

  lemma WorkerFrame(s: State, n: State, w: nat)
    requires WorkerStep(s, n, w) && |s.lock.pcs| == |s.workers| + 1
    ensures w < |s.workers| && OnlyWorker(s, n, w)
  {
    hide State.ReadHeap, Loads;
  }

  lemma WorkerKeepsSubmitter(s: State, n: State, w: nat)
    requires SubmitterInv(s) && w < |s.workers| && OnlyWorker(s, n, w)
    ensures SubmitterInv(n)
  {
    hide NextHeap, Spin.Inv, Spin.Step;
    if n.lock != s.lock {
      Spin.StepKeepsInv(s.lock, n.lock, w + 1);
    }
  }

  lemma WorkerKeepsOthers(s: State, n: State, w: nat, v: nat)
    requires Inv(s) && w < |s.workers| && OnlyWorker(s, n, w) && v < |s.workers| && v != w
    ensures WorkerInv(n, v)
  {
    hide NextHeap, Spin.Inv, Spin.Step;
    assert WorkerInv(s, v);
  }

  lemma WorkerKeepsOwn(s: State, n: State, w: nat)
    requires Inv(s) && WorkerStep(s, n, w) && w < |s.workers| && OnlyWorker(s, n, w)
    ensures WorkerInv(n, w)
  {
    hide NextHeap, Spin.Inv, Enter, Check, CopyOne, Record, Leave, Drain, Spins, OnlyWorker, WorkerInv;
    if Spins(s, n, w) || Enter(s, n, w) || Leave(s, n, w) || Drain(s, n, w) {
      KeepsOwnOutside(s, n, w);
    } else if Check(s, n, w) || Record(s, n, w) {
      KeepsOwnInside(s, n, w);
    } else {
      KeepsOwnCopy(s, n, w);
    }
  }

  lemma KeepsOwnOutside(s: State, n: State, w: nat)
    requires Inv(s) && w < |s.workers|
    requires Spins(s, n, w) || Enter(s, n, w) || Leave(s, n, w) || Drain(s, n, w)
    ensures |n.workers| == |s.workers| && |n.lock.pcs| == |n.workers| + 1 && |n.history| == n.jobId + 1
    ensures WorkerInv(n, w)
  {
    hide NextHeap, Spin.Inv, State.ReadHeap;
    assert WorkerInv(s, w);
  }

  lemma KeepsOwnInside(s: State, n: State, w: nat)
    requires Inv(s) && w < |s.workers| && (Check(s, n, w) || Record(s, n, w))
    ensures |n.workers| == |s.workers| && |n.lock.pcs| == |n.workers| + 1 && |n.history| == n.jobId + 1
    ensures WorkerInv(n, w)
  {
    hide NextHeap, Spin.Inv;
    assert WorkerInv(s, w);
    NotBothInside(s, w);
    assert s.ReadHeap() == s.history[s.jobId] && n.ReadHeap() == s.ReadHeap();
    var me := s.workers[w];
    if Record(s, n, w) {
      assert me.local == s.ReadHeap();
    }
  }

  lemma KeepsOwnCopy(s: State, n: State, w: nat)
    requires Inv(s) && w < |s.workers| && CopyOne(s, n, w)
    ensures |n.workers| == |s.workers| && |n.lock.pcs| == |n.workers| + 1 && |n.history| == n.jobId + 1
    ensures WorkerInv(n, w)
  {
    hide NextHeap, Spin.Inv;
    assert WorkerInv(s, w);
    assert n.ReadHeap() == s.ReadHeap();
  }

  lemma NextKeepsInv(s: State, n: State)
    requires Inv(s) && Next(s, n)
    ensures Inv(n)
  {
    hide SubmitterInv, WorkerInv, SubmitterStep, WorkerStep, Inv;
    if SubmitterStep(s, n) {
      SubmitterKeepsInv(s, n);
    } else {
      var w :| WorkerStep(s, n, w);
      WorkerKeepsInv(s, n, w);
    }
  }

  lemma WorkerKeepsInv(s: State, n: State, w: nat)
    requires Inv(s) && WorkerStep(s, n, w)
    ensures Inv(n)
  {
    hide WorkerInv, Spin.Inv, NextHeap, WorkerStep;
    WorkerFrame(s, n, w);
    WorkerKeepsSubmitter(s, n, w);
    WorkerKeepsOwn(s, n, w);
    forall v | 0 <= v < |n.workers| ensures WorkerInv(n, v) {
      if v != w {
        WorkerKeepsOthers(s, n, w, v);
      }
    }
  }

  ghost predicate Run(states: seq<State>) {
    && states != []
    && Init(states[0])
    && forall i :: 0 <= i < |states| - 1 ==> Next(states[i], states[i + 1])
  }

  lemma {:induction false} RunKeepsInv(states: seq<State>)
    requires Run(states)
    ensures Inv(states[|states| - 1])
  {
    hide Init, Next, Inv;
    var n := |states| - 1;
    if n == 0 {
      StartsWell(states[0]);
    } else {
      var before := states[..n];
      forall i | 0 <= i < n - 1 ensures Next(before[i], before[i + 1]) {
        assert Next(states[i], states[i + 1]);
      }
      RunKeepsInv(before);
      assert Next(states[n - 1], states[n - 1 + 1]);
      NextKeepsInv(states[n - 1], states[n]);
    }
  }

  lemma StartsWell(s: State)
    requires Init(s)
    ensures Inv(s)
  {
    hide Spin.Inv;
    Spin.StartsWell(s.lock);
  }

  /** Under every interleaving, the heap a worker copied is a whole heap in order, and the very one
      published with the job number the worker recorded: never one under construction, never a mix. */
  lemma CopiesArePublished(states: seq<State>, w: nat)
    requires Run(states) && w < |states[|states| - 1].workers|
    ensures var s := states[|states| - 1];
            && s.workers[w].maxId < |s.history|
            && s.workers[w].copied == s.history[s.workers[w].maxId]
            && Ordered(s.workers[w].copied)
  {
    hide Init, Next, Spin.Inv, Ordered, NextHeap;
    RunKeepsInv(states);
    var s := states[|states| - 1];
    assert WorkerInv(s, w);
    PublishedOrdered(s, s.workers[w].maxId);
  }

  /** A worker never leaves with an old heap: when it has compared, or copied, it has recorded the newest job
      number, and the heap published under it. */
  lemma LeavesUpToDate(states: seq<State>, w: nat)
    requires Run(states) && w < |states[|states| - 1].workers| && states[|states| - 1].workers[w].phase == Leaving
    ensures var s := states[|states| - 1];
            var me := s.workers[w];
            && me.maxId == s.jobId && s.jobId < |s.history| && me.copied == s.history[s.jobId]
  {
    hide Init, Next, Spin.Inv, NextHeap;
    RunKeepsInv(states);
    assert WorkerInv(states[|states| - 1], w);
  }

  /** The comparison: with the newest number recorded a worker keeps its own heap and leaves, with an older
      one it starts to copy. */
  lemma ChecksExactly(s: State, n: State, w: nat)
    requires Inv(s) && WorkerStep(s, n, w) && s.workers[w].phase == Checking
    ensures n.workers[w].phase == if s.workers[w].maxId == s.jobId then Leaving else Copying(0)
    ensures s.workers[w].maxId == s.jobId ==> n.workers[w] == s.workers[w].(phase := Leaving)
  {
    hide NextHeap, Spin.Inv;
    assert WorkerInv(s, w);
  }

  /** Once all entries are copied, the worker's own heap is the one it records. */
  lemma RecordsNewest(s: State, n: State, w: nat)
    requires Inv(s) && WorkerStep(s, n, w) && s.workers[w].phase.Copying? && n.workers[w].phase == Leaving
    ensures n.workers[w].local == n.workers[w].copied == s.history[s.jobId] && n.workers[w].maxId == s.jobId
  {
    hide NextHeap, Spin.Inv;
    assert WorkerInv(s, w);
    NotBothInside(s, w);
    assert s.workers[w].local == s.ReadHeap();
  }

  // ------------------------------------------------------------------
  // The steps can be taken
  // ------------------------------------------------------------------

  /** One state after another by steps of worker `w` alone. */
  ghost predicate WorkerRun(states: seq<State>, w: nat) {
    states != [] && forall i :: 0 <= i < |states| - 1 ==> WorkerStep(states[i], states[i + 1], w)
  }

  /** Copy what is left, entry by entry. */
  lemma {:induction false} CopiesRest(s: State, w: nat) returns (states: seq<State>)
    requires Inv(s) && w < |s.workers| && s.workers[w].phase.Copying?
    ensures WorkerRun(states, w) && states[0] == s
    ensures var n := states[|states| - 1];
            && Inv(n) && w < |n.workers| && n.jobId == s.jobId && n.history == s.history && n.lock == s.lock && n.sub == s.sub
            && n.workers[w].phase.Copying? && n.workers[w].phase.k == |n.workers[w].local|
    decreases |s.workers[w].local| - s.workers[w].phase.k
  {
    hide NextHeap, Spin.Inv, Inv;
    InvWorker(s, w);
    var me := s.workers[w];
    states := [s];
    if me.phase.k < |me.local| {
      var x := s.ReadHeap()[me.phase.k];
      var n := Set(s, w, me.(phase := Copying(me.phase.k + 1), local := me.local[me.phase.k := x]), s.lock);
      assert Loads(s.ReadHeap(), me.phase.k, x);
      assert CopyOne(s, n, w);
      WorkerKeepsInv(s, n, w);
      var rest := CopiesRest(n, w);
      states := Joined(s, rest, w);
    }
  }

  lemma InvWorker(s: State, w: nat)
    requires Inv(s) && w < |s.workers|
    ensures SubmitterInv(s) && WorkerInv(s, w)
  {
  }

  lemma Joined(s: State, rest: seq<State>, w: nat) returns (states: seq<State>)
    requires WorkerRun(rest, w) && WorkerStep(s, rest[0], w)
    ensures WorkerRun(states, w) && states[0] == s && states[|states| - 1] == rest[|rest| - 1]
  {
    hide WorkerStep;
    states := [s] + rest;
    forall i | 0 <= i < |states| - 1 ensures WorkerStep(states[i], states[i + 1], w) {
      if i > 0 {
        assert states[i] == rest[i - 1] && states[i + 1] == rest[i];
      }
    }
  }

  /** Whenever fewer than 2^31 readers and no writer hold the lock, a worker can go in, and comes out with the
      newest heap recorded; its own heap is that one if it had an older one. */
  lemma Fetches(s: State, w: nat) returns (states: seq<State>)
    requires Inv(s) && w < |s.workers| && s.workers[w].phase == Away && s.lock.word < Spin.WRITER
    ensures WorkerRun(states, w) && states[0] == s
    ensures var n := states[|states| - 1];
            && Inv(n) && w < |n.workers| && n.history == s.history && n.jobId == s.jobId
            && var me := n.workers[w];
            && me.phase == Away && me.maxId == s.jobId && me.copied == s.history[s.jobId]
            && me.local == if s.workers[w].maxId < s.jobId then s.history[s.jobId] else s.workers[w].local
  {
    hide NextHeap, Spin.Inv, Inv, WorkerStep;
    var a := GoesIn(s, w);
    var b := Compares(a[2], w);
    var c := GoesOut(b[|b| - 1], w);
    states := Chained(a, b, w);
    states := Chained(states, c, w);
  }

  lemma Chained(a: seq<State>, b: seq<State>, w: nat) returns (states: seq<State>)
    requires WorkerRun(a, w) && WorkerRun(b, w) && a[|a| - 1] == b[0]
    ensures WorkerRun(states, w) && states[0] == a[0] && states[|states| - 1] == b[|b| - 1]
  {
    hide WorkerStep;
    states := a + b[1..];
    forall i | 0 <= i < |states| - 1 ensures WorkerStep(states[i], states[i + 1], w) {
      if i < |a| - 1 {
        assert states[i] == a[i] && states[i + 1] == a[i + 1];
      } else {
        assert states[i] == b[i - (|a| - 1)] && states[i + 1] == b[i + 1 - (|a| - 1)];
      }
    }
  }

  lemma GoesIn(s: State, w: nat) returns (states: seq<State>)
    requires Inv(s) && w < |s.workers| && s.workers[w].phase == Away && s.lock.word < Spin.WRITER
    ensures |states| == 3 && WorkerRun(states, w) && states[0] == s
    ensures var n := states[2];
            && Inv(n) && n.history == s.history && n.jobId == s.jobId
            && n.workers == s.workers[w := s.workers[w].(phase := Checking)]
  {
    hide NextHeap, Spin.Inv, Inv;
    InvWorker(s, w);
    var word := s.lock.word;
    var loaded := Spin.Go(s.lock, w + 1, Spin.Loaded(word % Spin.WRITER), word);
    var s1 := Set(s, w, s.workers[w], loaded);
    assert Spins(s, s1, w);
    WorkerKeepsInv(s, s1, w);
    var s2 := Set(s1, w, s.workers[w].(phase := Checking), Spin.Go(loaded, w + 1, Spin.Reading, (word + 1) % (2 * Spin.WRITER)));
    assert Enter(s1, s2, w);
    WorkerKeepsInv(s1, s2, w);
    states := [s, s1, s2];
  }

  lemma Compares(s: State, w: nat) returns (states: seq<State>)
    requires Inv(s) && w < |s.workers| && s.workers[w].phase == Checking
    ensures WorkerRun(states, w) && states[0] == s
    ensures var n := states[|states| - 1];
            && Inv(n) && w < |n.workers| && n.history == s.history && n.jobId == s.jobId
            && n.workers[w].phase == Leaving
            && n.workers[w].local == if s.workers[w].maxId < s.jobId then s.history[s.jobId] else s.workers[w].local
  {
    hide NextHeap, Spin.Inv, Inv;
    InvWorker(s, w);
    var me := s.workers[w];
    if me.maxId < s.jobId {
      var s1 := Set(s, w, me.(phase := Copying(0), local := s.ReadHeap()), s.lock);
      assert Check(s, s1, w);
      WorkerKeepsInv(s, s1, w);
      var rest := CopiesRest(s1, w);
      var s2 := rest[|rest| - 1];
      var s3 := Set(s2, w, s2.workers[w].(phase := Leaving, maxId := s2.jobId, copied := s2.workers[w].local), s2.lock);
      assert Record(s2, s3, w);
      WorkerKeepsInv(s2, s3, w);
      RecordsNewest(s2, s3, w);
      states := Joined(s, rest, w);
      states := Chained(states, [s2, s3], w);
    } else {
      var s1 := Set(s, w, me.(phase := Leaving), s.lock);
      assert Check(s, s1, w);
      WorkerKeepsInv(s, s1, w);
      states := [s, s1];
    }
  }

  lemma GoesOut(s: State, w: nat) returns (states: seq<State>)
    requires Inv(s) && w < |s.workers| && s.workers[w].phase == Leaving
    ensures WorkerRun(states, w) && states[0] == s
    ensures var n := states[|states| - 1];
            && Inv(n) && w < |n.workers| && n.history == s.history && n.jobId == s.jobId
            && n.workers[w] == s.workers[w].(phase := Away)
            && n.workers[w].maxId == s.jobId && n.workers[w].copied == s.history[s.jobId]
  {
    hide NextHeap, Spin.Inv, Inv;
    InvWorker(s, w);
    var n := Set(s, w, s.workers[w].(phase := Away), Spin.Go(s.lock, w + 1, Spin.Outside, (s.lock.word - 1) % (2 * Spin.WRITER)));
    assert Leave(s, n, w);
    WorkerKeepsInv(s, n, w);
    states := [s, n];
  }

  /** Whenever nobody holds the lock, the submitter can publish any heap that may follow: six steps, after
      which it is the one read, under the next job number. */
  lemma PublishesAny(s: State, h: seq<Node>) returns (states: seq<State>)
    requires Inv(s) && s.sub == Idle && s.lock.word == 0 && NextHeap(s.ReadHeap(), h)
    ensures |states| == 7 && states[0] == s && forall i :: 0 <= i < 6 ==> SubmitterStep(states[i], states[i + 1])
    ensures var n := states[6];
            && n.sub == Idle && n.jobId == s.jobId + 1 && n.history == s.history + [h] && n.ReadHeap() == h
            && n.workers == s.workers && n.lock.word == 0
  {
    hide NextHeap, Spin.Inv;
    var s1 := if s.readLeft then s.(right := h, sub := Building) else s.(left := h, sub := Building);
    assert Scribble(s, s1);
    var s2 := s1.(sub := Ready);
    assert Finish(s1, s2);
    var s3 := s2.(sub := Entered, lock := Spin.Go(s.lock, 0, Spin.Writing, Spin.WRITER));
    SubmitterOutside(s);
    assert LockHeap(s2, s3);
    var s4 := s3.(sub := Swapped, readLeft := !s3.readLeft);
    assert Swap(s3, s4);
    var s5 := s4.(sub := Stored, jobId := s4.jobId + 1, history := s4.history + [s4.ReadHeap()]);
    assert StoreId(s4, s5);
    var s6 := s5.(sub := Idle, lock := Spin.Go(s5.lock, 0, Spin.Outside, s5.lock.word % Spin.WRITER));
    assert UnlockHeap(s5, s6);
    states := [s, s1, s2, s3, s4, s5, s6];
  }

  /** Every run in which nobody holds the lock can go on so that any heap that may follow is published, and that a
      worker outside has it as its own. */
  lemma EveryHeapArrives(states: seq<State>, h: seq<Node>, w: nat) returns (longer: seq<State>)
    requires Run(states)
    requires var s := states[|states| - 1];
             s.sub == Idle && s.lock.word == 0 && NextHeap(s.ReadHeap(), h) && w < |s.workers| && s.workers[w].phase == Away
    ensures Run(longer) && states <= longer
    ensures var s, n := states[|states| - 1], longer[|longer| - 1];
            && n.jobId == s.jobId + 1 && n.history == s.history + [h]
            && w < |n.workers| && n.workers[w].phase == Away && n.workers[w].local == h && n.workers[w].maxId == n.jobId
  {
    hide Init, Next, Inv, NextHeap, SubmitterStep, WorkerStep;
    var s := states[|states| - 1];
    RunKeepsInv(states);
    InvWorker(s, w);
    var up := PublishesAny(s, h);
    forall i | 0 <= i < 6 ensures Next(up[i], up[i + 1]) {
      StepIsNext(up[i], up[i + 1], w);
    }
    longer := GoesOn(states, up);
    RunKeepsInv(longer);
    var down := Fetches(up[6], w);
    forall i | 0 <= i < |down| - 1 ensures Next(down[i], down[i + 1]) {
      StepIsNext(down[i], down[i + 1], w);
    }
    longer := GoesOn(longer, down);
  }

  lemma StepIsNext(s: State, n: State, w: nat)
    requires SubmitterStep(s, n) || WorkerStep(s, n, w)
    ensures Next(s, n)
  {
    hide SubmitterStep, WorkerStep;
  }

  lemma GoesOn(states: seq<State>, more: seq<State>) returns (longer: seq<State>)
    requires Run(states) && more != [] && more[0] == states[|states| - 1]
    requires forall i :: 0 <= i < |more| - 1 ==> Next(more[i], more[i + 1])
    ensures Run(longer) && states <= longer && longer[|longer| - 1] == more[|more| - 1]
  {
    hide Init, Next;
    longer := states + more[1..];
    forall i | 0 <= i < |longer| - 1 ensures Next(longer[i], longer[i + 1]) {
      if i < |states| - 1 {
        assert Next(states[i], states[i + 1]);
      } else {
        var j := i - (|states| - 1);
        assert longer[i] == more[j] && longer[i + 1] == more[j + 1];
      }
    }
  }

  lemma SubmitterOutside(s: State)
    requires Inv(s) && s.sub == Idle
    ensures |s.lock.pcs| > 0 && s.lock.pcs[0] == Spin.Outside
  {
  }

  /** Every heap a worker can copy is in order. */
  lemma PublishedOrdered(s: State, id: nat)
    requires SubmitterInv(s) && id <= s.jobId
    ensures Ordered(s.history[id])
  {
    hide Spin.Inv;
    if id > 0 {
      assert NextHeap(s.history[id - 1], s.history[id - 1 + 1]);
    }
  }

  /** In every run the first heap is empty and each later one is the one before it with some entries
      dropped and one added, in heap order. */
  lemma PublishedInSteps(states: seq<State>, id: nat)
    requires Run(states) && id < states[|states| - 1].jobId
    ensures var h := states[|states| - 1].history;
            && id + 1 < |h| && h[0] == []
            && NextHeap(h[id], h[id + 1])
  {
    hide Init, Next, Spin.Inv, NextHeap;
    RunKeepsInv(states);
  }

  /** What was published under a number stays what it was: the history only grows. */
  lemma HistoryGrows(s: State, n: State)
    requires Next(s, n)
    ensures s.history <= n.history
  {
    hide NextHeap;
  }
}
