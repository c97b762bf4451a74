/** The drain of the cache's ring while a worker pushes: one producer and one consumer interleaved at
    single loads and stores. */
module CacheDrain {
  import opened Trie
  import opened RingBuffers
  import opened Caches

  /** A push has yet to load the head, the tail, to write the slot, to store the head. */
  datatype PushPc = Resting | LoadTail | WriteSlot | StoreHead

  /** `seen` is how many entries were queued when the tail was loaded. */
  datatype Producer = Producer(pc: PushPc, val: Entry, h: nat, t: nat, seen: nat)

  /** The drain loads its stopping head, the tail, tests; a pop loads the head, the tail, reads the slot,
      stores the tail; the drain loads the tail again and inserts. */
  datatype DrainPc = Off | FirstTail | Test | PopHead | PopTail | PopRead | PopStore | LoadAgain | InsertEntry

  /** `goal` is how many pushes had been accepted when the stopping head was loaded. */
  datatype Consumer = Consumer(pc: DrainPc, stop: nat, goal: nat, h: nat, t: nat, entry: Entry)

  /** The ring, the tree as a map, who is where, and the accepted pushes and the pops so far. */
  datatype State = State(data: seq<Entry>, head: nat, tail: nat, tree: map<Key, Value>,
                         prod: Producer, cons: Consumer, pushed: seq<Entry>, popped: seq<Entry>)

  ghost predicate Init(s: State, base: map<Key, Value>) {
    && s.data != [] && s.head == 0 && s.tail == 0 && s.tree == base
    && s.prod.pc == Resting && s.cons.pc == Off && s.pushed == [] && s.popped == []
  }

  // The producer

  ghost predicate PushLoadHead(s: State, n: State) {
    s.prod.pc == Resting && exists v: Entry :: n == s.(prod := Producer(LoadTail, v, s.head, s.prod.t, s.prod.seen))
  }

  ghost predicate PushLoadTail(s: State, n: State) {
    && s.prod.pc == LoadTail && |s.popped| <= |s.pushed|
    && n == s.(prod := s.prod.(pc := WriteSlot, t := s.tail, seen := |s.pushed| - |s.popped|))
  }

  /** Write the slot if the ring did not look full; give up otherwise. */
  ghost predicate PushWrite(s: State, n: State) {
    && s.prod.pc == WriteSlot
    && s.prod.h < |s.data|
    && n == if After(s.prod.h, |s.data|) != s.prod.t
            then s.(prod := s.prod.(pc := StoreHead), data := s.data[s.prod.h := s.prod.val])
            else s.(prod := s.prod.(pc := Resting))
  }

  /** The push is accepted. */
  ghost predicate PushStore(s: State, n: State) {
    && s.prod.pc == StoreHead
    && s.prod.h < |s.data|
    && n == s.(prod := s.prod.(pc := Resting), head := After(s.prod.h, |s.data|), pushed := s.pushed + [s.prod.val])
  }

  ghost predicate ProducerStep(s: State, n: State) {
    PushLoadHead(s, n) || PushLoadTail(s, n) || PushWrite(s, n) || PushStore(s, n)
  }

  // The consumer

  ghost predicate DrainStart(s: State, n: State) {
    s.cons.pc == Off && n == s.(cons := s.cons.(pc := FirstTail, stop := s.head, goal := |s.pushed|))
  }

  ghost predicate DrainLoadTail(s: State, n: State) {
    s.cons.pc == FirstTail && n == s.(cons := s.cons.(pc := Test, t := s.tail))
  }

  ghost predicate DrainTest(s: State, n: State) {
    s.cons.pc == Test && n == s.(cons := s.cons.(pc := if s.cons.stop != s.cons.t then PopHead else Off))
  }

  ghost predicate PopLoadHead(s: State, n: State) {
    s.cons.pc == PopHead && n == s.(cons := s.cons.(pc := PopTail, h := s.head))
  }

  ghost predicate PopLoadTail(s: State, n: State) {
    s.cons.pc == PopTail && n == s.(cons := s.cons.(pc := PopRead, t := s.tail))
  }

  /** Read the slot, unless the ring looks empty: then the pop leaves the entry as it was. */
  ghost predicate PopReadSlot(s: State, n: State) {
    && s.cons.pc == PopRead
    && s.cons.t < |s.data|
    && n == if s.cons.h != s.cons.t then s.(cons := s.cons.(pc := PopStore, entry := s.data[s.cons.t]))
            else s.(cons := s.cons.(pc := LoadAgain))
  }

  ghost predicate PopStoreTail(s: State, n: State) {
    && s.cons.pc == PopStore
    && s.cons.t < |s.data|
    && n == s.(cons := s.cons.(pc := LoadAgain), tail := After(s.cons.t, |s.data|), popped := s.popped + [s.cons.entry])
  }

  ghost predicate DrainLoadAgain(s: State, n: State) {
    s.cons.pc == LoadAgain && n == s.(cons := s.cons.(pc := InsertEntry, t := s.tail))
  }

  ghost predicate DrainInsert(s: State, n: State) {
    && s.cons.pc == InsertEntry
    && n == s.(cons := s.cons.(pc := Test), tree := s.tree[KeyOf(s.cons.entry.key) := s.cons.entry.value])
  }

  ghost predicate ConsumerStep(s: State, n: State) {
    || DrainStart(s, n)
    || DrainLoadTail(s, n)
    || DrainTest(s, n)
    || PopLoadHead(s, n)
    || PopLoadTail(s, n)
    || PopReadSlot(s, n)
    || PopStoreTail(s, n)
    || DrainLoadAgain(s, n)
    || DrainInsert(s, n)
  }

  ghost predicate Next(s: State, n: State) {
    ProducerStep(s, n) || ConsumerStep(s, n)
  }

  // The invariant

  /** What was popped, followed by what is queued, is what was pushed. */
  ghost predicate RingInv(s: State) {
    && s.head < |s.data| && s.tail < |s.data|
    && s.popped + Queue(s.data, s.head, s.tail) == s.pushed
  }

  ghost predicate ProducerInv(s: State)
    requires RingInv(s)
  {
    var p := s.prod;
    && (p.pc != Resting ==> p.h == s.head)
    && (p.pc == WriteSlot ==> (After(p.h, |s.data|) != p.t ==> After(p.h, |s.data|) != s.tail))
    && (p.pc == WriteSlot ==> (After(p.h, |s.data|) == p.t <==> p.seen + 1 == |s.data|))
    && (p.pc == StoreHead ==> After(p.h, |s.data|) != s.tail && s.data[p.h] == p.val)
  }

  /** The drain is inside a pop that takes an entry. */
  predicate Popping(pc: DrainPc) {
    pc == PopHead || pc == PopTail || pc == PopRead || pc == PopStore
  }

  /** An entry was popped and is not in the tree yet. */
  predicate Owing(pc: DrainPc) {
    pc == LoadAgain || pc == InsertEntry
  }

  /** The stopping head stays as far ahead of the tail as there are entries to go. */
  ghost predicate ConsumerInv(s: State)
    requires RingInv(s)
  {
    var c := s.cons;
    c.pc != Off ==>
      && c.stop < |s.data|
      && |s.popped| <= c.goal <= |s.pushed|
      && c.goal - |s.popped| == Gap(c.stop, s.tail, |s.data|)
      && (c.pc == Test || c.pc == InsertEntry ==> c.t == s.tail)
      && (Popping(c.pc) ==> c.stop != s.tail)
      && (c.pc == PopTail || c.pc == PopRead || c.pc == PopStore ==> c.h != s.tail)
      && (c.pc == PopRead || c.pc == PopStore ==> c.t == s.tail)
      && (c.pc == PopStore ==> |s.popped| < |s.pushed| && c.entry == s.pushed[|s.popped|])
      && (Owing(c.pc) ==> 0 < |s.popped| && c.entry == s.popped[|s.popped| - 1])
  }

  /** The tree has the popped entries in order, but for one still owed. */
  ghost predicate TreeInv(s: State, base: map<Key, Value>) {
    && (Owing(s.cons.pc) ==> 0 < |s.popped|)
    && s.tree == ApplyAll(base, if Owing(s.cons.pc) then s.popped[..|s.popped| - 1] else s.popped)
  }

  ghost predicate Inv(s: State, base: map<Key, Value>) {
    RingInv(s) && ProducerInv(s) && ConsumerInv(s) && TreeInv(s, base)
  }

  lemma QueueWrite(data: seq<Entry>, head: nat, tail: nat, val: Entry)
    requires head < |data| && tail < |data|
    ensures Queue(data[head := val], head, tail) == Queue(data, head, tail)
  {
  }

  lemma GapAdvance(head: nat, tail: nat, size: nat)
    requires head < size && tail < size
    ensures head != tail ==> Gap(head, After(tail, size), size) == Gap(head, tail, size) - 1
    ensures After(head, size) != tail ==> Gap(After(head, size), tail, size) == Gap(head, tail, size) + 1
    ensures Gap(head, tail, size) == 0 <==> head == tail
    ensures head != tail ==> After(head, size) != After(tail, size)
  {
  }

  lemma {:induction false} ApplyLast(c: map<Key, Value>, q: seq<Entry>)
    requires q != []
    ensures var e := q[|q| - 1];
            ApplyAll(c, q) == ApplyAll(c, q[..|q| - 1])[KeyOf(e.key) := e.value]
    decreases |q|
  {
    hide KeyOf;
    if |q| > 1 {
      var d := c[KeyOf(q[0].key) := q[0].value];
      ApplyLast(d, q[1..]);
      assert q[1..][..|q| - 2] == q[..|q| - 1][1..];
    } else {
      assert q[..0] == [];
    }
  }

  lemma LoadTailKeepsInv(s: State, n: State, base: map<Key, Value>)
    requires Inv(s, base) && PushLoadTail(s, n)
    ensures Inv(n, base)
  {
    hide Queue, Gap, After, ApplyAll;
    NextEntry(s);
    QueuePush(s.data, s.head, s.tail, s.prod.val);
  }

  lemma ProducerKeepsInv(s: State, n: State, base: map<Key, Value>)
    requires Inv(s, base) && ProducerStep(s, n)
    ensures Inv(n, base)
  {
    hide Queue, Gap, After, ApplyAll, PushLoadTail;
    if PushLoadTail(s, n) {
      LoadTailKeepsInv(s, n, base);
    } else if PushWrite(s, n) {
      QueueWrite(s.data, s.head, s.tail, s.prod.val);
    } else if PushStore(s, n) {
      QueuePush(s.data, s.head, s.tail, s.prod.val);
      assert s.data[s.head := s.prod.val] == s.data;
      GapAdvance(s.head, s.tail, |s.data|);
    }
  }

  /** The queue is as long as the gap, and its first entry is the one at the tail. */
  lemma NextEntry(s: State)
    requires RingInv(s)
    ensures |s.pushed| - |s.popped| == Gap(s.head, s.tail, |s.data|)
    ensures s.head != s.tail ==> |s.popped| < |s.pushed| && s.data[s.tail] == s.pushed[|s.popped|]
    ensures s.head != s.tail ==>
              s.popped + [s.data[s.tail]] + Queue(s.data, s.head, After(s.tail, |s.data|)) == s.pushed
  {
    hide After;
    if s.head != s.tail {
      QueuePop(s.data, s.head, s.tail);
    }
  }

  lemma ConsumerKeepsInv(s: State, n: State, base: map<Key, Value>)
    requires Inv(s, base) && ConsumerStep(s, n)
    ensures Inv(n, base)
  {
    hide Inv, DrainStart, DrainLoadTail, DrainTest, PopLoadHead, PopLoadTail, DrainLoadAgain, PopReadSlot, PopStoreTail, DrainInsert;
    if DrainInsert(s, n) {
      InsertKeepsInv(s, n, base);
    } else if PopStoreTail(s, n) {
      StoreKeepsInv(s, n, base);
    } else if DrainStart(s, n) || DrainLoadTail(s, n) || DrainTest(s, n) {
      DrainKeepsInv(s, n, base);
    } else {
      PopKeepsInv(s, n, base);
    }
  }

  lemma InsertKeepsInv(s: State, n: State, base: map<Key, Value>)
    requires Inv(s, base) && DrainInsert(s, n)
    ensures Inv(n, base)
  {
    hide Queue, Gap, After, ApplyAll;
    ApplyLast(base, s.popped);
  }

  lemma StoreKeepsInv(s: State, n: State, base: map<Key, Value>)
    requires Inv(s, base) && PopStoreTail(s, n)
    ensures Inv(n, base)
  {
    hide Queue, Gap, After, ApplyAll;
    NextEntry(s);
    GapAdvance(s.head, s.tail, |s.data|);
    GapAdvance(s.cons.stop, s.tail, |s.data|);
    assert n.popped[..|n.popped| - 1] == s.popped;
  }

  lemma DrainKeepsInv(s: State, n: State, base: map<Key, Value>)
    requires Inv(s, base) && (DrainStart(s, n) || DrainLoadTail(s, n) || DrainTest(s, n))
    ensures Inv(n, base)
  {
    hide Queue, Gap, After, ApplyAll;
    NextEntry(s);
  }

  lemma PopKeepsInv(s: State, n: State, base: map<Key, Value>)
    requires Inv(s, base)
    requires PopLoadHead(s, n) || PopLoadTail(s, n) || PopReadSlot(s, n) || DrainLoadAgain(s, n)
    ensures Inv(n, base)
  {
    hide Queue, Gap, After, ApplyAll;
    NextEntry(s);
    GapAdvance(s.head, s.tail, |s.data|);
    GapAdvance(s.cons.stop, s.tail, |s.data|);
  }

  ghost predicate Run(states: seq<State>, base: map<Key, Value>) {
    && states != []
    && Init(states[0], base)
    && forall i :: 0 <= i < |states| - 1 ==> Next(states[i], states[i + 1])
  }

  lemma {:induction false} RunKeepsInv(states: seq<State>, base: map<Key, Value>)
    requires Run(states, base)
    ensures Inv(states[|states| - 1], base)
  {
    hide Init, Next, Inv;
    var n := |states| - 1;
    if n == 0 {
      StartsWell(states[0], base);
    } else {
      var before := states[..n];
      forall i | 0 <= i < n - 1 ensures Next(before[i], before[i + 1]) {
        assert Next(states[i], states[i + 1]);
      }
      RunKeepsInv(before, base);
      assert Next(states[n - 1], states[n - 1 + 1]);
      NextKeepsInv(states[n - 1], states[n], base);
    }
  }

  lemma NextKeepsInv(s: State, n: State, base: map<Key, Value>)
    requires Inv(s, base) && Next(s, n)
    ensures Inv(n, base)
  {
    hide Inv, ProducerStep, ConsumerStep;
    if ProducerStep(s, n) {
      ProducerKeepsInv(s, n, base);
    } else {
      ConsumerKeepsInv(s, n, base);
    }
  }

  lemma StartsWell(s: State, base: map<Key, Value>)
    requires Init(s, base)
    ensures Inv(s, base)
  {
  }

  /** Under every interleaving the popped entries are a prefix of the accepted pushes, in order. */
  lemma PoppedInOrder(states: seq<State>, base: map<Key, Value>)
    requires Run(states, base)
    ensures states[|states| - 1].popped <= states[|states| - 1].pushed
  {
    hide Run, Queue, ApplyAll, ProducerInv, ConsumerInv, TreeInv;
    RunKeepsInv(states, base);
  }

  /** A drain ends exactly when it has popped all that was accepted when it first read the head, no
      matter how much is pushed meanwhile; the tree then has all of it, in order. */
  lemma DrainStopsAtFirstHead(states: seq<State>, base: map<Key, Value>)
    requires Run(states, base)
    ensures var s := states[|states| - 1];
            s.cons.pc == Test ==>
              && (s.cons.stop == s.cons.t <==> |s.popped| == s.cons.goal)
              && s.cons.goal <= |s.pushed|
              && (s.cons.stop == s.cons.t ==> s.tree == ApplyAll(base, s.pushed[..s.cons.goal]))
  {
    hide Init, Next, Queue, Gap, ApplyAll;
    RunKeepsInv(states, base);
    var s := states[|states| - 1];
    if s.cons.pc == Test {
      GapAdvance(s.cons.stop, s.tail, |s.data|);
      assert s.pushed[..|s.popped|] == s.popped;
    }
  }

  /** The step by which a drain ends: all that was accepted when it first read the head is popped and in the
      tree, and nothing else is. */
  lemma DrainEnds(s: State, n: State, base: map<Key, Value>)
    requires Inv(s, base) && ConsumerStep(s, n) && s.cons.pc != Off
    ensures n.cons.pc == Off <==> s.cons.pc == Test && |s.popped| == s.cons.goal
    ensures n.cons.pc == Off ==> s.cons.goal <= |s.pushed| && n.popped == s.pushed[..s.cons.goal] && n.tree == ApplyAll(base, n.popped)
  {
    hide Queue, Gap, ApplyAll;
    GapAdvance(s.cons.stop, s.tail, |s.data|);
    assert s.pushed[..|s.popped|] == s.popped;
  }

  /** A push is given up exactly if the ring was full when the tail was loaded; otherwise it writes, and its
      next step adds the entry to those accepted. */
  lemma PushGivesUp(s: State, n: State, base: map<Key, Value>)
    requires Inv(s, base) && ProducerStep(s, n)
    ensures s.prod.pc == WriteSlot ==> n.prod.pc == if s.prod.seen + 1 == |s.data| then Resting else StoreHead
    ensures n.pushed == if s.prod.pc == StoreHead then s.pushed + [s.prod.val] else s.pushed
    ensures s.prod.pc == LoadTail ==> n.prod.seen == |Queue(s.data, s.head, s.tail)|
  {
    hide Queue, Gap, ApplyAll;
  }

  /** How many steps a drain still has to take. */
  function StepsLeft(s: State): int {
    var rest := 8 * (s.cons.goal - |s.popped|);
    match s.cons.pc
    case Off => 0
    case FirstTail => rest + 2
    case Test => rest + 1
    case PopHead => rest
    case PopTail => rest - 1
    case PopRead => rest - 2
    case PopStore => rest - 3
    case LoadAgain => rest + 3
    case InsertEntry => rest + 2
  }

  /** A drain can always take a step, and every step of its own brings it nearer to its end, whatever is pushed
      meanwhile. */
  lemma DrainAdvances(s: State, base: map<Key, Value>)
    requires Inv(s, base)
    ensures exists n :: ConsumerStep(s, n)
    ensures s.cons.pc != Off ==> forall n :: ConsumerStep(s, n) ==> 0 <= StepsLeft(n) < StepsLeft(s)
    ensures forall n :: ProducerStep(s, n) ==> StepsLeft(n) == StepsLeft(s)
  {
    hide Inv, ConsumerStep, ProducerStep, StepsLeft;
    assert RingInv(s) && ConsumerInv(s) by { InvParts(s, base); }
    var n := ConsumerMove(s);
    forall n | ConsumerStep(s, n) && s.cons.pc != Off ensures 0 <= StepsLeft(n) < StepsLeft(s) {
      Nearer(s, n, base);
    }
    forall n | ProducerStep(s, n) ensures StepsLeft(n) == StepsLeft(s) {
      PushIsBeside(s, n);
    }
  }

  /** Every run inside a drain can go on to the end of the drain, which takes all that was accepted at its start. */
  lemma {:induction false} DrainCompletes(states: seq<State>, base: map<Key, Value>) returns (longer: seq<State>)
    requires Run(states, base)
    ensures Run(longer, base) && states <= longer
    ensures states[|states| - 1].cons.pc == Off ==> longer == states
    ensures var s, n := states[|states| - 1], longer[|longer| - 1];
            && n.cons.pc == Off && n.pushed == s.pushed
            && (s.cons.pc != Off ==> |n.popped| == s.cons.goal && n.tree == ApplyAll(base, n.popped))
    decreases StepsLeft(states[|states| - 1])
  {
    hide Init, Next, Inv, ConsumerStep, ProducerStep, StepsLeft;
    var s := states[|states| - 1];
    longer := states;
    RunKeepsInv(states, base);
    if s.cons.pc != Off {
      InvParts(s, base);
      var n := ConsumerMove(s);
      Nearer(s, n, base);
      DrainEnds(s, n, base);
      OneMore(states, n, base);
      GoalStays(s, n);
      longer := DrainCompletes(states + [n], base);
    }
  }

  lemma GoalStays(s: State, n: State)
    requires ConsumerStep(s, n) && s.cons.pc != Off
    ensures n.pushed == s.pushed && n.cons.goal == s.cons.goal
  {
  }

  lemma OneMore(states: seq<State>, n: State, base: map<Key, Value>)
    requires Run(states, base) && ConsumerStep(states[|states| - 1], n)
    ensures Run(states + [n], base)
  {
    hide Init, ConsumerStep, ProducerStep;
    var more := states + [n];
    forall i | 0 <= i < |more| - 1 ensures Next(more[i], more[i + 1]) {
      if i < |states| - 1 {
        assert Next(states[i], states[i + 1]);
      }
    }
  }

  lemma InvParts(s: State, base: map<Key, Value>)
    requires Inv(s, base)
    ensures RingInv(s) && ProducerInv(s) && ConsumerInv(s) && TreeInv(s, base)
  {
  }

  lemma PushIsBeside(s: State, n: State)
    requires ProducerStep(s, n)
    ensures StepsLeft(n) == StepsLeft(s)
  {
  }

  lemma Nearer(s: State, n: State, base: map<Key, Value>)
    requires Inv(s, base) && ConsumerStep(s, n) && s.cons.pc != Off
    ensures 0 <= StepsLeft(n) < StepsLeft(s)
  {
    hide Queue, Gap, After, ApplyAll;
    NextEntry(s);
    GapAdvance(s.cons.stop, s.tail, |s.data|);
  }

  lemma ConsumerMove(s: State) returns (n: State)
    requires RingInv(s) && ConsumerInv(s)
    ensures ConsumerStep(s, n)
  {
    hide Queue, Gap, After;
    var c := s.cons;
    match c.pc
    case Off => n := s.(cons := c.(pc := FirstTail, stop := s.head, goal := |s.pushed|)); assert DrainStart(s, n);
    case FirstTail => n := s.(cons := c.(pc := Test, t := s.tail)); assert DrainLoadTail(s, n);
    case Test => n := s.(cons := c.(pc := if c.stop != c.t then PopHead else Off)); assert DrainTest(s, n);
    case PopHead => n := s.(cons := c.(pc := PopTail, h := s.head)); assert PopLoadHead(s, n);
    case PopTail => n := s.(cons := c.(pc := PopRead, t := s.tail)); assert PopLoadTail(s, n);
    case PopRead => n := s.(cons := c.(pc := PopStore, entry := s.data[c.t])); assert PopReadSlot(s, n);
    case PopStore =>
      n := s.(cons := c.(pc := LoadAgain), tail := After(c.t, |s.data|), popped := s.popped + [c.entry]);
      assert PopStoreTail(s, n);
    case LoadAgain => n := s.(cons := c.(pc := InsertEntry, t := s.tail)); assert DrainLoadAgain(s, n);
    case InsertEntry =>
      n := s.(cons := c.(pc := Test), tree := s.tree[KeyOf(c.entry.key) := c.entry.value]);
      assert DrainInsert(s, n);
  }

  /** A push can always take its next step: four, or three if it gives up. */
  lemma PushAdvances(s: State, base: map<Key, Value>)
    requires Inv(s, base)
    ensures exists n :: ProducerStep(s, n)
    ensures forall n :: ProducerStep(s, n) ==>
              n.prod.pc == match s.prod.pc
                           case Resting => LoadTail
                           case LoadTail => WriteSlot
                           case WriteSlot => if s.prod.seen + 1 == |s.data| then Resting else StoreHead
                           case StoreHead => Resting
  {
    hide Queue, Gap, After, ApplyAll;
    NextEntry(s);
    var n := ProducerMove(s);
  }

  lemma ProducerMove(s: State) returns (n: State)
    requires RingInv(s) && ProducerInv(s) && |s.popped| <= |s.pushed|
    ensures ProducerStep(s, n)
  {
    hide Queue, Gap, After;
    var p := s.prod;
    match p.pc
    case Resting => n := s.(prod := Producer(LoadTail, p.val, s.head, p.t, p.seen)); assert PushLoadHead(s, n);
    case LoadTail =>
      n := s.(prod := p.(pc := WriteSlot, t := s.tail, seen := |s.pushed| - |s.popped|));
      assert PushLoadTail(s, n);
    case WriteSlot =>
      n := if After(p.h, |s.data|) != p.t then s.(prod := p.(pc := StoreHead), data := s.data[p.h := p.val])
           else s.(prod := p.(pc := Resting));
      assert PushWrite(s, n);
    case StoreHead =>
      n := s.(prod := p.(pc := Resting), head := After(p.h, |s.data|), pushed := s.pushed + [p.val]);
      assert PushStore(s, n);
  }

  /** A pop inside a drain never meets an empty ring. */
  lemma NeverPopsNothing(states: seq<State>, base: map<Key, Value>)
    requires Run(states, base) && states[|states| - 1].cons.pc == PopRead
    ensures states[|states| - 1].cons.h != states[|states| - 1].cons.t
  {
    hide Init, Next, Queue, Gap, ApplyAll;
    RunKeepsInv(states, base);
  }
}
