/** The random scheduler: jobs wait in a ring, move to a list, and are cut into slices; a weighted walk
    picks the job the next slice comes from. Every method runs under one mutex but for the push to
    the ring, which has a single producer. */
module RandScheduling {
  import opened MachineInts
  import opened RingBuffers
  import Caches
  import TrieLookup

  const BLOCK: nat := 0x1_0000

  /** A job in the ring or in the list: what is left of its range. */
  datatype Job = Job(start: U64, end: U64, priority: nat, id: nat)

  /** A slice handed to a worker. */
  datatype Task = Task(id: nat, start: U64, end: U64)

  // ------------------------------------------------------------------
  // Slices
  // ------------------------------------------------------------------

  /** Where the slice that begins at `start` ends. */
  function SliceEnd(start: U64, end: U64): U64 {
    var e := (start + BLOCK) % LIMIT;
    if end < e then end else e
  }

  /** Cutting from `start` reaches `end` with slices that go up and stay inside the range. */
  ghost predicate RunsToEnd(start: U64, end: U64)
    requires start <= end
    decreases end - start
  {
    var e := SliceEnd(start, end);
    start <= e && (e == end || (start < e <= end && RunsToEnd(e, end)))
  }

  /** The sum for the last slice does not wrap; the last slice is known from the range. */
  predicate LastSumFits(start: U64, end: U64)
    requires start <= end
  {
    var d := end - start;
    if 0 < d && d % BLOCK == 0 then true else start + d / BLOCK * BLOCK + BLOCK < LIMIT
  }

  lemma {:induction false} RunsToEndExactly(start: U64, end: U64)
    requires start <= end
    ensures RunsToEnd(start, end) <==> LastSumFits(start, end)
    decreases end - start
  {
    var d := end - start;
    if BLOCK < d && start + BLOCK < LIMIT {
      var e := SliceEnd(start, end);
      assert e == start + BLOCK;
      RunsToEndExactly(e, end);
      assert (end - e) / BLOCK == d / BLOCK - 1 && (end - e) % BLOCK == d % BLOCK;
    }
  }

  /** Near the highest value a slice ends far below its start. */
  lemma SliceWraps()
    ensures SliceEnd(LIMIT - 10, LIMIT - 1) == 65526 && !RunsToEnd(LIMIT - 10, LIMIT - 1)
  {
    RunsToEndExactly(LIMIT - 10, LIMIT - 1);
  }

  // ------------------------------------------------------------------
  // The books: what was handed out for every job
  // ------------------------------------------------------------------

  /** The slices of one job, in order. */
  ghost function SlicesOf(log: seq<Task>, id: nat): seq<Task> {
    if log == [] then [] else
      SlicesOf(log[..|log| - 1], id) + if log[|log| - 1].id == id then [log[|log| - 1]] else []
  }

  /** The slices run end to end from `a` to `b`. */
  ghost predicate EndToEnd(s: seq<Task>, a: U64, b: U64) {
    if s == [] then a == b else
      var last := s[|s| - 1];
      last.end == b && EndToEnd(s[..|s| - 1], a, last.start)
  }

  /** Every slice of the first ones starts where the one before ended. */
  lemma {:induction false} EndToEndMeans(s: seq<Task>, a: U64, b: U64)
    requires EndToEnd(s, a, b) && s != []
    ensures s[0].start == a && s[|s| - 1].end == b
    ensures forall i :: 0 <= i < |s| - 1 ==> s[i + 1].start == s[i].end
  {
    var n := |s| - 1;
    if n > 0 {
      EndToEndMeans(s[..n], a, s[n].start);
      forall i | 0 <= i < n ensures s[i + 1].start == s[i].end {
        if i < n - 1 {
          assert s[..n][i + 1].start == s[..n][i].end;
        } else {
          assert s[..n][n - 1].end == s[n].start;
        }
      }
    }
  }

  /** One entry of the books: the job is as submitted but for its start, up to which it was handed out. */
  ghost predicate Entry(j: Job, origin: map<nat, Job>, log: seq<Task>) {
    && j.id in origin
    && j == origin[j.id].(start := j.start)
    && 0 < j.priority < 256
    && EndToEnd(SlicesOf(log, j.id), origin[j.id].start, j.start)
  }

  ghost predicate Queued(q: seq<Job>, id: nat) {
    exists i :: 0 <= i < |q| && q[i].id == id
  }

  /** A job that is over had its whole range handed out. */
  ghost predicate Over(origin: map<nat, Job>, log: seq<Task>, id: nat)
    requires id in origin
  {
    SlicesOf(log, id) != [] && EndToEnd(SlicesOf(log, id), origin[id].start, origin[id].end)
  }

  /** Every accepted job is still queued, and once, or was cancelled, or is over. */
  ghost predicate Books(q: seq<Job>, origin: map<nat, Job>, cancelled: set<nat>, log: seq<Task>) {
    && (forall i :: 0 <= i < |q| ==> Entry(q[i], origin, log))
    && (forall i, j :: 0 <= i < j < |q| ==> q[i].id != q[j].id)
    && (forall id :: id in origin ==> Queued(q, id) || id in cancelled || Over(origin, log, id))
    && (forall t :: t in log ==> t.id in origin)
  }

  lemma SlicesNext(log: seq<Task>, t: Task, id: nat)
    ensures SlicesOf(log + [t], id) == if t.id == id then SlicesOf(log, id) + [t] else SlicesOf(log, id)
  {
    assert (log + [t])[..|log|] == log;
  }

  lemma EndToEndNext(s: seq<Task>, a: U64, t: Task)
    requires EndToEnd(s, a, t.start)
    ensures EndToEnd(s + [t], a, t.end)
  {
    assert (s + [t])[..|s|] == s;
  }

  lemma {:induction false} NoSlices(log: seq<Task>, id: nat)
    requires forall t :: t in log ==> t.id != id
    ensures SlicesOf(log, id) == []
  {
    if log != [] {
      NoSlices(log[..|log| - 1], id);
    }
  }

  /** The next slice of a job carries its entry on. */
  lemma EntryNext(j: Job, origin: map<nat, Job>, log: seq<Task>, t: Task)
    requires Entry(j, origin, log)
    ensures t.id != j.id ==> Entry(j, origin, log + [t])
    ensures t.id == j.id && t.start == j.start ==>
              Entry(j.(start := t.end), origin, log + [t]) && SlicesOf(log + [t], j.id) != []
  {
    SlicesNext(log, t, j.id);
    if t.id == j.id && t.start == j.start {
      EndToEndNext(SlicesOf(log, j.id), origin[j.id].start, t);
    }
  }

  lemma OverNext(origin: map<nat, Job>, log: seq<Task>, t: Task, id: nat)
    requires id in origin && t.id != id && Over(origin, log, id)
    ensures Over(origin, log + [t], id)
  {
    SlicesNext(log, t, id);
  }

  lemma BooksSubmit(q: seq<Job>, origin: map<nat, Job>, cancelled: set<nat>, log: seq<Task>, j: Job)
    requires Books(q, origin, cancelled, log) && j.id !in origin && 0 < j.priority < 256
    ensures Books(q + [j], origin[j.id := j], cancelled, log)
  {
    hide EndToEnd, SlicesOf;
    var r, o := q + [j], origin[j.id := j];
    NoSlices(log, j.id);
    assert Entry(j, o, log) by { Unsliced(j.start); }
    forall i | 0 <= i < |q| ensures Entry(r[i], o, log) {
      assert Entry(q[i], origin, log);
    }
    forall id | id in o ensures Queued(r, id) || id in cancelled || Over(o, log, id) {
      if id == j.id {
        assert r[|q|].id == id;
      } else if Queued(q, id) {
        var i :| 0 <= i < |q| && q[i].id == id;
        assert r[i].id == id;
      } else {
        assert id in cancelled || Over(origin, log, id);
      }
    }
  }

  lemma Unsliced(a: U64)
    ensures EndToEnd([], a, a)
  {
  }

  /** Hand out a slice of job `i`, which goes on from the slice's end. */
  lemma BooksSlice(q: seq<Job>, origin: map<nat, Job>, cancelled: set<nat>, log: seq<Task>, i: nat, e: U64)
    requires Books(q, origin, cancelled, log) && i < |q|
    ensures Books(q[i := q[i].(start := e)], origin, cancelled, log + [Task(q[i].id, q[i].start, e)])
    ensures e == q[i].end ==> Over(origin, log + [Task(q[i].id, q[i].start, e)], q[i].id)
  {
    hide EndToEnd, SlicesOf;
    var t := Task(q[i].id, q[i].start, e);
    var r := q[i := q[i].(start := e)];
    forall j | 0 <= j < |q| ensures Entry(r[j], origin, log + [t]) && r[j].id == q[j].id {
      assert Entry(q[j], origin, log);
      EntryNext(q[j], origin, log, t);
    }
    EntryNext(q[i], origin, log, t);
    forall id | id in origin ensures Queued(r, id) || id in cancelled || Over(origin, log + [t], id) {
      if Queued(q, id) {
        var j :| 0 <= j < |q| && q[j].id == id;
        assert r[j].id == id;
      } else if id !in cancelled {
        assert q[i].id != id;
        OverNext(origin, log, t, id);
      }
    }
  }

  /** The list without job `i`, the last job moved into its place; `rest` waits behind. */
  function SwapRemoved(jobs: seq<Job>, i: nat): seq<Job>
    requires i < |jobs|
  {
    jobs[i := jobs[|jobs| - 1]][..|jobs| - 1]
  }

  /** Removing a job that is over or cancelled keeps the books. */
  lemma BooksRemove(jobs: seq<Job>, rest: seq<Job>, origin: map<nat, Job>, cancelled: set<nat>, log: seq<Task>, i: nat)
    requires Books(jobs + rest, origin, cancelled, log) && i < |jobs|
    requires jobs[i].id in cancelled || (jobs[i].id in origin && Over(origin, log, jobs[i].id))
    ensures Books(SwapRemoved(jobs, i) + rest, origin, cancelled, log)
  {
    hide Over, Entry;
    var q, r, n := jobs + rest, SwapRemoved(jobs, i) + rest, |jobs| - 1;
    forall j | 0 <= j < |r| ensures r[j] == q[if j == i && i < n then n else if j < n then j else j + 1] {}
    forall j | 0 <= j < |q| && j != i ensures exists k :: 0 <= k < |r| && r[k] == q[j] {
      assert r[if j == n then i else if j < n then j else j - 1] == q[j];
    }
    forall id | id in origin ensures Queued(r, id) || id in cancelled || Over(origin, log, id) {
      if Queued(q, id) {
        var j :| 0 <= j < |q| && q[j].id == id;
        if j != i {
          var k :| 0 <= k < |r| && r[k] == q[j];
          assert r[k].id == id;
        }
      }
    }
  }

  lemma BooksCancel(q: seq<Job>, origin: map<nat, Job>, cancelled: set<nat>, log: seq<Task>, id: nat)
    requires Books(q, origin, cancelled, log)
    ensures Books(q, origin, cancelled + {id}, log)
  {
    hide Entry, Over;
  }

  // ------------------------------------------------------------------
  // Weights
  // ------------------------------------------------------------------

  function Sum(jobs: seq<Job>): nat {
    if jobs == [] then 0 else Sum(jobs[..|jobs| - 1]) + jobs[|jobs| - 1].priority
  }

  lemma SumNext(jobs: seq<Job>, j: Job)
    ensures Sum(jobs + [j]) == Sum(jobs) + j.priority
  {
    assert (jobs + [j])[..|jobs|] == jobs;
  }

  lemma {:induction false} SumConcat(a: seq<Job>, b: seq<Job>)
    ensures Sum(a + b) == Sum(a) + Sum(b)
    decreases |b|
  {
    if b == [] {
      assert a + b == a;
    } else {
      assert (a + b)[..|a + b| - 1] == a + b[..|b| - 1];
      SumConcat(a, b[..|b| - 1]);
    }
  }

  lemma {:induction false} SumUpdate(jobs: seq<Job>, i: nat, j: Job)
    requires i < |jobs|
    ensures Sum(jobs[i := j]) == Sum(jobs) - jobs[i].priority + j.priority
    ensures jobs[i].priority <= Sum(jobs)
  {
    var n := |jobs| - 1;
    if i < n {
      SumUpdate(jobs[..n], i, j);
      assert jobs[i := j][..n] == jobs[..n][i := j];
    } else {
      assert jobs[i := j][..n] == jobs[..n];
    }
  }

  lemma SwapBack(jobs: seq<Job>, i: nat)
    requires i < |jobs|
    ensures jobs[i := jobs[|jobs| - 1]] == SwapRemoved(jobs, i) + [jobs[|jobs| - 1]]
  {
  }

  lemma SumRemove(jobs: seq<Job>, i: nat)
    requires i < |jobs|
    ensures Sum(SwapRemoved(jobs, i)) == Sum(jobs) - jobs[i].priority
    ensures jobs[i].priority <= Sum(jobs)
  {
    hide Sum, SwapRemoved;
    var last := jobs[|jobs| - 1];
    SumUpdate(jobs, i, last);
    SwapBack(jobs, i);
    SumNext(SwapRemoved(jobs, i), last);
  }

  /** Where the walk stands on a circle as long as the sum of the priorities. */
  function Position(jobs: seq<Job>, taskIdx: nat, priorityIdx: nat): nat
    requires taskIdx <= |jobs|
  {
    Sum(jobs[..taskIdx]) + priorityIdx
  }

  lemma NextPosition(jobs: seq<Job>, taskIdx: nat)
    requires taskIdx < |jobs|
    ensures Sum(jobs[..taskIdx + 1]) == Sum(jobs[..taskIdx]) + jobs[taskIdx].priority
    ensures taskIdx + 1 == |jobs| ==> Sum(jobs[..taskIdx]) + jobs[taskIdx].priority == Sum(jobs)
  {
    assert jobs[..taskIdx + 1][..taskIdx] == jobs[..taskIdx];
    assert taskIdx + 1 == |jobs| ==> jobs[..taskIdx + 1] == jobs;
  }

  lemma {:induction false} PrefixSum(jobs: seq<Job>, n: nat)
    requires n <= |jobs|
    ensures Sum(jobs[..n]) <= Sum(jobs)
  {
    assert jobs == jobs[..n] + jobs[n..];
    SumConcat(jobs[..n], jobs[n..]);
  }

  /** Where a walk of `offset` from place `priorityIdx` in job `taskIdx` ends: job `j`, place `p`. An offset not
      over what remains of the current job stays in it. Otherwise every job owns the points after its first
      up to and with its last, and the walk ends at the job that owns the point reached, counted round the
      circle. */
  ghost predicate WalkEnds(jobs: seq<Job>, taskIdx: nat, priorityIdx: nat, offset: nat, j: nat, p: nat)
    requires taskIdx < |jobs|
  {
    if priorityIdx + offset <= jobs[taskIdx].priority then j == taskIdx && p == priorityIdx + offset
    else
      var reached := Position(jobs, taskIdx, priorityIdx) + offset;
      var point := if reached <= Sum(jobs) then reached else reached - Sum(jobs);
      j < |jobs| && Sum(jobs[..j]) < point <= Sum(jobs[..j]) + jobs[j].priority && p == point - Sum(jobs[..j])
  }

  /** There is one such place. */
  lemma WalkEndsOnce(jobs: seq<Job>, taskIdx: nat, priorityIdx: nat, offset: nat, j: nat, p: nat, k: nat, q: nat)
    requires taskIdx < |jobs| && WalkEnds(jobs, taskIdx, priorityIdx, offset, j, p) && WalkEnds(jobs, taskIdx, priorityIdx, offset, k, q)
    ensures j == k && p == q
  {
    hide Sum;
    if priorityIdx + offset > jobs[taskIdx].priority {
      if j < k {
        LongerSum(jobs, j, k);
      } else if k < j {
        LongerSum(jobs, k, j);
      }
    }
  }

  lemma LongerSum(jobs: seq<Job>, i: nat, j: nat)
    requires i < j <= |jobs|
    ensures Sum(jobs[..i]) + jobs[i].priority <= Sum(jobs[..j])
  {
    hide Sum;
    NextPosition(jobs, i);
    assert jobs[..j][..i + 1] == jobs[..i + 1];
    PrefixSum(jobs[..j], i + 1);
  }

  class RandScheduler {
    const pending: RingBuffer<Job>
    const cache: Caches.Cache
    var jobs: seq<Job>
    var prioritySum: nat
    var taskIdx: nat
    var priorityIdx: nat
    var nextJobId: nat
    /** Every accepted job as submitted, the ids cancelled in the list, and all slices in order. */
    ghost var origin: map<nat, Job>
    ghost var cancelled: set<nat>
    ghost var log: seq<Task>

    ghost predicate Valid()
      reads this, pending
    {
      && pending.Valid()
      && prioritySum == Sum(jobs)
      && (if jobs == [] then taskIdx == 0 && priorityIdx == 0
          else taskIdx < |jobs| && priorityIdx <= jobs[taskIdx].priority)
      && Books(jobs + pending.Contents(), origin, cancelled, log)
      && forall id :: id in origin ==> id < nextJobId
    }

    /** The cache, which only submissions use. */
    ghost predicate CacheReady()
      reads cache.Repr
    {
      cache.Valid() && {this as object, pending} !! cache.Repr
    }

    constructor (defaultCap: nat, zero: Job)
      requires 0 < defaultCap < WORD
      ensures Valid() && jobs == [] && origin == map[] && cancelled == {} && log == [] && fresh(pending)
      ensures CacheReady() && cache.tree.Contents() == map[] && cache.pending.Contents() == []
    {
      hide Caches.Cache.Valid;
      cache := new Caches.Cache(defaultCap);
      pending := new RingBuffer<Job>(defaultCap, zero);
      jobs := [];
      prioritySum, taskIdx, priorityIdx, nextJobId := 0, 0, 0, 0;
      origin, cancelled, log := map[], {}, [];
    }

    /** Give the cached answer if there is one, else queue a job in the ring. A full ring drops it, and
        the caller is not told. */
    method Submit(hash: Caches.Digest, start: U64, end: U64, priority: nat) returns (id: nat, answer: TrieLookup.Lookup)
      requires Valid() && CacheReady() && priority < 256
      modifies this, pending, cache.Repr
      ensures Valid() && CacheReady() && cache.pending.Contents() == []
      ensures cache.tree.Contents() == Caches.ApplyAll(old(cache.tree.Contents()), old(cache.pending.Contents()))
      ensures answer == TrieLookup.MapLookup(cache.tree.Contents(), Caches.KeyOf(hash))
      ensures answer.Found? ==> id == NO_JOB && nextJobId == old(nextJobId)
                                && pending.Contents() == old(pending.Contents()) && origin == old(origin)
      ensures !answer.Found? ==> id == old(nextJobId) && nextJobId == id + 1
      ensures jobs == old(jobs) && cancelled == old(cancelled) && log == old(log)
      ensures taskIdx == old(taskIdx) && priorityIdx == old(priorityIdx)
      ensures !answer.Found? ==>
                var job := Job(start, end, if priority > 1 then priority else 1, id);
                if |old(pending.Contents())| + 1 < pending.size
                then pending.Contents() == old(pending.Contents()) + [job] && origin == old(origin)[id := job]
                else pending.Contents() == old(pending.Contents()) && origin == old(origin)
    {
      hide Caches.Cache.Valid;
      answer := cache.Answer(hash);
      if answer.Found? {
        return NO_JOB, answer;
      }
      id := QueueJob(start, end, priority);
    }

    /** The part of a submission after a miss. */
    method QueueJob(start: U64, end: U64, priority: nat) returns (id: nat)
      requires Valid() && priority < 256
      modifies this, pending
      ensures Valid()
      ensures id == old(nextJobId) && nextJobId == id + 1
      ensures jobs == old(jobs) && cancelled == old(cancelled) && log == old(log)
      ensures taskIdx == old(taskIdx) && priorityIdx == old(priorityIdx)
      ensures var job := Job(start, end, if priority > 1 then priority else 1, id);
              if |old(pending.Contents())| + 1 < pending.size
              then pending.Contents() == old(pending.Contents()) + [job] && origin == old(origin)[id := job]
              else pending.Contents() == old(pending.Contents()) && origin == old(origin)
    {
      hide Books, Sum, RingBuffer<Job>.Contents;
      id := nextJobId;
      var job := Job(start, end, if priority > 1 then priority else 1, id);
      nextJobId := nextJobId + 1;
      BooksSubmit(jobs + pending.Contents(), origin, cancelled, log, job);
      ghost var room := |pending.Contents()| + 1 < pending.size;
      assert jobs + pending.Contents() + [job] == jobs + (pending.Contents() + [job]);
      pending.Push(job);
      if room {
        origin := origin[id := job];
      }
    }

    /** Add a job to the list. */
    method PushJob(job: Job)
      modifies `prioritySum, `jobs
      ensures jobs == old(jobs) + [job] && prioritySum == old(prioritySum) + job.priority
    {
      prioritySum := prioritySum + job.priority;
      jobs := jobs + [job];
    }

    /** Move what waits in the ring to the list, up to the head seen first. */
    method ProcessPending()
      requires Valid()
      modifies this, pending
      ensures Valid()
      ensures jobs == old(jobs + pending.Contents()) && pending.Contents() == []
      ensures origin == old(origin) && cancelled == old(cancelled) && log == old(log) && nextJobId == old(nextJobId)
      ensures taskIdx == old(taskIdx) && priorityIdx == old(priorityIdx)
    {
      hide Books, Sum, RingBuffer<Job>.Contents;
      var head, tail := pending.head, pending.tail;
      var job := Job(0, 0, 0, 0);
      ghost var q := jobs + pending.Contents();
      while head != tail
        invariant Valid() && head == pending.head && tail == pending.tail
        invariant jobs + pending.Contents() == q
        invariant origin == old(origin) && cancelled == old(cancelled) && log == old(log) && nextJobId == old(nextJobId)
        invariant taskIdx == old(taskIdx) && priorityIdx == old(priorityIdx)
        decreases |pending.Contents()|
      {
        ghost var wasJobs, wasPending := jobs, pending.Contents();
        job := pending.Pop(job);
        tail := pending.tail;
        SumNext(jobs, job);
        PushJob(job);
        assert jobs + pending.Contents() == wasJobs + ([job] + pending.Contents());
      }
      assert jobs + pending.Contents() == jobs;
    }

    /** Remove a job from the list by moving the last one into its place. */
    method RemoveSwapJob(idx: nat)
      requires idx < |jobs| && prioritySum == Sum(jobs)
      modifies `prioritySum, `jobs
      ensures jobs == SwapRemoved(old(jobs), idx) && prioritySum == Sum(jobs)
    {
      hide Sum;
      SumRemove(jobs, idx);
      var last := jobs[|jobs| - 1];
      prioritySum := prioritySum - jobs[idx].priority;
      jobs := jobs[idx := last][..|jobs| - 1];
    }

    /** Cancel a job that is in the list; others, also those still in the ring, stay. */
    method Cancel(jobId: nat)
      requires Valid()
      modifies this
      ensures Valid() && log == old(log) && origin == old(origin)
      ensures if Queued(old(jobs), jobId)
              then cancelled == old(cancelled) + {jobId} && exists i :: 0 <= i < |old(jobs)| && old(jobs)[i].id == jobId
                                                                        && jobs == SwapRemoved(old(jobs), i)
              else cancelled == old(cancelled) && jobs == old(jobs)
      ensures if Queued(old(jobs), jobId) then taskIdx == 0 && priorityIdx == 0
              else taskIdx == old(taskIdx) && priorityIdx == old(priorityIdx)
      ensures nextJobId == old(nextJobId)
    {
      hide Books, Sum, RingBuffer<Job>.Contents;
      for i := 0 to |jobs|
        invariant Valid() && jobs == old(jobs) && cancelled == old(cancelled) && log == old(log) && origin == old(origin)
        invariant taskIdx == old(taskIdx) && priorityIdx == old(priorityIdx) && nextJobId == old(nextJobId)
        invariant forall j :: 0 <= j < i ==> jobs[j].id != jobId
      {
        if jobs[i].id == jobId {
          BooksCancel(jobs + pending.Contents(), origin, cancelled, log, jobId);
          BooksRemove(jobs, pending.Contents(), origin, cancelled + {jobId}, log, i);
          RemoveSwapJob(i);
          cancelled := cancelled + {jobId};
          taskIdx, priorityIdx := 0, 0;
          break;
        }
      }
    }

    /** The weighted walk: it goes exactly `offset` on, round the circle of the priorities. */
    method Walk(offset: nat)
      requires Valid() && jobs != [] && offset < prioritySum
      modifies `taskIdx, `priorityIdx
      ensures Valid()
      ensures var p := Position(jobs, taskIdx, priorityIdx);
              var from := old(Position(jobs, taskIdx, priorityIdx)) + offset;
              p == from || p == from - prioritySum
      ensures WalkEnds(jobs, old(taskIdx), old(priorityIdx), offset, taskIdx, priorityIdx)
    {
      hide Books, Sum, RingBuffer<Job>.Contents;
      var left: nat := offset;
      ghost var from := Position(jobs, taskIdx, priorityIdx) + offset;
      ghost var back := 0;
      ghost var moved := false;
      NextPosition(jobs, taskIdx);
      PrefixSum(jobs, taskIdx + 1);
      forall i | 0 <= i < |jobs| ensures 0 < jobs[i].priority {
        PriorityPositive(jobs, pending.Contents(), origin, cancelled, log, i);
      }
      while true
        invariant taskIdx < |jobs| && priorityIdx <= jobs[taskIdx].priority
        invariant back == 0 || back == prioritySum
        invariant Position(jobs, taskIdx, priorityIdx) + left == from - back
        invariant moved || (taskIdx == old(taskIdx) && priorityIdx == old(priorityIdx) && left == offset && back == 0)
        invariant moved ==> priorityIdx == 0 < left && old(priorityIdx) + offset > jobs[old(taskIdx)].priority
        invariant back > 0 ==> from > prioritySum
        decreases left, priorityIdx
      {
        var remaining := jobs[taskIdx].priority - priorityIdx;
        NextPosition(jobs, taskIdx);
        if remaining < left {
          if taskIdx + 1 == |jobs| {
            back := back + prioritySum;
            EmptySum(jobs);
          }
          taskIdx := RoundIndex(taskIdx, |jobs|);
          priorityIdx := 0;
          left := left - remaining;
          moved := true;
          continue;
        }
        priorityIdx := priorityIdx + left;
        break;
      }
      PrefixSum(jobs, taskIdx + 1);
    }

    /** Hand out the next slice, of the job the walk picks; `random` is the number drawn. */
    method Schedule(random: nat) returns (task: Task, ghost i: nat, ghost p: nat)
      requires Valid() && jobs + pending.Contents() != []
      modifies this, pending
      ensures Valid() && origin == old(origin) && cancelled == old(cancelled) && log == old(log) + [task]
      ensures nextJobId == old(nextJobId)
      ensures pending.Contents() == []
      ensures var q := old(jobs + pending.Contents());
              && old(taskIdx) < |q| && i < |q| && 0 < Sum(q)
              && WalkEnds(q, old(taskIdx), old(priorityIdx), random % Sum(q), i, p)
              && Hands(q, i, task, jobs)
              && (if task.end == q[i].end then taskIdx == 0 && priorityIdx == 0 else taskIdx == i && priorityIdx == p)
    {
      hide Books, Sum, RingBuffer<Job>.Contents;
      ProcessPending();
      ghost var q := jobs;
      assert jobs + pending.Contents() == jobs;
      PriorityPositive(jobs, pending.Contents(), origin, cancelled, log, taskIdx);
      SumUpdate(jobs, taskIdx, jobs[taskIdx]);
      Walk(random % prioritySum);
      var current := jobs[taskIdx];
      i, p := taskIdx, priorityIdx;
      task := Task(current.id, current.start, SliceEnd(current.start, current.end));
      BooksSlice(jobs, origin, cancelled, log, taskIdx, task.end);
      SumUpdate(jobs, taskIdx, current.(start := task.end));
      jobs := jobs[taskIdx := current.(start := task.end)];
      log := log + [task];
      assert jobs + pending.Contents() == jobs;
      if task.end == current.end {
        assert jobs[i].id in origin by { EntryKnown(jobs, origin, cancelled, log, i); }
        BooksRemove(jobs, [], origin, cancelled, log, i);
        RemoveSwapJob(taskIdx);
        taskIdx, priorityIdx := 0, 0;
        assert jobs + [] == jobs && jobs + pending.Contents() == jobs;
      }
      assert Hands(q, i, task, jobs);
    }
  }

  /** `task` is the next slice of job `i`; the job goes on after it, and leaves the list exactly when the
      slice reaches its end. */
  ghost predicate Hands(q: seq<Job>, i: nat, task: Task, jobs: seq<Job>)
    requires i < |q|
  {
    && task == Task(q[i].id, q[i].start, SliceEnd(q[i].start, q[i].end))
    && var r := q[i := q[i].(start := task.end)];
    jobs == if task.end == q[i].end then SwapRemoved(r, i) else r
  }

  /** After any run: an accepted job that is neither queued nor cancelled was handed out whole, in slices
      that run end to end from its start to its end. */
  lemma JobsHandedOutWhole(q: seq<Job>, origin: map<nat, Job>, cancelled: set<nat>, log: seq<Task>, id: nat)
    requires Books(q, origin, cancelled, log) && id in origin && !Queued(q, id) && id !in cancelled
    ensures var s := SlicesOf(log, id);
            && s != [] && s[0].start == origin[id].start && s[|s| - 1].end == origin[id].end
            && forall i :: 0 <= i < |s| - 1 ==> s[i + 1].start == s[i].end
  {
    hide EndToEnd, SlicesOf;
    EndToEndMeans(SlicesOf(log, id), origin[id].start, origin[id].end);
  }

  function RoundIndex(i: nat, n: nat): (r: nat)
    requires i < n
    ensures r == (i + 1) % n && r == if i + 1 == n then 0 else i + 1
  {
    AfterIsMod(i, n);
    After(i, n)
  }

  lemma PriorityPositive(jobs: seq<Job>, rest: seq<Job>, origin: map<nat, Job>, cancelled: set<nat>, log: seq<Task>, i: nat)
    requires Books(jobs + rest, origin, cancelled, log) && i < |jobs|
    ensures 0 < jobs[i].priority < 256
  {
    assert Entry((jobs + rest)[i], origin, log);
  }

  lemma EntryKnown(jobs: seq<Job>, origin: map<nat, Job>, cancelled: set<nat>, log: seq<Task>, i: nat)
    requires Books(jobs, origin, cancelled, log) && i < |jobs|
    ensures jobs[i].id in origin
  {
    assert Entry(jobs[i], origin, log);
  }

  lemma EmptySum(jobs: seq<Job>)
    ensures Sum(jobs[..0]) == 0
  {
  }
}
