/** Submission to the priority scheduler: allocate a job, copy the published heap, drop finished jobs
    from the copy, add the new one, publish. */
module PriorityScheduling {
  import opened MachineInts
  import opened FreeLists
  import opened PriorityHeaps
  import Dispense = BlockDispense
  import CleanupScans
  import Caches
  import TrieLookup

  /** What a submission asks for. */
  datatype Request = Request(hash: Caches.Digest, start: U64, end: U64, priority: nat)

  /** A job slot; the counters that workers change are not here but in what a load finds. */
  datatype Job = Job(request: Request, blockCount: U64, id: nat)

  /** What the two atomic loads of the cleanup test find. */
  datatype Load = Load(blockIdx: nat, rc: nat)

  /** The entries are one for every key, and their priorities fit 8 bits. */
  ghost predicate Indexes(m: multiset<Node>, keys: set<nat>) {
    && (forall n :: n in m ==> n.elem in keys && m[n] == 1 && n.priority < 256)
    && (forall n, o :: n in m && o in m && n.elem == o.elem ==> n == o)
    && (forall k :: k in keys ==> exists p: Priority :: Node(p, k) in m)
  }

  lemma IndexesWithout(m: multiset<Node>, keys: set<nat>, n: Node)
    requires Indexes(m, keys) && n in m
    ensures n.elem in keys && Indexes(m - multiset{n}, keys - {n.elem})
  {
    forall k | k in keys - {n.elem} ensures exists p: Priority :: Node(p, k) in m - multiset{n} {
      var p: Priority :| Node(p, k) in m;
      assert Node(p, k) in m - multiset{n};
    }
  }

  lemma IndexesWith(m: multiset<Node>, keys: set<nat>, n: Node)
    requires Indexes(m, keys) && n.elem !in keys && n.priority < 256
    ensures Indexes(m + multiset{n}, keys + {n.elem})
  {
    var t := m + multiset{n};
    forall k | k in keys + {n.elem} ensures exists p: Priority :: Node(p, k) in t {
      if k == n.elem {
        assert Node(n.priority, k) in t;
      } else {
        var p: Priority :| Node(p, k) in m;
        assert Node(p, k) in t;
      }
    }
  }

  /** A heap position is the only one with its element. */
  lemma EntryIsLive(s: seq<Node>, keys: set<nat>, i: nat)
    requires Indexes(multiset(s), keys) && i < |s|
    ensures s[i] in multiset(s) && s[i].elem in keys
    ensures Removed(s, i) == multiset(s) - multiset{s[i]}
  {
    assert s[i] in multiset(s) && s[0] in multiset(s);
    RemoveExact(s, i);
  }

  /** The test found the job finished and without workers at the `n`-th pair of loads. */
  predicate Finished(loads: (nat, nat) -> Load, n: nat, idx: nat, blockCount: nat) {
    loads(n, idx).blockIdx >= blockCount && loads(n, idx).rc == 0
  }

  /** What the `n`-th test finds of the job in slot `idx`. */
  function FoundDone(loads: (nat, nat) -> Load, live: map<nat, Job>): (nat, nat) -> bool {
    (n: nat, idx: nat) => idx in live && Finished(loads, n, idx, live[idx].blockCount)
  }

  /** Of the slots tested, `tests[n]` by the `n`-th test, exactly those found finished were dropped. */
  ghost predicate AllFinished(loads: (nat, nat) -> Load, tests: seq<nat>, dropped: set<nat>, live: map<nat, Job>) {
    && (forall n :: 0 <= n < |tests| ==> tests[n] in live && (FoundDone(loads, live)(n, tests[n]) ==> tests[n] in dropped))
    && (forall d :: d in dropped ==> exists n :: 0 <= n < |tests| && tests[n] == d && FoundDone(loads, live)(n, d))
  }

  /** The entries of `was` whose elements are not in `dropped`. */
  ghost predicate KeepsRest(m: multiset<Node>, was: multiset<Node>, dropped: set<nat>) {
    forall n :: n in m <==> n in was && n.elem !in dropped
  }

  lemma KeepsRestWithout(m: multiset<Node>, was: multiset<Node>, dropped: set<nat>, keys: set<nat>, n: Node)
    requires Indexes(m, keys) && n in m && KeepsRest(m, was, dropped)
    ensures KeepsRest(m - multiset{n}, was, dropped + {n.elem})
  {
    forall o ensures o in m - multiset{n} <==> o in was && o.elem !in dropped + {n.elem} {
      assert o in m - multiset{n} <==> o in m && o != n;
    }
  }

  class PriorityScheduler {
    const jobs: FreeList<Job>
    /** The heap workers copy, and the one the next submission writes. */
    var jobsR: PriorityHeap
    var jobsW: PriorityHeap
    var jobId: nat

    const cache: Caches.Cache

    /** The pool and the heap workers copy agree. */
    ghost predicate Sound()
      reads this, jobs, jobsR, jobsW
    {
      && jobsR != jobsW
      && jobs.Valid() && jobsR.Valid() && jobsW.Valid()
      && 0 < jobsR.cap
      && Indexes(multiset(jobsR.nodes), jobs.live.Keys)
    }

    ghost predicate Valid()
      reads this, jobs, jobsR, jobsW, cache.Repr
    {
      Sound() && cache.Valid() && {this as object, jobs, jobsR, jobsW} !! cache.Repr
    }

    constructor (defaultCap: nat, zero: Job)
      requires 0 < defaultCap
      ensures Valid() && jobsR.nodes == [] && jobId == 0
      ensures cache.tree.Contents() == map[] && cache.pending.Contents() == []
      ensures fresh(jobs) && fresh(jobsR) && fresh(jobsW)
    {
      hide Ordered, FreeList<Job>.Valid, Caches.Cache.Valid;
      cache := new Caches.Cache(defaultCap);
      jobs := new FreeList<Job>(defaultCap, zero);
      jobsR := new PriorityHeap(defaultCap);
      jobsW := new PriorityHeap(defaultCap);
      jobId := 0;
    }

    /** Submit a job. If the cache has an answer it is given, and no job is made. The loads of the
        cleanup are whatever concurrent workers make them: `loads(n, idx)` is what the `n`-th test finds
        in slot `idx`; `tests` is the slots tested, in order. */
    method Submit(request: Request, loads: (nat, nat) -> Load)
      returns (id: nat, answer: TrieLookup.Lookup, ghost idx: nat, ghost tests: seq<nat>, ghost dropped: set<nat>)
      requires Valid() && request.priority < 256
      modifies this, jobs, jobsR, jobsW, cache.Repr
      ensures Valid() && cache.pending.Contents() == []
      ensures cache.tree.Contents() == Caches.ApplyAll(old(cache.tree.Contents()), old(cache.pending.Contents()))
      ensures answer == TrieLookup.MapLookup(cache.tree.Contents(), Caches.KeyOf(request.hash))
      ensures answer.Found? ==> id == NO_JOB && jobId == old(jobId) && jobsR == old(jobsR) && jobsW == old(jobsW)
                                && jobs.live == old(jobs.live) && jobsR.nodes == old(jobsR.nodes)
      ensures !answer.Found? ==> id == jobId == (old(jobId) + 1) % (NO_JOB + 1)
      ensures !answer.Found? ==> jobsW == old(jobsR) && jobsR == old(jobsW) && jobsW.nodes == old(jobsR.nodes)
      ensures !answer.Found? ==>
                && idx !in old(jobs.live)
                && Cleans(loads, old(jobs.live), old(jobsR.nodes), tests, dropped)
                && jobs.live == (old(jobs.live) - dropped)[idx := Job(request, Dispense.BlockCount(request.start, request.end), id)]
                && Publishes(multiset(jobsR.nodes), multiset(old(jobsR.nodes)), dropped, Node(request.priority, idx))
                && NextHeap(old(jobsR.nodes), jobsR.nodes)
      ensures !answer.Found? ==>
                && DropsExactly(loads, tests, dropped, old(jobs.live))
                && KeepsBusy(loads, tests, old(jobs.live), jobs.live, multiset(jobsR.nodes))
    {
      hide Ordered, DropsExactly, KeepsBusy, FreeList<Job>.Valid, Indexes, Publishes, NextHeap, Cleans, Caches.Cache.Valid;
      idx, tests, dropped := 0, [], {};
      answer := cache.Answer(request.hash);
      if answer.Found? {
        return NO_JOB, answer, idx, tests, dropped;
      }
      var nextId := (jobId + 1) % (NO_JOB + 1);
      var job := Job(request, Dispense.BlockCount(request.start, request.end), nextId);
      idx, tests, dropped := BuildNext(job, loads);
      jobsR, jobsW := jobsW, jobsR;
      jobId := nextId;
      id := nextId;
    }

    /** Build the next heap: allocate the job, copy, clean up, insert. */
    method BuildNext(job: Job, loads: (nat, nat) -> Load)
      returns (jobIdx: nat, ghost tests: seq<nat>, ghost dropped: set<nat>)
      requires Sound() && job.request.priority < 256
      modifies jobs, jobsW
      ensures jobs.Valid() && jobsW.Valid() && 0 < jobsW.cap
      ensures Indexes(multiset(jobsW.nodes), jobs.live.Keys)
      ensures jobIdx !in old(jobs.live)
      ensures Cleans(loads, old(jobs.live), jobsR.nodes, tests, dropped) && DropsExactly(loads, tests, dropped, old(jobs.live))
      ensures jobs.live == (old(jobs.live) - dropped)[jobIdx := job]
      ensures Publishes(multiset(jobsW.nodes), multiset(jobsR.nodes), dropped, Node(job.request.priority, jobIdx))
      ensures NextHeap(jobsR.nodes, jobsW.nodes)
      ensures KeepsBusy(loads, tests, old(jobs.live), jobs.live, multiset(jobsW.nodes))
    {
      hide Ordered, FreeList<Job>.Valid, Indexes, KeepsRest, Publishes, Cleans, DropsExactly, KeepsBusy;
      ghost var was := jobs.live;
      jobIdx := jobs.Insert(job);
      jobsW.CopyFrom(jobsR);
      tests, dropped := Cleanup(loads, was, jobIdx, job);
      ghost var kept, node := multiset(jobsW.nodes), Node(job.request.priority, jobIdx);
      IndexesWith(kept, was.Keys - dropped, node);
      PublishesOne(kept, multiset(jobsR.nodes), dropped, node);
      NewKey(was, dropped, jobIdx, job);
      jobsW.Insert(jobIdx, job.request.priority);
      BusyStay(loads, tests, dropped, was, job, jobIdx, multiset(jobsR.nodes), multiset(jobsW.nodes));
    }

    /** Scan the copied heap and drop finished jobs, from the heap and from the pool, while the heap
        moves its entries about. */
    method Cleanup(loads: (nat, nat) -> Load, ghost was: map<nat, Job>, ghost newIdx: nat, ghost newJob: Job)
      returns (ghost tests: seq<nat>, ghost dropped: set<nat>)
      requires jobsR != jobsW && jobs.Valid() && jobsW.Valid()
      requires newIdx !in was && jobs.live == was[newIdx := newJob]
      requires Indexes(multiset(jobsW.nodes), was.Keys)
      modifies jobs, jobsW`nodes
      ensures jobs.Valid() && jobsW.Valid()
      ensures Cleans(loads, was, old(jobsW.nodes), tests, dropped)
      ensures DropsExactly(loads, tests, dropped, was)
      ensures jobsW.nodes == CleanupScans.ScanBy(old(jobsW.nodes), 0, 0, FoundDone(loads, was))
      ensures jobs.live == (was - dropped)[newIdx := newJob]
      ensures Indexes(multiset(jobsW.nodes), was.Keys - dropped)
      ensures KeepsRest(multiset(jobsW.nodes), multiset(old(jobsW.nodes)), dropped)
    {
      hide Ordered, FreeList<Job>.Valid, Indexes, KeepsRest, Removed, AllFinished, FoundDone, Without, DropsExactly;
      hide CleanupScans.ScanBy, CleanupScans.TestsBy;
      tests, dropped := [], {};
      NothingDropped(loads, was, multiset(jobsW.nodes));
      ghost var done := FoundDone(loads, was);
      var i, n := 0, 0;
      while i < |jobsW.nodes|
        invariant 0 <= i <= |jobsW.nodes| && n == |tests|
        invariant jobs.Valid() && jobsW.Valid()
        invariant AllFinished(loads, tests, dropped, was) && jobs.live == (was - dropped)[newIdx := newJob]
        invariant Indexes(multiset(jobsW.nodes), was.Keys - dropped)
        invariant KeepsRest(multiset(jobsW.nodes), multiset(old(jobsW.nodes)), dropped)
        invariant CleanupScans.ScanBy(jobsW.nodes, i, n, done) == CleanupScans.ScanBy(old(jobsW.nodes), 0, 0, done)
        invariant tests + CleanupScans.TestsBy(jobsW.nodes, i, n, done) == CleanupScans.TestsBy(old(jobsW.nodes), 0, 0, done)
        decreases |jobsW.nodes| - i + |jobsW.nodes|
      {
        EntryIsLive(jobsW.nodes, was.Keys - dropped, i);
        ghost var node := jobsW.nodes[i];
        var someIdx := jobsW.nodes[i].elem;
        var someJob := jobs.Read(someIdx);
        Tested(loads, n, someIdx, was, tests, dropped);
        TestsFirst(jobsW.nodes, i, n, done, tests);
        if Finished(loads, n, someIdx, someJob.blockCount) {
          IndexesWithout(multiset(jobsW.nodes), was.Keys - dropped, node);
          KeepsRestWithout(multiset(jobsW.nodes), multiset(old(jobsW.nodes)), dropped, was.Keys - dropped, node);
          DropLive(was, dropped, someIdx, newIdx, newJob);
          ghost var size := |jobsW.nodes|;
          jobs.Remove(someIdx);
          jobsW.Remove(i);
          assert |jobsW.nodes| == |multiset(jobsW.nodes)| == size - 1;
          assert was.Keys - dropped - {someIdx} == was.Keys - (dropped + {someIdx});
          dropped := dropped + {someIdx};
        } else {
          i := i + 1;
        }
        tests := tests + [someIdx];
        n := n + 1;
      }
      ScanEnds(jobsW.nodes, n, done, tests);
      DroppedMeans(loads, tests, dropped, was);
    }

    /** After every submission, the indices in the published heap, each there once, and the free stack
        share out the pool. */
    lemma HeapAndFreePartition()
      requires Valid()
      ensures Distinct(jobs.indices[..jobs.free])
      ensures SharedOut(multiset(jobsR.nodes), Elements(jobs.indices[..jobs.free]), jobs.cap)
    {
      hide Ordered, Indexes, SharedOut, Distinct;
      jobs.Partition();
      SharesOut(multiset(jobsR.nodes), jobs.live.Keys, Elements(jobs.indices[..jobs.free]), jobs.cap);
    }
  }

  /** Every slot below `cap` is either free or the element of exactly one entry. */
  ghost predicate SharedOut(m: multiset<Node>, free: set<nat>, cap: nat) {
    && (forall n :: n in m ==> m[n] == 1 && n.elem < cap && n.elem !in free)
    && (forall n, o :: n in m && o in m && n.elem == o.elem ==> n == o)
    && (forall k :: k in free ==> k < cap)
    && (forall k: nat :: k < cap && k !in free ==> exists p: Priority :: Node(p, k) in m)
  }

  lemma SharesOut(m: multiset<Node>, keys: set<nat>, free: set<nat>, cap: nat)
    requires Indexes(m, keys) && free !! keys && free + keys == Below(cap)
    ensures SharedOut(m, free, cap)
  {
    forall k: nat ensures k in free || k in keys <==> k < cap {
      assert k in free + keys <==> k in Below(cap);
    }
    forall k: nat | k < cap && k !in free ensures exists p: Priority :: Node(p, k) in m {
      assert k in keys;
    }
  }

  lemma PublishesOne(m: multiset<Node>, was: multiset<Node>, dropped: set<nat>, node: Node)
    requires KeepsRest(m, was, dropped)
    ensures Publishes(m + multiset{node}, was, dropped, node)
  {
  }

  /** The scan made exactly these tests, and dropped exactly the jobs they found finished. */
  ghost predicate Cleans(loads: (nat, nat) -> Load, live: map<nat, Job>, heap: seq<Node>, tests: seq<nat>, dropped: set<nat>) {
    && tests == CleanupScans.TestsBy(heap, 0, 0, FoundDone(loads, live))
    && AllFinished(loads, tests, dropped, live)
  }

  /** A job was dropped exactly if some test of its slot found the block index at the block count or past it
      and no worker inside. */
  ghost predicate DropsExactly(loads: (nat, nat) -> Load, tests: seq<nat>, dropped: set<nat>, live: map<nat, Job>) {
    forall d: nat :: d in dropped <==>
      d in live && exists n :: 0 <= n < |tests| && tests[n] == d && loads(n, d).rc == 0 && loads(n, d).blockIdx >= live[d].blockCount
  }

  /** A job of which every test found a worker inside, or blocks left, is in the pool as it was, and in the
      heap. */
  ghost predicate KeepsBusy(loads: (nat, nat) -> Load, tests: seq<nat>, was: map<nat, Job>, live: map<nat, Job>, m: multiset<Node>) {
    forall d :: d in was
                && (forall n :: 0 <= n < |tests| && tests[n] == d ==> loads(n, d).rc > 0 || loads(n, d).blockIdx < was[d].blockCount)
                ==> d in live && live[d] == was[d] && exists p: Priority :: Node(p, d) in m
  }

  lemma DroppedMeans(loads: (nat, nat) -> Load, tests: seq<nat>, dropped: set<nat>, live: map<nat, Job>)
    requires AllFinished(loads, tests, dropped, live)
    ensures DropsExactly(loads, tests, dropped, live)
  {
    forall d: nat | d in live && exists n :: 0 <= n < |tests| && tests[n] == d && loads(n, d).rc == 0
                                       && loads(n, d).blockIdx >= live[d].blockCount
      ensures d in dropped
    {
      var n :| 0 <= n < |tests| && tests[n] == d && loads(n, d).rc == 0 && loads(n, d).blockIdx >= live[d].blockCount;
      assert FoundDone(loads, live)(n, tests[n]);
    }
    forall d: nat | d in dropped
      ensures d in live && exists n :: 0 <= n < |tests| && tests[n] == d && loads(n, d).rc == 0
                                       && loads(n, d).blockIdx >= live[d].blockCount
    {
      var n :| 0 <= n < |tests| && tests[n] == d && FoundDone(loads, live)(n, d);
      assert loads(n, d).rc == 0;
    }
  }

  lemma BusyStay(loads: (nat, nat) -> Load, tests: seq<nat>, dropped: set<nat>, was: map<nat, Job>, job: Job, idx: nat,
                 before: multiset<Node>, m: multiset<Node>)
    requires DropsExactly(loads, tests, dropped, was) && Indexes(before, was.Keys) && idx !in was
    requires job.request.priority <= MAX && Publishes(m, before, dropped, Node(job.request.priority, idx))
    ensures KeepsBusy(loads, tests, was, (was - dropped)[idx := job], m)
  {
    forall d | d in was
               && (forall n :: 0 <= n < |tests| && tests[n] == d ==> loads(n, d).rc > 0 || loads(n, d).blockIdx < was[d].blockCount)
      ensures d !in dropped && exists p: Priority :: Node(p, d) in m
    {
      var p: Priority :| Node(p, d) in before;
      assert Node(p, d) in m;
    }
  }

  /** When the block index loaded is what the counter holds, a dropped job counts as done by the test of the
      workers, and nobody was inside. */
  lemma DroppedIsDone(loads: (nat, nat) -> Load, tests: seq<nat>, dropped: set<nat>, live: map<nat, Job>,
                      events: (nat, nat) -> seq<Dispense.Event>, d: nat)
    requires DropsExactly(loads, tests, dropped, live) && d in live
    requires forall n :: 0 <= n < |tests| && tests[n] == d ==>
               loads(n, d).blockIdx == Dispense.Counter(events(n, d), live[d].blockCount)
    ensures d in dropped <==>
              exists n :: 0 <= n < |tests| && tests[n] == d && loads(n, d).rc == 0 && Dispense.IsDone(events(n, d), live[d].blockCount)
  {
  }

  lemma NothingDropped(loads: (nat, nat) -> Load, was: map<nat, Job>, m: multiset<Node>)
    ensures AllFinished(loads, [], {}, was) && was - {} == was && KeepsRest(m, m, {}) && was.Keys - {} == was.Keys
  {
  }

  /** One more test, and the job dropped if it is found finished. */
  lemma Tested(loads: (nat, nat) -> Load, n: nat, idx: nat, was: map<nat, Job>, tests: seq<nat>, dropped: set<nat>)
    requires AllFinished(loads, tests, dropped, was) && idx in was && n == |tests|
    ensures FoundDone(loads, was)(n, idx) <==> Finished(loads, n, idx, was[idx].blockCount)
    ensures AllFinished(loads, tests + [idx], if FoundDone(loads, was)(n, idx) then dropped + {idx} else dropped, was)
  {
    var more := tests + [idx];
    var after := if FoundDone(loads, was)(n, idx) then dropped + {idx} else dropped;
    forall d | d in after ensures exists m :: 0 <= m < |more| && more[m] == d && FoundDone(loads, was)(m, d) {
      if d in dropped {
        var m :| 0 <= m < |tests| && tests[m] == d && FoundDone(loads, was)(m, d);
        assert more[m] == d;
      } else {
        assert more[n] == d;
      }
    }
  }

  lemma TestsFirst(s: seq<Node>, i: nat, n: nat, done: (nat, nat) -> bool, tests: seq<nat>)
    requires i < |s|
    ensures done(n, s[i].elem) ==>
              && tests + CleanupScans.TestsBy(s, i, n, done) == tests + [s[i].elem] + CleanupScans.TestsBy(Without(s, i), i, n + 1, done)
              && CleanupScans.ScanBy(s, i, n, done) == CleanupScans.ScanBy(Without(s, i), i, n + 1, done)
    ensures !done(n, s[i].elem) ==>
              && tests + CleanupScans.TestsBy(s, i, n, done) == tests + [s[i].elem] + CleanupScans.TestsBy(s, i + 1, n + 1, done)
              && CleanupScans.ScanBy(s, i, n, done) == CleanupScans.ScanBy(s, i + 1, n + 1, done)
  {
    hide Without;
  }

  lemma ScanEnds(s: seq<Node>, n: nat, done: (nat, nat) -> bool, tests: seq<nat>)
    ensures CleanupScans.ScanBy(s, |s|, n, done) == s && tests + CleanupScans.TestsBy(s, |s|, n, done) == tests
  {
  }

  /** The jobs finished at every test. */
  ghost function Done(loads: (nat, nat) -> Load, live: map<nat, Job>): set<nat> {
    set idx | idx in live && Finished(loads, 0, idx, live[idx].blockCount)
  }

  /** The loads find the same at every test. */
  ghost predicate Stable(loads: (nat, nat) -> Load) {
    forall n, idx :: loads(n, idx) == loads(0, idx)
  }

  /** In the copied heap no two entries are for one job, and priorities fit 8 bits. */
  lemma IndexedApart(heap: seq<Node>, keys: set<nat>)
    requires Indexes(multiset(heap), keys)
    ensures CleanupScans.Apart(heap)
  {
    forall x | 0 <= x < |heap| ensures heap[x] in multiset(heap) {}
    forall x, y | 0 <= x < y < |heap| ensures heap[x].elem != heap[y].elem {
      if heap[x] == heap[y] {
        CleanupScans.CountTwo(heap, x, y);
      }
    }
  }

  /** What the cleanup leaves of a heap when nothing finishes meanwhile. With one finished job more than
      `c` it is no finished job, if no two unfinished jobs tie and the finished ones among the last `c` are
      lower than the unfinished ones, or if the last `c` jobs are unfinished and none is lower than a
      finished one. */
  lemma CleanupDropsAll(loads: (nat, nat) -> Load, live: map<nat, Job>, heap: seq<Node>, c: nat)
    requires Stable(loads) && Ordered(heap) && Indexes(multiset(heap), live.Keys)
    requires |CleanupScans.Present(heap, Done(loads, live))| <= c + 1 && CleanupScans.Guarded(heap, Done(loads, live), c)
    ensures CleanupScans.NoneFinished(CleanupScans.ScanBy(heap, 0, 0, FoundDone(loads, live)), Done(loads, live))
  {
    hide Ordered, Indexes, CleanupScans.Apart, CleanupScans.Guarded;
    var fin := Done(loads, live);
    IndexedApart(heap, live.Keys);
    CleanupScans.ScanByStable(heap, 0, 0, FoundDone(loads, live), fin);
    CleanupScans.ScanDropsAll(heap, 0, fin, c);
  }

  /** A single finished job is always dropped. */
  lemma CleanupDropsOne(loads: (nat, nat) -> Load, live: map<nat, Job>, heap: seq<Node>, i: nat)
    requires Stable(loads) && Ordered(heap) && Indexes(multiset(heap), live.Keys) && i < |heap|
    requires forall x :: 0 <= x < |heap| ==> (heap[x].elem in Done(loads, live) <==> x == i)
    ensures CleanupScans.NoneFinished(CleanupScans.ScanBy(heap, 0, 0, FoundDone(loads, live)), Done(loads, live))
  {
    hide Ordered, Indexes, CleanupScans.Apart, CleanupScans.NoneFinished;
    IndexedApart(heap, live.Keys);
    CleanupScans.ScanByStable(heap, 0, 0, FoundDone(loads, live), Done(loads, live));
    CleanupScans.OneDropped(heap, Done(loads, live), i);
  }

  /** Of exactly two finished jobs the cleanup leaves one exactly when it misses the second. */
  lemma CleanupDropsTwo(loads: (nat, nat) -> Load, live: map<nat, Job>, heap: seq<Node>, i: nat, j: nat)
    requires Stable(loads) && Ordered(heap) && Indexes(multiset(heap), live.Keys) && i < j < |heap|
    requires forall x :: 0 <= x < |heap| ==> (heap[x].elem in Done(loads, live) <==> x == i || x == j)
    ensures CleanupScans.NoneFinished(CleanupScans.ScanBy(heap, 0, 0, FoundDone(loads, live)), Done(loads, live))
            <==> !CleanupScans.Misses(heap, i, j)
  {
    hide Ordered, Indexes, CleanupScans.Apart, CleanupScans.NoneFinished, CleanupScans.Misses;
    IndexedApart(heap, live.Keys);
    CleanupScans.ScanByStable(heap, 0, 0, FoundDone(loads, live), Done(loads, live));
    CleanupScans.TwoExactly(heap, Done(loads, live), i, j);
  }

  lemma DropLive(was: map<nat, Job>, dropped: set<nat>, idx: nat, newIdx: nat, newJob: Job)
    requires newIdx !in was && idx in was && idx !in dropped
    ensures (was - dropped)[newIdx := newJob] - {idx} == (was - (dropped + {idx}))[newIdx := newJob]
  {
  }

  lemma NewKey(was: map<nat, Job>, dropped: set<nat>, newIdx: nat, newJob: Job)
    ensures (was - dropped)[newIdx := newJob].Keys == was.Keys - dropped + {newIdx}
  {
  }

  // ------------------------------------------------------------------
  // A worker's next block
  // ------------------------------------------------------------------

  /** What an addition to the counter of slot `idx` finds, after the events `before` on it. */
  function Ticket(before: seq<Dispense.Event>, job: Job): U64 {
    Dispense.Counter(before, job.blockCount)
  }

  /** The entries in `gone` were found used up, one by each of the first additions: the `n`-th was made
      to the slot `additions[n]`, after the events `before(n, additions[n])` on its counter. */
  ghost predicate AllUsedUp(before: (nat, nat) -> seq<Dispense.Event>, additions: seq<nat>, gone: seq<Node>, data: seq<Job>) {
    && |gone| <= |additions|
    && forall n :: 0 <= n < |gone| ==>
         && gone[n].elem == additions[n] < |data|
         && Ticket(before(n, additions[n]), data[additions[n]]) > data[additions[n]].blockCount
  }

  /** The entries in `gone` do not rise, and what is left is below them. */
  ghost predicate Descends(left: multiset<Node>, gone: seq<Node>, data: seq<Job>) {
    && (forall m :: m in left ==> m.elem < |data| && forall n :: 0 <= n < |gone| ==> m.priority <= gone[n].priority)
    && (forall n, m :: 0 <= n < m < |gone| ==> gone[m].priority <= gone[n].priority)
  }

  /** `node` comes before what is left and after what is gone, which went in this order. */
  ghost predicate Between(node: Node, left: multiset<Node>, gone: seq<Node>) {
    && node in left
    && (forall n :: n in left ==> n.priority <= node.priority)
    && (forall n :: 0 <= n < |gone| ==> node.priority <= gone[n].priority)
    && (forall n, m :: 0 <= n < m < |gone| ==> gone[m].priority <= gone[n].priority)
  }

  /** The block is the one of the job whose number the addition found. */
  ghost predicate IsBlock(ticket: U64, job: Job, start: U64, end: U64) {
    && ticket <= job.blockCount
    && start == Dispense.BlockStart(job.request.start, ticket)
    && end == Dispense.BlockEnd(job.request.start, job.request.end, ticket)
  }

  /** Take the next block off the worker's own heap: claim from the job of the highest priority, and go
      on to the next when its blocks are used up. The counters are shared: `before(n, idx)` is what all
      workers did to the counter of slot `idx` before the `n`-th addition here. A slot may have been
      reused since the heap was copied; what is read is what is in it now. */
  method Schedule(local: PriorityHeap, jobs: FreeList<Job>, before: (nat, nat) -> seq<Dispense.Event>)
    returns (found: bool, idx: nat, start: U64, end: U64,
             ghost node: Node, ghost gone: seq<Node>, ghost additions: seq<nat>)
    requires local.Valid() && jobs.Valid()
    requires forall n :: n in multiset(local.nodes) ==> n.elem < jobs.cap
    modifies local`nodes
    ensures local.Valid()
    ensures multiset(old(local.nodes)) == multiset(local.nodes) + multiset(gone)
    ensures AllUsedUp(before, additions, gone, jobs.data)
    ensures |additions| == |gone| + if found then 1 else 0
    ensures !found ==> local.nodes == []
    ensures found ==>
              && node.elem == idx == additions[|gone|] < |jobs.data| && Between(node, multiset(local.nodes), gone)
              && IsBlock(Ticket(before(|gone|, idx), jobs.data[idx]), jobs.data[idx], start, end)
  {
    hide Ordered, FreeList<Job>.Valid, Dispense.BlockStart, Dispense.BlockEnd, AllUsedUp, Descends, Between, Ticket;
    gone, additions := [], [];
    found, idx, start, end, node := false, NO_JOB, 0, 0, Node(0, 0);
    SlotsInPool(jobs);
    NothingGone(before, multiset(local.nodes), jobs.data);
    var n := 0;
    while true
      invariant n == |gone| == |additions| && local.Valid() && !found
      invariant multiset(old(local.nodes)) == multiset(local.nodes) + multiset(gone)
      invariant AllUsedUp(before, additions, gone, jobs.data)
      invariant Descends(multiset(local.nodes), gone, jobs.data)
      decreases |local.nodes|
    {
      var top, some := local.GetMax();
      if !some {
        return;
      }
      NextIsBetween(top, multiset(local.nodes), gone, jobs.data);
      idx := top.elem;
      var job := jobs.data[idx];
      var blockIdx := Ticket(before(n, idx), job);
      OneMoreAddition(before, additions, gone, jobs.data, top);
      additions := additions + [idx];
      if blockIdx <= job.blockCount {
        start := Dispense.BlockStart(job.request.start, blockIdx);
        end := Dispense.BlockEnd(job.request.start, job.request.end, blockIdx);
        found, node := true, top;
        return;
      }
      ghost var heap := local.nodes;
      var _, _ := local.ExtractMax();
      TopIsGone(heap, local.nodes, top, gone, jobs.data);
      gone := gone + [top];
      n := n + 1;
    }
  }

  lemma SlotsInPool(jobs: FreeList<Job>)
    requires jobs.Valid()
    ensures |jobs.data| == jobs.cap
  {
  }

  lemma NothingGone(before: (nat, nat) -> seq<Dispense.Event>, left: multiset<Node>, data: seq<Job>)
    requires forall m :: m in left ==> m.elem < |data|
    ensures Descends(left, [], data) && AllUsedUp(before, [], [], data) && left + multiset([]) == left
  {
  }

  lemma NextIsBetween(top: Node, left: multiset<Node>, gone: seq<Node>, data: seq<Job>)
    requires Descends(left, gone, data) && top in left && forall n :: n in left ==> n.priority <= top.priority
    ensures top.elem < |data| && Between(top, left, gone)
  {
  }

  lemma OneMoreAddition(before: (nat, nat) -> seq<Dispense.Event>, additions: seq<nat>, gone: seq<Node>, data: seq<Job>, top: Node)
    requires AllUsedUp(before, additions, gone, data) && |additions| == |gone| && top.elem < |data|
    ensures AllUsedUp(before, additions + [top.elem], gone, data)
    ensures Ticket(before(|gone|, top.elem), data[top.elem]) > data[top.elem].blockCount
            ==> AllUsedUp(before, additions + [top.elem], gone + [top], data)
  {
    hide Ticket;
  }

  lemma TopIsGone(heap: seq<Node>, after: seq<Node>, top: Node, gone: seq<Node>, data: seq<Job>)
    requires Between(top, multiset(heap), gone) && multiset(after) == multiset(heap) - multiset{top}
    requires Descends(multiset(heap), gone, data)
    ensures multiset(heap) + multiset(gone) == multiset(after) + multiset(gone + [top])
    ensures |after| < |heap|
    ensures Descends(multiset(after), gone + [top], data)
  {
    assert |multiset(after)| == |after| && |multiset(heap)| == |heap|;
  }

  /** A job skipped as used up was answered or cancelled before, or all its values that are in blocks are
      claimed, which are all values exactly when no sum goes past the limit. */
  lemma SkippedIsOver(events: seq<Dispense.Event>, job: Job)
    requires Ticket(events, job) > job.blockCount && |events| < LIMIT
    requires job.blockCount == Dispense.BlockCount(job.request.start, job.request.end)
    ensures Dispense.Store in events
            || (Dispense.AllClaimed(job.request.start, job.request.end, Dispense.Claims(events, job.blockCount))
                <==> job.request.start > job.request.end || Dispense.SumsFit(job.request.start, job.request.end))
  {
    hide Dispense.SumsFit, Dispense.AllClaimed, Dispense.AllCovered, Dispense.BlockCount;
    if Dispense.Store !in events {
      var all := events + [Dispense.Claim(0)];
      assert all[..|events|] == events;
      Dispense.ClaimsCount(all, job.blockCount);
      Dispense.OverClaimMeansAll(job.request.start, job.request.end, all, |events|);
      Dispense.CoversExactly(job.request.start, job.request.end);
    }
  }

  /** A block handed out before any answer or cancellation is nobody else's: none of the claims before it
      has its number, and no claim after it until then. */
  lemma HandedOutOnce(events: seq<Dispense.Event>, job: Job, later: seq<Dispense.Event>)
    requires Dispense.Undisturbed(later) && events < later
    ensures Ticket(events, job) == Ticket(later, job) <==> events == [] && |later| == LIMIT
    ensures forall i :: 0 <= i < |Dispense.Claims(events, job.blockCount)|
              ==> Dispense.Claims(events, job.blockCount)[i].block != Ticket(events, job)
  {
    hide Dispense.Claims, Dispense.Counter;
    Dispense.ClaimsCount(events, job.blockCount);
    Dispense.ClaimsCount(later, job.blockCount);
  }
}
