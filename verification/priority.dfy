/** Static, non-preemptive priority scheduling with starvation flagging
    (CPU_Scheduler.priorityScheduling and getStarvationThreshold). */
module Priority {
  import opened Pcb
  import opened State
  import opened Fcfs

  /** The wait beyond which a job of the given priority is reported as starved. */
  function StarvationThreshold(priority: int): (t: int)
    ensures 1 <= priority <= 8 ==> 50 <= t <= 150
    ensures !(1 <= priority <= 8) ==> t == 100
  {
    match priority
    case 1 => 50
    case 2 => 60
    case 3 => 70
    case 4 => 80
    case 5 => 90
    case 6 => 100
    case 7 => 120
    case 8 => 150
    case _ => 100
  }

  /** More urgent priorities tolerate less waiting. */
  lemma ThresholdGrowsWithPriorityNumber(p1: int, p2: int)
    requires 1 <= p1 < p2 <= 8
    ensures StarvationThreshold(p1) < StarvationThreshold(p2)
  {
  }

  /** Ready job a is served before ready job b by a stable ascending sort on priority:
      it has a smaller priority value, or the same one and an earlier position. */
  predicate Precedes(ready: seq<PCB>, a: nat, b: nat)
    requires a < |ready| && b < |ready|
  {
    ready[a].priority < ready[b].priority
    || (ready[a].priority == ready[b].priority && a < b)
  }

  /** `order` lists ready-queue positions in stable ascending priority order. */
  ghost predicate StableSorted(ready: seq<PCB>, order: seq<nat>) {
    && (forall k :: 0 <= k < |order| ==> order[k] < |ready|)
    && (forall i, j :: 0 <= i < j < |order| ==> Precedes(ready, order[i], order[j]))
  }

  /** Places position x, later than every position already in `order`, after all
      entries of no greater priority and before the first of greater priority. */
  function Insert(ready: seq<PCB>, order: seq<nat>, x: nat): (r: seq<nat>)
    requires x < |ready| && StableSorted(ready, order)
    requires forall k :: 0 <= k < |order| ==> order[k] < x
    ensures multiset(r) == multiset(order) + multiset{x}
    ensures StableSorted(ready, r)
    decreases |order|
  {
    if |order| == 0 then [x]
    else
      var last := order[|order| - 1];
      if ready[last].priority <= ready[x].priority then
        AppendSorted(ready, order, x);
        order + [x]
      else
        var front := order[..|order| - 1];
        assert order == front + [last];
        var r := Insert(ready, front, x);
        AllPrecede(ready, front, x, last, r);
        AppendSorted(ready, r, last);
        r + [last]
  }

  /** Appending a position that every entry precedes keeps the order sorted. The
      entries of `order` here are those of the sorted prefix plus the inserted one. */
  lemma AppendSorted(ready: seq<PCB>, order: seq<nat>, y: nat)
    requires y < |ready| && StableSorted(ready, order)
    requires forall k :: 0 <= k < |order| ==> Precedes(ready, order[k], y)
    ensures StableSorted(ready, order + [y])
  {
  }

  /** If the sorted prefix and x all precede `last`, so does every entry of a
      sequence made of exactly those entries. */
  lemma AllPrecede(ready: seq<PCB>, front: seq<nat>, x: nat, last: nat, r: seq<nat>)
    requires x < |ready| && last < |ready| && Precedes(ready, x, last)
    requires StableSorted(ready, front + [last])
    requires multiset(r) == multiset(front) + multiset{x}
    ensures forall k :: 0 <= k < |r| ==> r[k] < |ready| && Precedes(ready, r[k], last)
  {
    forall k | 0 <= k < |r|
      ensures r[k] < |ready| && Precedes(ready, r[k], last)
    {
      assert r[k] in multiset(r);
      if r[k] != x {
        assert r[k] in multiset(front);
        var m :| 0 <= m < |front| && front[m] == r[k];
        assert (front + [last])[m] == r[k];
        assert (front + [last])[|front|] == last;
      }
    }
  }

  /** The ready-queue positions 0 .. n-1 in stable ascending priority order. */
  function SortByPriority(ready: seq<PCB>, n: nat): (order: seq<nat>)
    requires n <= |ready|
    ensures IsPermutation(order, n)
    ensures StableSorted(ready, order)
    decreases n
  {
    if n == 0 then []
    else
      var order := SortByPriority(ready, n - 1);
      InsertNext(ready, order, n);
      Insert(ready, order, n - 1)
  }

  /** Inserting position n - 1 into a stable order of the positions before it gives a
      permutation of the first n positions. */
  lemma InsertNext(ready: seq<PCB>, order: seq<nat>, n: nat)
    requires 0 < n <= |ready|
    requires IsPermutation(order, n - 1) && StableSorted(ready, order)
    ensures forall k :: 0 <= k < |order| ==> order[k] < n - 1
    ensures IsPermutation(Insert(ready, order, n - 1), n)
  {
    PermutationBound(order, n - 1);
    RangeSnoc(n - 1);
  }

  /** The first position of a stable order precedes every other position in it. */
  lemma FirstIsLeast(ready: seq<PCB>, a: seq<nat>, v: nat)
    requires StableSorted(ready, a) && v in a
    ensures v < |ready| && a[0] < |ready|
    ensures v == a[0] || Precedes(ready, a[0], v)
  {
    var k :| 0 <= k < |a| && a[k] == v;
    if k > 0 {
      assert Precedes(ready, a[0], a[k]);
    }
  }

  /** Two stable orders of the same positions start with the same position. */
  lemma SameFirst(ready: seq<PCB>, a: seq<nat>, b: seq<nat>)
    requires StableSorted(ready, a) && StableSorted(ready, b)
    requires multiset(a) == multiset(b) && |a| > 0 && |b| > 0
    ensures a[0] == b[0]
  {
    assert a[0] in multiset(b);
    assert b[0] in multiset(a);
    FirstIsLeast(ready, a, b[0]);
    FirstIsLeast(ready, b, a[0]);
  }

  lemma SortedTail(ready: seq<PCB>, a: seq<nat>)
    requires StableSorted(ready, a) && |a| > 0
    ensures StableSorted(ready, a[1..])
    ensures multiset(a[1..]) == multiset(a) - multiset{a[0]}
  {
    assert a == [a[0]] + a[1..];
  }

  /** There is only one stable ascending order of the ready queue, so the order built
      here is the one any stable sort produces (CPU_Scheduler sorts with Java's stable List.sort). */
  lemma {:induction false} StableSortIsUnique(ready: seq<PCB>, a: seq<nat>, b: seq<nat>)
    requires StableSorted(ready, a) && StableSorted(ready, b)
    requires multiset(a) == multiset(b)
    ensures a == b
    decreases |a|
  {
    assert |a| == |multiset(a)| == |multiset(b)| == |b|;
    if |a| > 0 {
      SameFirst(ready, a, b);
      SortedTail(ready, a);
      SortedTail(ready, b);
      StableSortIsUnique(ready, a[1..], b[1..]);
      assert a == [a[0]] + a[1..];
      assert b == [b[0]] + b[1..];
    }
  }

  /** The outcome of one priority run: the scheduler afterwards, the ready-queue
      positions in execution order, the starvation flag of each executed job, and the
      final clock. */
  datatype PriorityRun = PriorityRun(
    signal: Signal,
    sched: Scheduler,
    order: seq<nat>,
    starved: seq<bool>,
    clock: int)

  /** The containers after a run: the job queue untouched, the execution order a stable
      ascending priority order of all ready positions, one starvation flag per job, and
      the served jobs appended after the jobs completed before. */
  ghost predicate SortedRun(s: Scheduler, r: PriorityRun) {
    && IsPermutation(r.order, |s.readyQueue|)
    && (forall k :: 0 <= k < |r.order| ==> r.order[k] < |s.readyQueue|)
    && StableSorted(s.readyQueue, r.order)
    && |r.order| == |s.readyQueue|
    && r.sched.jobQueue == s.jobQueue
    && |r.sched.readyQueue| == |s.readyQueue|
    && |r.starved| == |s.readyQueue|
    && |r.sched.completedJobs| == |s.completedJobs| + |s.readyQueue|
    && r.sched.completedJobs[..|s.completedJobs|] == s.completedJobs
    && r.clock == BurstSum(Pick(s.readyQueue, r.order))
  }

  /** The k-th job executed is ready job r.order[k]: it waits for the bursts executed
      before it, turns around after its own, changes in nothing else, is flagged as
      starved exactly when its wait exceeds its priority's threshold, and the ready queue
      holds this same final record at its position. */
  ghost predicate ServedByPriority(s: Scheduler, r: PriorityRun)
    requires SortedRun(s, r)
  {
    forall k :: 0 <= k < |s.readyQueue| ==>
      var job := s.readyQueue[r.order[k]];
      var wait := BurstSum(Pick(s.readyQueue, r.order)[..k]);
      && r.sched.completedJobs[|s.completedJobs| + k]
         == job.(waitTime := wait, turnaroundTime := wait + job.burstTime)
      && (r.starved[k] <==> wait > StarvationThreshold(job.priority))
      && r.sched.readyQueue[r.order[k]] == r.sched.completedJobs[|s.completedJobs| + k]
  }

  /** Serving the ready jobs in the given order on the FCFS clock. */
  function Serving(s: Scheduler, order: seq<nat>): PriorityRun
    requires |order| == |s.readyQueue|
    requires forall k :: 0 <= k < |order| ==> order[k] < |s.readyQueue|
  {
    var sorted := Pick(s.readyQueue, order);
    var served := Serve(sorted, 0);
    var starved := seq(|served|, k requires 0 <= k < |served| =>
                         served[k].waitTime > StarvationThreshold(served[k].priority));
    PriorityRun(Scheduled,
                s.(readyQueue := Scatter(s.readyQueue, order, served),
                   completedJobs := s.completedJobs + served),
                order, starved, BurstSum(sorted))
  }

  /** The run itself, before its properties are established. */
  function Outcome(s: Scheduler): PriorityRun {
    if |s.readyQueue| == 0 then PriorityRun(NoJobsAvailable, s, [], [], 0)
    else
      var order := SortByPriority(s.readyQueue, |s.readyQueue|);
      PermutationFacts(order, |s.readyQueue|);
      Serving(s, order)
  }

  lemma ServingShape(s: Scheduler, order: seq<nat>)
    requires IsPermutation(order, |s.readyQueue|) && StableSorted(s.readyQueue, order)
    requires |order| == |s.readyQueue|
    ensures SortedRun(s, Serving(s, order))
  {
    var r := Serving(s, order);
    assert r.sched.completedJobs[..|s.completedJobs|] == s.completedJobs;
  }

  lemma ServingJob(s: Scheduler, order: seq<nat>, k: nat)
    requires |order| == |s.readyQueue| && Distinct(order)
    requires forall k :: 0 <= k < |order| ==> order[k] < |s.readyQueue|
    requires k < |order|
    ensures
      var r := Serving(s, order);
      var job := s.readyQueue[order[k]];
      var wait := BurstSum(Pick(s.readyQueue, order)[..k]);
      && r.sched.completedJobs[|s.completedJobs| + k]
         == job.(waitTime := wait, turnaroundTime := wait + job.burstTime)
      && (r.starved[k] <==> wait > StarvationThreshold(job.priority))
      && r.sched.readyQueue[order[k]] == r.sched.completedJobs[|s.completedJobs| + k]
  {
    var served := Serve(Pick(s.readyQueue, order), 0);
    assert Serving(s, order).sched.completedJobs[|s.completedJobs| + k] == served[k];
  }

  lemma OutcomeServed(s: Scheduler)
    requires |s.readyQueue| > 0
    ensures SortedRun(s, Outcome(s)) && ServedByPriority(s, Outcome(s))
  {
    var order := SortByPriority(s.readyQueue, |s.readyQueue|);
    PermutationFacts(order, |s.readyQueue|);
    ServingShape(s, order);
    forall k | 0 <= k < |s.readyQueue| {
      ServingJob(s, order, k);
    }
  }

  /** Priority scheduling over the ready queue. On an empty ready queue it reports
      "no jobs available" and changes nothing. Otherwise it serves the ready jobs once
      each, in stable ascending priority order, on the FCFS clock: each waits for the
      bursts served before it and turns around after its own; it is flagged as starved
      exactly when its wait exceeds its priority's threshold, and the flag changes
      nothing else. The completed list grows by the served jobs in execution order, and
      the ready queue (which shares its jobs with the sorted copy in the Java program) holds
      each job's final record in its original position. */
  function PriorityScheduling(s: Scheduler): (r: PriorityRun)
    ensures r.signal == NoJobsAvailable <==> |s.readyQueue| == 0
    ensures r.signal == NoJobsAvailable ==> r.sched == s
    ensures r.signal == Scheduled ==> SortedRun(s, r) && ServedByPriority(s, r)
  {
    if |s.readyQueue| > 0 then
      OutcomeServed(s);
      Outcome(s)
    else
      Outcome(s)
  }

  /** Jobs complete in non-decreasing priority value, and among equal priorities in
      ready-queue order. */
  ghost predicate CompletedByPriority(s: Scheduler, r: PriorityRun)
    requires SortedRun(s, r)
  {
    forall i, j :: 0 <= i < j < |s.readyQueue| ==> CompletedInOrder(s, r, i, j)
  }

  /** The i-th and j-th jobs completed by the run are in priority order. */
  ghost predicate CompletedInOrder(s: Scheduler, r: PriorityRun, i: nat, j: nat)
    requires SortedRun(s, r) && i < j < |s.readyQueue|
  {
    var a := r.sched.completedJobs[|s.completedJobs| + i];
    var b := r.sched.completedJobs[|s.completedJobs| + j];
    && a.priority <= b.priority
    && (a.priority == b.priority ==> r.order[i] < r.order[j])
  }

  lemma CompletesByPriority(s: Scheduler)
    ensures var r := PriorityScheduling(s);
            r.signal == Scheduled ==> SortedRun(s, r) && CompletedByPriority(s, r)
  {
    var r := PriorityScheduling(s);
    if r.signal == Scheduled {
      ServedInPriorityOrder(s, r);
    }
  }

  lemma ServedInPriorityOrder(s: Scheduler, r: PriorityRun)
    requires SortedRun(s, r) && ServedByPriority(s, r)
    ensures CompletedByPriority(s, r)
  {
    var m := |s.completedJobs|;
    forall i, j | 0 <= i < j < |s.readyQueue|
      ensures CompletedInOrder(s, r, i, j)
    {
      assert r.sched.completedJobs[m + i].priority == s.readyQueue[r.order[i]].priority;
      assert r.sched.completedJobs[m + j].priority == s.readyQueue[r.order[j]].priority;
      assert Precedes(s.readyQueue, r.order[i], r.order[j]);
    }
  }

  /** Apart from the starvation flags, a priority run is an FCFS run over the ready
      jobs rearranged into priority order: the same completed list and the same clock. */
  lemma PriorityIsFcfsOverSortedQueue(s: Scheduler)
    requires |s.readyQueue| > 0
    ensures
      var r := PriorityScheduling(s);
      var f := FCFS(s.(readyQueue := Pick(s.readyQueue, r.order)));
      && f.signal == Scheduled
      && f.sched.completedJobs == r.sched.completedJobs
      && f.clock == r.clock
  {
    var order := SortByPriority(s.readyQueue, |s.readyQueue|);
    PermutationFacts(order, |s.readyQueue|);
    assert PriorityScheduling(s) == Serving(s, order);
  }
}
