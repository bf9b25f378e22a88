/** First-come-first-serve: non-preemptive service in ready-queue order
    (CPU_Scheduler.FCFS). The same clock discipline serves the priority policy. */
module Fcfs {
  import opened Pcb
  import opened State

  /** Runs `queue` to completion, in order, on a clock that starts at `clock`: each job
      waits for the clock, turns around after its burst, and advances the clock by it. */
  function Serve(queue: seq<PCB>, clock: int): (done: seq<PCB>)
    ensures |done| == |queue|
    ensures forall i :: 0 <= i < |queue| ==>
              done[i] == queue[i].(waitTime := clock + BurstSum(queue[..i]),
                                   turnaroundTime := clock + BurstSum(queue[..i]) + queue[i].burstTime)
    decreases |queue|
  {
    if |queue| == 0 then []
    else
      var job := queue[0];
      BurstSumShift(queue);
      [job.(waitTime := clock, turnaroundTime := clock + job.burstTime)]
      + Serve(queue[1..], clock + job.burstTime)
  }

  /** The bursts ahead of position i are the first job's burst plus those ahead of
      position i - 1 in the rest of the queue. */
  lemma BurstSumShift(queue: seq<PCB>)
    requires |queue| > 0
    ensures BurstSum(queue[..0]) == 0
    ensures forall i :: 0 < i <= |queue| ==>
              BurstSum(queue[..i]) == queue[0].burstTime + BurstSum(queue[1..][..i - 1])
  {
    forall i | 0 < i <= |queue|
      ensures BurstSum(queue[..i]) == queue[0].burstTime + BurstSum(queue[1..][..i - 1])
    {
      assert queue[..i][1..] == queue[1..][..i - 1];
    }
  }

  /** The outcome of one FCFS run: the scheduler afterwards and the final clock. */
  datatype FcfsRun = FcfsRun(signal: Signal, sched: Scheduler, clock: int)

  /** FCFS over the ready queue. On an empty ready queue it reports "no jobs available"
      and changes nothing. Otherwise it drains the ready queue and appends every job to
      the completed list in ready-queue order, each with the bursts before it as its wait
      and that wait plus its own burst as its turnaround; no other field changes. */
  function FCFS(s: Scheduler): (r: FcfsRun)
    ensures r.signal == NoJobsAvailable <==> |s.readyQueue| == 0
    ensures r.signal == NoJobsAvailable ==> r.sched == s
    ensures r.signal == Scheduled ==>
              && r.sched.jobQueue == s.jobQueue
              && r.sched.readyQueue == []
              && |r.sched.completedJobs| == |s.completedJobs| + |s.readyQueue|
              && r.sched.completedJobs[..|s.completedJobs|] == s.completedJobs
              && r.clock == BurstSum(s.readyQueue)
              && r.clock == r.sched.completedJobs[|r.sched.completedJobs| - 1].turnaroundTime
    ensures r.signal == Scheduled ==>
              forall i :: 0 <= i < |s.readyQueue| ==>
                r.sched.completedJobs[|s.completedJobs| + i]
                == s.readyQueue[i].(waitTime := BurstSum(s.readyQueue[..i]),
                                    turnaroundTime := BurstSum(s.readyQueue[..i]) + s.readyQueue[i].burstTime)
  {
    if |s.readyQueue| == 0 then FcfsRun(NoJobsAvailable, s, 0)
    else
      var done := Serve(s.readyQueue, 0);
      FinalClock(s.readyQueue, 0);
      FcfsRun(Scheduled, s.(readyQueue := [], completedJobs := s.completedJobs + done),
              BurstSum(s.readyQueue))
  }

  /** The last job served from `clock` turns around at `clock` plus all the bursts. */
  lemma FinalClock(queue: seq<PCB>, clock: int)
    requires |queue| > 0
    ensures Serve(queue, clock)[|queue| - 1].turnaroundTime == clock + BurstSum(queue)
  {
    var n := |queue|;
    TotalPrefixStep(queue, n - 1, Burst);
    assert queue[..n] == queue;
  }
}
