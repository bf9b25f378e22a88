/** What the scheduler reports after a run: the average wait and turnaround over the
    completed list (CPU_Scheduler.printResults) and the Gantt chart that replays the
    completed list back to back (printGanttChartFCFS, printGanttChartPriorityScheduling). */
module Metrics {
  import opened Pcb
  import opened State
  import opened Fcfs
  import opened Priority

  /** The two averages, or Undefined for an empty list, where CPU_Scheduler.printResults divides
      zero by zero in floating point and prints NaN. */
  datatype Averages = Undefined | Averages(avgWait: real, avgTurnaround: real)

  /** The mean wait and mean turnaround over every completed job, including jobs
      completed by earlier runs. */
  function AverageTimes(completed: seq<PCB>): (a: Averages)
    ensures a.Undefined? <==> |completed| == 0
    ensures a.Averages? ==>
              && a.avgWait * |completed| as real == Total(completed, Wait) as real
              && a.avgTurnaround * |completed| as real == Total(completed, Turnaround) as real
  {
    if |completed| == 0 then Undefined
    else
      var n := |completed| as real;
      Averages(Total(completed, Wait) as real / n, Total(completed, Turnaround) as real / n)
  }

  /** A mean lies between the smallest and the largest value it averages. */
  lemma MeanBetween(total: int, n: nat, lo: int, hi: int)
    requires n > 0 && n * lo <= total <= n * hi
    ensures lo as real <= total as real / n as real <= hi as real
  {
    var m := total as real / n as real;
    assert m * n as real == total as real;
    assert (n * lo) as real == n as real * lo as real;
    assert (n * hi) as real == n as real * hi as real;
  }

  /** When every completed job waited between lo and hi, so does the average. */
  lemma AverageWaitBetween(completed: seq<PCB>, lo: int, hi: int)
    requires |completed| > 0
    requires forall k :: 0 <= k < |completed| ==> lo <= completed[k].waitTime <= hi
    ensures lo as real <= AverageTimes(completed).avgWait <= hi as real
  {
    assert forall k :: 0 <= k < |completed| ==> Get(completed[k], Wait) == completed[k].waitTime;
    TotalBounds(completed, Wait, lo, hi);
    MeanBetween(Total(completed, Wait), |completed|, lo, hi);
  }

  /** Sums are additive across fields when the fields are, job by job. */
  lemma {:induction false} TotalTurnaroundSplits(jobs: seq<PCB>)
    requires forall k :: 0 <= k < |jobs| ==>
               jobs[k].turnaroundTime == jobs[k].waitTime + jobs[k].burstTime
    ensures Total(jobs, Turnaround) == Total(jobs, Wait) + Total(jobs, Burst)
    decreases |jobs|
  {
    if |jobs| > 0 {
      assert forall k :: 0 <= k < |jobs| - 1 ==> jobs[1..][k] == jobs[k + 1];
      TotalTurnaroundSplits(jobs[1..]);
    }
  }

  /** When every job turned around its wait plus its burst after its wait, as FCFS and
      priority scheduling record them, the average turnaround is the average wait plus
      the average burst. */
  lemma AverageTurnaroundIsWaitPlusBurst(completed: seq<PCB>)
    requires |completed| > 0
    requires forall k :: 0 <= k < |completed| ==>
               completed[k].turnaroundTime == completed[k].waitTime + completed[k].burstTime
    ensures AverageTimes(completed).avgTurnaround
            == AverageTimes(completed).avgWait + BurstSum(completed) as real / |completed| as real
  {
    TotalTurnaroundSplits(completed);
  }

  /** The chart of `jobs` run back to back from time `t`, one slice per job. */
  function GanttFrom(jobs: seq<PCB>, t: int): (chart: seq<Slice>)
    ensures |chart| == |jobs|
    ensures ContiguousFrom(chart, t)
    ensures EndsAt(chart, t, t + BurstSum(jobs))
    ensures forall k :: 0 <= k < |jobs| ==>
              && chart[k].id == jobs[k].id
              && chart[k].start == t + BurstSum(jobs[..k])
              && Length(chart[k]) == jobs[k].burstTime
    decreases |jobs|
  {
    if |jobs| == 0 then []
    else
      var rest := GanttFrom(jobs[1..], t + jobs[0].burstTime);
      GanttCons(jobs, t, rest);
      [Slice(jobs[0].id, t, t + jobs[0].burstTime)] + rest
  }

  /** Putting the first job's slice in front of the chart of the others, started when
      the first job ends, gives the chart of all of them. */
  lemma GanttCons(jobs: seq<PCB>, t: int, rest: seq<Slice>)
    requires |jobs| > 0
    requires |rest| == |jobs| - 1
    requires ContiguousFrom(rest, t + jobs[0].burstTime)
    requires EndsAt(rest, t + jobs[0].burstTime, t + jobs[0].burstTime + BurstSum(jobs[1..]))
    requires forall k :: 0 <= k < |jobs| - 1 ==>
               && rest[k].id == jobs[1..][k].id
               && rest[k].start == t + jobs[0].burstTime + BurstSum(jobs[1..][..k])
               && Length(rest[k]) == jobs[1..][k].burstTime
    ensures var chart := [Slice(jobs[0].id, t, t + jobs[0].burstTime)] + rest;
            && ContiguousFrom(chart, t)
            && EndsAt(chart, t, t + BurstSum(jobs))
            && forall k :: 0 <= k < |jobs| ==>
                 && chart[k].id == jobs[k].id
                 && chart[k].start == t + BurstSum(jobs[..k])
                 && Length(chart[k]) == jobs[k].burstTime
  {
    var chart := [Slice(jobs[0].id, t, t + jobs[0].burstTime)] + rest;
    BurstSumShift(jobs);
    forall k | 0 < k < |chart|
      ensures chart[k].start == chart[k - 1].end
    {
      assert chart[k] == rest[k - 1];
    }
    forall k | 0 < k < |jobs|
      ensures chart[k].id == jobs[k].id
      ensures chart[k].start == t + BurstSum(jobs[..k])
      ensures Length(chart[k]) == jobs[k].burstTime
    {
      assert chart[k] == rest[k - 1];
      assert jobs[1..][k - 1] == jobs[k];
    }
  }

  /** The Gantt chart printed after an FCFS or priority run: every completed job, in
      completion order, replayed back to back from time 0 with its current burst. */
  function GanttChart(completed: seq<PCB>): (chart: seq<Slice>)
    ensures |chart| == |completed|
    ensures ContiguousFrom(chart, 0)
    ensures EndsAt(chart, 0, BurstSum(completed))
    ensures forall k :: 0 <= k < |completed| ==>
              && chart[k].id == completed[k].id
              && chart[k].start == BurstSum(completed[..k])
              && Length(chart[k]) == completed[k].burstTime
  {
    GanttFrom(completed, 0)
  }

  /** Two queues whose jobs have the same bursts, position by position, need the same
      time. */
  lemma {:induction false} BurstSumSameBursts(a: seq<PCB>, b: seq<PCB>)
    requires |a| == |b|
    requires forall k :: 0 <= k < |a| ==> a[k].burstTime == b[k].burstTime
    ensures BurstSum(a) == BurstSum(b)
    decreases |a|
  {
    if |a| > 0 {
      assert forall k :: 0 <= k < |a| - 1 ==> a[1..][k] == a[k + 1] && b[1..][k] == b[k + 1];
      BurstSumSameBursts(a[1..], b[1..]);
    }
  }

  /** A chart agrees with a completed list when each slice runs exactly from the job's
      recorded wait to its recorded turnaround. */
  ghost predicate ChartMatchesRecords(chart: seq<Slice>, completed: seq<PCB>) {
    && |chart| == |completed|
    && forall k :: 0 <= k < |chart| ==> SliceMatches(chart[k], completed[k])
  }

  ghost predicate SliceMatches(slice: Slice, job: PCB) {
    && slice.id == job.id
    && slice.start == job.waitTime
    && slice.end == job.turnaroundTime
  }

  /** The chart of jobs served back to back from 0 matches their records. */
  lemma ChartOfServed(queue: seq<PCB>)
    ensures ChartMatchesRecords(GanttChart(Serve(queue, 0)), Serve(queue, 0))
  {
    var done := Serve(queue, 0);
    forall k | 0 <= k < |done|
      ensures SliceMatches(GanttChart(done)[k], done[k])
    {
      ServedPrefixBursts(queue, k);
    }
  }

  /** A served prefix needs as much time as the prefix of the queue it came from. */
  lemma ServedPrefixBursts(queue: seq<PCB>, k: nat)
    requires k <= |queue|
    ensures BurstSum(Serve(queue, 0)[..k]) == BurstSum(queue[..k])
  {
    BurstSumSameBursts(Serve(queue, 0)[..k], queue[..k]);
  }

  /** After FCFS on a scheduler with nothing completed before, each Gantt slice spans
      exactly the job's wait and turnaround. */
  lemma FcfsChartMatchesRecords(s: Scheduler)
    requires |s.readyQueue| > 0 && s.completedJobs == []
    ensures ChartMatchesRecords(GanttChart(FCFS(s).sched.completedJobs), FCFS(s).sched.completedJobs)
  {
    ChartOfServed(s.readyQueue);
    assert FCFS(s).sched.completedJobs == Serve(s.readyQueue, 0);
  }

  /** After priority scheduling on a scheduler with nothing completed before, each Gantt
      slice spans exactly the job's wait and turnaround. */
  lemma PriorityChartMatchesRecords(s: Scheduler)
    requires |s.readyQueue| > 0 && s.completedJobs == []
    ensures var c := PriorityScheduling(s).sched.completedJobs;
            ChartMatchesRecords(GanttChart(c), c)
  {
    var r := PriorityScheduling(s);
    PriorityIsFcfsOverSortedQueue(s);
    FcfsChartMatchesRecords(s.(readyQueue := Pick(s.readyQueue, r.order)));
  }
}
