/** Worked examples: two jobs, P1 (burst 5, priority 2, 100 MB) and P2 (burst 3,
    priority 1, 100 MB), loaded in that order and run under each policy. */
module Scenarios {
  import opened Pcb
  import opened State
  import opened Admission
  import opened Fcfs
  import opened RoundRobin
  import opened Priority
  import opened Metrics

  function P1(): PCB { NewPCB(1, 5, 2, 100) }
  function P2(): PCB { NewPCB(2, 3, 1, 100) }

  function Ready(): Scheduler { Scheduler([], [P1(), P2()], []) }

  /** Admission takes both jobs; the ledger reads 100 after P1 and 200 after P2, and
      that is what each job carries in its start-time field. */
  lemma AdmissionExample()
    ensures Admits([P1(), P2()], 0) && Admits([P1(), P2()], 1)
    ensures Ledger([P1(), P2()]) == 200
    ensures Keep(Stamped([P1(), P2()]), [true, true])
            == [P1().(startTime := 100), P2().(startTime := 200)]
  {
    var jobs := [P1(), P2()];
    assert jobs[..0] == [] && jobs[..1] == [P1()] && jobs[..2] == jobs;
    assert [P1()][..0] == [];
    var st := Stamped(jobs);
    assert st[..1] == [st[0]] && st[..1][..0] == [];
  }

  /** First fit does not stop at the first job that is turned away: with 2000 MB
      charged, a 100 MB job is dropped but a later 48 MB job still fits exactly. */
  lemma FirstFitExample()
    ensures var jobs := [NewPCB(1, 1, 1, 2000), NewPCB(2, 1, 1, 100), NewPCB(3, 1, 1, 48)];
            && Admits(jobs, 0) && !Admits(jobs, 1) && Admits(jobs, 2)
            && Ledger(jobs) == MaxMemory
  {
    var jobs := [NewPCB(1, 1, 1, 2000), NewPCB(2, 1, 1, 100), NewPCB(3, 1, 1, 48)];
    assert jobs[..0] == [];
    assert jobs[..1] == [jobs[0]] && jobs[..1][..0] == [];
    assert jobs[..2] == [jobs[0], jobs[1]] && jobs[..2][..1] == [jobs[0]];
    assert jobs[..3] == jobs && jobs[..3][..2] == jobs[..2];
  }

  /** FCFS: P1 waits 0 and turns around at 5, P2 waits 5 and turns around at 8. */
  lemma FcfsExample()
    ensures var r := FCFS(Ready());
            && r.signal == Scheduled
            && r.sched.completedJobs
               == [P1().(waitTime := 0, turnaroundTime := 5), P2().(waitTime := 5, turnaroundTime := 8)]
            && r.clock == 8
  {
    var q := Ready().readyQueue;
    assert q[..0] == [] && q[..1] == [P1()];
  }

  /** The FCFS averages are 2.5 and 6.5, and its chart is P1 (0 - 5), P2 (5 - 8). */
  lemma FcfsReportExample()
    ensures var c := FCFS(Ready()).sched.completedJobs;
            && AverageTimes(c) == Averages(2.5, 6.5)
            && GanttChart(c) == [Slice(1, 0, 5), Slice(2, 5, 8)]
  {
    FcfsExample();
    var c := FCFS(Ready()).sched.completedJobs;
    assert Total(c, Wait) == 5 && Total(c, Turnaround) == 13;
    ChartOfFcfs(c);
  }

  /** The chart of the two FCFS records: P1 (0 - 5), P2 (5 - 8). */
  lemma ChartOfFcfs(c: seq<PCB>)
    requires c == [P1().(waitTime := 0, turnaroundTime := 5), P2().(waitTime := 5, turnaroundTime := 8)]
    ensures GanttChart(c) == [Slice(1, 0, 5), Slice(2, 5, 8)]
  {
    assert c[..0] == [] && c[..1] == [c[0]];
    var g := GanttChart(c);
    assert g[0] == Slice(1, 0, 5);
    assert g[1] == Slice(2, 5, 8);
  }

  /** Priority: P2 (priority 1) runs first and waits 0, then P1 waits 3; neither passes
      its starvation threshold. */
  lemma PriorityExample()
    ensures var r := PriorityScheduling(Ready());
            && r.order == [1, 0]
            && r.sched.completedJobs
               == [P2().(waitTime := 0, turnaroundTime := 3), P1().(waitTime := 3, turnaroundTime := 8)]
            && r.starved == [false, false]
  {
    PriorityOfTwo(Ready(), [1, 0]);
  }

  /** A priority-1 job that waits 60 units is reported as starved. */
  lemma StarvationExample()
    ensures var s := Scheduler([], [NewPCB(1, 60, 1, 10), NewPCB(2, 5, 1, 10)], []);
            PriorityScheduling(s).starved == [false, true]
  {
    PriorityOfTwo(Scheduler([], [NewPCB(1, 60, 1, 10), NewPCB(2, 5, 1, 10)], []), [0, 1]);
  }

  /** Priority scheduling of two ready jobs, given their stable order. */
  lemma PriorityOfTwo(s: Scheduler, order: seq<nat>)
    requires |s.readyQueue| == 2 && s.completedJobs == []
    requires order == [0, 1] || order == [1, 0]
    requires StableSorted(s.readyQueue, order)
    ensures var r := PriorityScheduling(s);
            var a := s.readyQueue[order[0]];
            var b := s.readyQueue[order[1]];
            && r.order == order
            && r.sched.completedJobs
               == [a.(waitTime := 0, turnaroundTime := a.burstTime),
                   b.(waitTime := a.burstTime, turnaroundTime := a.burstTime + b.burstTime)]
            && r.starved == [0 > StarvationThreshold(a.priority),
                             a.burstTime > StarvationThreshold(b.priority)]
  {
    RunOfTwo(s, PriorityScheduling(s), order);
  }

  lemma RunOfTwo(s: Scheduler, r: PriorityRun, order: seq<nat>)
    requires |s.readyQueue| == 2 && s.completedJobs == []
    requires order == [0, 1] || order == [1, 0]
    requires StableSorted(s.readyQueue, order)
    requires SortedRun(s, r) && ServedByPriority(s, r)
    ensures r.order == order
    ensures var a := s.readyQueue[order[0]];
            var b := s.readyQueue[order[1]];
            && r.sched.completedJobs
               == [a.(waitTime := 0, turnaroundTime := a.burstTime),
                   b.(waitTime := a.burstTime, turnaroundTime := a.burstTime + b.burstTime)]
            && r.starved == [0 > StarvationThreshold(a.priority),
                             a.burstTime > StarvationThreshold(b.priority)]
  {
    OrderOfTwo(s.readyQueue, r.order, order);
    TwoWaits(Pick(s.readyQueue, r.order));
    CompletedOfTwo(s, r);
    StarvedOfTwo(s, r);
  }

  lemma CompletedOfTwo(s: Scheduler, r: PriorityRun)
    requires |s.readyQueue| == 2 && s.completedJobs == []
    requires SortedRun(s, r) && ServedByPriority(s, r)
    requires BurstSum(Pick(s.readyQueue, r.order)[..0]) == 0
    requires BurstSum(Pick(s.readyQueue, r.order)[..1]) == s.readyQueue[r.order[0]].burstTime
    ensures var a := s.readyQueue[r.order[0]];
            var b := s.readyQueue[r.order[1]];
            r.sched.completedJobs
            == [a.(waitTime := 0, turnaroundTime := a.burstTime),
                b.(waitTime := a.burstTime, turnaroundTime := a.burstTime + b.burstTime)]
  {
    var c := r.sched.completedJobs;
    assert c[0] == c[|s.completedJobs| + 0];
    assert c[1] == c[|s.completedJobs| + 1];
  }

  lemma StarvedOfTwo(s: Scheduler, r: PriorityRun)
    requires |s.readyQueue| == 2
    requires SortedRun(s, r) && ServedByPriority(s, r)
    requires BurstSum(Pick(s.readyQueue, r.order)[..0]) == 0
    requires BurstSum(Pick(s.readyQueue, r.order)[..1]) == s.readyQueue[r.order[0]].burstTime
    ensures var a := s.readyQueue[r.order[0]];
            var b := s.readyQueue[r.order[1]];
            r.starved == [0 > StarvationThreshold(a.priority),
                          a.burstTime > StarvationThreshold(b.priority)]
  {
  }

  /** The first of two jobs waits for nothing, the second for the first. */
  lemma TwoWaits(sorted: seq<PCB>)
    requires |sorted| == 2
    ensures BurstSum(sorted[..0]) == 0 && BurstSum(sorted[..1]) == sorted[0].burstTime
  {
    assert sorted[..0] == [];
    assert sorted[..1] == [sorted[0]] && sorted[..1][1..] == [];
  }

  /** The stable order of two positions is the one given. */
  lemma OrderOfTwo(ready: seq<PCB>, a: seq<nat>, order: seq<nat>)
    requires |ready| == 2
    requires order == [0, 1] || order == [1, 0]
    requires StableSorted(ready, order) && StableSorted(ready, a)
    requires IsPermutation(a, 2)
    ensures a == order
  {
    assert Range(2) == [0, 1];
    assert multiset(order) == multiset(Range(2));
    StableSortIsUnique(ready, a, order);
  }

  function Done1(): PCB { P1().(burstTime := 0, waitTime := 3, turnaroundTime := 8) }
  function Done2(): PCB { P2().(burstTime := 0, waitTime := 4, turnaroundTime := 7) }

  function Timeline(): seq<Slice> {
    [Slice(1, 0, 2), Slice(2, 2, 4), Slice(1, 4, 6), Slice(2, 6, 7), Slice(1, 7, 8)]
  }

  /** The round-robin loop's state before each of its five passes, and after the last. */
  function Pass(k: nat): Progress
    requires k <= 5
  {
    match k
    case 0 => Progress([Entry(0, P1()), Entry(1, P2())], [], 0, [], [])
    case 1 => Progress([Entry(1, P2()), Entry(0, P1().(burstTime := 3))], [], 2,
                       Timeline()[..1], [0])
    case 2 => Progress([Entry(0, P1().(burstTime := 3)), Entry(1, P2().(burstTime := 1))], [], 4,
                       Timeline()[..2], [0, 1])
    case 3 => Progress([Entry(1, P2().(burstTime := 1)), Entry(0, P1().(burstTime := 1))], [], 6,
                       Timeline()[..3], [0, 1, 0])
    case 4 => Progress([Entry(0, P1().(burstTime := 1))], [Entry(1, Done2())], 7,
                       Timeline()[..4], [0, 1, 0, 1])
    case _ => Progress([], [Entry(1, Done2()), Entry(0, Done1())], 8, Timeline(), [0, 1, 0, 1, 0])
  }

  /** Each pass of the loop leads to the next state. */
  lemma OnePass(k: nat)
    requires k < 5
    ensures |Pass(k).work| > 0 && Step(2, Pass(k)) == Pass(k + 1)
  {
    var t := Timeline();
    assert t[..1] == [t[0]];
    assert t[..2] == t[..1] + [t[1]];
    assert t[..3] == t[..2] + [t[2]];
    assert t[..4] == t[..3] + [t[3]];
    assert t == t[..4] + [t[4]];
  }

  /** The five passes of the round-robin loop with quantum 2. */
  lemma RoundRobinPasses()
    ensures Run(2, Start([P1(), P2()])) == Pass(5)
  {
    assert Start([P1(), P2()]) == Pass(0);
    OnePass(0);
    OnePass(1);
    OnePass(2);
    OnePass(3);
    OnePass(4);
    assert Run(2, Pass(4)) == Pass(5);
    assert Run(2, Pass(3)) == Run(2, Pass(4));
    assert Run(2, Pass(2)) == Run(2, Pass(3));
    assert Run(2, Pass(1)) == Run(2, Pass(2));
    assert Run(2, Pass(0)) == Run(2, Pass(1));
  }

  /** The run's results written back: P2's record into position 1, then P1's into 0. */
  lemma RoundRobinWriteBack()
    ensures Scatter([P1(), P2()], [1, 0], [Done2(), Done1()]) == [Done1(), Done2()]
  {
    assert [1, 0][1..] == [0] && [Done2(), Done1()][1..] == [Done1()];
    assert [0][1..] == [] && [Done1()][1..] == [];
    assert Scatter([P1(), P2()], [1, 0], [Done2(), Done1()])
        == Scatter([P1(), Done2()], [0], [Done1()]);
    assert Scatter([P1(), Done2()], [0], [Done1()]) == Scatter([Done1(), Done2()], [], []);
  }

  /** Round-robin with quantum 2: the timeline is P1 (0 - 2), P2 (2 - 4), P1 (4 - 6),
      P2 (6 - 7), P1 (7 - 8); P2 completes first with wait 4 and turnaround 7, then P1
      with wait 3 and turnaround 8, each with its burst used up. */
  lemma RoundRobinExample()
    ensures var r := RR(Ready(), 2);
            && r.timeline == Timeline()
            && r.sched.completedJobs == [Done2(), Done1()]
            && r.sched.readyQueue == [Done1(), Done2()]
  {
    RoundRobinPasses();
    RoundRobinWriteBack();
    var fin := Pass(5);
    assert Slots(fin.finished) == [1, 0];
    assert Jobs(fin.finished) == [Done2(), Done1()];
  }

  /** After round-robin the averages are 3.5 and 7.5. */
  lemma RoundRobinAverages()
    ensures AverageTimes(RR(Ready(), 2).sched.completedJobs) == Averages(3.5, 7.5)
  {
    RoundRobinExample();
    AveragesOfDone(RR(Ready(), 2).sched.completedJobs);
  }

  lemma AveragesOfDone(c: seq<PCB>)
    requires c == [Done2(), Done1()]
    ensures AverageTimes(c) == Averages(3.5, 7.5)
  {
    TotalAppend([Done2()], [Done1()], Wait);
    TotalAppend([Done2()], [Done1()], Turnaround);
    assert c == [Done2()] + [Done1()];
    assert [Done1()][1..] == [] && [Done2()][1..] == [];
    assert Total([Done1()], Wait) == 3 && Total([Done1()], Turnaround) == 8;
    assert Total([Done2()], Wait) == 4 && Total([Done2()], Turnaround) == 7;
  }

  /** Running P1 to the end before P2 (P1 0 - 2, 2 - 4, 4 - 5, then P2 5 - 7, 7 - 8) is
      not round-robin: after P1's first slice the CPU must pass to P2, which still has
      slices to come. */
  lemma OneJobAtATimeIsNotRoundRobin()
    ensures !TookTurns(2, RRRun(Scheduled, Ready(),
                                [Slice(1, 0, 2), Slice(1, 2, 4), Slice(1, 4, 5), Slice(2, 5, 7), Slice(2, 7, 8)],
                                [0, 0, 0, 1, 1], [0, 1], 8))
  {
    var owners: seq<nat> := [0, 0, 0, 1, 1];
    assert LastSlice(owners, 1) == 4;
    assert Between(0, 1, 0);
    assert !OnlyFinishedPassedOver(owners, 0);
  }
}
