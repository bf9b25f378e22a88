# CPU scheduler simulator — a verified model of its scheduling core

The simulator loads jobs described by process control blocks (PCBs). It admits them
first-fit into a ready queue under a 2048 MB memory cap. It then runs one of three
policies over the ready queue:

- first-come-first-serve (FCFS);
- round-robin with a fixed quantum (RR);
- static non-preemptive priority scheduling, which flags starved jobs.

After a run it reports the average wait and average turnaround over the completed jobs,
and prints a Gantt chart.

This project models that core in Dafny as pure functions over immutable data:

- `Pcb`: the PCB record, its constructor, and sums of a field over a queue.
- `State`: the scheduler's three containers, as the record
  `Scheduler(jobQueue, readyQueue, completedJobs)`. It also holds the run signal
  (`NoJobsAvailable` or `Scheduled`), timeline slices, and permutations of queue
  positions.
- `Admission`: the memory ledger and first-fit admission.
- `Fcfs`: service in ready-queue order. The same clock discipline is reused by the
  priority policy.
- `RoundRobin`: the circular working queue, one pass of the loop (`Step`), the loop
  (`Run`), its invariant, and the run record.
- `Priority`: the starvation thresholds, a stable ascending sort on priority, and the
  priority run.
- `Metrics`: the averages and the Gantt chart.
- `Scenarios`: small worked examples for each policy.

Two facts about the Java program shape the model:

- In Java the ready queue, the working copies, and the completed list share the same
  PCB objects. RR and priority scheduling copy the ready queue and mutate the jobs in
  the copy. So after those runs the ready queue still holds every job, now carrying its
  final record. The model makes this explicit: the run writes each job's final record
  back to its position in the ready queue. FCFS polls the ready queue and so leaves it
  empty.
- Admission stores the memory ledger (the MB charged so far, including the job itself)
  into the job's `startTime` field. The model keeps this as written.

## Model

| member | source | states |
|---|---|---|
| Pcb.NewPCB | PCB.java:9-17 | A new PCB has the given id, burst, priority and memory. Its original burst equals its burst. Its wait, turnaround and start time are 0. |
| Pcb.NewPCBRoundTrip | PCB.java:9-17 | Rebuilding a PCB from its four loaded fields gives the same PCB exactly when it has not been scheduled yet. |
| Admission.Ledger | CPU_Scheduler.java:66-71 | The memory charged after scanning a job list never exceeds the 2048 MB cap. |
| Admission.VerdictsAdmit | CPU_Scheduler.java:67-71 | The i-th job is admitted exactly when its memory plus the memory charged for the admitted jobs before it fits under the cap. |
| Admission.AdmittedIsKeep | CPU_Scheduler.java:67-72 | Admission appends exactly the admitted jobs, in job-queue order. Each carries the ledger after its own admission in its start time. |
| Admission.KeptMemory | CPU_Scheduler.java:69-71 | The memory of the admitted jobs adds up to the final ledger. |
| Admission.LoadJobsIntoReadyQueue | CPU_Scheduler.java:66-77 | The job queue is emptied and the completed list is unchanged. One verdict is given per job: admitted iff its memory fits in what the earlier admitted jobs left under the cap. The ready queue grows by exactly the admitted jobs, start-stamped, in order. Their total memory equals the ledger and stays at most 2048. |
| Fcfs.Serve | CPU_Scheduler.java:99-111 | Serving a queue from clock t gives job i the wait t plus the bursts before it, and a turnaround of that wait plus its own burst. Nothing else changes. |
| Fcfs.FinalClock | CPU_Scheduler.java:104-106 | The last job served turns around at the start clock plus all the bursts. |
| Fcfs.FCFS | CPU_Scheduler.java:91-116 | An empty ready queue gives "no jobs available" and changes nothing. Otherwise the run drains the ready queue, leaves the job queue alone, and keeps the earlier completed jobs as a prefix. It appends each ready job in order, with the bursts before it as its wait and wait plus burst as its turnaround. The final clock is the sum of the bursts and equals the last turnaround. |
| RoundRobin.StartCopiesReady | CPU_Scheduler.java:126-128 | The working queue starts as the ready jobs in order, each tagged with its ready-queue position. Nothing has finished, no slice is recorded, and the clock is 0. |
| RoundRobin.Step | CPU_Scheduler.java:133-157 | One pass appends one slice for the front job, starting at the clock. A job with more than q left runs exactly q and moves to the back of the working queue with q less to go; nothing finishes. Otherwise it runs its whole remainder and leaves the working queue. It is then appended to the finished list with burst 0, turnaround the new clock, and wait the new clock minus its original burst. |
| RoundRobin.StepKeepsTurns | CPU_Scheduler.java:132-157 | A pass keeps the turn-taking invariant. Every slice is a full quantum unless it is the last slice of a finished job. Between consecutive slices the CPU passes over only finished jobs, going round the ready queue in position order. The working queue holds the unfinished jobs in that circular order, with the job due next at its front. |
| RoundRobin.StepDecreases | CPU_Scheduler.java:133-157 | One pass either lowers the positive CPU time still pending, or keeps it and shortens the working queue. So the loop ends for every quantum q > 0. |
| RoundRobin.Run | CPU_Scheduler.java:132-165 | The loop always ends with an empty working queue. |
| RoundRobin.SlicesNeededIsCeiling | CPU_Scheduler.java:136-149 | A positive burst is served in ceil(burst / q) slices. |
| RoundRobin.RunKeepsInv | CPU_Scheduler.java:132-165 | The loop keeps its invariant. Every ready position is either in the working queue or finished, exactly once. A job still in the working queue has lost exactly the CPU time of its recorded slices, and each of those slices lasted exactly q. Finished jobs carry the final record of their last slice. Jobs finish in the order of their last slices. The timeline runs contiguously from 0 up to the clock. The turn-taking of `StepKeepsTurns` holds. |
| RoundRobin.RunCompletions | CPU_Scheduler.java:147-157 | The k-th finished job ended on its last slice. It has no burst left, its turnaround is that slice's end, and its wait is that end minus its original burst. Its slices add up to the burst it started with. The write-back puts this record at its ready-queue position. |
| RoundRobin.RR | CPU_Scheduler.java:120-172 | An empty ready queue gives "no jobs available" and changes nothing. Otherwise every ready job completes exactly once, on its last slice, and jobs complete in the order of their last slices. The timeline runs contiguously from 0 in slices of at most q, each labelled with its job's id. Each job gets SlicesNeeded(burst, q) slices (ceil(burst / q) for a positive burst), and they add up to its burst. The CPU takes turns round the ready queue in position order, starting at position 0. Every slice except a job's last lasts exactly q. From one slice to the next it moves to the next job, going round, that still has a slice to come; every position it passes over belongs to a job that has had its last slice. The ready queue holds each final record at its original position. |
| RoundRobin.WaitIsTimeNotServed | CPU_Scheduler.java:152-153 | For a job whose burst was untouched before the run, the recorded wait equals its turnaround minus the CPU time its own slices received. |
| Priority.StarvationThreshold | CPU_Scheduler.java:227-238 | Priorities 1 to 8 have thresholds between 50 and 150. Any other priority has threshold 100. |
| Priority.ThresholdGrowsWithPriorityNumber | CPU_Scheduler.java:228-236 | Among priorities 1 to 8, a more urgent priority (a smaller number) tolerates strictly less waiting. |
| Priority.SortByPriority | CPU_Scheduler.java:189-190 | The result lists every ready position exactly once, in ascending priority, with ties kept in ready-queue order. |
| Priority.StableSortIsUnique | CPU_Scheduler.java:190 | Two stable ascending orders of the same positions are equal. So the sort modelled here gives the order of Java's stable `List.sort`. |
| Priority.PriorityScheduling | CPU_Scheduler.java:181-223 | An empty ready queue gives "no jobs available" and changes nothing. Otherwise every ready job is served once, in stable priority order. Each waits for the bursts served before it and turns around after its own. A job is flagged as starved exactly when its wait exceeds its priority's threshold. The completed list grows by the served jobs. The ready queue holds each final record at its original position. The clock is the sum of the bursts. |
| Priority.ServingJob | CPU_Scheduler.java:193-216 | Serving the ready jobs in a given order of distinct positions gives the k-th served job the bursts served before it as its wait and that plus its own burst as its turnaround. It is flagged starved exactly when the wait exceeds its threshold, and its final record is written back at its ready-queue position. |
| Priority.CompletesByPriority | CPU_Scheduler.java:189-216 | Jobs complete in non-decreasing priority value. Among equal priorities they complete in ready-queue order. |
| Priority.PriorityIsFcfsOverSortedQueue | CPU_Scheduler.java:193-217 | A priority run gives the same completed list and clock as FCFS run over the ready jobs rearranged into its order. |
| Metrics.AverageTimes | CPU_Scheduler.java:243-252 | The averages are undefined exactly when nothing has completed. Otherwise each average times the number of completed jobs is the corresponding total. |
| Metrics.AverageWaitBetween | CPU_Scheduler.java:243-252 | When every completed wait lies in [lo, hi], so does the average wait. |
| Metrics.AverageTurnaroundIsWaitPlusBurst | CPU_Scheduler.java:243-252 | When each turnaround is wait plus burst, as FCFS and priority scheduling record them, the average turnaround is the average wait plus the average burst. |
| Metrics.GanttChart | CPU_Scheduler.java:259-267 | The chart has one slice per completed job, in order, labelled with the job's id. It starts at 0, has no gaps, ends at the total burst, and slice k starts after the bursts before it and lasts the job's burst. |
| Metrics.FcfsChartMatchesRecords | CPU_Scheduler.java:259-267 | After FCFS with nothing completed before, each chart slice runs from the job's recorded wait to its recorded turnaround. |
| Metrics.PriorityChartMatchesRecords | CPU_Scheduler.java:278-286 | After priority scheduling with nothing completed before, each chart slice runs from the job's recorded wait to its recorded turnaround. |
| Scenarios.AdmissionExample | CPU_Scheduler.java:66-77 | Two 100 MB jobs are both admitted. The ledger ends at 200, and the jobs carry start times 100 and 200. |
| Scenarios.FirstFitExample | CPU_Scheduler.java:67-71 | After a 2000 MB job, a 100 MB job is turned away but a later 48 MB job still fits, filling the cap exactly. |
| Scenarios.FcfsExample | CPU_Scheduler.java:91-116 | Bursts 5 and 3 give waits 0 and 5, turnarounds 5 and 8, and a final clock of 8. |
| Scenarios.FcfsReportExample | CPU_Scheduler.java:243-267 | Those runs average 2.5 wait and 6.5 turnaround. The chart is P1 (0 - 5), P2 (5 - 8). |
| Scenarios.PriorityExample | CPU_Scheduler.java:181-223 | The priority-1 job runs first with wait 0, then the priority-2 job with wait 3. Neither is starved. |
| Scenarios.StarvationExample | CPU_Scheduler.java:199-205 | A priority-1 job that waits 60 is flagged as starved. |
| Scenarios.RoundRobinPasses | CPU_Scheduler.java:132-165 | With quantum 2, the loop takes five passes and ends at clock 8. |
| Scenarios.RoundRobinExample | CPU_Scheduler.java:120-172 | With quantum 2 the timeline is P1 (0 - 2), P2 (2 - 4), P1 (4 - 6), P2 (6 - 7), P1 (7 - 8). P2 completes first with wait 4 and turnaround 7, then P1 with wait 3 and turnaround 8. The ready queue holds both final records. |
| Scenarios.RoundRobinAverages | CPU_Scheduler.java:243-252 | The completed list of that run averages 3.5 wait and 7.5 turnaround. |
| Scenarios.OneJobAtATimeIsNotRoundRobin | CPU_Scheduler.java:132-149 | Running P1 to the end before P2 breaks the turn-taking that RR guarantees: after P1's first slice the CPU must pass to P2. |

## Left out

- Reading the job file, and parsing it into PCBs, is not modelled. Jobs enter the model as a job queue.
- The loader thread and its `join` are not modelled: admission is one sequential pass.
- `Thread.sleep` and the system-call object (`waitt`) are not modelled. They only delay execution and change no state.
- Console output is not modelled. The RR Gantt chart is kept as a sequence of `Slice(id, start, end)` values rather than formatted strings, and the FCFS and priority charts are computed rather than printed.
- `main`, the menu and the command line are not modelled.
- Java's 32-bit `int` overflow is not modelled. All PCB fields, clocks and sums are unbounded integers.
- The floating-point division in the averages is modelled as exact rational division. On an empty completed list Java divides 0 by 0 and prints NaN; the model returns `Undefined`.
- Aliasing of PCB objects across runs is not modelled. A later RR or priority run that mutates a job also changes any earlier completed-list entry that is the same object; in the model the earlier entries keep their values.
- The averages and the Gantt chart are taken over the whole completed list, including jobs completed by earlier runs, exactly as Java does. The chart restarts at time 0 whatever came before. The two chart-matches-records lemmas assume an empty completed list before the run.
- RoundRobin.RR: the only precondition is a quantum q > 0; the Java program does not guard against q <= 0, and with q <= 0 its loop would not terminate on positive bursts.
- RoundRobin.WaitIsTimeNotServed: this holds only when each job's burst equals its original burst at the start of the run. A job already shortened by an earlier RR run gets a wait computed from its stale original burst, as in Java.
