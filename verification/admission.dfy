/** Admission control: first-fit in arrival order under a fixed memory cap
    (CPU_Scheduler.loadJobsIntoReadyQueue). */
module Admission {
  import opened Pcb
  import opened State

  /** The memory cap, in the MB units of CPU_Scheduler's MAX_MEMORY. */
  const MaxMemory: int := 2048

  /** The admission test applied to a job when the ledger stands at `used`. */
  predicate Fits(used: int, job: PCB) {
    used + job.memory <= MaxMemory
  }

  /** The memory ledger after `jobs` have each been judged once, in order, starting
      from an empty ledger: a job that fits is charged, a job that does not is dropped. */
  function Ledger(jobs: seq<PCB>): (used: int)
    ensures used <= MaxMemory
    decreases |jobs|
  {
    if |jobs| == 0 then 0
    else
      var before := Ledger(jobs[..|jobs| - 1]);
      var job := jobs[|jobs| - 1];
      if Fits(before, job) then before + job.memory else before
  }

  /** Judging one more job charges its memory exactly when it fits at its turn. */
  lemma LedgerStep(jobs: seq<PCB>, i: nat)
    requires i < |jobs|
    ensures Ledger(jobs[..i + 1])
         == if Fits(Ledger(jobs[..i]), jobs[i]) then Ledger(jobs[..i]) + jobs[i].memory
            else Ledger(jobs[..i])
  {
    assert jobs[..i + 1][..i] == jobs[..i];
  }

  /** The verdict on job i of `jobs`: does it fit when its turn comes? */
  predicate Admits(jobs: seq<PCB>, i: nat)
    requires i < |jobs|
  {
    Fits(Ledger(jobs[..i]), jobs[i])
  }

  /** The verdicts on `jobs`, in arrival order. */
  function Verdicts(jobs: seq<PCB>): (v: seq<bool>)
    ensures |v| == |jobs|
    decreases |jobs|
  {
    if |jobs| == 0 then []
    else Verdicts(jobs[..|jobs| - 1]) + [Fits(Ledger(jobs[..|jobs| - 1]), jobs[|jobs| - 1])]
  }

  /** Judging one more job appends its verdict. */
  lemma VerdictStep(jobs: seq<PCB>, i: nat)
    requires i < |jobs|
    ensures Verdicts(jobs[..i + 1]) == Verdicts(jobs[..i]) + [Admits(jobs, i)]
  {
    assert jobs[..i + 1][..i] == jobs[..i];
  }

  /** The i-th verdict is whether job i fits when its turn comes. */
  lemma {:induction false} VerdictsAdmit(jobs: seq<PCB>)
    ensures forall i :: 0 <= i < |jobs| ==> (Verdicts(jobs)[i] <==> Admits(jobs, i))
    decreases |jobs|
  {
    if |jobs| > 0 {
      var n := |jobs| - 1;
      var front := jobs[..n];
      VerdictsAdmit(front);
      forall i | 0 <= i < n
        ensures Verdicts(jobs)[i] <==> Admits(jobs, i)
      {
        assert front[..i] == jobs[..i];
        assert Verdicts(jobs)[i] == Verdicts(front)[i];
      }
    }
  }

  /** Each job as admission leaves it: CPU_Scheduler.java line 72 writes the ledger
      after the job's admission into `startTime`. */
  function Stamped(jobs: seq<PCB>): (r: seq<PCB>)
    ensures |r| == |jobs|
  {
    seq(|jobs|, i requires 0 <= i < |jobs| => jobs[i].(startTime := Ledger(jobs[..i + 1])))
  }

  /** The jobs admitted from `jobs`, in arrival order, each stamped as admission leaves
      it. */
  function Admitted(jobs: seq<PCB>): (r: seq<PCB>)
    ensures |r| <= |jobs|
    decreases |jobs|
  {
    if |jobs| == 0 then []
    else
      var before := Ledger(jobs[..|jobs| - 1]);
      var job := jobs[|jobs| - 1];
      Admitted(jobs[..|jobs| - 1])
      + (if Fits(before, job) then [job.(startTime := before + job.memory)] else [])
  }

  /** Judging job i appends it, stamped, exactly when it fits. */
  lemma AdmittedStep(jobs: seq<PCB>, i: nat)
    requires i < |jobs|
    ensures Admits(jobs, i) ==>
              Admitted(jobs[..i + 1])
              == Admitted(jobs[..i]) + [jobs[i].(startTime := Ledger(jobs[..i]) + jobs[i].memory)]
    ensures !Admits(jobs, i) ==> Admitted(jobs[..i + 1]) == Admitted(jobs[..i])
  {
    assert jobs[..i + 1][..i] == jobs[..i];
  }

  /** Stamping a prefix is stamping the whole queue and cutting it. */
  lemma StampedPrefix(jobs: seq<PCB>, n: nat)
    requires n <= |jobs|
    ensures Stamped(jobs)[..n] == Stamped(jobs[..n])
  {
    forall k | 0 <= k < n
      ensures Stamped(jobs)[k] == Stamped(jobs[..n])[k]
    {
      assert jobs[..n][..k + 1] == jobs[..k + 1];
    }
  }

  /** Stamping every job and then keeping the admitted ones gives the admitted jobs. */
  lemma {:induction false} AdmittedIsKeep(jobs: seq<PCB>)
    ensures Admitted(jobs) == Keep(Stamped(jobs), Verdicts(jobs))
    decreases |jobs|
  {
    if |jobs| > 0 {
      var n := |jobs| - 1;
      var front := jobs[..n];
      AdmittedIsKeep(front);
      StampedPrefix(jobs, n);
      assert Verdicts(jobs)[..n] == Verdicts(front);
      assert Verdicts(jobs)[n] == Fits(Ledger(front), jobs[n]);
      assert jobs[..n + 1] == jobs;
      assert Stamped(jobs)[n] == jobs[n].(startTime := Ledger(jobs));
    }
  }

  /** The memory of the admitted jobs is what the ledger charged. */
  lemma {:induction false} KeptMemory(jobs: seq<PCB>)
    ensures Total(Keep(jobs, Verdicts(jobs)), Memory) == Ledger(jobs)
    decreases |jobs|
  {
    if |jobs| > 0 {
      var n := |jobs| - 1;
      var front := jobs[..n];
      KeptMemory(front);
      assert Verdicts(jobs)[..n] == Verdicts(front);
      var kept := Keep(front, Verdicts(front));
      if Fits(Ledger(front), jobs[n]) {
        TotalSnoc(kept, jobs[n], Memory);
      } else {
        assert kept + [] == kept;
      }
    }
  }

  /** Drains the job queue into the ready queue. Each job is judged once, in arrival
      order, against the ledger as it stands at that moment; a job that fits is appended
      to the ready queue and charged, one that does not is dropped and never retried. */
  method LoadJobsIntoReadyQueue(s: Scheduler) returns (s': Scheduler, admitted: seq<bool>)
    ensures s'.jobQueue == [] && s'.completedJobs == s.completedJobs
    ensures |admitted| == |s.jobQueue|
    ensures forall i :: 0 <= i < |s.jobQueue| ==>
              (admitted[i] <==> s.jobQueue[i].memory + Ledger(s.jobQueue[..i]) <= MaxMemory)
    ensures s'.readyQueue == s.readyQueue + Keep(Stamped(s.jobQueue), admitted)
    ensures Total(Keep(s.jobQueue, admitted), Memory) == Ledger(s.jobQueue) <= MaxMemory
  {
    var jobs := s.jobQueue;
    var added: seq<PCB> := [];
    var usedMemory := 0;
    admitted := [];
    var i := 0;
    while i < |jobs|
      invariant 0 <= i <= |jobs|
      invariant usedMemory == Ledger(jobs[..i])
      invariant admitted == Verdicts(jobs[..i])
      invariant added == Admitted(jobs[..i])
    {
      var job := jobs[i];
      var fits := usedMemory + job.memory <= MaxMemory;
      LedgerStep(jobs, i);
      VerdictStep(jobs, i);
      AdmittedStep(jobs, i);
      if fits {
        added := added + [job.(startTime := usedMemory + job.memory)];
        usedMemory := usedMemory + job.memory;
      }
      admitted := admitted + [fits];
      i := i + 1;
    }
    assert jobs[..i] == jobs;
    VerdictsAdmit(jobs);
    AdmittedIsKeep(jobs);
    KeptMemory(jobs);
    s' := s.(jobQueue := [], readyQueue := s.readyQueue + added);
  }
}
