/** The process control block the scheduler works on, and sums over queues of them. */
module Pcb {

  /** One job. Every field is a Java `int` in PCB.java and unbounded here.
      `burstTime` is the remaining burst (round-robin consumes it);
      `originalBurstTime` is the snapshot the constructor takes;
      `startTime` is written only by admission control. */
  datatype PCB = PCB(
    id: int,
    burstTime: int,
    priority: int,
    memory: int,
    originalBurstTime: int,
    waitTime: int,
    turnaroundTime: int,
    startTime: int)

  /** A job as loading creates it: nothing consumed, nothing measured yet. */
  predicate Unscheduled(p: PCB) {
    && p.burstTime == p.originalBurstTime
    && p.waitTime == 0
    && p.turnaroundTime == 0
    && p.startTime == 0
  }

  /** The PCB constructor. */
  function NewPCB(id: int, burstTime: int, priority: int, memory: int): (p: PCB)
    ensures p.id == id && p.priority == priority && p.memory == memory
    ensures p.burstTime == burstTime && p.originalBurstTime == burstTime
    ensures Unscheduled(p)
  {
    PCB(id, burstTime, priority, memory, burstTime, 0, 0, 0)
  }

  /** The constructor is determined by the four loaded fields: a PCB is built by it
      exactly when it is unscheduled, and rebuilding it from its own fields gives it back. */
  lemma NewPCBRoundTrip(p: PCB)
    ensures NewPCB(p.id, p.burstTime, p.priority, p.memory) == p <==> Unscheduled(p)
  {
  }

  /** The integer fields that the scheduler sums over a queue. */
  datatype Field = Burst | Memory | Wait | Turnaround

  function Get(p: PCB, f: Field): int {
    match f
    case Burst => p.burstTime
    case Memory => p.memory
    case Wait => p.waitTime
    case Turnaround => p.turnaroundTime
  }

  /** The sum of field `f` over `jobs`. */
  function Total(jobs: seq<PCB>, f: Field): int
    decreases |jobs|
  {
    if |jobs| == 0 then 0 else Get(jobs[0], f) + Total(jobs[1..], f)
  }

  /** The time needed to run `jobs` to completion back to back. */
  function BurstSum(jobs: seq<PCB>): int {
    Total(jobs, Burst)
  }

  lemma {:induction false} TotalAppend(a: seq<PCB>, b: seq<PCB>, f: Field)
    ensures Total(a + b, f) == Total(a, f) + Total(b, f)
    decreases |a|
  {
    if |a| == 0 {
      assert a + b == b;
    } else {
      assert (a + b)[1..] == a[1..] + b;
      TotalAppend(a[1..], b, f);
    }
  }

  /** Adding one job at the back adds its field to the sum. */
  lemma TotalSnoc(a: seq<PCB>, x: PCB, f: Field)
    ensures Total(a + [x], f) == Total(a, f) + Get(x, f)
  {
    TotalAppend(a, [x], f);
  }

  /** The sum over a prefix one longer than another grows by the next job's field. */
  lemma TotalPrefixStep(jobs: seq<PCB>, i: nat, f: Field)
    requires i < |jobs|
    ensures Total(jobs[..i + 1], f) == Total(jobs[..i], f) + Get(jobs[i], f)
  {
    assert jobs[..i + 1] == jobs[..i] + [jobs[i]];
    TotalSnoc(jobs[..i], jobs[i], f);
  }

  /** A sum whose every term lies in [lo, hi] lies in [|jobs| * lo, |jobs| * hi]. */
  lemma {:induction false} TotalBounds(jobs: seq<PCB>, f: Field, lo: int, hi: int)
    requires forall k :: 0 <= k < |jobs| ==> lo <= Get(jobs[k], f) <= hi
    ensures |jobs| * lo <= Total(jobs, f) <= |jobs| * hi
    decreases |jobs|
  {
    if |jobs| > 0 {
      assert forall k :: 0 <= k < |jobs| - 1 ==> jobs[1..][k] == jobs[k + 1];
      TotalBounds(jobs[1..], f, lo, hi);
    }
  }
}
