/** Round-robin with a fixed quantum over a circular working copy of the ready queue
    (CPU_Scheduler.RR). */
module RoundRobin {
  import opened Pcb
  import opened State

  /** A job in the working queue, tagged with its position in the ready queue (the
      Java program's working queue holds the very objects of the ready queue). */
  datatype Entry = Entry(slot: nat, job: PCB)

  /** The state of a run between two slices: the working queue, the jobs finished so far
      (in completion order), the clock, the slices recorded so far, and for each recorded
      slice the ready-queue position of the job that ran in it. */
  datatype Progress = Progress(
    work: seq<Entry>,
    finished: seq<Entry>,
    clock: int,
    timeline: seq<Slice>,
    owners: seq<nat>)

  function Min(a: int, b: int): int {
    if a <= b then a else b
  }

  function Slots(es: seq<Entry>): (r: seq<nat>)
    ensures |r| == |es| && forall k :: 0 <= k < |es| ==> r[k] == es[k].slot
  {
    seq(|es|, k requires 0 <= k < |es| => es[k].slot)
  }

  function Jobs(es: seq<Entry>): (r: seq<PCB>)
    ensures |r| == |es| && forall k :: 0 <= k < |es| ==> r[k] == es[k].job
  {
    seq(|es|, k requires 0 <= k < |es| => es[k].job)
  }

  function Positive(x: int): nat {
    if x > 0 then x else 0
  }

  /** The CPU time the working queue still asks for (negative remainders count as 0). */
  function Pending(work: seq<Entry>): nat
    decreases |work|
  {
    if |work| == 0 then 0 else Positive(work[0].job.burstTime) + Pending(work[1..])
  }

  lemma {:induction false} PendingSnoc(work: seq<Entry>, e: Entry)
    ensures Pending(work + [e]) == Pending(work) + Positive(e.job.burstTime)
    decreases |work|
  {
    if |work| == 0 {
      assert work + [e] == [e];
    } else {
      assert (work + [e])[1..] == work[1..] + [e];
      PendingSnoc(work[1..], e);
    }
  }

  /** One pass of the loop in CPU_Scheduler.RR: the front job runs for the smaller of
      its remaining burst and q, and the slice is recorded. A job with more than a
      quantum left runs a full quantum and goes to the back of the working queue;
      otherwise it runs out its remainder and completes, with turnaround the clock and
      wait the clock minus its original burst (the remaining burst, which the Java
      formula also subtracts, is then 0). */
  function Step(q: int, p: Progress): (r: Progress)
    requires q > 0 && |p.work| > 0
    ensures r.owners == p.owners + [p.work[0].slot]
    ensures r.timeline == p.timeline + [Slice(p.work[0].job.id, p.clock, r.clock)]
    ensures var e := p.work[0];
            if e.job.burstTime > q then
              && r.clock == p.clock + q
              && r.work == p.work[1..] + [Entry(e.slot, e.job.(burstTime := e.job.burstTime - q))]
              && r.finished == p.finished
            else
              && r.clock == p.clock + e.job.burstTime
              && r.work == p.work[1..]
              && r.finished
                 == p.finished + [Entry(e.slot, e.job.(burstTime := 0,
                                                      waitTime := r.clock - e.job.originalBurstTime,
                                                      turnaroundTime := r.clock))]
  {
    var e := p.work[0];
    var job := e.job;
    var slice := Min(job.burstTime, q);
    var now := p.clock + slice;
    var left := job.(burstTime := job.burstTime - slice);
    var timeline := p.timeline + [Slice(job.id, p.clock, now)];
    var owners := p.owners + [e.slot];
    if left.burstTime > 0 then
      Progress(p.work[1..] + [Entry(e.slot, left)], p.finished, now, timeline, owners)
    else
      var done := left.(waitTime := now - left.originalBurstTime - left.burstTime,
                        turnaroundTime := now);
      Progress(p.work[1..], p.finished + [Entry(e.slot, done)], now, timeline, owners)
  }

  /** Each step either lowers the pending CPU time, or keeps it and shortens the queue. */
  lemma StepDecreases(q: int, p: Progress)
    requires q > 0 && |p.work| > 0
    ensures Pending(Step(q, p).work) <= Pending(p.work)
    ensures Pending(Step(q, p).work) < Pending(p.work) || |Step(q, p).work| < |p.work|
  {
    var e := p.work[0];
    var slice := Min(e.job.burstTime, q);
    var left := e.job.(burstTime := e.job.burstTime - slice);
    if left.burstTime > 0 {
      PendingSnoc(p.work[1..], Entry(e.slot, left));
    }
  }

  /** Runs the loop until the working queue is empty. It terminates for every q > 0. */
  function Run(q: int, p: Progress): (r: Progress)
    requires q > 0
    ensures |r.work| == 0
    decreases Pending(p.work), |p.work|
  {
    if |p.work| == 0 then p
    else
      StepDecreases(q, p);
      Run(q, Step(q, p))
  }

  /** The CPU time recorded for the job at ready-queue position `s`. */
  function SliceTotal(timeline: seq<Slice>, owners: seq<nat>, s: nat): int
    requires |timeline| == |owners|
    decreases |timeline|
  {
    if |timeline| == 0 then 0
    else
      var n := |timeline| - 1;
      SliceTotal(timeline[..n], owners[..n], s) + (if owners[n] == s then Length(timeline[n]) else 0)
  }

  /** The number of slices recorded for the job at ready-queue position `s`. */
  function SliceCount(owners: seq<nat>, s: nat): nat
    decreases |owners|
  {
    if |owners| == 0 then 0
    else
      var n := |owners| - 1;
      SliceCount(owners[..n], s) + (if owners[n] == s then 1 else 0)
  }

  /** The index of the last slice of the job at position `s`, or -1 if it has none. */
  function LastSlice(owners: seq<nat>, s: nat): (r: int)
    ensures -1 <= r < |owners|
    ensures r == -1 ==> s !in owners
    ensures r >= 0 ==> owners[r] == s && forall k :: r < k < |owners| ==> owners[k] != s
    decreases |owners|
  {
    if |owners| == 0 then -1
    else if owners[|owners| - 1] == s then |owners| - 1
    else LastSlice(owners[..|owners| - 1], s)
  }

  lemma SliceTotalSnoc(timeline: seq<Slice>, owners: seq<nat>, x: Slice, t: nat, s: nat)
    requires |timeline| == |owners|
    ensures SliceTotal(timeline + [x], owners + [t], s)
         == SliceTotal(timeline, owners, s) + (if t == s then Length(x) else 0)
  {
    assert (timeline + [x])[..|timeline|] == timeline;
    assert (owners + [t])[..|owners|] == owners;
  }

  lemma SliceCountSnoc(owners: seq<nat>, t: nat, s: nat)
    ensures SliceCount(owners + [t], s) == SliceCount(owners, s) + (if t == s then 1 else 0)
  {
    assert (owners + [t])[..|owners|] == owners;
  }

  lemma LastSliceSnoc(owners: seq<nat>, t: nat, s: nat)
    ensures LastSlice(owners + [t], s) == if t == s then |owners| else LastSlice(owners, s)
  {
    assert (owners + [t])[..|owners|] == owners;
  }

  /** A job still in the working queue: only its remaining burst has changed, by
      exactly the CPU time recorded for it, and the slices it has had plus the slices
      its remainder needs are the slices its starting burst needs. */
  ghost predicate InFlight(ready: seq<PCB>, q: int, p: Progress, e: Entry) {
    && |p.timeline| == |p.owners|
    && e.slot < |ready|
    && e.job == ready[e.slot].(burstTime := e.job.burstTime)
    && SliceTotal(p.timeline, p.owners, e.slot) + e.job.burstTime == ready[e.slot].burstTime
    && q > 0
    && SliceCount(p.owners, e.slot) + SlicesNeeded(e.job.burstTime, q) == SlicesNeeded(ready[e.slot].burstTime, q)
  }

  /** A finished job: its burst is used up, its turnaround is the end of its last
      slice, its wait is that minus its original burst, and its recorded CPU time is
      the burst it started the run with, spread over ceil(burst / q) slices. */
  ghost predicate Done(ready: seq<PCB>, q: int, p: Progress, e: Entry) {
    && |p.timeline| == |p.owners|
    && e.slot < |ready|
    && 0 <= LastSlice(p.owners, e.slot)
    && (var finish := p.timeline[LastSlice(p.owners, e.slot)].end;
        e.job == ready[e.slot].(burstTime := 0,
                                waitTime := finish - ready[e.slot].originalBurstTime,
                                turnaroundTime := finish))
    && SliceTotal(p.timeline, p.owners, e.slot) == ready[e.slot].burstTime
    && q > 0
    && SliceCount(p.owners, e.slot) == SlicesNeeded(ready[e.slot].burstTime, q)
  }

  /** How many slices a remaining burst takes: one if it fits in a quantum (a burst
      that is not positive is consumed in one slice of non-positive length), else one
      full quantum and then the slices for the rest. */
  function SlicesNeeded(burst: int, q: int): nat
    requires q > 0
    decreases burst
  {
    if burst <= q then 1 else 1 + SlicesNeeded(burst - q, q)
  }

  lemma MulMono(a: int, b: int, q: int)
    requires a <= b && q > 0
    ensures a * q <= b * q
  {
    var k := b - a;
    assert b * q == a * q + k * q;
    assert k * q >= 0;
  }

  lemma DivBetween(b: int, q: int, d: int)
    requires q > 0 && d * q <= b < d * q + q
    ensures b / q == d
  {
    var m := b / q;
    var r := b % q;
    assert b == m * q + r && 0 <= r < q;
    if m > d {
      assert (d + 1) * q == d * q + q;
      MulMono(d + 1, m, q);
    } else if m < d {
      MulMono(m + 1, d, q);
    }
  }

  /** A positive burst takes ceil(burst / q) slices. */
  lemma {:induction false} SlicesNeededIsCeiling(burst: int, q: int)
    requires q > 0 && burst > 0
    ensures SlicesNeeded(burst, q) == (burst + q - 1) / q
    decreases burst
  {
    if burst <= q {
      DivBetween(burst + q - 1, q, 1);
    } else {
      var c := SlicesNeeded(burst - q, q);
      SlicesNeededIsCeiling(burst - q, q);
      assert c * q <= burst - 1 < c * q + q by {
        assert burst - 1 == c * q + (burst - 1) % q;
      }
      assert (c + 1) * q == c * q + q;
      DivBetween(burst + q - 1, q, c + 1);
    }
  }

  /** The invariant of the round-robin loop over the ready queue `ready`. */
  ghost predicate Inv(ready: seq<PCB>, q: int, p: Progress) {
    && q > 0
    && |p.owners| == |p.timeline|
    && multiset(Slots(p.work)) + multiset(Slots(p.finished)) == multiset(Range(|ready|))
    && (forall k :: 0 <= k < |p.work| ==> InFlight(ready, q, p, p.work[k]))
    && (forall k :: 0 <= k < |p.finished| ==> Done(ready, q, p, p.finished[k]))
    && (forall i, j :: 0 <= i < j < |p.finished| ==>
          LastSlice(p.owners, p.finished[i].slot) < LastSlice(p.owners, p.finished[j].slot))
    && (forall k :: 0 <= k < |p.owners| ==>
          && p.owners[k] < |ready|
          && p.timeline[k].id == ready[p.owners[k]].id
          && Length(p.timeline[k]) <= q)
    && ContiguousFrom(p.timeline, 0)
    && EndsAt(p.timeline, 0, p.clock)
    && TakesTurns(q, p)
  }

  /** Going round the ready queue in position order from position a, z comes strictly
      after a and strictly before b; when a == b, every position other than a does. */
  predicate Between(a: nat, z: nat, b: nat) {
    if a < b then a < z < b else a < z || z < b
  }

  /** Going from a to c by way of b passes over everything between a and c. */
  lemma BetweenSplit(a: nat, b: nat, c: nat, z: nat)
    requires Between(a, z, c)
    ensures Between(a, z, b) || z == b || Between(b, z, c)
  {
  }

  /** The entry after entry i of the working queue, going round. */
  function NextEntry(work: seq<Entry>, i: nat): Entry
    requires i < |work|
  {
    if i + 1 < |work| then work[i + 1] else work[0]
  }

  /** No position between entry i and the next entry, going round, is in the working
      queue: the working queue lists its jobs in ready-queue order, rotated. */
  ghost predicate InTurn(work: seq<Entry>, i: nat)
    requires i < |work|
  {
    forall z :: Between(work[i].slot, z, NextEntry(work, i).slot) ==> z !in Slots(work)
  }

  /** Slice k lasts a full quantum, unless it is the last slice of a finished job. */
  ghost predicate FullOrFinal(q: int, p: Progress, k: nat)
    requires k < |p.owners| == |p.timeline|
  {
    || Length(p.timeline[k]) == q
    || (p.owners[k] !in Slots(p.work) && LastSlice(p.owners, p.owners[k]) == k)
  }

  /** Every position passed over between slice k and slice k + 1 belongs to a job that
      had its last slice by slice k. */
  ghost predicate PassedOver(p: Progress, k: nat)
    requires k + 1 < |p.owners|
  {
    forall z :: Between(p.owners[k], z, p.owners[k + 1]) ==>
      LastSlice(p.owners, z) <= k && z !in Slots(p.work)
  }

  /** How the loop takes turns: the first slice goes to position 0; every slice but a
      finished job's last is a full quantum; from one slice to the next the CPU goes
      round the ready queue to the next job that has not finished, and the working
      queue holds the unfinished jobs in that same circular order, the job due next at
      its front. */
  ghost predicate TakesTurns(q: int, p: Progress) {
    && |p.owners| == |p.timeline|
    && (|p.owners| == 0 && |p.work| > 0 ==> p.work[0].slot == 0)
    && (|p.owners| > 0 ==> p.owners[0] == 0)
    && (forall k :: 0 <= k < |p.owners| ==> FullOrFinal(q, p, k))
    && (forall k :: 0 <= k < |p.owners| - 1 ==> PassedOver(p, k))
    && (|p.owners| > 0 && |p.work| > 0 ==>
          forall z :: Between(p.owners[|p.owners| - 1], z, p.work[0].slot) ==> z !in Slots(p.work))
    && (forall i :: 0 <= i < |p.work| ==> InTurn(p.work, i))
  }

  /** The working copy of the ready queue at the start of a run. */
  function Start(ready: seq<PCB>): Progress {
    Progress(seq(|ready|, i requires 0 <= i < |ready| => Entry(i, ready[i])), [], 0, [], [])
  }

  /** The working copy holds the ready jobs in order, each tagged with its position, and
      nothing has run yet. */
  lemma StartCopiesReady(ready: seq<PCB>)
    ensures var p := Start(ready);
            && Jobs(p.work) == ready && Slots(p.work) == Range(|ready|)
            && p.finished == [] && p.timeline == [] && p.owners == [] && p.clock == 0
  {
    var p := Start(ready);
    assert Jobs(p.work) == ready;
    assert Slots(p.work) == Range(|ready|);
  }

  lemma StartInv(ready: seq<PCB>, q: int)
    requires q > 0
    ensures Inv(ready, q, Start(ready))
  {
    var p := Start(ready);
    assert Slots(p.work) == Range(|ready|);
    assert Slots(p.finished) == [];
    forall i | 0 <= i < |p.work|
      ensures InTurn(p.work, i)
    {
      forall z | Between(p.work[i].slot, z, NextEntry(p.work, i).slot)
        ensures z !in Slots(p.work)
      {
      }
    }
  }

  /** The job at the front of the working queue is in no other entry. */
  lemma FrontIsUnique(ready: seq<PCB>, q: int, p: Progress)
    requires Inv(ready, q, p) && |p.work| > 0
    ensures forall k :: 0 < k < |p.work| ==> p.work[k].slot != p.work[0].slot
    ensures forall k :: 0 <= k < |p.finished| ==> p.finished[k].slot != p.work[0].slot
  {
    var s := p.work[0].slot;
    assert InFlight(ready, q, p, p.work[0]);
    assert Slots(p.work) == [s] + Slots(p.work[1..]);
    RangeCount(|ready|, s);
    assert multiset(Slots(p.work[1..]))[s] == 0;
    assert multiset(Slots(p.finished))[s] == 0;
    forall k | 0 < k < |p.work|
      ensures p.work[k].slot != s
    {
      assert Slots(p.work[1..])[k - 1] == p.work[k].slot;
    }
    forall k | 0 <= k < |p.finished|
      ensures p.finished[k].slot != s
    {
      assert Slots(p.finished)[k] == p.finished[k].slot;
    }
  }

  /** The slot bookkeeping survives a step: the front job moves to the back or to
      the finished list. */
  lemma StepPartition(ready: seq<PCB>, q: int, p: Progress)
    requires q > 0 && |p.work| > 0
    requires multiset(Slots(p.work)) + multiset(Slots(p.finished)) == multiset(Range(|ready|))
    ensures multiset(Slots(Step(q, p).work)) + multiset(Slots(Step(q, p).finished))
         == multiset(Range(|ready|))
  {
    var e := p.work[0];
    var rest := Slots(p.work[1..]);
    assert Slots(p.work) == [e.slot] + rest;
    StepMovesFront(q, p);
    var p' := Step(q, p);
    if |p'.finished| == |p.finished| {
      assert Slots(p'.work) == rest + [e.slot];
      assert Slots(p'.finished) == Slots(p.finished);
    } else {
      assert Slots(p'.work) == rest;
      assert Slots(p'.finished) == Slots(p.finished) + [e.slot];
    }
  }

  /** A step moves the front entry to the back of the working queue or to the end of
      the finished list, keeping its slot. */
  lemma StepMovesFront(q: int, p: Progress)
    requires q > 0 && |p.work| > 0
    ensures var p' := Step(q, p);
            || (&& p'.finished == p.finished
                && |p'.work| == |p.work|
                && p'.work[..|p.work| - 1] == p.work[1..]
                && p'.work[|p.work| - 1].slot == p.work[0].slot)
            || (&& p'.work == p.work[1..]
                && |p'.finished| == |p.finished| + 1
                && p'.finished[..|p.finished|] == p.finished
                && p'.finished[|p.finished|].slot == p.work[0].slot)
  {
  }

  /** After a step, the slices recorded for any other job are as before. */
  lemma StepOthers(ready: seq<PCB>, q: int, p: Progress, t: nat)
    requires Inv(ready, q, p) && |p.work| > 0 && t != p.work[0].slot
    ensures SliceTotal(Step(q, p).timeline, Step(q, p).owners, t) == SliceTotal(p.timeline, p.owners, t)
    ensures SliceCount(Step(q, p).owners, t) == SliceCount(p.owners, t)
    ensures LastSlice(Step(q, p).owners, t) == LastSlice(p.owners, t)
    ensures Step(q, p).timeline[..|p.timeline|] == p.timeline
  {
    var p' := Step(q, p);
    var x := p'.timeline[|p.timeline|];
    assert p'.timeline == p.timeline + [x];
    assert p'.owners == p.owners + [p.work[0].slot];
    SliceTotalSnoc(p.timeline, p.owners, x, p.work[0].slot, t);
    SliceCountSnoc(p.owners, p.work[0].slot, t);
    LastSliceSnoc(p.owners, p.work[0].slot, t);
  }

  /** The entries untouched by a step keep their status. */
  lemma StepKeepsOthers(ready: seq<PCB>, q: int, p: Progress)
    requires Inv(ready, q, p) && |p.work| > 0
    ensures forall k :: 1 <= k < |p.work| ==> InFlight(ready, q, Step(q, p), p.work[k])
    ensures forall k :: 0 <= k < |p.finished| ==> Done(ready, q, Step(q, p), p.finished[k])
    ensures forall k :: 0 <= k < |p.finished| ==>
              LastSlice(Step(q, p).owners, p.finished[k].slot) == LastSlice(p.owners, p.finished[k].slot)
  {
    var p' := Step(q, p);
    FrontIsUnique(ready, q, p);
    forall k | 1 <= k < |p.work|
      ensures InFlight(ready, q, p', p.work[k])
    {
      assert InFlight(ready, q, p, p.work[k]);
      StepOthers(ready, q, p, p.work[k].slot);
    }
    forall k | 0 <= k < |p.finished|
      ensures Done(ready, q, p', p.finished[k])
      ensures LastSlice(p'.owners, p.finished[k].slot) == LastSlice(p.owners, p.finished[k].slot)
    {
      assert Done(ready, q, p, p.finished[k]);
      StepOthers(ready, q, p, p.finished[k].slot);
    }
  }

  /** The front job after its slice. */
  lemma StepFront(ready: seq<PCB>, q: int, p: Progress)
    requires Inv(ready, q, p) && |p.work| > 0
    ensures var p' := Step(q, p);
            if |p'.finished| == |p.finished| then
              |p'.work| == |p.work| && InFlight(ready, q, p', p'.work[|p'.work| - 1])
            else
              && |p'.finished| == |p.finished| + 1
              && Done(ready, q, p', p'.finished[|p.finished|])
              && LastSlice(p'.owners, p'.finished[|p.finished|].slot) == |p.owners|
  {
    var p' := Step(q, p);
    var e := p.work[0];
    var s := e.slot;
    assert InFlight(ready, q, p, e);
    var slice := Min(e.job.burstTime, q);
    var x := Slice(e.job.id, p.clock, p.clock + slice);
    assert p'.timeline == p.timeline + [x];
    assert p'.owners == p.owners + [s];
    SliceTotalSnoc(p.timeline, p.owners, x, s, s);
    SliceCountSnoc(p.owners, s, s);
    LastSliceSnoc(p.owners, s, s);
  }

  /** The timeline facts survive a step: the new slice starts where the clock stood,
      is at most a quantum long, and belongs to the front job. */
  lemma StepTimeline(ready: seq<PCB>, q: int, p: Progress)
    requires Inv(ready, q, p) && |p.work| > 0
    ensures var p' := Step(q, p);
            && |p'.owners| == |p'.timeline|
            && (forall k :: 0 <= k < |p'.owners| ==>
                  && p'.owners[k] < |ready|
                  && p'.timeline[k].id == ready[p'.owners[k]].id
                  && Length(p'.timeline[k]) <= q)
            && ContiguousFrom(p'.timeline, 0)
            && EndsAt(p'.timeline, 0, p'.clock)
  {
    assert InFlight(ready, q, p, p.work[0]);
  }

  /** Every entry of the working queue is in flight after a step. */
  lemma StepWork(ready: seq<PCB>, q: int, p: Progress)
    requires Inv(ready, q, p) && |p.work| > 0
    ensures forall k :: 0 <= k < |Step(q, p).work| ==> InFlight(ready, q, Step(q, p), Step(q, p).work[k])
  {
    var p' := Step(q, p);
    StepKeepsOthers(ready, q, p);
    StepFront(ready, q, p);
    if |p'.finished| == |p.finished| {
      assert forall k :: 0 <= k < |p'.work| - 1 ==> p'.work[k] == p.work[k + 1];
    } else {
      assert p'.work == p.work[1..];
    }
  }

  /** Every finished entry is done after a step, and completion order still follows
      the order of the jobs' last slices. */
  lemma StepFinished(ready: seq<PCB>, q: int, p: Progress)
    requires Inv(ready, q, p) && |p.work| > 0
    ensures forall k :: 0 <= k < |Step(q, p).finished| ==> Done(ready, q, Step(q, p), Step(q, p).finished[k])
    ensures forall i, j :: 0 <= i < j < |Step(q, p).finished| ==>
              LastSlice(Step(q, p).owners, Step(q, p).finished[i].slot)
              < LastSlice(Step(q, p).owners, Step(q, p).finished[j].slot)
  {
    var p' := Step(q, p);
    StepKeepsOthers(ready, q, p);
    StepFront(ready, q, p);
    if |p'.finished| == |p.finished| {
      assert p'.finished == p.finished;
    } else {
      assert p'.finished[..|p.finished|] == p.finished;
      forall k | 0 <= k < |p.finished|
        ensures LastSlice(p.owners, p.finished[k].slot) < |p.owners|
      {
      }
    }
  }

  /** The working queue after a step holds no job it did not hold before; the front
      job leaves it when it finishes; and the job at its front is the one that followed
      the old front. */
  lemma StepWorkSlots(ready: seq<PCB>, q: int, p: Progress)
    requires Inv(ready, q, p) && |p.work| > 0
    ensures var p' := Step(q, p);
            && p.work[0].slot in Slots(p.work)
            && (forall z :: z in Slots(p'.work) ==> z in Slots(p.work))
            && (|p'.finished| > |p.finished| ==> p.work[0].slot !in Slots(p'.work))
            && (|p'.work| > 0 ==> p'.work[0].slot == NextEntry(p.work, 0).slot)
  {
    var p' := Step(q, p);
    var n := |p.work|;
    FrontIsUnique(ready, q, p);
    assert Slots(p.work)[0] == p.work[0].slot;
    forall z | z in Slots(p'.work)
      ensures z in Slots(p.work)
    {
      var i :| 0 <= i < |p'.work| && Slots(p'.work)[i] == z;
      if i + 1 < n {
        assert p'.work[i] == p.work[i + 1];
        assert Slots(p.work)[i + 1] == z;
      }
    }
  }

  /** After a step every slice is still a full quantum or a finished job's last. */
  lemma StepFullOrFinal(ready: seq<PCB>, q: int, p: Progress)
    requires Inv(ready, q, p) && |p.work| > 0
    ensures forall k :: 0 <= k < |Step(q, p).owners| ==> FullOrFinal(q, Step(q, p), k)
  {
    var p' := Step(q, p);
    var s := p.work[0].slot;
    var n := |p.owners|;
    StepWorkSlots(ready, q, p);
    forall k | 0 <= k < |p'.owners|
      ensures FullOrFinal(q, p', k)
    {
      if k < n {
        assert FullOrFinal(q, p, k);
        assert p'.timeline[k] == p.timeline[k] && p'.owners[k] == p.owners[k];
        LastSliceSnoc(p.owners, s, p.owners[k]);
      } else {
        LastSliceSnoc(p.owners, s, s);
      }
    }
  }

  /** After a step, the positions passed over between consecutive slices are still
      those of finished jobs. */
  lemma StepPassedOver(ready: seq<PCB>, q: int, p: Progress)
    requires Inv(ready, q, p) && |p.work| > 0
    ensures forall k :: 0 <= k < |Step(q, p).owners| - 1 ==> PassedOver(Step(q, p), k)
  {
    var p' := Step(q, p);
    var s := p.work[0].slot;
    var n := |p.owners|;
    StepWorkSlots(ready, q, p);
    forall k | 0 <= k < |p'.owners| - 1
      ensures PassedOver(p', k)
    {
      forall z | Between(p'.owners[k], z, p'.owners[k + 1])
        ensures LastSlice(p'.owners, z) <= k && z !in Slots(p'.work)
      {
        if k + 1 < n {
          assert PassedOver(p, k);
          assert p'.owners[k] == p.owners[k] && p'.owners[k + 1] == p.owners[k + 1];
        } else {
          assert p'.owners[k] == p.owners[n - 1] && p'.owners[k + 1] == s;
        }
        LastSliceSnoc(p.owners, s, z);
      }
    }
  }

  /** After a step the working queue is still in circular ready-queue order, with the
      job due next at its front. */
  lemma StepInTurn(ready: seq<PCB>, q: int, p: Progress)
    requires Inv(ready, q, p) && |p.work| > 0
    ensures var p' := Step(q, p);
            && (|p'.work| > 0 ==>
                  forall z :: Between(p'.owners[|p'.owners| - 1], z, p'.work[0].slot) ==> z !in Slots(p'.work))
            && (forall i :: 0 <= i < |p'.work| ==> InTurn(p'.work, i))
  {
    var p' := Step(q, p);
    var s := p.work[0].slot;
    var n := |p.work|;
    StepWorkSlots(ready, q, p);
    assert InTurn(p.work, 0);
    forall i | 0 <= i < |p'.work|
      ensures InTurn(p'.work, i)
    {
      if |p'.finished| == |p.finished| {
        var j := if i + 1 < n then i + 1 else 0;
        assert p'.work[i].slot == p.work[j].slot;
        assert NextEntry(p'.work, i).slot == NextEntry(p.work, j).slot;
        assert InTurn(p.work, j);
      } else if i + 1 < |p'.work| {
        assert p'.work[i] == p.work[i + 1] && NextEntry(p'.work, i) == NextEntry(p.work, i + 1);
        assert InTurn(p.work, i + 1);
      } else {
        assert InTurn(p.work, n - 1);
        assert p'.work[i] == p.work[n - 1] && NextEntry(p'.work, i) == p.work[1];
        forall z | Between(p'.work[i].slot, z, NextEntry(p'.work, i).slot)
          ensures z !in Slots(p'.work)
        {
          BetweenSplit(p.work[n - 1].slot, s, p.work[1].slot, z);
        }
      }
    }
  }

  lemma StepKeepsTurns(ready: seq<PCB>, q: int, p: Progress)
    requires Inv(ready, q, p) && |p.work| > 0
    ensures TakesTurns(q, Step(q, p))
  {
    StepFullOrFinal(ready, q, p);
    StepPassedOver(ready, q, p);
    StepInTurn(ready, q, p);
  }

  lemma StepKeepsInv(ready: seq<PCB>, q: int, p: Progress)
    requires Inv(ready, q, p) && |p.work| > 0
    ensures Inv(ready, q, Step(q, p))
  {
    StepPartition(ready, q, p);
    StepWork(ready, q, p);
    StepFinished(ready, q, p);
    StepTimeline(ready, q, p);
    StepKeepsTurns(ready, q, p);
  }

  lemma {:induction false} RunKeepsInv(ready: seq<PCB>, q: int, p: Progress)
    requires Inv(ready, q, p)
    ensures Inv(ready, q, Run(q, p))
    decreases Pending(p.work), |p.work|
  {
    if |p.work| > 0 {
      StepDecreases(q, p);
      StepKeepsInv(ready, q, p);
      RunKeepsInv(ready, q, Step(q, p));
    }
  }

  /** What a finished run guarantees about the ready queue `ready` it started from. */
  lemma RunOutcome(ready: seq<PCB>, q: int)
    requires q > 0
    ensures var fin := Run(q, Start(ready));
            && Inv(ready, q, fin)
            && |fin.work| == 0
            && IsPermutation(Slots(fin.finished), |ready|)
            && |fin.finished| == |ready|
            && Distinct(Slots(fin.finished))
            && (forall k :: 0 <= k < |fin.finished| ==> fin.finished[k].slot < |ready|)
  {
    StartInv(ready, q);
    RunKeepsInv(ready, q, Start(ready));
    var fin := Run(q, Start(ready));
    assert Slots(fin.work) == [];
    PermutationFacts(Slots(fin.finished), |ready|);
  }

  /** Each finished entry, read off in completion order and written back to the ready queue. */
  lemma RunCompletions(ready: seq<PCB>, q: int)
    requires q > 0
    ensures var fin := Run(q, Start(ready));
            && |fin.finished| == |ready|
            && (forall k :: 0 <= k < |ready| ==> fin.finished[k].slot < |ready|)
            && |fin.timeline| == |fin.owners|
            && forall k :: 0 <= k < |ready| ==> FinishedAt(ready, q, fin, k)
  {
    RunOutcome(ready, q);
    var fin := Run(q, Start(ready));
    var order := Slots(fin.finished);
    var done := Jobs(fin.finished);
    var back := Scatter(ready, order, done);
    forall k | 0 <= k < |ready|
      ensures FinishedAt(ready, q, fin, k)
    {
      assert Done(ready, q, fin, fin.finished[k]);
      assert back[order[k]] == done[k];
    }
  }

  /** The k-th job to finish completed on its last slice, with its slices adding up to
      its burst, and the write-back puts its final record at its ready-queue position. */
  ghost predicate FinishedAt(ready: seq<PCB>, q: int, fin: Progress, k: nat)
    requires q > 0 && |fin.finished| == |ready| && k < |ready|
    requires forall i :: 0 <= i < |ready| ==> fin.finished[i].slot < |ready|
    requires |fin.timeline| == |fin.owners|
  {
    var order := Slots(fin.finished);
    var done := Jobs(fin.finished);
    var j := order[k];
    var last := LastSlice(fin.owners, j);
    && 0 <= last < |fin.timeline|
    && done[k] == ready[j].(burstTime := 0,
                            waitTime := fin.timeline[last].end - ready[j].originalBurstTime,
                            turnaroundTime := fin.timeline[last].end)
    && SliceTotal(fin.timeline, fin.owners, j) == ready[j].burstTime
    && SliceCount(fin.owners, j) == SlicesNeeded(ready[j].burstTime, q)
    && Scatter(ready, order, done)[j] == done[k]
  }

  /** The outcome of one round-robin run: the scheduler afterwards, the recorded
      timeline, the ready-queue position of the job that ran in each slice, the
      ready-queue positions in completion order, and the final clock. */
  datatype RRRun = RRRun(
    signal: Signal,
    sched: Scheduler,
    timeline: seq<Slice>,
    owners: seq<nat>,
    order: seq<nat>,
    clock: int)

  /** The containers after a run: the job queue untouched, every ready job completed
      exactly once (in the order `r.order` of ready-queue positions) and appended
      after the jobs completed before. */
  ghost predicate Drained(s: Scheduler, r: RRRun) {
    && r.sched.jobQueue == s.jobQueue
    && |r.sched.readyQueue| == |s.readyQueue|
    && IsPermutation(r.order, |s.readyQueue|)
    && |r.order| == |s.readyQueue|
    && (forall k :: 0 <= k < |r.order| ==> r.order[k] < |s.readyQueue|)
    && |r.sched.completedJobs| == |s.completedJobs| + |s.readyQueue|
    && r.sched.completedJobs[..|s.completedJobs|] == s.completedJobs
  }

  /** The recorded timeline runs contiguously from 0 to the final clock, in slices of
      at most q, each labelled with the id of the job that ran in it. */
  ghost predicate SlicedTimeline(s: Scheduler, q: int, r: RRRun) {
    && |r.owners| == |r.timeline|
    && ContiguousFrom(r.timeline, 0)
    && EndsAt(r.timeline, 0, r.clock)
    && (forall k :: 0 <= k < |r.timeline| ==>
          && r.owners[k] < |s.readyQueue|
          && r.timeline[k].id == s.readyQueue[r.owners[k]].id
          && Length(r.timeline[k]) <= q)
  }

  /** The k-th job to complete is ready job j = r.order[k]: it enters the completed list
      when its last slice ends, with its burst used up, that time as its turnaround and
      that time minus its original burst as its wait, nothing else changed; its slices
      add up to the burst it started with and number ceil(burst / q); and the ready
      queue holds this same final record at position j. */
  ghost predicate CompletedOnLastSlice(s: Scheduler, q: int, r: RRRun)
    requires q > 0 && Drained(s, r) && SlicedTimeline(s, q, r)
  {
    forall k :: 0 <= k < |s.readyQueue| ==> CompletedAt(s, q, r, k)
  }

  /** The k-th completion of the run, as described above. */
  ghost predicate CompletedAt(s: Scheduler, q: int, r: RRRun, k: nat)
    requires q > 0 && Drained(s, r) && SlicedTimeline(s, q, r) && k < |s.readyQueue|
  {
    var j := r.order[k];
    var last := LastSlice(r.owners, j);
    && 0 <= last
    && r.sched.completedJobs[|s.completedJobs| + k]
       == s.readyQueue[j].(burstTime := 0,
                           waitTime := r.timeline[last].end - s.readyQueue[j].originalBurstTime,
                           turnaroundTime := r.timeline[last].end)
    && SliceTotal(r.timeline, r.owners, j) == s.readyQueue[j].burstTime
    && SliceCount(r.owners, j) == SlicesNeeded(s.readyQueue[j].burstTime, q)
    && r.sched.readyQueue[j] == r.sched.completedJobs[|s.completedJobs| + k]
  }

  /** Jobs complete in the order of their last slices. */
  ghost predicate CompletionFollowsLastSlices(s: Scheduler, r: RRRun)
    requires Drained(s, r)
  {
    forall i, j :: 0 <= i < j < |s.readyQueue| ==>
      LastSlice(r.owners, r.order[i]) < LastSlice(r.owners, r.order[j])
  }

  /** The timeline takes turns as round-robin does: the first slice goes to ready
      position 0; every slice but a job's last lasts exactly q; and from one slice to
      the next the CPU goes round the ready queue, in position order, to the next job
      that still has a slice to come, every position passed over being a job that has
      had its last slice. */
  ghost predicate TookTurns(q: int, r: RRRun)
    requires |r.owners| == |r.timeline|
  {
    && (|r.owners| > 0 ==> r.owners[0] == 0)
    && (forall k :: 0 <= k < |r.owners| && k != LastSlice(r.owners, r.owners[k]) ==>
          Length(r.timeline[k]) == q)
    && (forall k :: 0 <= k < |r.owners| - 1 ==> OnlyFinishedPassedOver(r.owners, k))
  }

  /** Every position between the owners of slices k and k + 1, going round, belongs to
      a job whose last slice came no later than slice k. */
  ghost predicate OnlyFinishedPassedOver(owners: seq<nat>, k: nat)
    requires k + 1 < |owners|
  {
    forall z :: Between(owners[k], z, owners[k + 1]) ==> LastSlice(owners, z) <= k
  }

  /** The run itself, before its properties are established. */
  function Outcome(s: Scheduler, q: int): RRRun
    requires q > 0
  {
    if |s.readyQueue| == 0 then RRRun(NoJobsAvailable, s, [], [], [], 0)
    else
      var ready := s.readyQueue;
      var fin := Run(q, Start(ready));
      var order := Slots(fin.finished);
      var done := Jobs(fin.finished);
      RunCompletions(ready, q);
      RRRun(Scheduled,
            s.(readyQueue := Scatter(ready, order, done), completedJobs := s.completedJobs + done),
            fin.timeline, fin.owners, order, fin.clock)
  }

  lemma OutcomeDrained(s: Scheduler, q: int)
    requires q > 0 && |s.readyQueue| > 0
    ensures Drained(s, Outcome(s, q))
  {
    RunOutcome(s.readyQueue, q);
    RunCompletions(s.readyQueue, q);
  }

  lemma OutcomeTimeline(s: Scheduler, q: int)
    requires q > 0 && |s.readyQueue| > 0
    ensures SlicedTimeline(s, q, Outcome(s, q))
  {
    RunOutcome(s.readyQueue, q);
  }

  lemma OutcomeCompletions(s: Scheduler, q: int)
    requires q > 0 && |s.readyQueue| > 0
    ensures Drained(s, Outcome(s, q)) && SlicedTimeline(s, q, Outcome(s, q))
    ensures CompletedOnLastSlice(s, q, Outcome(s, q))
    ensures CompletionFollowsLastSlices(s, Outcome(s, q))
    ensures TookTurns(q, Outcome(s, q))
  {
    OutcomeDrained(s, q);
    OutcomeTimeline(s, q);
    OutcomeTurns(s, q, Outcome(s, q));
    OutcomeLastSlices(s, q, Outcome(s, q));
    OutcomeOrder(s, q, Outcome(s, q));
  }

  lemma OutcomeLastSlices(s: Scheduler, q: int, r: RRRun)
    requires q > 0 && |s.readyQueue| > 0 && r == Outcome(s, q)
    requires Drained(s, r) && SlicedTimeline(s, q, r)
    ensures CompletedOnLastSlice(s, q, r)
  {
    RunCompletions(s.readyQueue, q);
    var fin := Run(q, Start(s.readyQueue));
    forall k | 0 <= k < |s.readyQueue|
      ensures CompletedAt(s, q, r, k)
    {
      OutcomeAt(s, q, r, fin, k);
    }
  }

  lemma OutcomeAt(s: Scheduler, q: int, r: RRRun, fin: Progress, k: nat)
    requires q > 0 && |s.readyQueue| > 0 && r == Outcome(s, q)
    requires fin == Run(q, Start(s.readyQueue))
    requires Drained(s, r) && SlicedTimeline(s, q, r) && k < |s.readyQueue|
    requires |fin.finished| == |s.readyQueue| && |fin.timeline| == |fin.owners|
    requires forall i :: 0 <= i < |s.readyQueue| ==> fin.finished[i].slot < |s.readyQueue|
    requires FinishedAt(s.readyQueue, q, fin, k)
    ensures CompletedAt(s, q, r, k)
  {
    assert r.sched.completedJobs[|s.completedJobs| + k] == Jobs(fin.finished)[k];
  }

  lemma OutcomeTurns(s: Scheduler, q: int, r: RRRun)
    requires q > 0 && |s.readyQueue| > 0 && r == Outcome(s, q)
    requires SlicedTimeline(s, q, r)
    ensures TookTurns(q, r)
  {
    var fin := Run(q, Start(s.readyQueue));
    RunOutcome(s.readyQueue, q);
    assert TakesTurns(q, fin);
    forall k | 0 <= k < |r.owners| && k != LastSlice(r.owners, r.owners[k])
      ensures Length(r.timeline[k]) == q
    {
      assert FullOrFinal(q, fin, k);
    }
    forall k | 0 <= k < |r.owners| - 1
      ensures OnlyFinishedPassedOver(r.owners, k)
    {
      assert PassedOver(fin, k);
    }
  }

  lemma OutcomeOrder(s: Scheduler, q: int, r: RRRun)
    requires q > 0 && |s.readyQueue| > 0 && r == Outcome(s, q)
    requires Drained(s, r)
    ensures CompletionFollowsLastSlices(s, r)
  {
    RunOutcome(s.readyQueue, q);
  }

  /** Round-robin with quantum q over the ready queue. On an empty ready queue it reports
      "no jobs available" and changes nothing. Otherwise every ready job completes exactly
      once, on its last slice; the timeline runs contiguously from 0 in slices of at most
      q; each job's slices add up to the burst it started with, in ceil(burst / q)
      slices; the CPU takes turns round the ready queue in position order from position
      0, a full quantum per turn except for a job's last, skipping exactly the jobs that
      have finished; and the ready queue (which shares its jobs with the working queue in
      the Java program) holds every job's final record in its original position. */
  function RR(s: Scheduler, q: int): (r: RRRun)
    requires q > 0
    ensures r.signal == NoJobsAvailable <==> |s.readyQueue| == 0
    ensures r.signal == NoJobsAvailable ==> r.sched == s && r.timeline == []
    ensures r.signal == Scheduled ==> Drained(s, r) && SlicedTimeline(s, q, r)
    ensures r.signal == Scheduled ==> CompletedOnLastSlice(s, q, r)
    ensures r.signal == Scheduled ==> CompletionFollowsLastSlices(s, r)
    ensures r.signal == Scheduled ==> TookTurns(q, r)
  {
    if |s.readyQueue| > 0 then
      OutcomeCompletions(s, q);
      Outcome(s, q)
    else
      Outcome(s, q)
  }

  /** For jobs that enter the run with their whole burst ahead of them, the recorded wait
      is exactly the time between 0 and the job's completion that the CPU spent on other
      jobs: its turnaround minus the CPU time of its own slices. */
  lemma WaitIsTimeNotServed(s: Scheduler, q: int)
    requires q > 0
    requires forall j :: 0 <= j < |s.readyQueue| ==>
               s.readyQueue[j].burstTime == s.readyQueue[j].originalBurstTime
    ensures var r := RR(s, q);
            r.signal == Scheduled ==>
              forall k :: 0 <= k < |s.readyQueue| ==>
                var done := r.sched.completedJobs[|s.completedJobs| + k];
                done.waitTime
                == done.turnaroundTime - SliceTotal(r.timeline, r.owners, r.order[k])
  {
    var r := RR(s, q);
    if r.signal == Scheduled {
      forall k | 0 <= k < |s.readyQueue|
        ensures var done := r.sched.completedJobs[|s.completedJobs| + k];
                done.waitTime
                == done.turnaroundTime - SliceTotal(r.timeline, r.owners, r.order[k])
      {
        assert CompletedAt(s, q, r, k);
      }
    }
  }
}
