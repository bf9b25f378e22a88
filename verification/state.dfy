/** The scheduler's shared containers and the vocabulary the three policies share:
    run signals, timeline slices, queue positions and permutations of them. */
module State {
  import opened Pcb

  /** The three containers of CPU_Scheduler: jobs loaded but not yet admitted,
      admitted jobs awaiting service, and jobs finished by earlier or current runs. */
  datatype Scheduler = Scheduler(jobQueue: seq<PCB>, readyQueue: seq<PCB>, completedJobs: seq<PCB>)

  /** Whether a policy ran, or returned at once with "no jobs available". */
  datatype Signal = NoJobsAvailable | Scheduled

  /** One timeline entry: job `id` held the CPU from `start` to `end`. */
  datatype Slice = Slice(id: int, start: int, end: int)

  function Length(sl: Slice): int {
    sl.end - sl.start
  }

  /** The chart starts at `t` and each slice starts where the previous one ended. */
  ghost predicate ContiguousFrom(chart: seq<Slice>, t: int) {
    && (|chart| > 0 ==> chart[0].start == t)
    && (forall k :: 0 < k < |chart| ==> chart[k].start == chart[k - 1].end)
  }

  /** The chart, started at `t0`, ends at `t` (an empty chart ends where it starts). */
  ghost predicate EndsAt(chart: seq<Slice>, t0: int, t: int) {
    if |chart| == 0 then t == t0 else chart[|chart| - 1].end == t
  }

  /** The positions 0 .. n-1 of a queue of length n, in order. */
  function Range(n: nat): seq<nat> {
    seq(n, i requires 0 <= i < n => i as nat)
  }

  /** `order` lists every position of an n-element queue exactly once. */
  ghost predicate IsPermutation(order: seq<nat>, n: nat) {
    multiset(order) == multiset(Range(n))
  }

  ghost predicate Distinct(xs: seq<nat>) {
    forall i, j :: 0 <= i < j < |xs| ==> xs[i] != xs[j]
  }

  lemma {:induction false} RangeCount(n: nat, v: nat)
    ensures multiset(Range(n))[v] == if v < n then 1 else 0
    decreases n
  {
    if n > 0 {
      assert Range(n) == Range(n - 1) + [n - 1];
      RangeCount(n - 1, v);
    }
  }

  lemma RangeSnoc(n: nat)
    ensures Range(n + 1) == Range(n) + [n]
    ensures multiset(Range(n + 1)) == multiset(Range(n)) + multiset{n}
  {
    assert Range(n + 1) == Range(n) + [n];
  }

  /** Every entry of a permutation of the positions is a position. */
  lemma PermutationBound(order: seq<nat>, n: nat)
    requires IsPermutation(order, n)
    ensures forall k :: 0 <= k < |order| ==> order[k] < n
  {
    forall k | 0 <= k < |order|
      ensures order[k] < n
    {
      assert order[k] in multiset(order);
      RangeCount(n, order[k]);
    }
  }

  /** A value found at two positions of a sequence counts at least twice. */
  lemma CountTwice(xs: seq<nat>, i: nat, j: nat)
    requires i < j < |xs| && xs[i] == xs[j]
    ensures multiset(xs)[xs[i]] >= 2
  {
    assert xs == xs[..j] + [xs[j]] + xs[j + 1..];
    assert xs[i] in multiset(xs[..j]);
  }

  /** What "permutation of the positions" gives a caller: the right length,
      every entry a position, no position twice, and every position present. */
  lemma PermutationFacts(order: seq<nat>, n: nat)
    requires IsPermutation(order, n)
    ensures |order| == n
    ensures forall k :: 0 <= k < |order| ==> order[k] < n
    ensures Distinct(order)
    ensures forall i :: 0 <= i < n ==> i in order
  {
    assert |multiset(order)| == |multiset(Range(n))|;
    forall k | 0 <= k < |order|
      ensures order[k] < n
    {
      assert order[k] in multiset(order);
      RangeCount(n, order[k]);
    }
    forall i, j | 0 <= i < j < |order|
      ensures order[i] != order[j]
    {
      if order[i] == order[j] {
        CountTwice(order, i, j);
        RangeCount(n, order[i]);
        assert false;
      }
    }
    forall i | 0 <= i < n
      ensures i in order
    {
      RangeCount(n, i);
      assert i in multiset(order);
    }
  }

  /** The jobs of `jobs` at the positions `order` names, in that order. */
  function Pick(jobs: seq<PCB>, order: seq<nat>): (picked: seq<PCB>)
    requires forall k :: 0 <= k < |order| ==> order[k] < |jobs|
    ensures |picked| == |order|
    ensures forall k :: 0 <= k < |order| ==> picked[k] == jobs[order[k]]
  {
    seq(|order|, k requires 0 <= k < |order| => jobs[order[k]])
  }

  /** `base` with `vals[k]` written at position `slots[k]`, for each k in turn. */
  function Scatter(base: seq<PCB>, slots: seq<nat>, vals: seq<PCB>): (r: seq<PCB>)
    requires |slots| == |vals|
    requires forall k :: 0 <= k < |slots| ==> slots[k] < |base|
    ensures |r| == |base|
    ensures forall i :: 0 <= i < |base| && i !in slots ==> r[i] == base[i]
    ensures Distinct(slots) ==> forall k :: 0 <= k < |slots| ==> r[slots[k]] == vals[k]
    decreases |slots|
  {
    if |slots| == 0 then base
    else
      assert forall i :: i in slots[1..] ==> i in slots;
      Scatter(base[slots[0] := vals[0]], slots[1..], vals[1..])
  }

  /** The entries of `xs` whose flag is set, in their original order. */
  function Keep<T>(xs: seq<T>, flags: seq<bool>): (r: seq<T>)
    requires |xs| == |flags|
    ensures |r| <= |xs|
    decreases |xs|
  {
    if |xs| == 0 then []
    else
      Keep(xs[..|xs| - 1], flags[..|flags| - 1])
      + (if flags[|flags| - 1] then [xs[|xs| - 1]] else [])
  }

}
