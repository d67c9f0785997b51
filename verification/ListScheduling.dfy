/**
  List scheduling on identical machines: jobs are placed one at a time, in
  descending order of weight, each on a machine whose load is smallest so far.

  An assignment of |a| jobs to machines is a sequence of machine indices; the
  job weights are a sequence of the same length.
 */
module ListScheduling {

  /** What the jobs that `a` puts on machine `i` weigh together. */
  ghost function Load(a: seq<int>, w: seq<real>, i: int): real
    requires |a| == |w|
  {
    if |a| == 0 then 0.0
    else
      Load(a[..|a| - 1], w[..|w| - 1], i) + (if a[|a| - 1] == i then w[|w| - 1] else 0.0)
  }

  ghost function Total(w: seq<real>): real {
    if |w| == 0 then 0.0 else Total(w[..|w| - 1]) + w[|w| - 1]
  }

  ghost function SumOfLoads(a: seq<int>, w: seq<real>, machines: nat): real
    requires |a| == |w|
  {
    if machines == 0 then 0.0
    else SumOfLoads(a, w, machines - 1) + Load(a, w, machines - 1)
  }

  ghost predicate OnMachines(a: seq<int>, machines: nat) {
    forall k :: 0 <= k < |a| ==> 0 <= a[k] < machines
  }

  ghost predicate Descending(w: seq<real>) {
    forall j, k :: 0 <= j <= k < |w| ==> w[j] >= w[k]
  }

  ghost predicate NonNegative(w: seq<real>) {
    forall k :: 0 <= k < |w| ==> w[k] >= 0.0
  }

  /** Machine `target` is least loaded under `a`. */
  ghost predicate LeastLoaded(a: seq<int>, w: seq<real>, machines: nat, target: int)
    requires |a| == |w|
  {
    forall i :: 0 <= i < machines ==> Load(a, w, target) <= Load(a, w, i)
  }

  /** Every job went to a machine that was least loaded when it was placed. */
  ghost predicate Greedy(a: seq<int>, w: seq<real>, machines: nat)
    requires |a| == |w|
  {
    forall k :: 0 <= k < |a| ==> LeastLoaded(a[..k], w[..k], machines, a[k])
  }

  /** No machine of `a` carries more than `limit`. */
  ghost predicate Within(a: seq<int>, w: seq<real>, machines: nat, limit: real)
    requires |a| == |w|
  {
    forall i :: 0 <= i < machines ==> Load(a, w, i) <= limit
  }

  /** Graham's ratio for longest-processing-time scheduling: 4/3 - 1/(3m). */
  ghost function GrahamRatio(machines: nat): real
    requires machines >= 1
  {
    4.0 / 3.0 - 1.0 / (3.0 * machines as real)
  }

  // ----- conservation: the loads share out the total weight

  lemma {:induction false} SumOfLoadsStep(a: seq<int>, w: seq<real>, machines: nat)
    requires |a| == |w| && |a| > 0
    ensures SumOfLoads(a, w, machines)
         == SumOfLoads(a[..|a| - 1], w[..|w| - 1], machines)
            + (if 0 <= a[|a| - 1] < machines then w[|w| - 1] else 0.0)
  {
    if machines > 0 {
      SumOfLoadsStep(a, w, machines - 1);
    }
  }

  lemma {:induction false} NothingAssigned(machines: nat)
    ensures SumOfLoads([], [], machines) == 0.0
  {
    if machines > 0 {
      NothingAssigned(machines - 1);
    }
  }

  lemma {:induction false} LoadsConserveWeight(a: seq<int>, w: seq<real>, machines: nat)
    requires |a| == |w| && OnMachines(a, machines)
    ensures SumOfLoads(a, w, machines) == Total(w)
  {
    if |a| == 0 {
      assert a == [] && w == [];
      NothingAssigned(machines);
    } else {
      SumOfLoadsStep(a, w, machines);
      LoadsConserveWeight(a[..|a| - 1], w[..|w| - 1], machines);
    }
  }

  /** `count` copies of `x`, added up; keeps the proofs below linear. */
  ghost function Copies(count: nat, x: real): real {
    if count == 0 then 0.0 else Copies(count - 1, x) + x
  }

  lemma {:induction false} CopiesIsProduct(count: nat, x: real)
    ensures Copies(count, x) == count as real * x
  {
    if count > 0 {
      CopiesIsProduct(count - 1, x);
      assert count as real * x == (count - 1) as real * x + x;
    }
  }

  lemma {:induction false} CopiesAdd(count: nat, x: real, y: real)
    ensures Copies(count, x + y) == Copies(count, x) + Copies(count, y)
  {
    if count > 0 {
      CopiesAdd(count - 1, x, y);
    }
  }

  lemma {:induction false} CopiesMonotone(count: nat, x: real, y: real)
    requires x <= y
    ensures Copies(count, x) <= Copies(count, y)
  {
    if count > 0 {
      CopiesMonotone(count - 1, x, y);
    }
  }

  lemma {:induction false} SumAtMost(a: seq<int>, w: seq<real>, machines: nat, limit: real)
    requires |a| == |w| && Within(a, w, machines, limit)
    ensures SumOfLoads(a, w, machines) <= Copies(machines, limit)
  {
    if machines > 0 {
      SumAtMost(a, w, machines - 1, limit);
    }
  }

  lemma {:induction false} SumAtLeast(a: seq<int>, w: seq<real>, machines: nat, limit: real)
    requires |a| == |w|
    requires forall i :: 0 <= i < machines ==> Load(a, w, i) >= limit
    ensures SumOfLoads(a, w, machines) >= Copies(machines, limit)
  {
    if machines > 0 {
      SumAtLeast(a, w, machines - 1, limit);
    }
  }

  lemma {:induction false} LoadNonNegative(a: seq<int>, w: seq<real>, i: int)
    requires |a| == |w| && NonNegative(w)
    ensures Load(a, w, i) >= 0.0
  {
    if |a| > 0 {
      LoadNonNegative(a[..|a| - 1], w[..|w| - 1], i);
    }
  }

  // ----- the credit argument: one credit per job, a second one per big job

  /** A job is big when it cannot share a machine below the threshold. */
  ghost function Credits(w: seq<real>, threshold: real): (c: seq<real>)
    ensures |c| == |w|
  {
    seq(|w|, k requires 0 <= k < |w| => if w[k] > threshold then 2.0 else 1.0)
  }

  lemma CreditsPrefix(w: seq<real>, threshold: real)
    requires |w| > 0
    ensures Credits(w, threshold)[..|w| - 1] == Credits(w[..|w| - 1], threshold)
  {
  }

  /** A machine loaded beyond the threshold holds two jobs or a big one. */
  lemma {:induction false} LoadedEarnsTwo(a: seq<int>, w: seq<real>, threshold: real, i: int)
    requires |a| == |w|
    ensures var c := Load(a, Credits(w, threshold), i);
            var load := Load(a, w, i);
            (c == 0.0 && load == 0.0) || (c == 1.0 && load <= threshold) || c >= 2.0
  {
    if |a| > 0 {
      CreditsPrefix(w, threshold);
      LoadedEarnsTwo(a[..|a| - 1], w[..|w| - 1], threshold, i);
    }
  }

  /**
    When three jobs never fit under `limit`, and a big job fits with no other,
    a machine within the limit earns at most two credits.
   */
  lemma {:induction false} WithinEarnsAtMostTwo(a: seq<int>, w: seq<real>, least: real, limit: real, i: int)
    requires |a| == |w| && 3.0 * least > limit && least > 0.0
    requires forall k :: 0 <= k < |w| ==> w[k] >= least
    ensures var c := Load(a, Credits(w, limit - least), i);
            var load := Load(a, w, i);
            || (c == 0.0 && load == 0.0)
            || (c == 1.0 && load >= least)
            || (c == 2.0 && (load >= 2.0 * least || load + least > limit))
            || (c >= 3.0 && load > limit)
  {
    if |a| > 0 {
      CreditsPrefix(w, limit - least);
      WithinEarnsAtMostTwo(a[..|a| - 1], w[..|w| - 1], least, limit, i);
    }
  }

  /** If every machine is loaded beyond the threshold, all earn two credits. */
  lemma OverloadedCredits(a: seq<int>, w: seq<real>, machines: nat, threshold: real)
    requires |a| == |w| && OnMachines(a, machines) && threshold >= 0.0
    requires forall i :: 0 <= i < machines ==> Load(a, w, i) > threshold
    ensures Total(Credits(w, threshold)) >= Copies(machines, 2.0)
  {
    var c := Credits(w, threshold);
    forall i | 0 <= i < machines
      ensures Load(a, c, i) >= 2.0
    {
      LoadedEarnsTwo(a, w, threshold, i);
    }
    SumAtLeast(a, c, machines, 2.0);
    LoadsConserveWeight(a, c, machines);
  }

  lemma ConfinedCredits(b: seq<int>, w: seq<real>, machines: nat, least: real, limit: real)
    requires |b| == |w| && OnMachines(b, machines) && Within(b, w, machines, limit)
    requires 3.0 * least > limit && least > 0.0
    requires forall k :: 0 <= k < |w| ==> w[k] >= least
    ensures Total(Credits(w, limit - least)) <= Copies(machines, 2.0)
  {
    var c := Credits(w, limit - least);
    forall i | 0 <= i < machines
      ensures Load(b, c, i) <= 2.0
    {
      WithinEarnsAtMostTwo(b, w, least, limit, i);
      assert Load(b, w, i) <= limit;
    }
    SumAtMost(b, c, machines, 2.0);
    LoadsConserveWeight(b, c, machines);
  }

  /**
    When the last (lightest) job weighs more than a third of what some other
    assignment achieves, the greedy placement of that job stays within it.
   */
  lemma HeavyLastJobIsOptimal(a: seq<int>, b: seq<int>, w: seq<real>, machines: nat, limit: real)
    requires |a| == |b| == |w| && |a| > 0 && machines >= 1
    requires OnMachines(a, machines) && OnMachines(b, machines)
    requires Descending(w) && Greedy(a, w, machines) && Within(b, w, machines, limit)
    requires 3.0 * w[|w| - 1] > limit && w[|w| - 1] > 0.0
    ensures Load(a, w, a[|a| - 1]) <= limit
  {
    var n := |a| - 1;
    var threshold := limit - w[n];
    if Load(a, w, a[n]) > limit {
      CreditsPrefix(w, threshold);
      LastJobLoad(b, w, machines, limit);
      assert LeastLoaded(a[..n], w[..n], machines, a[n]);
      ConfinedCredits(b, w, machines, w[n], limit);
      OverloadedCredits(a[..n], w[..n], machines, threshold);
      assert false;
    }
  }

  /** The machine holding the last job carries at least that job. */
  lemma LastJobLoad(b: seq<int>, w: seq<real>, machines: nat, limit: real)
    requires |b| == |w| && |b| > 0 && OnMachines(b, machines)
    requires Within(b, w, machines, limit) && Descending(w) && w[|w| - 1] >= 0.0
    ensures w[|w| - 1] <= limit
  {
    var n := |b| - 1;
    assert NonNegative(w[..n]);
    LoadNonNegative(b[..n], w[..n], b[n]);
    assert Load(b, w, b[n]) <= limit;
  }

  /** The least load is at most the average, so the last job overshoots by little. */
  lemma LastJobOvershoot(a: seq<int>, b: seq<int>, w: seq<real>, machines: nat, limit: real)
    requires |a| == |b| == |w| && |a| > 0 && machines >= 1
    requires OnMachines(a, machines) && OnMachines(b, machines)
    requires Greedy(a, w, machines) && Within(b, w, machines, limit)
    ensures Copies(machines, Load(a, w, a[|a| - 1]))
         <= Copies(machines, limit) + Copies(machines - 1, w[|w| - 1])
  {
    var n := |a| - 1;
    var least := Load(a[..n], w[..n], a[n]);
    assert LeastLoaded(a[..n], w[..n], machines, a[n]);
    SumAtLeast(a[..n], w[..n], machines, least);
    LoadsConserveWeight(a[..n], w[..n], machines);
    LoadsConserveWeight(b, w, machines);
    SumAtMost(b, w, machines, limit);
    CopiesAdd(machines, least, w[n]);
  }

  /** The bound, with the ratio's denominator 3m multiplied out. */
  lemma {:induction false} ScaledGrahamBound(a: seq<int>, b: seq<int>, w: seq<real>, machines: nat, limit: real, i: int)
    requires |a| == |b| == |w| && machines >= 1 && 0 <= i < machines
    requires OnMachines(a, machines) && OnMachines(b, machines)
    requires Descending(w) && NonNegative(w)
    requires Greedy(a, w, machines) && Within(b, w, machines, limit)
    ensures Copies(machines, Load(a, w, i)) <= Copies(machines, limit) + Copies(machines - 1, limit / 3.0)
  {
    var third := limit / 3.0;
    LoadNonNegative(b, w, i);
    assert limit >= Load(b, w, i);
    CopiesMonotone(machines - 1, 0.0, third);
    CopiesIsProduct(machines - 1, 0.0);
    if |a| == 0 {
      CopiesMonotone(machines, 0.0, limit);
    } else if a[|a| - 1] == i {
      var last := w[|w| - 1];
      if 3.0 * last > limit {
        HeavyLastJobIsOptimal(a, b, w, machines, limit);
        CopiesMonotone(machines, Load(a, w, i), limit);
      } else {
        LastJobOvershoot(a, b, w, machines, limit);
        CopiesMonotone(machines - 1, last, third);
      }
    } else {
      var n := |a| - 1;
      PrefixKeepsHypotheses(a, b, w, machines, limit);
      ScaledGrahamBound(a[..n], b[..n], w[..n], machines, limit, i);
    }
  }

  lemma UnscaleBound(machines: nat, load: real, limit: real)
    requires machines >= 1
    requires Copies(machines, load) <= Copies(machines, limit) + Copies(machines - 1, limit / 3.0)
    ensures load <= GrahamRatio(machines) * limit
  {
    CopiesIsProduct(machines, load);
    CopiesIsProduct(machines, limit);
    CopiesIsProduct(machines - 1, limit / 3.0);
  }

  /**
    Graham's bound. Against any assignment of the same jobs to the same number
    of machines, a descending greedy one is within the ratio on every machine.
   */
  lemma GrahamBound(a: seq<int>, b: seq<int>, w: seq<real>, machines: nat, limit: real, i: int)
    requires |a| == |b| == |w| && machines >= 1 && 0 <= i < machines
    requires OnMachines(a, machines) && OnMachines(b, machines)
    requires Descending(w) && NonNegative(w)
    requires Greedy(a, w, machines) && Within(b, w, machines, limit)
    ensures Load(a, w, i) <= GrahamRatio(machines) * limit
  {
    ScaledGrahamBound(a, b, w, machines, limit, i);
    UnscaleBound(machines, Load(a, w, i), limit);
  }

  lemma PrefixKeepsHypotheses(a: seq<int>, b: seq<int>, w: seq<real>, machines: nat, limit: real)
    requires |a| == |b| == |w| && |a| > 0 && NonNegative(w)
    requires Greedy(a, w, machines) && Within(b, w, machines, limit)
    ensures var n := |a| - 1;
            Greedy(a[..n], w[..n], machines) && Within(b[..n], w[..n], machines, limit)
  {
    var n := |a| - 1;
    forall k | 0 <= k < n
      ensures LeastLoaded(a[..n][..k], w[..n][..k], machines, a[..n][k])
    {
      assert a[..n][..k] == a[..k] && w[..n][..k] == w[..k];
    }
    forall i | 0 <= i < machines
      ensures Load(b[..n], w[..n], i) <= limit
    {
      assert Load(b, w, i) <= limit;
    }
  }
}
