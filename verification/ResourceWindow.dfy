/**
  Resource evidence over a measured window: which evaluations are retained, and
  what the statistics over them add up to. Samples are exact reals.
 */
module ResourceWindow {
  import opened Common
  import opened Sorting

  const EVALUATION_STEP: real := 5.0
  const MAX_SOURCE_AGE: real := 20.0

  datatype Failure =
    | StepMismatch | SourceAfterWindow | SourceInFuture | SourceRegressed
    | RetainedOutsideWindow | SourceStale | Insufficient

  /** Source timestamps of every series, on the shared evaluation grid. */
  type Sources = seq<seq<real>>

  ghost predicate OnGrid(sources: Sources, grid: seq<real>) {
    forall k :: 0 <= k < |sources| ==> |sources[k]| == |grid|
  }

  ghost predicate Stepped(grid: seq<real>) {
    forall i :: 0 < i < |grid| ==> grid[i] - grid[i - 1] == EVALUATION_STEP
  }

  /** Not after the window or the evaluation, and never going back. */
  ghost predicate SoundSource(source: seq<real>, grid: seq<real>, windowEnd: real)
    requires |source| == |grid|
  {
    && (forall i :: 0 <= i < |grid| ==> source[i] <= windowEnd && source[i] <= grid[i])
    && (forall i :: 0 < i < |grid| ==> source[i - 1] <= source[i])
  }

  /** The evaluation and all its sources lie after the window start. */
  predicate Inside(grid: seq<real>, sources: Sources, start: real, i: nat)
    requires i < |grid| && forall k :: 0 <= k < |sources| ==> |sources[k]| == |grid|
  {
    grid[i] > start && forall k :: 0 <= k < |sources| ==> sources[k][i] > start
  }

  function DistinctCount(s: seq<real>): nat { |set x | x in s| }

  lemma TwoDistinct(s: seq<real>)
    ensures DistinctCount(s) >= 2 <==> exists i, j :: 0 <= i < j < |s| && s[i] != s[j]
  {
    var all := set x | x in s;
    if i, j :| 0 <= i < j < |s| && s[i] != s[j] {
      assert {s[i], s[j]} <= all;
      FewerMembers({s[i], s[j]}, all);
      assert |{s[i], s[j]}| == 2;
    } else if s != [] {
      assert all == {s[0]};
    }
  }

  lemma FewerMembers(a: set<real>, b: set<real>)
    requires a <= b
    ensures |a| <= |b|
  {
    assert b == a + (b - a);
  }

  lemma {:induction false} NonDecreasing(source: seq<real>, i: nat, j: nat)
    requires i <= j < |source| && forall k :: 0 < k < |source| ==> source[k - 1] <= source[k]
    ensures source[i] <= source[j]
    decreases j
  {
    if i < j {
      NonDecreasing(source, i, j - 1);
    }
  }

  lemma {:induction false} GridAscends(grid: seq<real>, i: nat, j: nat)
    requires i <= j < |grid| && Stepped(grid)
    ensures grid[j] - grid[i] == (j - i) as real * EVALUATION_STEP
    decreases j
  {
    if i < j {
      GridAscends(grid, i, j - 1);
      assert grid[j] - grid[j - 1] == EVALUATION_STEP;
    }
  }

  /** Once inside the window, every later evaluation is inside as well. */
  lemma InsideStays(grid: seq<real>, sources: Sources, start: real, windowEnd: real, i: nat, j: nat)
    requires i <= j < |grid| && OnGrid(sources, grid) && Stepped(grid)
    requires forall k :: 0 <= k < |sources| ==> SoundSource(sources[k], grid, windowEnd)
    requires Inside(grid, sources, start, i)
    ensures Inside(grid, sources, start, j)
  {
    GridAscends(grid, i, j);
    forall k | 0 <= k < |sources| ensures sources[k][j] > start {
      NonDecreasing(sources[k], i, j);
    }
  }

  method CheckSteps(grid: seq<real>) returns (ok: bool)
    ensures ok <==> Stepped(grid)
  {
    for i := 0 to |grid|
      invariant forall j :: 0 < j < i ==> grid[j] - grid[j - 1] == EVALUATION_STEP
    {
      if i > 0 && grid[i] - grid[i - 1] != EVALUATION_STEP {
        return false;
      }
    }
    return true;
  }

  method CheckSource(source: seq<real>, grid: seq<real>, windowEnd: real) returns (problem: Option<Failure>)
    requires |source| == |grid|
    ensures problem.None? <==> SoundSource(source, grid, windowEnd)
    ensures problem.Some? ==> problem.value in {SourceAfterWindow, SourceInFuture, SourceRegressed}
    ensures problem == Some(SourceAfterWindow) ==> exists i :: 0 <= i < |grid| && source[i] > windowEnd
    ensures problem == Some(SourceInFuture) ==> exists i :: 0 <= i < |grid| && source[i] > grid[i]
    ensures problem == Some(SourceRegressed) ==> exists i :: 0 < i < |grid| && source[i] < source[i - 1]
  {
    var previous: Option<real> := None;
    for i := 0 to |grid|
      invariant previous == if i == 0 then None else Some(source[i - 1])
      invariant forall j :: 0 <= j < i ==> source[j] <= windowEnd && source[j] <= grid[j]
      invariant forall j :: 0 < j < i ==> source[j - 1] <= source[j]
    {
      if source[i] > windowEnd {
        return Some(SourceAfterWindow);
      }
      if source[i] > grid[i] {
        return Some(SourceInFuture);
      }
      if previous.Some? && source[i] < previous.value {
        return Some(SourceRegressed);
      }
      previous := Some(source[i]);
    }
    return None;
  }

  /** The first evaluation inside the window, or the end of the grid. */
  method FirstRetained(grid: seq<real>, sources: Sources, start: real) returns (first: nat)
    requires OnGrid(sources, grid)
    ensures first <= |grid|
    ensures forall i :: 0 <= i < first ==> !Inside(grid, sources, start, i)
    ensures first < |grid| ==> Inside(grid, sources, start, first)
  {
    for i := 0 to |grid|
      invariant forall j :: 0 <= j < i ==> !Inside(grid, sources, start, j)
    {
      if Inside(grid, sources, start, i) {
        return i;
      }
    }
    return |grid|;
  }

  ghost predicate AllSound(sources: Sources, grid: seq<real>, windowEnd: real)
    requires OnGrid(sources, grid)
  {
    forall k :: 0 <= k < |sources| ==> SoundSource(sources[k], grid, windowEnd)
  }

  ghost predicate Newer(grid: seq<real>, sources: Sources, start: real, i: nat)
    requires i < |grid| && OnGrid(sources, grid)
  {
    start < grid[i] && forall k :: 0 <= k < |sources| ==> start < sources[k][i]
  }

  /** From `first` on, and only there, the evaluations lie inside the window. */
  ghost predicate Retains(grid: seq<real>, sources: Sources, start: real, first: int)
    requires OnGrid(sources, grid)
  {
    0 <= first <= |grid| && forall i :: 0 <= i < |grid| ==> (first <= i <==> Newer(grid, sources, start, i))
  }

  ghost predicate FreshFrom(source: seq<real>, grid: seq<real>, first: nat)
    requires |source| == |grid|
  {
    forall i :: first <= i < |grid| ==> grid[i] - source[i] <= 20.0
  }

  /** The source is not stuck on one sample. */
  ghost predicate Moves(source: seq<real>, first: int)
    requires 0 <= first <= |source|
  {
    exists i, j :: first <= i < j < |source| && source[i] != source[j]
  }

  lemma MovesExact(source: seq<real>, first: nat)
    requires first <= |source|
    ensures Moves(source, first) <==> DistinctCount(source[first..]) >= 2
  {
    var s := source[first..];
    TwoDistinct(s);
    if i, j :| first <= i < j < |source| && source[i] != source[j] { assert s[i - first] != s[j - first]; }
    if i, j :| 0 <= i < j < |s| && s[i] != s[j] { assert source[first + i] != source[first + j]; }
  }

  /** Two evaluations at least, and in every series recent sources that differ. */
  ghost predicate Enough(grid: seq<real>, sources: Sources, first: int)
    requires OnGrid(sources, grid) && 0 <= first <= |grid|
  {
    && |grid| - first >= 2
    && forall k :: 0 <= k < |sources| ==> FreshFrom(sources[k], grid, first) && Moves(sources[k], first)
  }

  /**
    Alignment succeeds exactly on stepped evaluations with sound sources whose
    retained part is enough. That part is exactly the evaluations inside the
    window, the longest such suffix; re-checking it against the window start
    never fails, so that failure is never reported.
   */
  method Align(grid: seq<real>, sources: Sources, start: real, windowEnd: real) returns (r: Result<seq<real>, Failure>)
    requires OnGrid(sources, grid)
    ensures r.Ok? <==> Stepped(grid) && AllSound(sources, grid, windowEnd)
                       && exists first :: Retains(grid, sources, start, first) && Enough(grid, sources, first)
    ensures r.Ok? ==>
      && Stepped(r.value)
      && exists first :: Retains(grid, sources, start, first) && r.value == grid[first..]
    ensures r == Err(StepMismatch) <==> !Stepped(grid)
    ensures r.Err? && r.error in SOURCE_FAILURES <==> Stepped(grid) && !AllSound(sources, grid, windowEnd)
    ensures r.Err? ==> r.error != RetainedOutsideWindow
  {
    var stepped := CheckSteps(grid);
    if !stepped {
      return Err(StepMismatch);
    }
    for k := 0 to |sources|
      invariant forall j :: 0 <= j < k ==> SoundSource(sources[j], grid, windowEnd)
    {
      var problem := CheckSource(sources[k], grid, windowEnd);
      if problem.Some? {
        return Err(problem.value);
      }
    }
    var first := FirstRetained(grid, sources, start);
    RetainsFrom(grid, sources, start, windowEnd, first);
    r := Retain(grid, sources, start, first);
    RetainsOnce(grid, sources, start, first);
    assert r.Ok? ==> forall i :: 0 <= i < |r.value| ==> r.value[i] == grid[first + i];
  }

  const SOURCE_FAILURES := {SourceAfterWindow, SourceInFuture, SourceRegressed}

  lemma RetainsFrom(grid: seq<real>, sources: Sources, start: real, windowEnd: real, first: nat)
    requires OnGrid(sources, grid) && Stepped(grid) && AllSound(sources, grid, windowEnd) && first <= |grid|
    requires forall i :: 0 <= i < first ==> !Inside(grid, sources, start, i)
    requires first < |grid| ==> Inside(grid, sources, start, first)
    ensures Retains(grid, sources, start, first)
  {
    forall i | first <= i < |grid| ensures Newer(grid, sources, start, i) {
      InsideStays(grid, sources, start, windowEnd, first, i);
    }
    forall i | 0 <= i < first ensures !Newer(grid, sources, start, i) {
      assert !Inside(grid, sources, start, i);
    }
  }

  lemma RetainsOnce(grid: seq<real>, sources: Sources, start: real, first: nat)
    requires OnGrid(sources, grid) && Retains(grid, sources, start, first)
    ensures forall other :: Retains(grid, sources, start, other) ==> other == first
  {
    forall other | Retains(grid, sources, start, other) ensures other == first {
      var i := if other < first then other else first;
      assert i < |grid| ==> (Newer(grid, sources, start, i) <==> first <= i);
    }
  }

  /** The retained evaluations, if they are enough. */
  method Retain(grid: seq<real>, sources: Sources, start: real, first: nat) returns (r: Result<seq<real>, Failure>)
    requires OnGrid(sources, grid) && Retains(grid, sources, start, first)
    ensures r.Ok? <==> Enough(grid, sources, first)
    ensures r.Ok? ==> r.value == grid[first..]
    ensures r.Err? ==> r.error in {SourceStale, Insufficient}
  {
    var retained := grid[first..];
    var enough := true;
    for k := 0 to |sources|
      invariant forall j :: 0 <= j < k ==> FreshFrom(sources[j], grid, first)
      invariant enough <==> forall j :: 0 <= j < k ==> Moves(sources[j], first)
    {
      MovesExact(sources[k], first);
      forall i | first <= i < |grid| ensures sources[k][i] > start {
        assert Newer(grid, sources, start, i);
      }
      var problem := CheckRetained(sources[k], grid, start, first);
      if problem.Some? {
        return Err(problem.value);
      }
      enough := enough && DistinctCount(sources[k][first..]) >= 2;
    }
    if |retained| < 2 || !enough {
      return Err(Insufficient);
    }
    return Ok(retained);
  }

  /** Re-checks the retained sources: inside the window, and fresh enough. */
  method CheckRetained(source: seq<real>, grid: seq<real>, start: real, first: nat) returns (problem: Option<Failure>)
    requires |source| == |grid| && first <= |grid|
    ensures problem == Some(RetainedOutsideWindow) ==> exists i :: first <= i < |grid| && source[i] <= start
    ensures problem.None? <==> FreshFrom(source, grid, first) && forall i :: first <= i < |grid| ==> source[i] > start
    ensures problem.Some? ==> problem.value in {RetainedOutsideWindow, SourceStale}
  {
    for i := first to |grid|
      invariant forall j :: first <= j < i ==> source[j] > start && grid[j] - source[j] <= MAX_SOURCE_AGE
    {
      if source[i] <= start {
        return Some(RetainedOutsideWindow);
      }
      if grid[i] - source[i] > MAX_SOURCE_AGE {
        return Some(SourceStale);
      }
    }
    return None;
  }

  // ----- CPU statistics

  function Rates(values: seq<real>, times: seq<real>): seq<real>
    requires |values| == |times| && forall i :: 0 < i < |times| ==> times[i] - times[i - 1] != 0.0
  {
    if |values| < 2 then []
    else
      var n := |values| - 1;
      Rates(values[..n], times[..n]) + [(values[n] - values[n - 1]) / (times[n] - times[n - 1])]
  }

  function Total(s: seq<real>): real { if s == [] then 0.0 else Total(s[..|s| - 1]) + s[|s| - 1] }

  lemma {:induction false} RatesExact(values: seq<real>, times: seq<real>)
    requires |values| == |times| >= 1 && forall i :: 0 < i < |times| ==> times[i] - times[i - 1] != 0.0
    ensures var rates := Rates(values, times);
      && |rates| == |values| - 1
      && forall i :: 0 <= i < |rates| ==> rates[i] == (values[i + 1] - values[i]) / (times[i + 1] - times[i])
  {
    var n := |values| - 1;
    if n > 0 { RatesExact(values[..n], times[..n]); }
  }

  lemma RateStep(total: real, before: real, more: real)
    requires EVALUATION_STEP * total == before
    ensures EVALUATION_STEP * (total + more / EVALUATION_STEP) == before + more
  {
  }

  lemma {:induction false} RatesTelescope(values: seq<real>, grid: seq<real>)
    requires |values| == |grid| >= 1 && Stepped(grid)
    ensures |Rates(values, grid)| == |grid| - 1
    ensures EVALUATION_STEP * Total(Rates(values, grid)) == values[|values| - 1] - values[0]
  {
    var n := |values| - 1;
    if n > 0 {
      RatesTelescope(values[..n], grid[..n]);
      var rates := Rates(values, grid);
      assert rates[..|rates| - 1] == Rates(values[..n], grid[..n]);
      assert grid[n] - grid[n - 1] == EVALUATION_STEP;
      RateStep(Total(rates[..|rates| - 1]), values[n - 1] - values[0], values[n] - values[n - 1]);
    }
  }

  lemma QuotientsAgree(total: real, delta: real, n: real, span: real)
    requires n > 0.0 && 5.0 * total == delta && span == n * 5.0
    ensures span != 0.0 && total / n == delta / span
  {
  }

  /** On the retained grid the mean of the interval rates is the normalised usage of the whole window. */
  lemma MeanRateIsNormalizedCores(values: seq<real>, grid: seq<real>, n: nat)
    requires |values| == |grid| == n + 1 && n >= 1 && Stepped(grid)
    ensures |Rates(values, grid)| == n && grid[n] - grid[0] != 0.0
    ensures Total(Rates(values, grid)) / n as real == (values[n] - values[0]) / (grid[n] - grid[0])
  {
    RatesTelescope(values, grid);
    GridAscends(grid, 0, n);
    var total, delta, span := Total(Rates(values, grid)), values[n] - values[0], grid[n] - grid[0];
    assert span == n as real * EVALUATION_STEP;
    QuotientsAgree(total, delta, n as real, span);
  }

  // ----- groups

  /** A group's value at one evaluation: the sum over its members. */
  function SummedAt(keys: seq<string>, series: map<string, seq<real>>, i: nat): real
    requires forall key :: key in keys ==> key in series && i < |series[key]|
  {
    if keys == [] then 0.0
    else
      var last := keys[|keys| - 1];
      assert last in keys;
      SummedAt(keys[..|keys| - 1], series, i) + series[last][i]
  }

  /** The sum over two groups is that of both together; alone, a member counts its own value. */
  lemma {:induction false} SummedParts(a: seq<string>, b: seq<string>, series: map<string, seq<real>>, i: nat)
    requires forall key :: key in a + b ==> key in series && i < |series[key]|
    ensures (forall key :: key in a || key in b ==> key in a + b) && SummedAt([], series, i) == 0.0
    ensures SummedAt(a + b, series, i) == SummedAt(a, series, i) + SummedAt(b, series, i)
    ensures forall key :: key in a ==> SummedAt([key], series, i) == series[key][i]
  {
    forall key | key in a ensures SummedAt([key], series, i) == series[key][i] { assert [key][..0] == []; }
    if b == [] {
      assert a + b == a;
    } else {
      var n := |b| - 1;
      assert (a + b)[..|a + b| - 1] == a + b[..n];
      SummedParts(a, b[..n], series, i);
    }
  }

  /** What the members' counters advanced by, added up. */
  function MemberDeltas(keys: seq<string>, series: map<string, seq<real>>, n: nat): real
    requires forall key :: key in keys ==> key in series && n < |series[key]|
  {
    if keys == [] then 0.0
    else
      var last := keys[|keys| - 1];
      assert last in keys;
      MemberDeltas(keys[..|keys| - 1], series, n) + (series[last][n] - series[last][0])
  }

  /** A group's counter delta is the sum of its members' deltas. */
  lemma {:induction false} GroupDeltaIsSum(keys: seq<string>, series: map<string, seq<real>>, n: nat)
    requires forall key :: key in keys ==> key in series && n < |series[key]|
    ensures SummedAt(keys, series, n) - SummedAt(keys, series, 0) == MemberDeltas(keys, series, n)
  {
    if keys != [] {
      GroupDeltaIsSum(keys[..|keys| - 1], series, n);
    }
  }

  function OfComponent(keys: seq<string>, componentOf: map<string, string>, component: string): (r: seq<string>)
    ensures forall key :: key in r ==> key in keys
  {
    if keys == [] then []
    else
      var last := keys[|keys| - 1];
      OfComponent(keys[..|keys| - 1], componentOf, component)
      + (if last in componentOf && componentOf[last] == component then [last] else [])
  }

  function OverComponents(keys: seq<string>, componentOf: map<string, string>, components: seq<string>,
                          series: map<string, seq<real>>, n: nat): real
    requires forall key :: key in keys ==> key in series && n < |series[key]|
  {
    if components == [] then 0.0
    else
      var c := |components| - 1;
      OverComponents(keys, componentOf, components[..c], series, n)
      + MemberDeltas(OfComponent(keys, componentOf, components[c]), series, n)
  }

  /** One more member adds its delta to its own component and to no other. */
  lemma OneComponentStep(keys: seq<string>, componentOf: map<string, string>, component: string,
                         series: map<string, seq<real>>, n: nat)
    requires keys != [] && forall key :: key in keys ==> key in series && n < |series[key]|
    ensures var init, last := keys[..|keys| - 1], keys[|keys| - 1];
      && last in series && n < |series[last]|
      && MemberDeltas(OfComponent(keys, componentOf, component), series, n)
         == MemberDeltas(OfComponent(init, componentOf, component), series, n)
            + (if last in componentOf && componentOf[last] == component then series[last][n] - series[last][0] else 0.0)
  {
    var init, last := keys[..|keys| - 1], keys[|keys| - 1];
    assert last in keys;
    var mine, before := OfComponent(keys, componentOf, component), OfComponent(init, componentOf, component);
    if last in componentOf && componentOf[last] == component {
      assert mine[..|mine| - 1] == before && mine[|mine| - 1] == last;
    } else {
      assert mine == before;
    }
  }

  /** What one member adds over all components. */
  ghost function Share(component: string, components: seq<string>, delta: real): real {
    if components == [] then 0.0
    else
      var c := |components| - 1;
      Share(component, components[..c], delta) + (if components[c] == component then delta else 0.0)
  }

  lemma {:induction false} ShareOnce(component: string, components: seq<string>, delta: real)
    requires forall i, j :: 0 <= i < j < |components| ==> components[i] != components[j]
    ensures Share(component, components, delta) == if component in components then delta else 0.0
  {
    if components != [] {
      var c := |components| - 1;
      ShareOnce(component, components[..c], delta);
      assert components == components[..c] + [components[c]];
    }
  }

  lemma {:induction false} ComponentStep(keys: seq<string>, componentOf: map<string, string>, components: seq<string>,
                                         series: map<string, seq<real>>, n: nat, last: string, delta: real)
    requires keys != [] && forall key :: key in keys ==> key in series && n < |series[key]| && key in componentOf
    requires last == keys[|keys| - 1] && last in keys && delta == series[last][n] - series[last][0]
    ensures OverComponents(keys, componentOf, components, series, n)
         == OverComponents(keys[..|keys| - 1], componentOf, components, series, n)
            + Share(componentOf[last], components, delta)
  {
    if components != [] {
      var c := |components| - 1;
      ComponentStep(keys, componentOf, components[..c], series, n, last, delta);
      OneComponentStep(keys, componentOf, components[c], series, n);
    }
  }

  lemma MemberStep(keys: seq<string>, series: map<string, seq<real>>, n: nat)
    requires keys != [] && forall key :: key in keys ==> key in series && n < |series[key]|
    ensures var last := keys[|keys| - 1];
      && last in keys
      && MemberDeltas(keys, series, n)
         == MemberDeltas(keys[..|keys| - 1], series, n) + (series[last][n] - series[last][0])
  {
    assert keys[|keys| - 1] in keys;
  }

  /** Every member has a sample there, and belongs to one of the components. */
  ghost predicate Assigned(keys: seq<string>, componentOf: map<string, string>, components: seq<string>,
                           series: map<string, seq<real>>, n: nat)
  {
    forall key :: key in keys ==>
      key in series && n < |series[key]| && key in componentOf && componentOf[key] in components
  }

  /** What one more member adds to its component is what it adds to all of them. */
  lemma OneMoreShare(keys: seq<string>, componentOf: map<string, string>, components: seq<string>,
                     series: map<string, seq<real>>, n: nat, last: string, delta: real)
    requires keys != [] && Assigned(keys, componentOf, components, series, n) && Distinct(components)
    requires last == keys[|keys| - 1] && last in keys && delta == series[last][n] - series[last][0]
    ensures OverComponents(keys, componentOf, components, series, n)
         == OverComponents(keys[..|keys| - 1], componentOf, components, series, n) + delta
  {
    ComponentStep(keys, componentOf, components, series, n, last, delta);
    ShareOnce(componentOf[last], components, delta);
  }

  ghost predicate Distinct(components: seq<string>) {
    forall i, j :: 0 <= i < j < |components| ==> components[i] != components[j]
  }

  /** The members' deltas are those of the components, if every member belongs to one of them. */
  lemma {:induction false} MembersByComponent(keys: seq<string>, componentOf: map<string, string>,
                                              components: seq<string>, series: map<string, seq<real>>, n: nat)
    requires Assigned(keys, componentOf, components, series, n) && Distinct(components)
    ensures MemberDeltas(keys, series, n) == OverComponents(keys, componentOf, components, series, n)
  {
    if keys == [] {
      NoMembers(componentOf, components, series, n);
    } else {
      var last := keys[|keys| - 1];
      assert last in keys;
      MembersByComponent(keys[..|keys| - 1], componentOf, components, series, n);
      MemberStep(keys, series, n);
      OneMoreShare(keys, componentOf, components, series, n, last, series[last][n] - series[last][0]);
    }
  }

  /** If every member belongs to one of the components, the fleet's delta is the sum of the components'. */
  lemma FleetDeltaIsSumOfComponents(keys: seq<string>, componentOf: map<string, string>, components: seq<string>,
                                    series: map<string, seq<real>>, n: nat)
    requires Assigned(keys, componentOf, components, series, n) && Distinct(components)
    ensures SummedAt(keys, series, n) - SummedAt(keys, series, 0)
      == OverComponents(keys, componentOf, components, series, n)
  {
    GroupDeltaIsSum(keys, series, n);
    MembersByComponent(keys, componentOf, components, series, n);
  }

  lemma {:induction false} NoMembers(componentOf: map<string, string>, components: seq<string>,
                                     series: map<string, seq<real>>, n: nat)
    ensures OverComponents([], componentOf, components, series, n) == 0.0
  {
    if components != [] {
      NoMembers(componentOf, components[..|components| - 1], series, n);
    }
  }

  // ----- nearest rank

  function Rank(n: nat, percentile: nat): nat {
    var rank := (percentile * n + 99) / 100;
    if rank < 1 then 1 else rank
  }

  /** The value at the percentile's rank among the sorted values. */
  function NearestRank(values: seq<real>, percentile: nat): (r: real)
    requires values != [] && percentile <= 100
    ensures r in values
  {
    SortByLength(values, RealLe);
    var ordered := SortBy(values, RealLe);
    RankInRange(|values|, percentile);
    SortByPermutes(values, RealLe);
    var r := ordered[Rank(|values|, percentile) - 1];
    PermutationMembership(ordered, values, r);
    r
  }

  lemma RankInRange(n: nat, percentile: nat)
    requires n >= 1 && percentile <= 100
    ensures 1 <= Rank(n, percentile) <= n
  {
    assert percentile * n <= 100 * n;
  }

  /** The least rank, from one, that covers this share of `n` values. */
  ghost predicate IsPercentileRank(n: nat, percentile: nat, rank: nat) {
    1 <= rank && 100 * rank >= percentile * n && (rank == 1 || 100 * (rank - 1) < percentile * n)
  }

  /** With the percentile's rank: that many values reach no higher than the result, and fewer lie strictly below it. */
  lemma NearestRankExact(values: seq<real>, percentile: nat)
    requires values != [] && percentile <= 100
    ensures exists rank: nat ::
      IsPercentileRank(|values|, percentile, rank) && IsRanked(values, rank, NearestRank(values, percentile))
  {
    RankInRange(|values|, percentile);
    RankedAt(values, Rank(|values|, percentile));
    assert IsPercentileRank(|values|, percentile, Rank(|values|, percentile));
  }

  // ----- the statistics of a group's CPU counter

  datatype ValueStatistics = ValueStatistics(mean: real, p95: real, max: real, last: real)
  datatype CpuStatistics = CpuStatistics(rates: ValueStatistics, counterDelta: real, window: real,
                                         normalizedCores: real)

  /** The mean of all values, the ninety-fifth percentile, the largest and the last one. */
  ghost predicate Summarizes(s: ValueStatistics, values: seq<real>)
    requires values != []
  {
    && s.mean == Total(values) / |values| as real && s.last == values[|values| - 1]
    && s.max in values && (forall x :: x in values ==> x <= s.max)
    && exists rank: nat :: IsPercentileRank(|values|, 95, rank) && IsRanked(values, rank, s.p95)
  }

  method SummarizeValues(values: seq<real>) returns (s: ValueStatistics)
    requires values != []
    ensures Summarizes(s, values)
  {
    var largest := values[0];
    for i := 1 to |values|
      invariant largest in values && forall j :: 0 <= j < i ==> values[j] <= largest
    {
      if values[i] > largest {
        largest := values[i];
      }
    }
    NearestRankExact(values, 95);
    s := ValueStatistics(Total(values) / |values| as real, NearestRank(values, 95), largest, values[|values| - 1]);
  }

  /**
    Fails at the first interval in which the counter went back. Otherwise the
    statistics are those of the interval rates, and on the evaluation grid their
    mean is the usage of the whole window.
   */
  method SummarizeCpu(values: seq<real>, times: seq<real>) returns (r: Result<CpuStatistics, nat>)
    requires |values| == |times| >= 2 && Stepped(times)
    ensures r.Ok? <==> forall i :: 0 < i < |values| ==> values[i - 1] <= values[i]
    ensures r.Err? ==>
      && r.error + 1 < |values| && values[r.error + 1] < values[r.error]
      && forall i :: 0 < i <= r.error ==> values[i - 1] <= values[i]
    ensures r.Ok? ==> var n := |values| - 1;
      && |Rates(values, times)| == n && Summarizes(r.value.rates, Rates(values, times))
      && r.value.counterDelta == values[n] - values[0] && r.value.window == times[n] - times[0] > 0.0
      && r.value.normalizedCores == r.value.counterDelta / r.value.window == r.value.rates.mean
  {
    for i := 1 to |values|
      invariant forall j :: 0 < j < i ==> values[j - 1] <= values[j]
    {
      if values[i] - values[i - 1] < 0.0 {
        return Err(i - 1);
      }
    }
    var n := |values| - 1;
    MeanRateIsNormalizedCores(values, times, n);
    GridAscends(times, 0, n);
    var rates := SummarizeValues(Rates(values, times));
    var delta, window := values[n] - values[0], times[n] - times[0];
    r := Ok(CpuStatistics(rates, delta, window, delta / window));
  }
}
