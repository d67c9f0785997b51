/**
  Adverse counters across a scenario's lifecycle: what each pod's counters
  advanced by between two snapshots, and the verdict over all of them.
 */
module LifecycleOutcomes {
  import opened Common
  import opened ExactDecimals

  type Labels = map<string, string>

  /** One metric's samples on one pod, as read from a snapshot. */
  type Series = seq<(Labels, Decimal)>

  const ZERO := Decimal(0, 0)

  /** No two samples carry the same labels. */
  ghost predicate IsDictionary(s: Series) {
    forall i, j :: 0 <= i < j < |s| ==> s[i].0 != s[j].0
  }

  predicate HasLabels(s: Series, labels: Labels) {
    exists i :: 0 <= i < |s| && s[i].0 == labels
  }

  function GetOrZero(s: Series, labels: Labels): Decimal {
    if s == [] then ZERO
    else if s[|s| - 1].0 == labels then s[|s| - 1].1
    else GetOrZero(s[..|s| - 1], labels)
  }

  function Values(s: Series): (r: seq<Decimal>)
    ensures |r| == |s| && forall i :: 0 <= i < |r| ==> r[i] == s[i].1
  {
    seq(|s|, i requires 0 <= i < |s| => s[i].1)
  }

  /** Every series of the first snapshot is still there in the second. */
  predicate Included(old_: Series, new_: Series) {
    forall i :: 0 <= i < |old_| ==> HasLabels(new_, old_[i].0)
  }

  predicate Decreased(old_: Series, new_: Series) {
    exists i :: 0 <= i < |new_| && Less(new_[i].1, GetOrZero(old_, new_[i].0))
  }

  predicate Advanced(old_: Series, new_: Series) {
    exists i :: 0 <= i < |new_| && Less(GetOrZero(old_, new_[i].0), new_[i].1)
  }

  predicate Lacks(s: Series, key: string) {
    exists i :: 0 <= i < |s| && key !in s[i].0
  }

  predicate Matches(labels: Labels, key: string, value: string) { key in labels && labels[key] == value }

  function Filtered(s: Series, key: string, value: string): Series {
    if s == [] then []
    else
      var n := |s| - 1;
      Filtered(s[..n], key, value) + (if Matches(s[n].0, key, value) then [s[n]] else [])
  }

  datatype PodInput = PodInput(pod: string, before: Series, after: Series)
  datatype Metric = Metric(name: string, labelFilter: Option<(string, string)>, pods: seq<PodInput>)
  datatype PodRow = PodRow(pod: string, before: Decimal, after: Decimal, delta: Decimal, advanced: bool)
  datatype MetricRow = MetricRow(name: string, delta: Decimal, perPod: seq<PodRow>)

  function Negate(d: Decimal): Decimal { Decimal(-d.coefficient, d.exponent) }

  type Summation = seq<Decimal> -> Decimal

  function RowOf(sum: Summation, pod: string, old_: Series, new_: Series): PodRow {
    var before, after := sum(Values(old_)), sum(Values(new_));
    PodRow(pod, before, after, sum([after, Negate(before)]), Advanced(old_, new_))
  }

  /** A way to add decimals that loses nothing. */
  ghost predicate AddsExactly(sum: Summation) {
    forall values: seq<Decimal>, base: int :: AtOrAbove(values, base) && base <= 0 ==>
      base <= sum(values).exponent && Units(sum(values), base) == TotalUnits(values, base)
  }

  lemma ExactSumAddsExactly()
    ensures AddsExactly(ExactSum)
  {
    forall values: seq<Decimal>, base: int | AtOrAbove(values, base) && base <= 0
      ensures base <= ExactSum(values).exponent && Units(ExactSum(values), base) == TotalUnits(values, base)
    {
      ExactSumUnits(values, base);
    }
  }

  // ----- one pod

  ghost function LowestOr(values: seq<Decimal>, bound: int): int {
    if values == [] then bound else Min(Lowest(values), bound)
  }

  ghost function Base(old_: Series, new_: Series): int {
    LowestOr(Values(old_), LowestOr(Values(new_), 0))
  }

  lemma {:induction false} LowestIsLow(values: seq<Decimal>)
    requires values != []
    ensures AtOrAbove(values, Lowest(values))
  {
    if |values| > 1 {
      LowestIsLow(values[..|values| - 1]);
    }
  }

  lemma BaseIsLow(old_: Series, new_: Series)
    ensures Base(old_, new_) <= 0 && AtOrAbove(Values(old_), Base(old_, new_))
      && AtOrAbove(Values(new_), Base(old_, new_))
  {
    if old_ != [] { LowestIsLow(Values(old_)); }
    if new_ != [] { LowestIsLow(Values(new_)); }
  }

  lemma {:induction false} GetIsLow(s: Series, labels: Labels, base: int)
    requires AtOrAbove(Values(s), base) && base <= 0
    ensures base <= GetOrZero(s, labels).exponent
  {
    if s != [] {
      assert Values(s)[..|s| - 1] == Values(s[..|s| - 1]);
      assert Values(s)[|s| - 1] == s[|s| - 1].1;
      GetIsLow(s[..|s| - 1], labels, base);
    }
  }

  /** What the first snapshot held for the series of the second. */
  ghost function Matched(new_: Series, old_: Series, base: int): int
    requires AtOrAbove(Values(old_), base) && base <= 0
  {
    if new_ == [] then 0
    else
      var n := |new_| - 1;
      GetIsLow(old_, new_[n].0, base);
      Matched(new_[..n], old_, base) + Units(GetOrZero(old_, new_[n].0), base)
  }

  lemma {:induction false} GetAbsent(s: Series, labels: Labels)
    requires !HasLabels(s, labels)
    ensures GetOrZero(s, labels) == ZERO
  {
    if s != [] {
      assert s[|s| - 1].0 != labels;
      HasLabelsInit(s, labels);
      GetAbsent(s[..|s| - 1], labels);
    }
  }

  /** One more old sample is matched exactly once, by the new sample with its labels. */
  lemma {:induction false} MatchedOneMore(new_: Series, old_: Series, base: int)
    requires old_ != [] && IsDictionary(old_) && IsDictionary(new_) && AtOrAbove(Values(old_), base) && base <= 0
    ensures var n := |old_| - 1;
      && AtOrAbove(Values(old_[..n]), base) && base <= old_[n].1.exponent
      && Matched(new_, old_, base) == Matched(new_, old_[..n], base)
         + (if HasLabels(new_, old_[n].0) then Units(old_[n].1, base) else 0)
    decreases |new_|
  {
    var n := |old_| - 1;
    var last := old_[n];
    assert Values(old_)[..n] == Values(old_[..n]) && Values(old_)[n] == last.1;
    if new_ != [] {
      var m := |new_| - 1;
      MatchedOneMore(new_[..m], old_, base);
      GetIsLow(old_, new_[m].0, base);
      GetIsLow(old_[..n], new_[m].0, base);
      if new_[m].0 == last.0 {
        assert !HasLabels(old_[..n], last.0);
        GetAbsent(old_[..n], last.0);
        ShiftZero(0 - base);
        assert !HasLabels(new_[..m], last.0);
      } else {
        HasLabelsInit(new_, last.0);
      }
    }
  }

  lemma HasLabelsInit(s: Series, labels: Labels)
    requires s != [] && s[|s| - 1].0 != labels
    ensures HasLabels(s, labels) <==> HasLabels(s[..|s| - 1], labels)
  {
  }

  lemma {:induction false} MatchedIsAll(new_: Series, old_: Series, base: int)
    requires IsDictionary(old_) && IsDictionary(new_) && Included(old_, new_) && AtOrAbove(Values(old_), base)
      && base <= 0
    ensures Matched(new_, old_, base) == TotalUnits(Values(old_), base)
    decreases |old_|
  {
    if old_ == [] {
      MatchedNothing(new_, base);
    } else {
      var n := |old_| - 1;
      MatchedOneMore(new_, old_, base);
      assert Included(old_[..n], new_);
      MatchedIsAll(new_, old_[..n], base);
      assert Values(old_)[..n] == Values(old_[..n]);
    }
  }

  lemma {:induction false} MatchedNothing(new_: Series, base: int)
    requires base <= 0
    ensures AtOrAbove(Values([]), base) && Matched(new_, [], base) == 0
  {
    if new_ != [] {
      MatchedNothing(new_[..|new_| - 1], base);
      ShiftZero(0 - base);
    }
  }

  /** Without a decrease the samples only grow, and the sum grows exactly if one of them does. */
  lemma SplitLast(old_: Series, new_: Series)
    requires new_ != []
    ensures var n := |new_| - 1;
      var held, now := GetOrZero(old_, new_[n].0), new_[n].1;
      && (Advanced(old_, new_) <==> Advanced(old_, new_[..n]) || Less(held, now))
      && (Decreased(old_, new_) <==> Decreased(old_, new_[..n]) || Less(now, held))
  {
    var n := |new_| - 1;
    assert forall i :: 0 <= i < n ==> new_[..n][i] == new_[i];
  }

  lemma {:induction false} GrowthIsAdvance(old_: Series, new_: Series, base: int)
    requires base <= 0 && AtOrAbove(Values(old_), base) && AtOrAbove(Values(new_), base)
    requires !Decreased(old_, new_)
    ensures TotalUnits(Values(new_), base) >= Matched(new_, old_, base)
    ensures TotalUnits(Values(new_), base) > Matched(new_, old_, base) <==> Advanced(old_, new_)
    decreases |new_|
  {
    if new_ != [] {
      var n := |new_| - 1;
      var last := new_[n];
      var held := GetOrZero(old_, last.0);
      assert Values(new_)[..n] == Values(new_[..n]) && Values(new_)[n] == last.1;
      GetIsLow(old_, last.0, base);
      LessUnits(last.1, held, base);
      LessUnits(held, last.1, base);
      SplitLast(old_, new_);
      GrowthIsAdvance(old_, new_[..n], base);
    }
  }

  lemma DifferenceUnits(sum: Summation, after: Decimal, before: Decimal, base: int)
    requires AddsExactly(sum) && base <= 0 && base <= after.exponent && base <= before.exponent
    ensures var d := sum([after, Negate(before)]);
      base <= d.exponent && Units(d, base) == Units(after, base) - Units(before, base)
  {
    var both := [after, Negate(before)];
    assert AtOrAbove(both, base);
    assert Units(sum(both), base) == TotalUnits(both, base);
    assert both[..1] == [after] && [after][..0] == [];
    assert TotalUnits([after], base) == Units(after, base);
    ShiftAdd(before.coefficient, -before.coefficient, before.exponent - base);
    ShiftZero(before.exponent - base);
  }

  /** A pod's delta is exact and not negative, and positive exactly if some series advanced. */
  lemma RowExact(sum: Summation, pod: string, old_: Series, new_: Series)
    requires AddsExactly(sum) && IsDictionary(old_) && IsDictionary(new_) && Included(old_, new_)
      && !Decreased(old_, new_)
    ensures var row := RowOf(sum, pod, old_, new_);
      row.pod == pod && Telling(row) && forall base :: Balances(row, old_, new_, base)
  {
    var base := Base(old_, new_);
    var row := RowOf(sum, pod, old_, new_);
    forall base ensures Balances(row, old_, new_, base) { RowBalances(sum, pod, old_, new_, base); }
    BaseIsLow(old_, new_);
    assert Balances(row, old_, new_, base);
    MatchedIsAll(new_, old_, base);
    GrowthIsAdvance(old_, new_, base);
    SignUnits(row.delta, base);
  }

  /** In units of ten to any exponent low enough: the sums before and after, and their difference. */
  ghost predicate Balances(row: PodRow, old_: Series, new_: Series, base: int) {
    base <= 0 && AtOrAbove(Values(old_), base) && AtOrAbove(Values(new_), base) ==>
      && base <= row.before.exponent && base <= row.after.exponent && base <= row.delta.exponent
      && Units(row.before, base) == TotalUnits(Values(old_), base)
      && Units(row.after, base) == TotalUnits(Values(new_), base)
      && Units(row.delta, base) == TotalUnits(Values(new_), base) - TotalUnits(Values(old_), base)
  }

  lemma RowBalances(sum: Summation, pod: string, old_: Series, new_: Series, base: int)
    requires AddsExactly(sum)
    ensures Balances(RowOf(sum, pod, old_, new_), old_, new_, base)
  {
    var row := RowOf(sum, pod, old_, new_);
    if base <= 0 && AtOrAbove(Values(old_), base) && AtOrAbove(Values(new_), base) {
      assert Units(row.before, base) == TotalUnits(Values(old_), base);
      assert Units(row.after, base) == TotalUnits(Values(new_), base);
      DifferenceUnits(sum, row.after, row.before, base);
    }
  }

  // ----- label filters

  lemma {:induction false} FilteredMembers(s: Series, key: string, value: string, e: (Labels, Decimal))
    ensures e in Filtered(s, key, value) <==> e in s && key in e.0 && e.0[key] == value
  {
    if s != [] {
      var n := |s| - 1;
      FilteredMembers(s[..n], key, value, e);
      assert s == s[..n] + [s[n]];
    }
  }

  lemma {:induction false} FilteredIsDictionary(s: Series, key: string, value: string)
    requires IsDictionary(s)
    ensures IsDictionary(Filtered(s, key, value))
  {
    if s != [] {
      var n := |s| - 1;
      FilteredIsDictionary(s[..n], key, value);
      var f := Filtered(s[..n], key, value);
      forall i | 0 <= i < |f| ensures f[i].0 != s[n].0 {
        FilteredMembers(s[..n], key, value, f[i]);
        assert f[i] in f;
      }
    }
  }

  lemma {:induction false} FilteredGet(s: Series, key: string, value: string, labels: Labels)
    requires Matches(labels, key, value)
    ensures GetOrZero(Filtered(s, key, value), labels) == GetOrZero(s, labels)
  {
    if s != [] {
      var n := |s| - 1;
      FilteredGet(s[..n], key, value, labels);
      var f := Filtered(s, key, value);
      if Matches(s[n].0, key, value) {
        assert f[..|f| - 1] == Filtered(s[..n], key, value) && f[|f| - 1] == s[n];
      } else {
        assert f == Filtered(s[..n], key, value);
      }
    }
  }

  lemma FilterKeepsChecks(old_: Series, new_: Series, key: string, value: string)
    requires IsDictionary(old_) && IsDictionary(new_) && Included(old_, new_) && !Decreased(old_, new_)
    ensures var o, n := Filtered(old_, key, value), Filtered(new_, key, value);
      IsDictionary(o) && IsDictionary(n) && Included(o, n) && !Decreased(o, n)
  {
    var o, n := Filtered(old_, key, value), Filtered(new_, key, value);
    FilteredIsDictionary(old_, key, value);
    FilteredIsDictionary(new_, key, value);
    forall i | 0 <= i < |o| ensures HasLabels(n, o[i].0) {
      FilteredMembers(old_, key, value, o[i]);
      var j :| 0 <= j < |old_| && old_[j] == o[i];
      var k :| 0 <= k < |new_| && new_[k].0 == old_[j].0;
      FilteredMembers(new_, key, value, new_[k]);
    }
    forall i | 0 <= i < |n| ensures !Less(n[i].1, GetOrZero(o, n[i].0)) {
      FilteredMembers(new_, key, value, n[i]);
      FilteredGet(old_, key, value, n[i].0);
      var k :| 0 <= k < |new_| && new_[k] == n[i];
    }
  }

  // ----- all metrics

  /**
    What makes a pod's counters usable: every series of the first snapshot is in
    the second with at least its value, every other one there is not negative,
    and all of them have the label that is filtered by.
   */
  ghost predicate Usable(input: PodInput, labelFilter: Option<(string, string)>) {
    && (forall i :: 0 <= i < |input.before| ==> Continues(input.before[i], input.after))
    && (forall j :: 0 <= j < |input.after| ==> IsNew(input.after[j].0, input.before) ==> !Less(input.after[j].1, ZERO))
    && (labelFilter.Some? ==> forall j :: 0 <= j < |input.after| ==> labelFilter.value.0 in input.after[j].0)
  }

  ghost predicate Continues(sample: (Labels, Decimal), s: Series) {
    exists j :: 0 <= j < |s| && s[j].0 == sample.0 && !Less(s[j].1, sample.1)
  }

  ghost predicate IsNew(labels: Labels, s: Series) { forall i :: 0 <= i < |s| ==> s[i].0 != labels }

  lemma {:induction false} GetPresent(s: Series, i: nat)
    requires IsDictionary(s) && i < |s|
    ensures GetOrZero(s, s[i].0) == s[i].1
    decreases |s|
  {
    var n := |s| - 1;
    if i < n {
      assert s[..n][i] == s[i];
      GetPresent(s[..n], i);
    }
  }

  lemma UsableExact(input: PodInput, labelFilter: Option<(string, string)>)
    requires IsDictionary(input.before) && IsDictionary(input.after)
    ensures Usable(input, labelFilter) <==>
      && Included(input.before, input.after) && !Decreased(input.before, input.after)
      && (labelFilter.Some? ==> !Lacks(input.after, labelFilter.value.0))
  {
    var old_, new_ := input.before, input.after;
    forall i | 0 <= i < |old_| ensures GetOrZero(old_, old_[i].0) == old_[i].1 { GetPresent(old_, i); }
    forall j | 0 <= j < |new_| && IsNew(new_[j].0, old_) ensures GetOrZero(old_, new_[j].0) == ZERO {
      GetAbsent(old_, new_[j].0);
    }
    if Included(old_, new_) && !Decreased(old_, new_) {
      forall i | 0 <= i < |old_| ensures Continues(old_[i], new_) {
        assert HasLabels(new_, old_[i].0);
        var j :| 0 <= j < |new_| && new_[j].0 == old_[i].0;
        assert !Less(new_[j].1, GetOrZero(old_, new_[j].0));
      }
    }
    if forall i :: 0 <= i < |old_| ==> Continues(old_[i], new_) {
      ContinuesMeans(old_, new_);
    }
  }

  lemma ContinuesMeans(old_: Series, new_: Series)
    requires IsDictionary(old_) && IsDictionary(new_) && forall i :: 0 <= i < |old_| ==> Continues(old_[i], new_)
    ensures Included(old_, new_)
    ensures forall i, j :: 0 <= i < |old_| && 0 <= j < |new_| && old_[i].0 == new_[j].0 ==> !Less(new_[j].1, old_[i].1)
  {
    forall i | 0 <= i < |old_| ensures HasLabels(new_, old_[i].0) {
      assert Continues(old_[i], new_);
    }
    forall i, j | 0 <= i < |old_| && 0 <= j < |new_| && old_[i].0 == new_[j].0 ensures !Less(new_[j].1, old_[i].1) {
      assert Continues(old_[i], new_);
      var k :| 0 <= k < |new_| && new_[k].0 == old_[i].0 && !Less(new_[k].1, old_[i].1);
      assert k == j;
    }
  }

  ghost predicate Dictionaries(metrics: seq<Metric>) {
    forall i, j :: 0 <= i < |metrics| && 0 <= j < |metrics[i].pods| ==>
      IsDictionary(metrics[i].pods[j].before) && IsDictionary(metrics[i].pods[j].after)
  }

  function Selected(s: Series, labelFilter: Option<(string, string)>): Series {
    match labelFilter
    case Some((key, value)) => Filtered(s, key, value)
    case None => s
  }

  method PodDelta(sum: Summation, input: PodInput, labelFilter: Option<(string, string)>)
    returns (r: Result<PodRow, string>)
    requires AddsExactly(sum) && IsDictionary(input.before) && IsDictionary(input.after)
    ensures r.Ok? <==> Usable(input, labelFilter)
    ensures r.Ok? ==> SoundPodRow(r.value, input, labelFilter)
  {
    UsableExact(input, labelFilter);
    if !Included(input.before, input.after) {
      return Err("counter series disappeared");
    }
    if Decreased(input.before, input.after) {
      return Err("counter series decreased");
    }
    var old_, new_ := input.before, input.after;
    if labelFilter.Some? {
      if Lacks(new_, labelFilter.value.0) {
        return Err("counter lacks its filter label");
      }
      FilterKeepsChecks(old_, new_, labelFilter.value.0, labelFilter.value.1);
      old_ := Filtered(old_, labelFilter.value.0, labelFilter.value.1);
      new_ := Filtered(new_, labelFilter.value.0, labelFilter.value.1);
    }
    SelectedSelects(input.before, labelFilter);
    SelectedSelects(input.after, labelFilter);
    RowExact(sum, input.pod, old_, new_);
    return Ok(RowOf(sum, input.pod, old_, new_));
  }

  function Deltas(rows: seq<PodRow>): (r: seq<Decimal>)
    ensures |r| == |rows| && forall i :: 0 <= i < |r| ==> r[i] == rows[i].delta
  {
    seq(|rows|, i requires 0 <= i < |rows| => rows[i].delta)
  }

  /** The delta is not negative, and positive exactly if the row says it advanced. */
  predicate Telling(row: PodRow) { row.delta.coefficient >= 0 && (row.advanced <==> row.delta.coefficient > 0) }

  /** `t` holds each sample of `s` that the filter lets through, once. */
  ghost predicate Selects(s: Series, labelFilter: Option<(string, string)>, t: Series) {
    && IsDictionary(t)
    && forall e :: e in t <==>
         e in s && (labelFilter.Some? ==> labelFilter.value.0 in e.0 && e.0[labelFilter.value.0] == labelFilter.value.1)
  }

  lemma SelectedSelects(s: Series, labelFilter: Option<(string, string)>)
    requires IsDictionary(s)
    ensures Selects(s, labelFilter, Selected(s, labelFilter))
  {
    if labelFilter.Some? {
      FilteredIsDictionary(s, labelFilter.value.0, labelFilter.value.1);
      forall e
        ensures e in Selected(s, labelFilter) <==>
          e in s && labelFilter.value.0 in e.0 && e.0[labelFilter.value.0] == labelFilter.value.1
      {
        FilteredMembers(s, labelFilter.value.0, labelFilter.value.1, e);
      }
    }
  }

  /** The row of a pod: the exact sums of the selected samples, and their difference. */
  ghost predicate SoundPodRow(row: PodRow, input: PodInput, labelFilter: Option<(string, string)>) {
    && row.pod == input.pod && Telling(row)
    && exists old_, new_ ::
         && Selects(input.before, labelFilter, old_) && Selects(input.after, labelFilter, new_)
         && forall base :: Balances(row, old_, new_, base)
  }

  lemma {:induction false} SumOfNonNegative(values: seq<Decimal>, base: int)
    requires AtOrAbove(values, base) && forall i :: 0 <= i < |values| ==> values[i].coefficient >= 0
    ensures TotalUnits(values, base) >= 0
    ensures TotalUnits(values, base) == 0 <==> forall i :: 0 <= i < |values| ==> values[i].coefficient == 0
  {
    if values != [] {
      var n := |values| - 1;
      SumOfNonNegative(values[..n], base);
      SignUnits(values[n], base);
      assert forall i :: 0 <= i < n ==> values[..n][i] == values[i];
    }
  }

  /** A metric's delta is zero exactly if no pod advanced. */
  lemma MetricDeltaExact(sum: Summation, rows: seq<PodRow>)
    requires AddsExactly(sum)
    requires forall i :: 0 <= i < |rows| ==> Telling(rows[i])
    ensures sum(Deltas(rows)).coefficient >= 0
    ensures sum(Deltas(rows)).coefficient == 0 <==> forall i :: 0 <= i < |rows| ==> !rows[i].advanced
  {
    var deltas := Deltas(rows);
    var base := LowestOr(deltas, 0);
    if deltas != [] { LowestIsLow(deltas); }
    assert AtOrAbove(deltas, base) && base <= 0;
    assert Units(sum(deltas), base) == TotalUnits(deltas, base);
    SumOfNonNegative(deltas, base);
    SignUnits(sum(deltas), base);
  }

  ghost predicate AllUsable(metric: Metric) {
    forall j :: 0 <= j < |metric.pods| ==> Usable(metric.pods[j], metric.labelFilter)
  }

  method MetricDeltas(sum: Summation, metric: Metric) returns (r: Result<MetricRow, string>)
    requires AddsExactly(sum)
    requires forall j :: 0 <= j < |metric.pods| ==>
      IsDictionary(metric.pods[j].before) && IsDictionary(metric.pods[j].after)
    ensures r.Ok? <==> AllUsable(metric)
    ensures r.Ok? ==> SoundRow(sum, r.value, metric)
  {
    var perPod: seq<PodRow> := [];
    for j := 0 to |metric.pods|
      invariant |perPod| == j
      invariant forall k :: 0 <= k < j ==>
        Usable(metric.pods[k], metric.labelFilter) && SoundPodRow(perPod[k], metric.pods[k], metric.labelFilter)
    {
      var row := PodDelta(sum, metric.pods[j], metric.labelFilter);
      if row.Err? {
        return Err(row.error);
      }
      perPod := perPod + [row.value];
    }
    return Ok(MetricRow(metric.name, sum(Deltas(perPod)), perPod));
  }

  /** The per-metric rows, or the first problem with the evidence. */
  method CounterDeltas(sum: Summation, metrics: seq<Metric>) returns (r: Result<seq<MetricRow>, string>)
    requires AddsExactly(sum) && Dictionaries(metrics)
    ensures r.Ok? <==> forall i :: 0 <= i < |metrics| ==> AllUsable(metrics[i])
    ensures r.Ok? ==> |r.value| == |metrics| && forall i :: 0 <= i < |metrics| ==> SoundRow(sum, r.value[i], metrics[i])
  {
    var rows: seq<MetricRow> := [];
    for i := 0 to |metrics|
      invariant |rows| == i
      invariant forall k :: 0 <= k < i ==> AllUsable(metrics[k])
      invariant forall k :: 0 <= k < i ==> SoundRow(sum, rows[k], metrics[k])
    {
      var row := MetricDeltas(sum, metrics[i]);
      if row.Err? {
        return Err(row.error);
      }
      rows := rows + [row.value];
    }
    return Ok(rows);
  }

  ghost predicate SoundRow(sum: Summation, row: MetricRow, metric: Metric) {
    && row.name == metric.name && |row.perPod| == |metric.pods| && row.delta == sum(Deltas(row.perPod))
    && forall k :: 0 <= k < |row.perPod| ==> SoundPodRow(row.perPod[k], metric.pods[k], metric.labelFilter)
  }

  predicate AnyAdvanced(rows: seq<MetricRow>) {
    exists i, j :: 0 <= i < |rows| && 0 <= j < |rows[i].perPod| && rows[i].perPod[j].advanced
  }

  ghost predicate EveryUsable(metrics: seq<Metric>) { forall i :: 0 <= i < |metrics| ==> AllUsable(metrics[i]) }

  ghost predicate SoundRows(sum: Summation, rows: seq<MetricRow>, metrics: seq<Metric>) {
    |rows| == |metrics| && forall i :: 0 <= i < |metrics| ==> SoundRow(sum, rows[i], metrics[i])
  }

  lemma SoundRowsConcat(sum: Summation, a: seq<MetricRow>, b: seq<MetricRow>, c: seq<Metric>, d: seq<Metric>)
    requires SoundRows(sum, a, c) && SoundRows(sum, b, d)
    ensures SoundRows(sum, a + b, c + d)
  {
  }

  /** No pod advanced exactly if every metric's delta is zero. */
  lemma VerdictExact(sum: Summation, rows: seq<MetricRow>, metrics: seq<Metric>)
    requires AddsExactly(sum) && SoundRows(sum, rows, metrics)
    ensures !AnyAdvanced(rows) <==> forall i :: 0 <= i < |rows| ==> rows[i].delta.coefficient == 0
  {
    forall i | 0 <= i < |rows|
      ensures rows[i].delta.coefficient == 0 <==> forall j :: 0 <= j < |rows[i].perPod| ==> !rows[i].perPod[j].advanced
    {
      assert SoundRow(sum, rows[i], metrics[i]);
      RowVerdict(sum, rows[i], metrics[i]);
    }
  }

  lemma RowVerdict(sum: Summation, row: MetricRow, metric: Metric)
    requires AddsExactly(sum) && SoundRow(sum, row, metric)
    ensures row.delta.coefficient == 0 <==> forall j :: 0 <= j < |row.perPod| ==> !row.perPod[j].advanced
  {
    assert forall j :: 0 <= j < |row.perPod| ==> SoundPodRow(row.perPod[j], metric.pods[j], metric.labelFilter);
    MetricDeltaExact(sum, row.perPod);
  }

  /**
    The evidence is valid exactly if the identities stayed, time passed and
    every pod's counters are usable. It passes exactly if every adverse
    metric's delta is zero.
   */
  method Analyze(sameIdentities: bool, beforeEpoch: real, afterEpoch: real, controller: seq<Metric>, agent: seq<Metric>)
    returns (r: Result<(seq<MetricRow>, bool), string>)
    requires Dictionaries(controller) && Dictionaries(agent)
    ensures r.Ok? <==> sameIdentities && beforeEpoch < afterEpoch && EveryUsable(controller) && EveryUsable(agent)
    ensures r.Ok? ==> SoundRows(ExactSum, r.value.0, controller + agent)
    ensures r.Ok? ==> (r.value.1 <==> forall i :: 0 <= i < |r.value.0| ==> r.value.0[i].delta.coefficient == 0)
  {
    if !sameIdentities {
      return Err("identity changed across the scenario lifecycle");
    }
    if afterEpoch <= beforeEpoch {
      return Err("snapshot interval is not positive");
    }
    ExactSumAddsExactly();
    var first := CounterDeltas(ExactSum, controller);
    if first.Err? {
      return Err(first.error);
    }
    var second := CounterDeltas(ExactSum, agent);
    if second.Err? {
      return Err(second.error);
    }
    var rows := first.value + second.value;
    SoundRowsConcat(ExactSum, first.value, second.value, controller, agent);
    VerdictExact(ExactSum, rows, controller + agent);
    return Ok((rows, !AnyAdvanced(rows)));
  }
}
