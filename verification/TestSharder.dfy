/**
  Splitting a test inventory into shards of balanced measured cost. Serial and
  parallel tests form two lanes; each lane is scheduled longest first, and the
  shard lengths carry over from the first lane to the second while the loads
  start again from zero.
 */
module TestSharder {
  import opened Common
  import opened Sorting
  import opened Whitespace
  import LS = ListScheduling

  type Seconds = r: real | r >= 0.0 witness 0.0

  datatype Weight = Weight(seconds: Seconds, parallel: bool)

  // ----- weights

  /** The weights file: test names with their measurements, each name once. */
  type WeightFile = s: seq<(string, Weight)> | NamesDiffer(s) witness []

  ghost predicate NamesDiffer(weights: seq<(string, Weight)>) {
    forall i, j :: 0 <= i < j < |weights| ==> weights[i].0 != weights[j].0
  }

  function SerialSeconds(weights: seq<(string, Weight)>): (r: seq<real>)
    ensures forall x :: x in r ==> x >= 1.0
  {
    if weights == [] then []
    else
      var n := |weights| - 1;
      var last := weights[n].1;
      SerialSeconds(weights[..n]) + (if !last.parallel && last.seconds >= 1.0 then [last.seconds] else [])
  }

  /** The serial measurements of `x` seconds that are no helper tests. */
  ghost function SerialAt(weights: seq<(string, Weight)>, x: real): set<int> {
    set i | 0 <= i < |weights| && !weights[i].1.parallel && weights[i].1.seconds == x && x >= 1.0
  }

  /** `serial` holds the seconds of every serial test of a second or more, as often as they were measured. */
  ghost predicate AreSerial(weights: seq<(string, Weight)>, serial: seq<real>) {
    forall x :: Count(serial, x) == |SerialAt(weights, x)|
  }

  lemma {:induction false} SerialSecondsExact(weights: seq<(string, Weight)>, x: real)
    ensures Count(SerialSeconds(weights), x) == |SerialAt(weights, x)|
  {
    if weights != [] {
      var n := |weights| - 1;
      SerialSecondsExact(weights[..n], x);
      var before, last := SerialSeconds(weights[..n]), weights[n].1;
      if !last.parallel && last.seconds >= 1.0 {
        assert (before + [last.seconds])[..|before|] == before;
      } else {
        assert before + [] == before;
      }
      if n in SerialAt(weights, x) {
        assert SerialAt(weights, x) == SerialAt(weights[..n], x) + {n};
      } else {
        assert SerialAt(weights, x) == SerialAt(weights[..n], x);
      }
    }
  }

  function Median(s: seq<real>): real
    requires s != []
  {
    var sorted := SortBy(s, RealLe);
    var n := |s|;
    SortByLength(s, RealLe);
    if n % 2 == 1 then sorted[n / 2] else (sorted[n / 2 - 1] + sorted[n / 2]) / 2.0
  }

  lemma MedianAtLeast(s: seq<real>, bound: real)
    requires s != [] && forall x :: x in s ==> x >= bound
    ensures Median(s) >= bound
  {
    var sorted := SortBy(s, RealLe);
    SortByLength(s, RealLe);
    SortByPermutes(s, RealLe);
    forall k | 0 <= k < |sorted| ensures sorted[k] >= bound {
      PermutationMembership(sorted, s, sorted[k]);
    }
  }

  /** The mean of the two middle values, which are one if their number is odd. */
  ghost predicate IsMedian(s: seq<real>, m: real) {
    exists low, high :: AreMiddle(s, low, high) && m == (low + high) / 2.0
  }

  ghost predicate AreMiddle(s: seq<real>, low: real, high: real) {
    IsRanked(s, (|s| + 1) / 2, low) && IsRanked(s, |s| / 2 + 1, high)
  }

  lemma MedianExact(s: seq<real>)
    requires s != []
    ensures IsMedian(s, Median(s))
  {
    var sorted := SortBy(s, RealLe);
    RankedAt(s, (|s| + 1) / 2);
    RankedAt(s, |s| / 2 + 1);
    var low, high := sorted[(|s| + 1) / 2 - 1], sorted[|s| / 2];
    assert AreMiddle(s, low, high) && Median(s) == (low + high) / 2.0;
  }

  /** The weight of a test nobody measured: the median of the serial ones, a second without any. */
  ghost predicate IsTypical(weights: seq<(string, Weight)>, w: Weight) {
    && !w.parallel
    && exists serial ::
         AreSerial(weights, serial) && (if serial == [] then w.seconds == 1.0 else IsMedian(serial, w.seconds))
  }

  /** A test nobody measured counts as a typical serial cluster test. */
  function UnmeasuredWeight(weights: seq<(string, Weight)>): (w: Weight)
    ensures IsTypical(weights, w) && w.seconds >= 1.0
  {
    var serial := SerialSeconds(weights);
    assert AreSerial(weights, serial) by {
      forall x ensures Count(serial, x) == |SerialAt(weights, x)| { SerialSecondsExact(weights, x); }
    }
    if serial == [] then Weight(1.0, false)
    else
      MedianAtLeast(serial, 1.0);
      MedianExact(serial);
      Weight(Median(serial), false)
  }

  function WeightOf(name: string, weights: seq<(string, Weight)>, unmeasured: Weight): Weight {
    if weights == [] then unmeasured
    else if weights[0].0 == name then weights[0].1
    else WeightOf(name, weights[1..], unmeasured)
  }

  lemma {:induction false} WeightOfExact(name: string, weights: seq<(string, Weight)>, unmeasured: Weight)
    requires NamesDiffer(weights)
    ensures var w := WeightOf(name, weights, unmeasured);
      && (forall i :: 0 <= i < |weights| && weights[i].0 == name ==> w == weights[i].1)
      && ((forall i :: 0 <= i < |weights| ==> weights[i].0 != name) ==> w == unmeasured)
  {
    if weights != [] && weights[0].0 != name {
      WeightOfExact(name, weights[1..], unmeasured);
      assert forall i :: 0 < i < |weights| ==> weights[i] == weights[1..][i - 1];
    }
  }

  function WeightTable(weights: WeightFile): string -> Weight {
    var unmeasured := UnmeasuredWeight(weights);
    name => WeightOf(name, weights, unmeasured)
  }

  /** Every measured test weighs what the file says, every other what a typical one does. */
  ghost predicate Follows(weight: string -> Weight, weights: seq<(string, Weight)>) {
    && (forall i :: 0 <= i < |weights| ==> weight(weights[i].0) == weights[i].1)
    && (forall name :: (forall i :: 0 <= i < |weights| ==> weights[i].0 != name) ==> IsTypical(weights, weight(name)))
  }

  lemma WeightTableFollows(weights: WeightFile)
    ensures Follows(WeightTable(weights), weights)
  {
    var unmeasured := UnmeasuredWeight(weights);
    forall i | 0 <= i < |weights| ensures WeightTable(weights)(weights[i].0) == weights[i].1 {
      WeightOfExact(weights[i].0, weights, unmeasured);
    }
    forall name | forall i :: 0 <= i < |weights| ==> weights[i].0 != name
      ensures IsTypical(weights, WeightTable(weights)(name))
    {
      WeightOfExact(name, weights, unmeasured);
    }
  }

  // ----- what a shard costs

  /** A name's seconds when it runs in `lane`, and nothing otherwise. */
  ghost function InLane(weight: string -> Weight, lane: bool): string -> real {
    name => if weight(name).parallel == lane then weight(name).seconds else 0.0
  }

  ghost function LaneSeconds(shard: seq<string>, weight: string -> Weight, lane: bool): real {
    Sum(shard, InLane(weight, lane))
  }

  ghost function InLaneAndShard(weight: string -> Weight, lane: bool, plan: map<string, int>,
                                shard: int): string -> real
  {
    name => if weight(name).parallel == lane && name in plan && plan[name] == shard then weight(name).seconds else 0.0
  }

  /** What `plan`, any other way to share out the names, puts on one shard. */
  ghost function PlanSeconds(names: seq<string>, weight: string -> Weight, lane: bool, plan: map<string, int>,
                             shard: int): real
  {
    Sum(names, InLaneAndShard(weight, lane, plan, shard))
  }

  ghost predicate IsPlan(plan: map<string, int>, names: seq<string>, total: nat) {
    forall name :: name in names ==> name in plan && 0 <= plan[name] < total
  }

  ghost predicate PlanWithin(names: seq<string>, weight: string -> Weight, lane: bool, plan: map<string, int>,
                             total: nat, limit: real)
  {
    forall shard :: 0 <= shard < total ==> PlanSeconds(names, weight, lane, plan, shard) <= limit
  }

  /** Within Graham's ratio of `plan`, if no shard of the plan exceeds `limit`. */
  ghost predicate NearPlan(shard: seq<string>, names: seq<string>, weight: string -> Weight, lane: bool,
                           plan: map<string, int>, total: nat, limit: real)
    requires total >= 1
  {
    IsPlan(plan, names, total) && PlanWithin(names, weight, lane, plan, total, limit) ==>
      LaneSeconds(shard, weight, lane) <= LS.GrahamRatio(total) * limit
  }

  /** No plan makes a lane's heaviest shard lighter by more than Graham's ratio. */
  ghost predicate NearOptimal(shards: seq<seq<string>>, names: seq<string>, weight: string -> Weight) {
    |shards| >= 1 &&
    forall lane: bool, plan: map<string, int>, limit: real, i: int :: 0 <= i < |shards| ==>
      NearPlan(shards[i], names, weight, lane, plan, |shards|, limit)
  }

  // ----- names and lanes

  function Distinct(s: seq<string>): (r: seq<string>)
    ensures forall x :: x in r <==> x in s
  {
    if s == [] then []
    else
      var rest := Distinct(s[1..]);
      if s[0] in rest then rest
      else
        [s[0]] + rest
  }

  lemma {:induction false} DistinctCount(s: seq<string>, x: string)
    ensures Count(Distinct(s), x) == if x in s then 1 else 0
  {
    CountMembership(Distinct(s), x);
    if s != [] {
      DistinctCount(s[1..], x);
      CountHead(Distinct(s), x);
      if s[0] !in Distinct(s[1..]) {
        assert Distinct(s)[1..] == Distinct(s[1..]);
      }
    }
  }

  predicate HasDuplicates(s: seq<string>) { |Distinct(s)| != |s| }

  function Lane(names: seq<string>, weight: string -> Weight, lane: bool): (r: seq<string>)
    ensures forall name :: name in r ==> weight(name).parallel == lane
    ensures forall name :: name in r ==> name in names
  {
    if names == [] then []
    else
      var init, last := names[..|names| - 1], names[|names| - 1];
      Lane(init, weight, lane) + (if weight(last).parallel == lane then [last] else [])
  }

  lemma {:induction false} LanesSplit(names: seq<string>, weight: string -> Weight, x: string)
    ensures Count(names, x) == Count(Lane(names, weight, false), x) + Count(Lane(names, weight, true), x)
  {
    if names != [] {
      var init, last := names[..|names| - 1], names[|names| - 1];
      LanesSplit(init, weight, x);
      CountConcat(Lane(init, weight, weight(last).parallel), [last], x);
      assert [last][..0] == [];
      assert Lane(init, weight, !weight(last).parallel) + [] == Lane(init, weight, !weight(last).parallel);
    }
  }

  /** Outside its own lane a plan costs nothing. */
  lemma {:induction false} PlanSecondsInLane(names: seq<string>, weight: string -> Weight, lane: bool,
                                             plan: map<string, int>, shard: int)
    ensures PlanSeconds(names, weight, lane, plan, shard)
      == PlanSeconds(Lane(names, weight, lane), weight, lane, plan, shard)
  {
    if names != [] {
      var init, last := names[..|names| - 1], names[|names| - 1];
      var f := InLaneAndShard(weight, lane, plan, shard);
      PlanSecondsInLane(init, weight, lane, plan, shard);
      SumConcat(Lane(init, weight, lane), if weight(last).parallel == lane then [last] else [], f);
      assert Sum([last], f) == f(last);
    }
  }

  /** Longest first; ties by digest, then by the order they came in. */
  function LongestFirst(weight: string -> Weight, digest: string -> int): (string, string) -> bool {
    (a: string, b: string) =>
      weight(a).seconds > weight(b).seconds
      || (weight(a).seconds == weight(b).seconds && digest(a) <= digest(b))
  }

  ghost function SecondsOf(order: seq<string>, weight: string -> Weight): (w: seq<real>)
    ensures |w| == |order| && LS.NonNegative(w)
    ensures forall k :: 0 <= k < |w| ==> w[k] == weight(order[k]).seconds
  {
    seq(|order|, k requires 0 <= k < |order| => weight(order[k]).seconds)
  }

  // ----- placing one lane

  /** The names that assignment `a` sends to shard `i`, in placement order. */
  ghost function Picked(order: seq<string>, a: seq<int>, i: int): (r: seq<string>)
    requires |order| == |a|
    ensures forall name :: name in r ==> name in order
  {
    if a == [] then []
    else
      var n := |a| - 1;
      Picked(order[..n], a[..n], i) + (if a[n] == i then [order[n]] else [])
  }

  lemma {:induction false} PickedSeconds(order: seq<string>, a: seq<int>, weight: string -> Weight, lane: bool, i: int)
    requires |order| == |a| && forall name :: name in order ==> weight(name).parallel == lane
    ensures LaneSeconds(Picked(order, a, i), weight, lane) == LS.Load(a, SecondsOf(order, weight), i)
  {
    if a != [] {
      var n := |a| - 1;
      var f := InLane(weight, lane);
      PickedSeconds(order[..n], a[..n], weight, lane, i);
      assert SecondsOf(order, weight)[..n] == SecondsOf(order[..n], weight);
      SumConcat(Picked(order[..n], a[..n], i), if a[n] == i then [order[n]] else [], f);
      assert order[n] in order;
      assert Sum([order[n]], f) == f(order[n]);
    }
  }

  ghost function Follow(order: seq<string>, plan: map<string, int>): (b: seq<int>)
    requires forall name :: name in order ==> name in plan
    ensures |b| == |order| && forall k :: 0 <= k < |b| ==> b[k] == plan[order[k]]
  {
    seq(|order|, k requires 0 <= k < |order| => assert order[k] in order; plan[order[k]])
  }

  lemma {:induction false} FollowSeconds(order: seq<string>, plan: map<string, int>, weight: string -> Weight,
                                         lane: bool, i: int)
    requires forall name :: name in order ==> name in plan && weight(name).parallel == lane
    ensures LS.Load(Follow(order, plan), SecondsOf(order, weight), i) == PlanSeconds(order, weight, lane, plan, i)
  {
    if order != [] {
      var n := |order| - 1;
      FollowSeconds(order[..n], plan, weight, lane, i);
      assert SecondsOf(order, weight)[..n] == SecondsOf(order[..n], weight);
      assert Follow(order, plan)[..n] == Follow(order[..n], plan);
      assert order[n] in order;
    }
  }

  /** One lane's greedy placement is within Graham's ratio of every plan. */
  lemma LaneNearOptimal(names: seq<string>, order: seq<string>, a: seq<int>, weight: string -> Weight, lane: bool,
                        plan: map<string, int>, total: nat, limit: real, i: int)
    requires total >= 1 && 0 <= i < total && |a| == |order|
    requires Permutation(order, Lane(names, weight, lane))
    requires LS.OnMachines(a, total) && LS.Greedy(a, SecondsOf(order, weight), total)
    requires LS.Descending(SecondsOf(order, weight))
    requires IsPlan(plan, names, total) && PlanWithin(names, weight, lane, plan, total, limit)
    ensures LaneSeconds(Picked(order, a, i), weight, lane) <= LS.GrahamRatio(total) * limit
  {
    var laneNames := Lane(names, weight, lane);
    forall name | name in order ensures name in names && weight(name).parallel == lane {
      PermutationMembership(order, laneNames, name);
    }
    var w, b := SecondsOf(order, weight), Follow(order, plan);
    forall k | 0 <= k < |b| ensures 0 <= b[k] < total {
      assert order[k] in order;
    }
    forall j | 0 <= j < total ensures LS.Load(b, w, j) <= limit {
      FollowSeconds(order, plan, weight, lane, j);
      SumPermutation(order, laneNames, InLaneAndShard(weight, lane, plan, j));
      PlanSecondsInLane(names, weight, lane, plan, j);
      assert PlanSeconds(names, weight, lane, plan, j) <= limit;
    }
    PickedSeconds(order, a, weight, lane, i);
    LS.GrahamBound(a, b, w, total, limit, i);
  }

  function Flatten(shards: seq<seq<string>>): seq<string> {
    if shards == [] then [] else Flatten(shards[..|shards| - 1]) + shards[|shards| - 1]
  }

  lemma {:induction false} FlattenAppend(shards: seq<seq<string>>, t: nat, name: string, x: string)
    requires t < |shards|
    ensures Count(Flatten(shards[t := shards[t] + [name]]), x)
      == Count(Flatten(shards), x) + (if x == name then 1 else 0)
  {
    var n := |shards| - 1;
    var next := shards[t := shards[t] + [name]];
    CountConcat(Flatten(shards[..n]), shards[n], x);
    CountConcat(Flatten(next[..n]), next[n], x);
    if t == n {
      assert next[..n] == shards[..n];
      assert next[n][..|shards[n]|] == shards[n];
    } else {
      assert next[..n] == shards[..n][t := shards[t] + [name]];
      FlattenAppend(shards[..n], t, name, x);
    }
  }

  /** As long as some shard is empty, none holds two names. */
  ghost predicate EmptyFirst(shards: seq<seq<string>>) {
    (exists i :: 0 <= i < |shards| && shards[i] == []) ==> forall j :: 0 <= j < |shards| ==> |shards[j]| <= 1
  }

  lemma {:induction false} ShortShardsHoldFew(shards: seq<seq<string>>)
    requires forall j :: 0 <= j < |shards| ==> |shards[j]| <= 1
    ensures |Flatten(shards)| <= |shards|
    ensures (exists i :: 0 <= i < |shards| && shards[i] == []) ==> |Flatten(shards)| < |shards|
  {
    if shards != [] {
      ShortShardsHoldFew(shards[..|shards| - 1]);
    }
  }

  /** The shard with the smallest (load, length, index). */
  method LightestShard(load: seq<real>, shards: seq<seq<string>>) returns (target: nat)
    requires |load| == |shards| >= 1
    ensures target < |shards|
    ensures forall i :: 0 <= i < |shards| ==>
      load[target] < load[i]
      || (load[target] == load[i]
          && (|shards[target]| < |shards[i]| || (|shards[target]| == |shards[i]| && target <= i)))
  {
    target := 0;
    for k := 1 to |load|
      invariant target < k
      invariant forall i :: 0 <= i < k ==>
        load[target] < load[i]
        || (load[target] == load[i]
            && (|shards[target]| < |shards[i]| || (|shards[target]| == |shards[i]| && target <= i)))
    {
      if load[k] < load[target] || (load[k] == load[target] && |shards[k]| < |shards[target]|) {
        target := k;
      }
    }
  }

  /** Placing one more job where the load is least keeps the placement greedy. */
  lemma GreedyExtends(a: seq<int>, w: seq<real>, total: nat, target: int)
    requires |w| == |a| + 1
    requires LS.Greedy(a, w[..|a|], total) && LS.LeastLoaded(a, w[..|a|], total, target)
    ensures LS.Greedy(a + [target], w, total)
    ensures forall i :: LS.Load(a + [target], w, i) == LS.Load(a, w[..|a|], i) + (if i == target then w[|a|] else 0.0)
  {
    var k := |a|;
    var a' := a + [target];
    assert a'[..k] == a;
    forall j | 0 <= j < |a'| ensures LS.LeastLoaded(a'[..j], w[..j], total, a'[j]) {
      if j < k {
        assert a'[..j] == a[..j] && w[..j] == w[..k][..j];
        assert LS.LeastLoaded(a[..j], w[..k][..j], total, a[j]);
      }
    }
  }

  ghost predicate GreedyPlacement(order: seq<string>, weight: string -> Weight, total: nat, a: seq<int>) {
    |a| == |order| && LS.OnMachines(a, total) && LS.Greedy(a, SecondsOf(order, weight), total)
  }

  ghost predicate Distributed(order: seq<string>, start: seq<seq<string>>, shards: seq<seq<string>>, a: seq<int>) {
    && |shards| == |start| && |a| == |order|
    && forall i :: 0 <= i < |start| ==> shards[i] == start[i] + Picked(order, a, i)
  }

  ghost predicate Conserved(order: seq<string>, start: seq<seq<string>>, shards: seq<seq<string>>) {
    forall x :: Count(Flatten(shards), x) == Count(Flatten(start), x) + Count(order, x)
  }

  /** The running loads are the loads of the assignment; empty shards carry none. */
  ghost predicate LoadsMatch(load: seq<real>, shards: seq<seq<string>>, a: seq<int>, w: seq<real>) {
    && |load| == |shards| && |a| == |w|
    && (forall i :: 0 <= i < |load| ==> load[i] == LS.Load(a, w, i))
    && (forall i :: 0 <= i < |load| ==> load[i] >= 0.0 && (shards[i] == [] ==> load[i] == 0.0))
  }

  lemma GreedyPlacementExtends(order: seq<string>, weight: string -> Weight, total: nat, a: seq<int>, name: string,
                               target: nat)
    requires GreedyPlacement(order, weight, total, a) && target < total
    requires LS.LeastLoaded(a, SecondsOf(order, weight), total, target)
    ensures GreedyPlacement(order + [name], weight, total, a + [target])
  {
    var w := SecondsOf(order + [name], weight);
    assert w[..|order|] == SecondsOf(order, weight);
    GreedyExtends(a, w, total, target);
  }

  lemma LoadsMatchExtends(load: seq<real>, shards: seq<seq<string>>, a: seq<int>, order: seq<string>,
                          weight: string -> Weight, name: string, target: nat)
    requires |a| == |order| && LoadsMatch(load, shards, a, SecondsOf(order, weight)) && target < |shards|
    ensures LoadsMatch(load[target := load[target] + weight(name).seconds], shards[target := shards[target] + [name]],
                       a + [target], SecondsOf(order + [name], weight))
  {
    var w, a' := SecondsOf(order + [name], weight), a + [target];
    assert w[..|order|] == SecondsOf(order, weight) && a'[..|a|] == a;
  }

  lemma ConservedExtends(order: seq<string>, start: seq<seq<string>>, shards: seq<seq<string>>, name: string,
                         target: nat)
    requires Conserved(order, start, shards) && target < |shards|
    ensures Conserved(order + [name], start, shards[target := shards[target] + [name]])
  {
    forall x
      ensures Count(Flatten(shards[target := shards[target] + [name]]), x)
        == Count(Flatten(start), x) + Count(order + [name], x)
    {
      FlattenAppend(shards, target, name, x);
      assert (order + [name])[..|order|] == order;
    }
  }

  /** What one lane's placement has achieved after the tests of `order`. */
  ghost predicate Placed(order: seq<string>, start: seq<seq<string>>, weight: string -> Weight,
                         shards: seq<seq<string>>, a: seq<int>)
  {
    && GreedyPlacement(order, weight, |start|, a) && Distributed(order, start, shards, a)
    && Conserved(order, start, shards) && EmptyFirst(shards)
  }

  lemma PlacedExtends(order: seq<string>, start: seq<seq<string>>, weight: string -> Weight,
                      shards: seq<seq<string>>, a: seq<int>, load: seq<real>, name: string, target: nat)
    requires Placed(order, start, weight, shards, a) && LoadsMatch(load, shards, a, SecondsOf(order, weight))
    requires target < |shards|
    requires forall i :: 0 <= i < |shards| ==>
      load[target] < load[i] || (load[target] == load[i] && |shards[target]| <= |shards[i]|)
    ensures Placed(order + [name], start, weight, shards[target := shards[target] + [name]], a + [target])
    ensures LoadsMatch(load[target := load[target] + weight(name).seconds], shards[target := shards[target] + [name]],
                       a + [target], SecondsOf(order + [name], weight))
  {
    GreedyPlacementExtends(order, weight, |start|, a, name, target);
    LoadsMatchExtends(load, shards, a, order, weight, name, target);
    ConservedExtends(order, start, shards, name, target);
  }

  /** Places one lane's tests, longest first, on top of what the shards already hold. */
  method PlaceLane(order: seq<string>, start: seq<seq<string>>, weight: string -> Weight)
    returns (shards: seq<seq<string>>, ghost a: seq<int>)
    requires |start| >= 1 && EmptyFirst(start)
    ensures Placed(order, start, weight, shards, a)
    ensures |shards| == |start| && Conserved(order, start, shards) && EmptyFirst(shards)
  {
    var load: seq<real> := seq(|start|, _ => 0.0);
    shards, a := start, [];
    assert order[..0] == [];
    for k := 0 to |order|
      invariant Placed(order[..k], start, weight, shards, a)
      invariant LoadsMatch(load, shards, a, SecondsOf(order[..k], weight))
    {
      var target := LightestShard(load, shards);
      PlacedExtends(order[..k], start, weight, shards, a, load, order[k], target);
      assert order[..k] + [order[k]] == order[..k + 1];
      shards := shards[target := shards[target] + [order[k]]];
      load := load[target := load[target] + weight(order[k]).seconds];
      a := a + [target];
    }
    assert order[..|order|] == order;
  }

  // ----- the whole partition

  const KINDS := ["Test", "Example", "Fuzz"]

  predicate GoodKinds(kinds: seq<string>) { kinds != [] && forall kind :: kind in kinds ==> kind in KINDS }

  /** The name of a test of one of these kinds: the kind, then word characters. */
  ghost predicate IsTest(name: string, kinds: seq<string>, isWord: char -> bool) {
    exists k :: 0 <= k < |kinds| && kinds[k] <= name && forall i :: |kinds[k]| <= i < |name| ==> isWord(name[i])
  }

  predicate AllWord(s: string, isWord: char -> bool) {
    s == "" || (isWord(s[0]) && AllWord(s[1..], isWord))
  }

  lemma {:induction false} AllWordExact(s: string, isWord: char -> bool)
    ensures AllWord(s, isWord) <==> forall i :: 0 <= i < |s| ==> isWord(s[i])
  {
    if s != "" {
      AllWordExact(s[1..], isWord);
      assert forall i :: 0 < i < |s| ==> s[i] == s[1..][i - 1];
    }
  }

  /** Tries the kinds in turn. */
  function FullMatch(name: string, kinds: seq<string>, isWord: char -> bool): (matches: bool)
    ensures matches <==> IsTest(name, kinds, isWord)
  {
    if kinds == [] then false
    else
      var first := kinds[0] <= name && AllWord(name[|kinds[0]|..], isWord);
      assert first <==> kinds[0] <= name && forall i :: |kinds[0]| <= i < |name| ==> isWord(name[i]) by {
        if kinds[0] <= name {
          var rest := name[|kinds[0]|..];
          AllWordExact(rest, isWord);
          assert forall i :: |kinds[0]| <= i < |name| ==> name[i] == rest[i - |kinds[0]|];
          assert forall i :: 0 <= i < |rest| ==> rest[i] == name[i + |kinds[0]|];
        }
      }
      assert forall k :: 0 < k < |kinds| ==> kinds[k] == kinds[1..][k - 1];
      first || FullMatch(name, kinds[1..], isWord)
  }

  /** The tests among the listed lines. */
  function Listed(lines: seq<string>, kinds: seq<string>, isWord: char -> bool): (r: seq<string>)
    ensures forall name :: name in r <==>
      && IsTest(name, kinds, isWord)
      && exists i :: 0 <= i < |lines| && Strip(lines[i]) == name
  {
    if lines == [] then []
    else
      var rest, name := Listed(lines[1..], kinds, isWord), Strip(lines[0]);
      assert forall i :: 0 < i < |lines| ==> lines[i] == lines[1..][i - 1];
      assert forall i :: 0 <= i < |lines[1..]| ==> lines[1..][i] == lines[i + 1];
      if FullMatch(name, kinds, isWord) then [name] + rest else rest
  }

  /** Names a selection cannot hold. */
  ghost predicate Unreadable(selection: Option<seq<string>>, kinds: seq<string>, isWord: char -> bool) {
    selection.Some? && exists name :: name in selection.value && !IsTest(name, kinds, isWord)
  }

  ghost predicate BadSelection(inventory: seq<string>, selection: Option<seq<string>>) {
    && selection.Some?
    && (selection.value == []
        || (exists i, j :: 0 <= i < j < |selection.value| && selection.value[i] == selection.value[j])
        || exists name :: name in selection.value && name !in inventory)
  }

  /** The tests to run: the selection if there is one, else the whole inventory. */
  function Names(inventory: seq<string>, selection: Option<seq<string>>): seq<string> {
    SortBy(if selection.Some? then selection.value else Distinct(inventory), StringLe)
  }

  lemma {:induction false} NoDuplicatesDistinct(s: seq<string>)
    ensures |Distinct(s)| <= |s|
    ensures !HasDuplicates(s) ==> Distinct(s) == s
  {
    if s != [] {
      NoDuplicatesDistinct(s[1..]);
      assert s == [s[0]] + s[1..];
    }
  }

  lemma {:induction false} DuplicatesExact(s: seq<string>)
    ensures HasDuplicates(s) <==> exists i, j :: 0 <= i < j < |s| && s[i] == s[j]
  {
    NoDuplicatesDistinct(s);
    if s != [] {
      DuplicatesExact(s[1..]);
      NoDuplicatesDistinct(s[1..]);
      assert forall i :: 0 < i < |s| ==> s[i] == s[1..][i - 1];
      assert s[0] in s[1..] <==> exists j :: 0 < j < |s| && s[0] == s[j];
    }
  }

  /** A sound selection, or the inventory without one, names every test once. */
  lemma NamesExact(inventory: seq<string>, selection: Option<seq<string>>, name: string)
    requires !BadSelection(inventory, selection)
    ensures Count(Names(inventory, selection), name)
         == if name in (if selection.Some? then selection.value else inventory) then 1 else 0
  {
    if selection.Some? {
      NoDuplicatesDistinct(selection.value);
      DuplicatesExact(selection.value);
      SortByCount(selection.value, StringLe, name);
      DistinctCount(selection.value, name);
    } else {
      SortByCount(Distinct(inventory), StringLe, name);
      DistinctCount(inventory, name);
    }
  }

  ghost predicate ExactShards(shards: seq<seq<string>>, names: seq<string>, total: int) {
    && |shards| == total
    && (forall i :: 0 <= i < total ==> shards[i] != [] && SortedBy(shards[i], StringLe))
    && Permutation(Flatten(shards), names)
  }

  function SortEach(shards: seq<seq<string>>): (r: seq<seq<string>>)
    ensures |r| == |shards| && forall i :: 0 <= i < |r| ==> r[i] == SortBy(shards[i], StringLe)
  {
    if shards == [] then []
    else SortEach(shards[..|shards| - 1]) + [SortBy(shards[|shards| - 1], StringLe)]
  }

  lemma {:induction false} SortEachCount(shards: seq<seq<string>>, x: string)
    ensures Count(Flatten(SortEach(shards)), x) == Count(Flatten(shards), x)
  {
    if shards != [] {
      var n := |shards| - 1;
      var r := SortEach(shards);
      SortEachCount(shards[..n], x);
      assert r[..n] == SortEach(shards[..n]);
      CountConcat(Flatten(r[..n]), r[n], x);
      CountConcat(Flatten(shards[..n]), shards[n], x);
      SortByCount(shards[n], StringLe, x);
    }
  }

  lemma LongestFirstDescends(lane: seq<string>, weight: string -> Weight, digest: string -> int)
    ensures var order := SortBy(lane, LongestFirst(weight, digest));
      && LS.Descending(SecondsOf(order, weight))
      && forall i, j :: 0 <= i < j < |order| && weight(order[i]).seconds == weight(order[j]).seconds ==>
           digest(order[i]) <= digest(order[j])
  {
    SortBySorted(lane, LongestFirst(weight, digest));
  }

  /** A shard's cost in one lane comes only from the names placed for that lane. */
  lemma ShardLaneSeconds(shard: seq<string>, serial: seq<string>, parallel: seq<string>, weight: string -> Weight,
                         lane: bool)
    requires shard == serial + parallel
    requires forall name :: name in serial ==> !weight(name).parallel
    requires forall name :: name in parallel ==> weight(name).parallel
    ensures LaneSeconds(SortBy(shard, StringLe), weight, lane)
      == LaneSeconds(if lane then parallel else serial, weight, lane)
  {
    var f := InLane(weight, lane);
    SortByPermutes(shard, StringLe);
    SumPermutation(SortBy(shard, StringLe), shard, f);
    SumConcat(serial, parallel, f);
    SumOfZeros(if lane then serial else parallel, f);
  }

  lemma NoShardIsEmpty(shards: seq<seq<string>>, names: seq<string>)
    requires EmptyFirst(shards) && Permutation(Flatten(shards), names) && |names| >= |shards|
    ensures forall i :: 0 <= i < |shards| ==> shards[i] != []
  {
    SumPermutation(Flatten(shards), names, _ => 0.0);
    if exists i :: 0 <= i < |shards| && shards[i] == [] {
      ShortShardsHoldFew(shards);
    }
  }

  /** Both lanes, placed one after the other, leave every shard near optimal. */
  lemma PlacedLaneNearOptimal(names: seq<string>, weight: string -> Weight, shard: seq<string>, total: nat,
                              serial: seq<string>, s: seq<int>, parallel: seq<string>, p: seq<int>,
                              lane: bool, plan: map<string, int>, limit: real, i: nat)
    requires total >= 1 && i < total
    requires GreedyPlacement(serial, weight, total, s) && GreedyPlacement(parallel, weight, total, p)
    requires shard == Picked(serial, s, i) + Picked(parallel, p, i)
    requires Permutation(serial, Lane(names, weight, false)) && Permutation(parallel, Lane(names, weight, true))
    requires LS.Descending(SecondsOf(serial, weight)) && LS.Descending(SecondsOf(parallel, weight))
    ensures NearPlan(SortBy(shard, StringLe), names, weight, lane, plan, total, limit)
  {
    LaneMembers(names, serial, weight, false);
    LaneMembers(names, parallel, weight, true);
    if IsPlan(plan, names, total) && PlanWithin(names, weight, lane, plan, total, limit) {
      if lane {
        LaneNearOptimal(names, parallel, p, weight, lane, plan, total, limit, i);
      } else {
        LaneNearOptimal(names, serial, s, weight, lane, plan, total, limit, i);
      }
    }
    ShardLaneSeconds(shard, Picked(serial, s, i), Picked(parallel, p, i), weight, lane);
  }

  lemma PlacedLanesNearOptimal(names: seq<string>, weight: string -> Weight, shards: seq<seq<string>>,
                               serial: seq<string>, s: seq<int>, parallel: seq<string>, p: seq<int>)
    requires |shards| >= 1 && |s| == |serial| && |p| == |parallel|
    requires GreedyPlacement(serial, weight, |shards|, s) && GreedyPlacement(parallel, weight, |shards|, p)
    requires forall i :: 0 <= i < |shards| ==>
      shards[i] == SortBy(Picked(serial, s, i) + Picked(parallel, p, i), StringLe)
    requires Permutation(serial, Lane(names, weight, false)) && Permutation(parallel, Lane(names, weight, true))
    requires LS.Descending(SecondsOf(serial, weight)) && LS.Descending(SecondsOf(parallel, weight))
    ensures NearOptimal(shards, names, weight)
  {
    forall lane: bool, plan: map<string, int>, limit: real, i: int | 0 <= i < |shards|
      ensures NearPlan(shards[i], names, weight, lane, plan, |shards|, limit)
    {
      PlacedLaneNearOptimal(names, weight, Picked(serial, s, i) + Picked(parallel, p, i), |shards|,
                            serial, s, parallel, p, lane, plan, limit, i);
    }
  }

  lemma LaneMembers(names: seq<string>, order: seq<string>, weight: string -> Weight, lane: bool)
    requires Permutation(order, Lane(names, weight, lane))
    ensures forall name :: name in order ==> weight(name).parallel == lane
  {
    forall name | name in order ensures weight(name).parallel == lane {
      PermutationMembership(order, Lane(names, weight, lane), name);
    }
  }

  /** Schedules both lanes over `total` shards. */
  method PlaceBothLanes(names: seq<string>, total: nat, weight: string -> Weight, digest: string -> int)
    returns (shards: seq<seq<string>>)
    requires 1 <= total <= |names|
    ensures ExactShards(shards, names, total) && NearOptimal(shards, names, weight)
  {
    var empty: seq<seq<string>> := seq(total, _ => []);
    FlattenOfEmpty(empty);
    var serial := SortBy(Lane(names, weight, false), LongestFirst(weight, digest));
    var half, s := PlaceLane(serial, empty, weight);
    var parallel := SortBy(Lane(names, weight, true), LongestFirst(weight, digest));
    var full, p := PlaceLane(parallel, half, weight);
    shards := SortEach(full);
    SortByPermutes(Lane(names, weight, false), LongestFirst(weight, digest));
    SortByPermutes(Lane(names, weight, true), LongestFirst(weight, digest));
    LongestFirstDescends(Lane(names, weight, false), weight, digest);
    LongestFirstDescends(Lane(names, weight, true), weight, digest);
    BothLanesExact(names, weight, empty, serial, half, s, parallel, full, p);
    BothLanesNearOptimal(names, weight, empty, serial, half, s, parallel, full, p);
  }

  /** The two lanes, one placed on top of the other. */
  ghost predicate BothPlaced(names: seq<string>, weight: string -> Weight, empty: seq<seq<string>>,
                             serial: seq<string>, half: seq<seq<string>>, s: seq<int>,
                             parallel: seq<string>, full: seq<seq<string>>, p: seq<int>)
  {
    && (forall i :: 0 <= i < |empty| ==> empty[i] == [])
    && Placed(serial, empty, weight, half, s) && Placed(parallel, half, weight, full, p)
    && Permutation(serial, Lane(names, weight, false)) && Permutation(parallel, Lane(names, weight, true))
  }

  lemma BothLanesExact(names: seq<string>, weight: string -> Weight, empty: seq<seq<string>>, serial: seq<string>,
                       half: seq<seq<string>>, s: seq<int>, parallel: seq<string>, full: seq<seq<string>>, p: seq<int>)
    requires BothPlaced(names, weight, empty, serial, half, s, parallel, full, p) && 1 <= |empty| <= |names|
    ensures ExactShards(SortEach(full), names, |empty|)
  {
    FlattenOfEmpty(empty);
    forall x
      ensures Count(Flatten(full), x) == Count(names, x) && Count(Flatten(SortEach(full)), x) == Count(names, x)
    {
      LanesSplit(names, weight, x);
      SortEachCount(full, x);
    }
    NoShardIsEmpty(full, names);
    SortedShards(full);
  }

  lemma BothLanesNearOptimal(names: seq<string>, weight: string -> Weight, empty: seq<seq<string>>,
                             serial: seq<string>, half: seq<seq<string>>, s: seq<int>,
                             parallel: seq<string>, full: seq<seq<string>>, p: seq<int>)
    requires BothPlaced(names, weight, empty, serial, half, s, parallel, full, p) && |empty| >= 1
    requires LS.Descending(SecondsOf(serial, weight)) && LS.Descending(SecondsOf(parallel, weight))
    ensures NearOptimal(SortEach(full), names, weight)
  {
    assert forall i :: 0 <= i < |empty| ==> full[i] == Picked(serial, s, i) + Picked(parallel, p, i);
    PlacedLanesNearOptimal(names, weight, SortEach(full), serial, s, parallel, p);
  }

  lemma SortedShards(shards: seq<seq<string>>)
    ensures forall i :: 0 <= i < |shards| ==>
      SortedBy(SortEach(shards)[i], StringLe) && |SortEach(shards)[i]| == |shards[i]|
  {
    StringLeIsLinear();
    forall i | 0 <= i < |shards|
      ensures SortedBy(SortEach(shards)[i], StringLe) && |SortEach(shards)[i]| == |shards[i]|
    {
      SortBySorted(shards[i], StringLe);
      SortByLength(shards[i], StringLe);
    }
  }

  /**
    The partition succeeds exactly when there are at least as many tests as
    shards and the kinds and the selection are sound. Then every shard is
    non-empty, the shards hold every wanted test exactly once, and each lane is
    near optimal under the weights of the file; the closing coverage check
    never fails.
   */
  method Partition(lines: seq<string>, total: int, weights: WeightFile, selection: Option<seq<string>>,
                   kinds: seq<string>, isWord: char -> bool, digest: string -> int)
    returns (r: Result<seq<seq<string>>, string>)
    ensures var inventory := Listed(lines, kinds, isWord);
      r.Ok? <==>
        && total >= 1 && kinds != [] && (forall kind :: kind in kinds ==> kind in ["Test", "Example", "Fuzz"])
        && !Unreadable(selection, kinds, isWord) && !BadSelection(inventory, selection)
        && |Names(inventory, selection)| >= total
    ensures r.Ok? ==> ExactShards(r.value, Names(Listed(lines, kinds, isWord), selection), total)
    ensures r.Ok? ==> forall name ::
      Count(Flatten(r.value), name) == if IsWanted(name, lines, selection, kinds, isWord) then 1 else 0
    ensures r.Ok? ==> exists weight ::
      Follows(weight, weights) && NearOptimal(r.value, Names(Listed(lines, kinds, isWord), selection), weight)
  {
    if total < 1 {
      return Err("shard total must be positive");
    }
    if !GoodKinds(kinds) {
      return Err("unsupported test kinds");
    }
    var inventory := Listed(lines, kinds, isWord);
    if selection.Some? {
      if selection.value == [] || exists name :: name in selection.value && !FullMatch(name, kinds, isWord) {
        return Err("selection must contain one test name per line");
      }
      DuplicatesExact(selection.value);
      if HasDuplicates(selection.value) {
        return Err("selection contains duplicate test names");
      }
      if exists name :: name in selection.value && name !in inventory {
        return Err("selected tests missing from compiled inventory");
      }
    }
    var names := Names(inventory, selection);
    if |names| < total {
      return Err("test inventory has fewer tests than shards");
    }
    var shards := PlaceBothLanes(names, total, WeightTable(weights), digest);
    CoverageHolds(Flatten(shards), inventory, selection);
    if SortBy(Flatten(shards), StringLe) != names {
      return Err("shards do not cover the test inventory exactly once");
    }
    WeightTableFollows(weights);
    forall name
      ensures Count(Flatten(shards), name) == if IsWanted(name, lines, selection, kinds, isWord) then 1 else 0
    {
      NamesExact(inventory, selection, name);
    }
    r := Ok(shards);
  }

  /** A test to run: one of the selection, or without a selection one that the lines list. */
  ghost predicate IsWanted(name: string, lines: seq<string>, selection: Option<seq<string>>, kinds: seq<string>,
                           isWord: char -> bool)
  {
    if selection.Some? then name in selection.value
    else IsTest(name, kinds, isWord) && exists i :: 0 <= i < |lines| && Strip(lines[i]) == name
  }

  lemma {:induction false} FlattenOfEmpty(shards: seq<seq<string>>)
    requires forall i :: 0 <= i < |shards| ==> shards[i] == []
    ensures Flatten(shards) == []
  {
    if shards != [] {
      FlattenOfEmpty(shards[..|shards| - 1]);
    }
  }

  lemma CoverageHolds(flat: seq<string>, inventory: seq<string>, selection: Option<seq<string>>)
    requires Permutation(flat, Names(inventory, selection))
    ensures SortBy(flat, StringLe) == Names(inventory, selection)
  {
    StringLeIsLinear();
    SortBySorted(flat, StringLe);
    SortByPermutes(flat, StringLe);
    SortBySorted(if selection.Some? then selection.value else Distinct(inventory), StringLe);
    SortedUnique(SortBy(flat, StringLe), Names(inventory, selection), StringLe);
  }
}
