/** Stable insertion sort, sums over sequences, and the order on strings. */
module Sorting {

  ghost predicate TotalPreorder<T(!new)>(le: (T, T) -> bool) {
    && (forall x, y :: le(x, y) || le(y, x))
    && (forall x, y, z :: le(x, y) && le(y, z) ==> le(x, z))
  }

  ghost predicate SortedBy<T>(s: seq<T>, le: (T, T) -> bool) {
    forall i, j :: 0 <= i < j < |s| ==> le(s[i], s[j])
  }

  /** How often `x` occurs in `s`. */
  ghost function Count<T>(s: seq<T>, x: T): nat {
    if s == [] then 0 else Count(s[..|s| - 1], x) + (if s[|s| - 1] == x then 1 else 0)
  }

  /** `a` and `b` hold the same elements equally often. */
  ghost predicate Permutation<T(!new)>(a: seq<T>, b: seq<T>) {
    forall x :: Count(a, x) == Count(b, x)
  }

  lemma {:induction false} CountConcat<T>(a: seq<T>, b: seq<T>, x: T)
    ensures Count(a + b, x) == Count(a, x) + Count(b, x)
  {
    if b == [] {
      assert a + b == a;
    } else {
      assert (a + b)[..|a + b| - 1] == a + b[..|b| - 1];
      CountConcat(a, b[..|b| - 1], x);
    }
  }

  lemma CountHead<T>(s: seq<T>, x: T)
    requires s != []
    ensures Count(s, x) == Count(s[1..], x) + (if s[0] == x then 1 else 0)
  {
    assert s == [s[0]] + s[1..];
    CountConcat([s[0]], s[1..], x);
    assert [s[0]][..0] == [];
  }

  lemma {:induction false} CountMembership<T>(s: seq<T>, x: T)
    ensures x in s <==> Count(s, x) > 0
  {
    if s != [] {
      CountMembership(s[..|s| - 1], x);
      assert s == s[..|s| - 1] + [s[|s| - 1]];
    }
  }

  lemma PermutationMembership<T(!new)>(a: seq<T>, b: seq<T>, x: T)
    requires Permutation(a, b)
    ensures x in a <==> x in b
  {
    CountMembership(a, x);
    CountMembership(b, x);
  }

  // ----- insertion sort

  function Insert<T>(x: T, s: seq<T>, le: (T, T) -> bool): seq<T> {
    if s == [] || le(x, s[0]) then [x] + s else [s[0]] + Insert(x, s[1..], le)
  }

  /** A stable sort: equal elements keep their order. */
  function SortBy<T>(s: seq<T>, le: (T, T) -> bool): seq<T> {
    if s == [] then [] else Insert(s[0], SortBy(s[1..], le), le)
  }

  lemma {:induction false} InsertCount<T>(x: T, s: seq<T>, le: (T, T) -> bool, y: T)
    ensures Count(Insert(x, s, le), y) == Count(s, y) + (if x == y then 1 else 0)
  {
    CountHead(Insert(x, s, le), y);
    if s != [] && !le(x, s[0]) {
      InsertCount(x, s[1..], le, y);
      CountHead(s, y);
      assert Insert(x, s, le)[1..] == Insert(x, s[1..], le);
    } else {
      assert Insert(x, s, le)[1..] == s;
    }
  }

  lemma {:induction false} SortByCount<T>(s: seq<T>, le: (T, T) -> bool, y: T)
    ensures Count(SortBy(s, le), y) == Count(s, y)
  {
    if s != [] {
      SortByCount(s[1..], le, y);
      InsertCount(s[0], SortBy(s[1..], le), le, y);
      CountHead(s, y);
    }
  }

  lemma SortByPermutes<T(!new)>(s: seq<T>, le: (T, T) -> bool)
    ensures Permutation(SortBy(s, le), s)
  {
    forall y ensures Count(SortBy(s, le), y) == Count(s, y) {
      SortByCount(s, le, y);
    }
  }

  lemma {:induction false} InsertLength<T>(x: T, s: seq<T>, le: (T, T) -> bool)
    ensures |Insert(x, s, le)| == |s| + 1
  {
    if s != [] && !le(x, s[0]) {
      InsertLength(x, s[1..], le);
    }
  }

  lemma {:induction false} SortByLength<T>(s: seq<T>, le: (T, T) -> bool)
    ensures |SortBy(s, le)| == |s|
  {
    if s != [] {
      SortByLength(s[1..], le);
      InsertLength(s[0], SortBy(s[1..], le), le);
    }
  }

  lemma {:induction false} InsertSorted<T(!new)>(x: T, s: seq<T>, le: (T, T) -> bool)
    requires TotalPreorder(le) && SortedBy(s, le)
    ensures SortedBy(Insert(x, s, le), le)
    ensures forall y :: y in Insert(x, s, le) <==> y == x || y in s
  {
    if s != [] && le(x, s[0]) {
      assert forall j :: 0 <= j < |s| ==> le(x, s[j]);
    } else if s != [] {
      InsertSorted(x, s[1..], le);
      var rest := Insert(x, s[1..], le);
      forall j | 0 <= j < |rest|
        ensures le(s[0], rest[j])
      {
        assert rest[j] in rest;
      }
    }
  }

  lemma {:induction false} SortBySorted<T(!new)>(s: seq<T>, le: (T, T) -> bool)
    requires TotalPreorder(le)
    ensures SortedBy(SortBy(s, le), le)
  {
    if s != [] {
      SortBySorted(s[1..], le);
      InsertSorted(s[0], SortBy(s[1..], le), le);
    }
  }

  /** Under a linear order two sorted arrangements of the same elements agree. */
  lemma {:induction false} SortedUnique<T(!new)>(a: seq<T>, b: seq<T>, le: (T, T) -> bool)
    requires TotalPreorder(le) && (forall x, y :: le(x, y) && le(y, x) ==> x == y)
    requires SortedBy(a, le) && SortedBy(b, le) && Permutation(a, b)
    ensures a == b
  {
    if a == [] || b == [] {
      if a != [] { CountMembership(a, a[0]); }
      if b != [] { CountMembership(b, b[0]); }
    } else {
      PermutationMembership(a, b, a[0]);
      PermutationMembership(a, b, b[0]);
      assert a[0] == b[0];
      forall x ensures Count(a[1..], x) == Count(b[1..], x) {
        CountHead(a, x);
        CountHead(b, x);
      }
      SortedUnique(a[1..], b[1..], le);
      assert a == [a[0]] + a[1..] && b == [b[0]] + b[1..];
    }
  }

  // ----- sums

  ghost function Sum<T>(s: seq<T>, f: T -> real): real {
    if s == [] then 0.0 else Sum(s[..|s| - 1], f) + f(s[|s| - 1])
  }

  lemma {:induction false} SumConcat<T>(a: seq<T>, b: seq<T>, f: T -> real)
    ensures Sum(a + b, f) == Sum(a, f) + Sum(b, f)
  {
    if b == [] {
      assert a + b == a;
    } else {
      assert (a + b)[..|a + b| - 1] == a + b[..|b| - 1];
      SumConcat(a, b[..|b| - 1], f);
    }
  }

  /** Taking one element out of the middle takes its share out of sum and counts. */
  lemma TakeOut<T>(s: seq<T>, k: nat, f: T -> real)
    requires k < |s|
    ensures Sum(s, f) == Sum(s[..k] + s[k + 1..], f) + f(s[k])
    ensures forall x :: Count(s, x) == Count(s[..k] + s[k + 1..], x) + (if x == s[k] then 1 else 0)
  {
    var before, after := s[..k], s[k + 1..];
    assert s == before + [s[k]] + after;
    SumConcat(before + [s[k]], after, f);
    SumConcat(before, [s[k]], f);
    SumConcat(before, after, f);
    forall x ensures Count(s, x) == Count(before + after, x) + (if x == s[k] then 1 else 0) {
      CountConcat(before + [s[k]], after, x);
      CountConcat(before, [s[k]], x);
      CountConcat(before, after, x);
      assert [s[k]][..0] == [];
    }
  }

  lemma {:induction false} SumPermutation<T(!new)>(a: seq<T>, b: seq<T>, f: T -> real)
    requires Permutation(a, b)
    ensures Sum(a, f) == Sum(b, f) && |a| == |b|
  {
    if a == [] {
      if b != [] { CountMembership(b, b[0]); }
    } else {
      var n := |a| - 1;
      PermutationMembership(a, b, a[n]);
      var k :| 0 <= k < |b| && b[k] == a[n];
      TakeOut(b, k, f);
      forall x ensures Count(a[..n], x) == Count(b[..k] + b[k + 1..], x) {
        assert Count(a, x) == Count(b, x);
      }
      SumPermutation(a[..n], b[..k] + b[k + 1..], f);
    }
  }

  lemma {:induction false} SumOfZeros<T>(s: seq<T>, f: T -> real)
    requires forall x :: x in s ==> f(x) == 0.0
    ensures Sum(s, f) == 0.0
  {
    if s != [] {
      SumOfZeros(s[..|s| - 1], f);
    }
  }

  // ----- strings, compared by code point

  predicate StringLe(a: string, b: string) {
    if a == [] then true
    else if b == [] then false
    else if a[0] != b[0] then a[0] < b[0]
    else StringLe(a[1..], b[1..])
  }

  lemma {:induction false} StringLeTotal(a: string, b: string)
    ensures StringLe(a, b) || StringLe(b, a)
  {
    if a != [] && b != [] {
      StringLeTotal(a[1..], b[1..]);
    }
  }

  lemma {:induction false} StringLeTransitive(a: string, b: string, c: string)
    requires StringLe(a, b) && StringLe(b, c)
    ensures StringLe(a, c)
  {
    if a != [] && b != [] && c != [] && a[0] == b[0] == c[0] {
      StringLeTransitive(a[1..], b[1..], c[1..]);
    }
  }

  lemma {:induction false} StringLeAntisymmetric(a: string, b: string)
    requires StringLe(a, b) && StringLe(b, a)
    ensures a == b
  {
    if a != [] && b != [] {
      StringLeAntisymmetric(a[1..], b[1..]);
      assert a == [a[0]] + a[1..] && b == [b[0]] + b[1..];
    }
  }

  lemma StringLeIsLinear()
    ensures TotalPreorder(StringLe)
    ensures forall x, y :: StringLe(x, y) && StringLe(y, x) ==> x == y
  {
    forall x, y ensures StringLe(x, y) || StringLe(y, x) {
      StringLeTotal(x, y);
    }
    forall x, y, z | StringLe(x, y) && StringLe(y, z) ensures StringLe(x, z) {
      StringLeTransitive(x, y, z);
    }
    forall x, y | StringLe(x, y) && StringLe(y, x) ensures x == y {
      StringLeAntisymmetric(x, y);
    }
  }

  // ----- counting reals up to a bound

  predicate RealLe(x: real, y: real) { x <= y }

  ghost function UpTo(bound: real): real -> real { x => if x <= bound then 1.0 else 0.0 }
  ghost function Below(bound: real): real -> real { x => if x < bound then 1.0 else 0.0 }

  lemma {:induction false} AtLeastPrefix(s: seq<real>, k: nat, f: real -> real)
    requires k <= |s| && (forall i :: 0 <= i < k ==> f(s[i]) == 1.0) && forall i :: 0 <= i < |s| ==> f(s[i]) >= 0.0
    ensures Sum(s, f) >= k as real
    decreases |s|
  {
    if s != [] {
      AtLeastPrefix(s[..|s| - 1], if k == |s| then k - 1 else k, f);
    }
  }

  lemma {:induction false} AtMostPrefix(s: seq<real>, k: nat, f: real -> real)
    requires k <= |s| && (forall i :: k <= i < |s| ==> f(s[i]) == 0.0) && forall i :: 0 <= i < |s| ==> f(s[i]) <= 1.0
    ensures Sum(s, f) <= k as real
    decreases |s|
  {
    if s != [] {
      AtMostPrefix(s[..|s| - 1], if k == |s| then k - 1 else k, f);
    }
  }

  lemma RankSplits(ordered: seq<real>, rank: nat)
    requires 1 <= rank <= |ordered| && SortedBy(ordered, RealLe)
    ensures Sum(ordered, UpTo(ordered[rank - 1])) >= rank as real
    ensures Sum(ordered, Below(ordered[rank - 1])) <= (rank - 1) as real
  {
    var r := ordered[rank - 1];
    forall i | 0 <= i < rank ensures ordered[i] <= r {
      assert i < rank - 1 ==> RealLe(ordered[i], ordered[rank - 1]);
    }
    forall i | rank - 1 <= i < |ordered| ensures r <= ordered[i] {
      assert i > rank - 1 ==> RealLe(ordered[rank - 1], ordered[i]);
    }
    AtLeastPrefix(ordered, rank, UpTo(r));
    AtMostPrefix(ordered, rank - 1, Below(r));
  }

  /** `x` is the `k`-th smallest: at least `k` values reach no higher, fewer than `k` lie below. */
  ghost predicate IsRanked(s: seq<real>, k: nat, x: real) {
    x in s && Sum(s, UpTo(x)) >= k as real && Sum(s, Below(x)) <= (k - 1) as real
  }

  lemma RankedAt(s: seq<real>, k: nat)
    requires 1 <= k <= |s|
    ensures |SortBy(s, RealLe)| == |s| && IsRanked(s, k, SortBy(s, RealLe)[k - 1])
  {
    var ordered := SortBy(s, RealLe);
    SortByLength(s, RealLe);
    SortByPermutes(s, RealLe);
    SortBySorted(s, RealLe);
    var x := ordered[k - 1];
    RankSplits(ordered, k);
    SumPermutation(ordered, s, UpTo(x));
    SumPermutation(ordered, s, Below(x));
    PermutationMembership(ordered, s, x);
  }
}
