/**
  Decimal addition under a context precision, and the precision that keeps a
  whole sum exact.
 */
module ExactDecimals {

  datatype Decimal = Decimal(coefficient: int, exponent: int)

  function Abs(x: int): nat { if x < 0 then -x else x }

  // ----- shifting by powers of ten

  /** `c` with `k` zeros appended. */
  function Shift(c: int, k: nat): int { if k == 0 then c else 10 * Shift(c, k - 1) }

  function Pow10(k: nat): int { Shift(1, k) }

  lemma {:induction false} ShiftZero(k: nat)
    ensures Shift(0, k) == 0
  {
    if k > 0 { ShiftZero(k - 1); }
  }

  lemma {:induction false} ShiftTwice(c: int, a: nat, b: nat)
    ensures Shift(Shift(c, a), b) == Shift(c, a + b)
  {
    if b > 0 { ShiftTwice(c, a, b - 1); }
  }

  lemma {:induction false} ShiftAdd(x: int, y: int, k: nat)
    ensures Shift(x + y, k) == Shift(x, k) + Shift(y, k)
  {
    if k > 0 { ShiftAdd(x, y, k - 1); }
  }

  lemma {:induction false} ShiftOrder(x: int, y: int, k: nat)
    ensures x < y <==> Shift(x, k) < Shift(y, k)
    ensures x == y <==> Shift(x, k) == Shift(y, k)
  {
    if k > 0 { ShiftOrder(x, y, k - 1); }
  }

  lemma {:induction false} ShiftAbs(c: int, k: nat)
    ensures Abs(Shift(c, k)) == Shift(Abs(c), k) && Abs(c) <= Shift(Abs(c), k)
  {
    if k > 0 { ShiftAbs(c, k - 1); }
  }

  lemma {:induction false} Pow10Grows(a: nat, b: nat)
    requires a <= b
    ensures 1 <= Pow10(a) <= Pow10(b)
    decreases a + b
  {
    if a < b {
      Pow10Grows(a, b - 1);
    } else if a > 0 {
      Pow10Grows(a - 1, a - 1);
    }
  }

  // ----- digits

  /** How many digits a number is written with. */
  function Digits(n: nat): nat { if n < 10 then 1 else 1 + Digits(n / 10) }

  lemma {:induction false} DigitsBound(n: nat)
    ensures n < Pow10(Digits(n)) && (n > 0 ==> Pow10(Digits(n) - 1) <= n)
  {
    if n >= 10 {
      DigitsBound(n / 10);
    } else {
      assert Pow10(1) == 10 * Pow10(0);
    }
  }

  /** The exponent of a non-zero decimal's leading digit. */
  function Adjusted(d: Decimal): int { d.exponent + Digits(Abs(d.coefficient)) - 1 }

  // ----- addition in a context

  /** `n` without its last `k` digits. */
  function DropDigits(n: nat, k: nat): nat { if k == 0 then n else DropDigits(n / 10, k - 1) }

  /** Divides by ten to the k, rounding half to even. */
  function RoundHalfEven(c: int, k: nat): int {
    var q := DropDigits(Abs(c), k);
    var twice := 2 * (Abs(c) - Shift(q, k));
    var rounded := if twice > Pow10(k) || (twice == Pow10(k) && q % 2 == 1) then q + 1 else q;
    if c < 0 then -rounded else rounded
  }

  /** Rounds a coefficient with more digits than the context holds. */
  function Fix(c: int, e: int, precision: nat): Decimal {
    var digits := Digits(Abs(c));
    if digits <= precision then Decimal(c, e)
    else
      var drop := digits - precision;
      Decimal(RoundHalfEven(c, drop), e + drop)
  }

  function Min(a: int, b: int): int { if a < b then a else b }

  function AddIn(a: Decimal, b: Decimal, precision: nat): Decimal {
    var e := Min(a.exponent, b.exponent);
    Fix(Shift(a.coefficient, a.exponent - e) + Shift(b.coefficient, b.exponent - e), e, precision)
  }

  function NonZero(values: seq<Decimal>): (r: seq<Decimal>)
    ensures forall d :: d in r ==> d.coefficient != 0 && d in values
  {
    if values == [] then []
    else
      var n := |values| - 1;
      NonZero(values[..n]) + (if values[n].coefficient != 0 then [values[n]] else [])
  }

  function Highest(values: seq<Decimal>): int
    requires values != []
  {
    var n := |values| - 1;
    if n == 0 then Adjusted(values[0])
    else
      var rest := Highest(values[..n]);
      if Adjusted(values[n]) > rest then Adjusted(values[n]) else rest
  }

  function Lowest(values: seq<Decimal>): int
    requires values != []
  {
    var n := |values| - 1;
    if n == 0 then values[0].exponent else Min(values[n].exponent, Lowest(values[..n]))
  }

  function SumIn(values: seq<Decimal>, precision: nat): Decimal {
    if values == [] then Decimal(0, 0)
    else AddIn(SumIn(values[..|values| - 1], precision), values[|values| - 1], precision)
  }

  /** The precision the sum is taken in. */
  function ChosenPrecision(values: seq<Decimal>): int
    requires values != []
  {
    Highest(values) - Lowest(values) + Digits(|values|) + 1
  }

  /** Adds decimals in a precision derived from their magnitudes and their number. */
  function ExactSum(values: seq<Decimal>): Decimal {
    var nonzero := NonZero(values);
    if nonzero == [] then Decimal(0, 0)
    else
      var precision := ChosenPrecision(nonzero);
      SumIn(nonzero, if precision < 0 then 0 else precision)
  }

  // ----- values, counted in units of ten to some base exponent

  ghost function Units(d: Decimal, base: int): int
    requires base <= d.exponent
  {
    Shift(d.coefficient, d.exponent - base)
  }

  ghost predicate AtOrAbove(values: seq<Decimal>, base: int) {
    forall i :: 0 <= i < |values| ==> base <= values[i].exponent
  }

  ghost function TotalUnits(values: seq<Decimal>, base: int): int
    requires AtOrAbove(values, base)
  {
    if values == [] then 0 else TotalUnits(values[..|values| - 1], base) + Units(values[|values| - 1], base)
  }

  // ----- what rounding does

  lemma {:induction false} DropBounds(n: nat, k: nat)
    ensures Shift(DropDigits(n, k), k) <= n < Shift(DropDigits(n, k) + 1, k)
  {
    if k > 0 {
      var q := DropDigits(n / 10, k - 1);
      DropBounds(n / 10, k - 1);
      assert 10 * (n / 10) <= n < 10 * (n / 10) + 10;
    }
  }

  /** `r` is the multiple of ten to the k next to `c`, the even one of two equally near. */
  ghost predicate IsRounded(c: int, k: nat, r: int) {
    2 * Abs(c - Shift(r, k)) <= Pow10(k) && (2 * Abs(c - Shift(r, k)) == Pow10(k) ==> r % 2 == 0)
  }

  lemma {:induction false} ShiftNegates(c: int, k: nat)
    ensures Shift(-c, k) == -Shift(c, k)
  {
    if k > 0 { ShiftNegates(c, k - 1); }
  }

  lemma RoundHalfEvenExact(c: int, k: nat)
    requires k >= 1
    ensures IsRounded(c, k, RoundHalfEven(c, k))
  {
    var q := DropDigits(Abs(c), k);
    DropBounds(Abs(c), k);
    ShiftAdd(q, 1, k);
    ShiftNegates(q, k);
    ShiftNegates(q + 1, k);
  }

  /**
    What a context of this precision makes of a number: itself if it has no more
    digits, else the nearest one that ends in the surplus zeros.
   */
  lemma FixRounds(c: int, e: int, precision: nat)
    ensures var d, digits := Fix(c, e, precision), Digits(Abs(c));
      if digits <= precision then d == Decimal(c, e)
      else d.exponent == e + (digits - precision) && IsRounded(c, digits - precision, d.coefficient)
  {
    if Digits(Abs(c)) > precision { RoundHalfEvenExact(c, Digits(Abs(c)) - precision); }
  }

  lemma {:induction false} DigitsOfPower(p: nat, more: nat)
    requires p >= 1 && more <= 1
    ensures Pow10(p) >= 1 && Digits(Pow10(p) + more) == p + 1
  {
    Pow10Grows(0, p - 1);
    assert (Pow10(p) + more) / 10 == Pow10(p - 1);
    if p > 1 { DigitsOfPower(p - 1, 0); }
  }

  /** In p digits ten to the p loses its last zero, ... */
  lemma PowerInContext(p: nat)
    requires p >= 1
    ensures SumIn([Decimal(1, p)], p) == Decimal(Pow10(p - 1), 1)
  {
    assert [Decimal(1, p)][..0] == [];
    ShiftZero(0);
    DigitsOfPower(p, 0);
    assert SumIn([Decimal(1, p)], p) == Fix(Pow10(p), 0, p);
    RoundExact(Pow10(p - 1), 1);
    assert Shift(Pow10(p - 1), 1) == 10 * Shift(Pow10(p - 1), 0);
  }

  lemma {:induction false} OneMore(p: nat)
    requires p >= 1
    ensures AddIn(Decimal(Pow10(p - 1), 1), Decimal(1, 0), p) == Fix(Pow10(p) + 1, 0, p)
  {
    assert Shift(Pow10(p - 1), 1) == 10 * Shift(Pow10(p - 1), 0) == Pow10(p);
  }

  /** ... and a one behind it is not added: a precision of p digits is too little for these two. */
  lemma {:induction false} TooFewDigits(p: nat)
    requires p >= 1
    ensures var d := SumIn([Decimal(1, p), Decimal(1, 0)], p); d.exponent == 1 && Units(d, 0) != Pow10(p) + 1
  {
    var terms := [Decimal(1, p), Decimal(1, 0)];
    assert terms[..1] == [Decimal(1, p)];
    PowerInContext(p);
    OneMore(p);
    DigitsOfPower(p, 1);
    var d := Fix(Pow10(p) + 1, 0, p);
    assert SumIn(terms, p) == d && d.exponent == 1;
    TenfoldIsNotOneMore(d.coefficient, p);
  }

  lemma {:induction false} TenfoldIsNotOneMore(c: int, p: nat)
    requires p >= 1
    ensures Shift(c, 1) != Pow10(p) + 1
  {
    assert Shift(c, 1) == 10 * Shift(c, 0) && Pow10(p) == 10 * Pow10(p - 1);
  }

  /** The leading digit stands at the adjusted exponent. */
  lemma AdjustedExact(d: Decimal)
    requires d.coefficient != 0
    ensures Adjusted(d) >= d.exponent
      && Pow10(Adjusted(d) - d.exponent) <= Abs(d.coefficient) < Pow10(Adjusted(d) - d.exponent + 1)
  {
    DigitsBound(Abs(d.coefficient));
  }

  // ----- when rounding changes nothing

  lemma RoundExact(q: int, k: nat)
    ensures RoundHalfEven(Shift(q, k), k) == q
  {
  }

  /** A coefficient whose value fits the precision on some coarser scale is never really rounded. */
  lemma FixExact(c: int, e: int, precision: nat, t: int, lowest: int, base: int)
    requires precision >= 1 && base <= e && base <= lowest
    requires Shift(c, e - base) == Shift(t, lowest - base) && Abs(t) < Pow10(precision)
    ensures var d := Fix(c, e, precision); base <= d.exponent && Units(d, base) == Shift(c, e - base)
  {
    var digits := Digits(Abs(c));
    DigitsBound(Abs(c));
    if digits > precision {
      var drop := digits - precision;
      var k := FewZeros(c, e, precision, t, lowest, base, digits);
      ShiftTwice(t, k, drop);
      RoundExact(Shift(t, k), drop);
      ShiftTwice(Shift(t, k), drop, e - base);
    }
  }

  /** The surplus digits are zeros: the coefficient is t followed by at least that many. */
  lemma FewZeros(c: int, e: int, precision: nat, t: int, lowest: int, base: int, digits: nat) returns (k: nat)
    requires base <= e && base <= lowest && digits > precision && Pow10(digits - 1) <= Abs(c)
    requires Shift(c, e - base) == Shift(t, lowest - base) && Abs(t) < Pow10(precision)
    ensures c == Shift(t, k + (digits - precision))
  {
    if e > lowest {
      // then t would be at least as long as c
      ShiftTwice(c, e - lowest, lowest - base);
      ShiftOrder(Shift(c, e - lowest), t, lowest - base);
      ShiftAbs(c, e - lowest);
      Pow10Grows(precision, digits - 1);
      assert false;
    }
    var shift := lowest - e;
    ShiftTwice(t, shift, e - base);
    ShiftOrder(c, Shift(t, shift), e - base);
    ShiftAbs(t, shift);
    ShiftOrder(Abs(t), Pow10(precision), shift);
    ShiftTwice(1, precision, shift);
    if shift < digits - precision {
      Pow10Grows(precision + shift, digits - 1);
    }
    k := shift - (digits - precision);
  }

  lemma AddExact(a: Decimal, b: Decimal, precision: nat, t: int, lowest: int, base: int)
    requires precision >= 1 && base <= a.exponent && base <= b.exponent && base <= lowest
    requires Units(a, base) + Units(b, base) == Shift(t, lowest - base) && Abs(t) < Pow10(precision)
    ensures var d := AddIn(a, b, precision); base <= d.exponent && Units(d, base) == Units(a, base) + Units(b, base)
  {
    var e := Min(a.exponent, b.exponent);
    var x, y := Shift(a.coefficient, a.exponent - e), Shift(b.coefficient, b.exponent - e);
    ShiftTwice(a.coefficient, a.exponent - e, e - base);
    ShiftTwice(b.coefficient, b.exponent - e, e - base);
    ShiftAdd(x, y, e - base);
    FixExact(x + y, e, precision, t, lowest, base);
  }

  // ----- the sum

  ghost predicate Bounded(values: seq<Decimal>, lowest: int, highest: int) {
    forall i :: 0 <= i < |values| ==>
      lowest <= values[i].exponent && Adjusted(values[i]) <= highest && values[i].coefficient != 0
  }

  lemma {:induction false} ExtremesBound(values: seq<Decimal>)
    requires values != [] && forall d :: d in values ==> d.coefficient != 0
    ensures Bounded(values, Lowest(values), Highest(values))
  {
    var n := |values| - 1;
    if n > 0 {
      ExtremesBound(values[..n]);
    }
  }

  lemma UnitsBound(d: Decimal, lowest: int, highest: int)
    requires lowest <= d.exponent && Adjusted(d) <= highest && d.coefficient != 0
    ensures highest >= lowest && Abs(Units(d, lowest)) < Pow10(highest - lowest + 1)
  {
    var digits, shift := Digits(Abs(d.coefficient)), d.exponent - lowest;
    DigitsBound(Abs(d.coefficient));
    ShiftAbs(d.coefficient, shift);
    ShiftOrder(Abs(d.coefficient), Pow10(digits), shift);
    ShiftTwice(1, digits, shift);
    Pow10Grows(digits + shift, highest - lowest + 1);
  }

  /** One more term adds its units, and at most one more of the largest terms. */
  lemma OneMoreTerm(last: Decimal, before: int, n: nat, lowest: int, highest: int, base: int)
    requires lowest <= last.exponent && Adjusted(last) <= highest && last.coefficient != 0 && base <= lowest <= highest
    requires Abs(before) <= Shift(n, highest - lowest + 1)
    ensures Units(last, base) == Shift(Units(last, lowest), lowest - base)
    ensures Shift(before + Units(last, lowest), lowest - base) == Shift(before, lowest - base) + Units(last, base)
    ensures Abs(before + Units(last, lowest)) <= Shift(n + 1, highest - lowest + 1)
  {
    UnitsBound(last, lowest, highest);
    ShiftTwice(last.coefficient, last.exponent - lowest, lowest - base);
    ShiftAdd(before, Units(last, lowest), lowest - base);
    ShiftAdd(n, 1, highest - lowest + 1);
  }

  /** Every partial sum is exact, and stays below the number of terms times the largest term. */
  lemma {:induction false} PartialSum(values: seq<Decimal>, lowest: int, highest: int, precision: nat, base: int)
    returns (t: int)
    requires Bounded(values, lowest, highest) && lowest <= highest && base <= lowest && base <= 0
    requires precision >= 1 && Shift(|values|, highest - lowest + 1) < Pow10(precision)
    ensures AtOrAbove(values, base) && TotalUnits(values, base) == Shift(t, lowest - base)
    ensures Abs(t) <= Shift(|values|, highest - lowest + 1)
    ensures var d := SumIn(values, precision); base <= d.exponent && Units(d, base) == TotalUnits(values, base)
  {
    if values == [] {
      t := 0;
      ShiftZero(lowest - base);
      ShiftZero(0 - base);
      ShiftZero(highest - lowest + 1);
    } else {
      var n, width := |values| - 1, highest - lowest + 1;
      var last := values[n];
      ShiftAdd(n, 1, width);
      Pow10Grows(width, width);
      var before := PartialSum(values[..n], lowest, highest, precision, base);
      t := before + Units(last, lowest);
      OneMoreTerm(last, before, n, lowest, highest, base);
      AddExact(SumIn(values[..n], precision), last, precision, t, lowest, base);
    }
  }

  lemma {:induction false} ZerosAddNothing(values: seq<Decimal>, base: int)
    requires AtOrAbove(values, base)
    ensures AtOrAbove(NonZero(values), base) && TotalUnits(NonZero(values), base) == TotalUnits(values, base)
  {
    if values != [] {
      var n := |values| - 1;
      ZerosAddNothing(values[..n], base);
      var kept := NonZero(values);
      if values[n].coefficient != 0 {
        assert kept[..|kept| - 1] == NonZero(values[..n]);
      } else {
        assert kept == NonZero(values[..n]);
        ShiftZero(values[n].exponent - base);
      }
    }
  }

  /** The chosen precision holds as many of the largest terms as there are terms. */
  lemma PrecisionSuffices(values: seq<Decimal>)
    requires values != [] && forall d :: d in values ==> d.coefficient != 0
    ensures var width := Highest(values) - Lowest(values) + 1;
      width >= 1 && ChosenPrecision(values) >= 1 && Shift(|values|, width) < Pow10(ChosenPrecision(values))
  {
    var count, width := |values|, Highest(values) - Lowest(values) + 1;
    ExtremesBound(values);
    UnitsBound(values[0], Lowest(values), Highest(values));
    DigitsBound(count);
    ShiftOrder(count, Pow10(Digits(count)), width);
    ShiftTwice(1, Digits(count), width);
  }

  lemma SumOfNonZero(values: seq<Decimal>, base: int)
    requires values != [] && (forall d :: d in values ==> d.coefficient != 0) && AtOrAbove(values, base) && base <= 0
    ensures ChosenPrecision(values) >= 0
    ensures var d := SumIn(values, ChosenPrecision(values));
      base <= d.exponent && Units(d, base) == TotalUnits(values, base)
  {
    ExtremesBound(values);
    LowestAtOrAbove(values, base);
    PrecisionSuffices(values);
    var _ := PartialSum(values, Lowest(values), Highest(values), ChosenPrecision(values), base);
  }

  /**
    Under the chosen precision every addition is exact: counted in any unit
    that all values are multiples of, the result is the sum of the values.
   */
  lemma ExactSumUnits(values: seq<Decimal>, base: int)
    requires AtOrAbove(values, base) && base <= 0
    ensures var d := ExactSum(values); base <= d.exponent && Units(d, base) == TotalUnits(values, base)
  {
    ZerosAddNothing(values, base);
    if NonZero(values) == [] {
      ShiftZero(0 - base);
    } else {
      SumOfNonZero(NonZero(values), base);
    }
  }

  lemma {:induction false} LowestAtOrAbove(values: seq<Decimal>, base: int)
    requires values != [] && AtOrAbove(values, base)
    ensures base <= Lowest(values)
  {
    if |values| > 1 {
      LowestAtOrAbove(values[..|values| - 1], base);
    }
  }

  // ----- comparing

  predicate Less(a: Decimal, b: Decimal) {
    var e := Min(a.exponent, b.exponent);
    Shift(a.coefficient, a.exponent - e) < Shift(b.coefficient, b.exponent - e)
  }

  lemma LessUnits(a: Decimal, b: Decimal, base: int)
    requires base <= a.exponent && base <= b.exponent
    ensures Less(a, b) <==> Units(a, base) < Units(b, base)
  {
    var e := Min(a.exponent, b.exponent);
    ShiftTwice(a.coefficient, a.exponent - e, e - base);
    ShiftTwice(b.coefficient, b.exponent - e, e - base);
    ShiftOrder(Shift(a.coefficient, a.exponent - e), Shift(b.coefficient, b.exponent - e), e - base);
  }

  /** A decimal's sign is its coefficient's, in whatever unit it is counted. */
  lemma SignUnits(d: Decimal, base: int)
    requires base <= d.exponent
    ensures d.coefficient > 0 <==> Units(d, base) > 0
    ensures d.coefficient < 0 <==> Units(d, base) < 0
  {
    ShiftZero(d.exponent - base);
    ShiftOrder(d.coefficient, 0, d.exponent - base);
  }
}
