/**
 The amounts of partial fills. Percentages are exact reals; the program rounds a percentage down to
 whole basis points and then rounds the amount down to a whole token unit.
 */
module FillAmounts {

  /** BigInt division: the quotient is cut toward zero. */
  function TruncDiv(a: int, b: int): int
    requires b > 0
  {
    if a >= 0 then a / b else -((-a) / b)
  }

  function BasisPoints(percentage: real): int {
    (percentage * 100.0).Floor
  }

  function PartialAmount(total: int, percentage: real): int {
    TruncDiv(total * BasisPoints(percentage), 10000)
  }

  function SumReals(s: seq<real>): real {
    if s == [] then 0.0 else s[0] + SumReals(s[1..])
  }

  function SumAmounts(total: int, percentages: seq<real>): int {
    if percentages == [] then 0
    else PartialAmount(total, percentages[0]) + SumAmounts(total, percentages[1..])
  }

  function SumBasisPoints(percentages: seq<real>): int {
    if percentages == [] then 0 else BasisPoints(percentages[0]) + SumBasisPoints(percentages[1..])
  }

  ghost predicate NonNegative(percentages: seq<real>) {
    forall i :: 0 <= i < |percentages| ==> percentages[i] >= 0.0
  }

  lemma {:induction false} AmountRounds(total: int, percentage: real)
    requires total >= 0 && percentage >= 0.0
    ensures var b, a := BasisPoints(percentage), PartialAmount(total, percentage);
      b >= 0 && a >= 0 && 10000 * a <= total * b < 10000 * (a + 1)
  {
    var b := BasisPoints(percentage);
    assert total * b >= 0;
  }

  /** Rounding to basis points loses less than one point a fill. */
  lemma {:induction false} BasisPointsSum(percentages: seq<real>)
    ensures SumBasisPoints(percentages) as real <= 100.0 * SumReals(percentages)
    ensures 100.0 * SumReals(percentages) <= (SumBasisPoints(percentages) + |percentages|) as real
    ensures percentages != [] ==> 100.0 * SumReals(percentages) < (SumBasisPoints(percentages) + |percentages|) as real
  {
    if percentages != [] {
      BasisPointsSum(percentages[1..]);
    }
  }

  /** Rounding to whole units loses less than one unit a fill. */
  lemma {:induction false} AmountsSum(total: int, percentages: seq<real>)
    requires total >= 0 && NonNegative(percentages)
    ensures 10000 * SumAmounts(total, percentages) <= total * SumBasisPoints(percentages)
    ensures total * SumBasisPoints(percentages) <= 10000 * (SumAmounts(total, percentages) + |percentages|)
    ensures percentages != [] ==>
              total * SumBasisPoints(percentages) < 10000 * (SumAmounts(total, percentages) + |percentages|)
  {
    if percentages != [] {
      var b, rest := BasisPoints(percentages[0]), SumBasisPoints(percentages[1..]);
      AmountRounds(total, percentages[0]);
      AmountsSum(total, percentages[1..]);
      assert total * (b + rest) == total * b + total * rest;
    }
  }

  lemma {:induction false} Scale(total: int, x: int, y: int)
    requires total >= 0 && x <= y
    ensures total * x <= total * y
  {
  }

  lemma {:induction false} ShortfallArithmetic(total: int, k: int, scaled: int, amounts: int)
    requires total * (10000 - k) <= scaled < 10000 * (amounts + k)
    ensures (total - amounts) as real < k as real * (total as real / 10000.0 + 1.0)
  {
    assert total * (10000 - k) == 10000 * total - k * total;
    assert (k * total) as real == k as real * total as real;
    assert k as real * (total as real / 10000.0 + 1.0) == (k as real * total as real) / 10000.0 + k as real;
    assert 10000 * (total - amounts) < k * total + 10000 * k;
  }

  /** Fills of at most 100 percent together never take more than the order. */
  lemma {:induction false} FillsNeverExceedOrder(total: int, percentages: seq<real>)
    requires total >= 0 && NonNegative(percentages) && SumReals(percentages) <= 100.0
    ensures SumAmounts(total, percentages) <= total
  {
    hide *;
    var points := SumBasisPoints(percentages);
    BasisPointsSum(percentages);
    AmountsSum(total, percentages);
    Scale(total, points, 10000);
  }

  /** What k fills of exactly 100 percent leave behind is bounded by what the two roundings can lose. */
  lemma {:induction false} ShortfallBound(total: int, percentages: seq<real>)
    requires total >= 0 && NonNegative(percentages) && SumReals(percentages) == 100.0
    ensures var k := |percentages| as real;
      (total - SumAmounts(total, percentages)) as real < k * (total as real / 10000.0 + 1.0)
  {
    assert percentages != [];
    hide *;
    var k, points, amounts := |percentages|, SumBasisPoints(percentages), SumAmounts(total, percentages);
    BasisPointsSum(percentages);
    AmountsSum(total, percentages);
    Scale(total, 10000 - k, points);
    ShortfallArithmetic(total, k, total * points, amounts);
  }

  /** With percentages in whole basis points only the second rounding is left. */
  lemma {:induction false} ShortfallInBasisPoints(total: int, percentages: seq<real>)
    requires total >= 0 && NonNegative(percentages) && SumReals(percentages) == 100.0
    requires forall i :: 0 <= i < |percentages| ==> BasisPoints(percentages[i]) as real == percentages[i] * 100.0
    ensures total - SumAmounts(total, percentages) < |percentages|
  {
    WholePointsSum(percentages);
    AmountsSum(total, percentages);
  }

  lemma {:induction false} WholePointsSum(percentages: seq<real>)
    requires forall i :: 0 <= i < |percentages| ==> BasisPoints(percentages[i]) as real == percentages[i] * 100.0
    ensures SumBasisPoints(percentages) as real == 100.0 * SumReals(percentages)
  {
    if percentages != [] {
      WholePointsSum(percentages[1..]);
    }
  }

  /** Neither rounding loses anything on this fill. */
  predicate LosesNothing(total: int, percentage: real)
  {
    total == 0 ||
    (BasisPoints(percentage) as real == percentage * 100.0 && total * BasisPoints(percentage) % 10000 == 0)
  }

  /** The part of a fill's exact share that the roundings drop, in ten-thousandths of a unit. */
  function Dropped(total: int, percentage: real): real {
    total as real * percentage * 100.0 - 10000.0 * PartialAmount(total, percentage) as real
  }

  lemma {:induction false} DroppedZeroIff(total: int, percentage: real)
    requires total >= 0 && percentage >= 0.0
    ensures Dropped(total, percentage) >= 0.0
    ensures Dropped(total, percentage) == 0.0 <==> LosesNothing(total, percentage)
  {
    var b, a := BasisPoints(percentage), PartialAmount(total, percentage);
    AmountRounds(total, percentage);
    var fraction := percentage * 100.0 - b as real;
    assert (total * b) as real == total as real * b as real;
    assert Dropped(total, percentage) == total as real * fraction + (total * b - 10000 * a) as real by {
      assert total as real * percentage * 100.0 == total as real * (percentage * 100.0);
      assert total as real * (percentage * 100.0) == total as real * fraction + total as real * b as real;
    }
    assert total as real * fraction >= 0.0;
    assert total * b == 10000 * a <==> total * b % 10000 == 0;
    if total > 0 && fraction > 0.0 {
      assert total as real * fraction > 0.0;
    }
  }

  function SumDropped(total: int, percentages: seq<real>): real {
    if percentages == [] then 0.0 else Dropped(total, percentages[0]) + SumDropped(total, percentages[1..])
  }

  lemma {:induction false} SumDroppedIs(total: int, percentages: seq<real>)
    ensures SumDropped(total, percentages)
         == total as real * SumReals(percentages) * 100.0 - 10000.0 * SumAmounts(total, percentages) as real
  {
    if percentages != [] {
      hide PartialAmount;
      var a, rest := PartialAmount(total, percentages[0]), SumAmounts(total, percentages[1..]);
      SumDroppedIs(total, percentages[1..]);
      Distribute(total as real, percentages[0], SumReals(percentages[1..]));
      assert (a + rest) as real == a as real + rest as real;
    }
  }

  lemma {:induction false} Distribute(t: real, x: real, y: real)
    ensures t * (x + y) * 100.0 == t * x * 100.0 + t * y * 100.0
  {
  }

  lemma {:induction false} SumDroppedZeroIff(total: int, percentages: seq<real>)
    requires total >= 0 && NonNegative(percentages)
    ensures SumDropped(total, percentages) >= 0.0
    ensures SumDropped(total, percentages) == 0.0
            <==> forall i :: 0 <= i < |percentages| ==> LosesNothing(total, percentages[i])
  {
    hide Dropped, LosesNothing;
    if percentages != [] {
      var rest := percentages[1..];
      DroppedZeroIff(total, percentages[0]);
      SumDroppedZeroIff(total, rest);
      assert forall i :: 0 <= i < |rest| ==> rest[i] == percentages[i + 1];
      if SumDropped(total, percentages) == 0.0 {
        forall i | 0 <= i < |percentages|
          ensures LosesNothing(total, percentages[i])
        {
          assert i > 0 ==> percentages[i] == rest[i - 1];
        }
      }
    }
  }

  /** Fills of exactly 100 percent move the whole order exactly when no single fill loses anything to rounding. */
  lemma {:induction false} FillsCoverOrderIff(total: int, percentages: seq<real>)
    requires total >= 0 && NonNegative(percentages) && SumReals(percentages) == 100.0
    ensures SumAmounts(total, percentages) == total
            <==> forall i :: 0 <= i < |percentages| ==> LosesNothing(total, percentages[i])
  {
    SumDroppedIs(total, percentages);
    SumDroppedZeroIff(total, percentages);
  }

  /** Three resolvers that each fill a third of one whole token leave some of it behind. */
  lemma {:induction false} ThirdsLeaveDust()
    ensures SumReals([100.0 / 3.0, 100.0 / 3.0, 100.0 / 3.0]) == 100.0
    ensures SumAmounts(100000000, [100.0 / 3.0, 100.0 / 3.0, 100.0 / 3.0]) == 99990000
  {
    var third := 100.0 / 3.0;
    assert BasisPoints(third) == 3333;
    assert PartialAmount(100000000, third) == 33330000;
    assert [third, third, third][1..] == [third, third] && [third, third][1..] == [third] && [third][1..] == [];
    assert SumReals([third]) == third;
    assert SumAmounts(100000000, [third]) == 33330000;
  }
}
