/** Plan price table and the yearly-savings percentage shown on the pricing page.

    Prices are whole US dollars. The savings computation divides the yearly
    price by twelve, rounds that to cents, compares it with the monthly price
    and rounds the percentage to the nearest integer. All arithmetic here is
    exact: amounts of money are integer cents and every rounding step is
    written out.
 */
module Prices {

  datatype Plan = Free | Pro | Ultra

  datatype Interval = Monthly | Yearly

  /** One row of the price table. */
  datatype PlanPrices = PlanPrices(monthly: nat, yearly: nat)

  /** The closed price table: every plan has a monthly and a yearly price.
      The free plan is exactly the one that costs nothing, and no yearly
      price exceeds twelve monthly payments. */
  function PriceTable(plan: Plan): (p: PlanPrices)
    ensures plan == Free <==> p.monthly == 0
    ensures plan == Free ==> p.yearly == 0
    ensures p.yearly <= 12 * p.monthly
  {
    match plan
    case Free => PlanPrices(0, 0)
    case Pro => PlanPrices(7, 60)
    case Ultra => PlanPrices(10, 100)
  }

  /** `getPrice`: defined for every plan and interval, it reads exactly the
      table entry; a price is zero exactly on the free plan. */
  function GetPrice(plan: Plan, interval: Interval): (r: nat)
    ensures interval == Monthly ==> r == PriceTable(plan).monthly
    ensures interval == Yearly ==> r == PriceTable(plan).yearly
    ensures r == 0 <==> plan == Free
  {
    match interval
    case Monthly => PriceTable(plan).monthly
    case Yearly => PriceTable(plan).yearly
  }

  /** Nearest integer to `num / den`, halves rounded up: `floor(num/den + 1/2)`.
      This is `Math.round`, and also `toFixed` on the non-negative amounts
      it is applied to here. */
  function RoundHalfUp(num: int, den: int): (r: int)
    requires den > 0
    ensures 2 * den * r - den <= 2 * num < 2 * den * r + den
  {
    var q := (2 * num + den) / (2 * den);
    var m := (2 * num + den) % (2 * den);
    assert 2 * num + den == 2 * den * q + m && 0 <= m < 2 * den;
    q
  }

  /** `+(yearly / 12).toFixed(2)`, in cents: the cent amount nearest to a
      twelfth of the yearly price. */
  function MonthlyCentsOfYearly(yearly: nat): (c: int)
    ensures 24 * c - 12 <= 200 * yearly < 24 * c + 12
    ensures c >= 0
  {
    RoundHalfUp(100 * yearly, 12)
  }

  /** The savings percentage for a monthly/yearly price pair: the nearest
      integer to the exact percentage by which the rounded monthly share of
      the yearly price undercuts the monthly price. A zero monthly price gives
      0 and is never divided by. */
  function Savings(monthly: nat, yearly: nat): (r: int)
    ensures monthly == 0 ==> r == 0
    ensures monthly > 0 ==>
      var cents := MonthlyCentsOfYearly(yearly);
      2 * monthly * r - monthly <= 2 * (100 * monthly - cents) < 2 * monthly * r + monthly
  {
    if monthly == 0 then 0
    else RoundHalfUp(100 * monthly - MonthlyCentsOfYearly(yearly), monthly)
  }

  /** `getSavings`: a whole percentage between 0 and 100, zero exactly for
      the free plan. */
  function GetSavings(plan: Plan): (r: int)
    ensures 0 <= r <= 100
    ensures r == 0 <==> plan == Free
  {
    Savings(GetPrice(plan, Monthly), GetPrice(plan, Yearly))
  }

  /** Rounding a fraction that lies between 0 and `hi` stays between 0 and
      `hi`. */
  lemma RoundHalfUpBounded(num: int, den: int, hi: int)
    requires den > 0 && 0 <= num <= hi * den
    ensures 0 <= RoundHalfUp(num, den) <= hi
  {
    var r := RoundHalfUp(num, den);
    assert den * (2 * r + 1) > 0;
    assert den * (2 * r - 1) <= den * (2 * hi);
    PositiveFactor(den, 2 * r + 1);
    CancelFactor(den, 2 * r - 1, 2 * hi);
  }

  // The five lemmas below only guide the nonlinear steps of
  // RoundHalfUpBounded and SavingsPositiveIff.

  lemma PositiveFactor(a: int, b: int)
    requires a > 0
    ensures a * b > 0 ==> b > 0
  {
    if b <= 0 {
      MulNonPositive(a, b);
    }
  }

  lemma CancelFactor(a: int, b: int, c: int)
    requires a > 0
    ensures a * b <= a * c ==> b <= c
  {
    if b > c {
      MulStrictlyMonotone(a, c, b);
    }
  }

  lemma MulMonotone(a: nat, b: int, c: int)
    ensures b <= c ==> a * b <= a * c
  {
  }

  lemma MulNonPositive(a: nat, b: int)
    requires b <= 0
    ensures a * b <= 0
  {
  }

  lemma MulStrictlyMonotone(a: nat, b: int, c: int)
    requires a > 0 && b < c
    ensures a * b < a * c
  {
  }

  /** The rounded monthly share of a yearly price never exceeds the monthly
      price when twelve monthly payments cost at least the yearly price. */
  lemma MonthlyCentsBounds(monthly: nat, yearly: nat)
    requires yearly <= 12 * monthly
    ensures 0 <= MonthlyCentsOfYearly(yearly) <= 100 * monthly
  {
    RoundHalfUpBounded(100 * yearly, 12, 100 * monthly);
  }

  /** With a positive monthly price and a yearly price no higher than twelve
      monthly payments, the savings lie between 0 and 100 percent. */
  lemma SavingsBounded(monthly: nat, yearly: nat)
    requires monthly > 0 && yearly <= 12 * monthly
    ensures 0 <= Savings(monthly, yearly) <= 100
  {
    MonthlyCentsBounds(monthly, yearly);
    RoundHalfUpBounded(100 * monthly - MonthlyCentsOfYearly(yearly), monthly, 100);
  }

  /** The savings are strictly positive exactly when the monthly price
      exceeds the rounded monthly share of the yearly price by at least half
      a percent of the monthly price. */
  lemma SavingsPositiveIff(monthly: nat, yearly: nat)
    requires monthly > 0
    ensures Savings(monthly, yearly) > 0 <==>
      2 * (100 * monthly - MonthlyCentsOfYearly(yearly)) >= monthly
  {
    var r := Savings(monthly, yearly);
    MulMonotone(monthly, 1, 2 * r - 1);
    MulMonotone(monthly, 2 * r + 1, 1);
  }

  /** A yearly price below twelve monthly payments does not by itself make
      the displayed savings positive: a 0.08% saving rounds to 0. */
  lemma SavingsCanRoundToZero()
    ensures 1199 < 12 * 100 && Savings(100, 1199) == 0
  {
  }

  /** The free plan is free forever. */
  lemma FreePlanIsFree(interval: Interval)
    ensures GetPrice(Free, interval) == 0
  {
  }

  /** The paid entries of the table. */
  lemma PaidPlanPrices()
    ensures GetPrice(Pro, Monthly) == 7 && GetPrice(Pro, Yearly) == 60
    ensures GetPrice(Ultra, Monthly) == 10 && GetPrice(Ultra, Yearly) == 100
  {
  }

  /** The percentages the pricing page shows. */
  lemma SavingsValues()
    ensures GetSavings(Free) == 0
    ensures GetSavings(Pro) == 29
    ensures GetSavings(Ultra) == 17
  {
    assert MonthlyCentsOfYearly(60) == 500;
    assert MonthlyCentsOfYearly(100) == 833;
  }

  /** Every paid plan's yearly price undercuts twelve monthly payments, and its
      savings are strictly positive and at most 100 percent. */
  lemma PaidPlanSavingsPositive(plan: Plan)
    requires plan != Free
    ensures GetPrice(plan, Yearly) < 12 * GetPrice(plan, Monthly)
    ensures 0 < GetSavings(plan) <= 100
  {
    SavingsValues();
  }

  /** "Save up to {proSavings}%": no plan saves more than the pro plan. */
  lemma ProSavingsAreLargest(plan: Plan)
    ensures GetSavings(plan) <= GetSavings(Pro)
  {
    SavingsValues();
  }
}
