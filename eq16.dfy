/** The forecast arithmetic shared by the Schedule 4 forecasters: the completed-months
    counter, the Equation 16 stock interpolation with its 180-month clamp, the permanence
    discount and the carbon to CO2-e conversions. */
module Eq16 {
  import opened Wrappers
  import opened Text
  import opened Dates

  /** `12 * year + month`: the month count the completed-months counter differences. */
  function MonthIndex(d: Date): int {
    12 * d.year + d.month
  }

  /** `months_completed(d1, d2)`: whole months from `d1` to `d2`, negated when `d2 < d1`. */
  function MonthsCompleted(d1: Date, d2: Date): int
    decreases if Before(d2, d1) then 1 else 0
  {
    if Before(d2, d1) then -MonthsCompleted(d2, d1)
    else
      var total := (d2.year - d1.year) * 12 + (d2.month - d1.month);
      if d2.day < d1.day then total - 1 else total
  }

  /** Swapping the arguments negates the count. */
  lemma MonthsAntisymmetric(a: Date, b: Date)
    ensures MonthsCompleted(a, b) == -MonthsCompleted(b, a)
  {
  }

  /** From an earlier date to a later one the count is the difference of month indexes,
      less one when the later day of the month is smaller, and it is never negative. */
  lemma MonthsForward(a: Date, b: Date)
    requires NotAfter(a, b)
    ensures MonthsCompleted(a, b) == MonthIndex(b) - MonthIndex(a) - (if b.day < a.day then 1 else 0)
    ensures MonthsCompleted(a, b) >= 0
  {
  }

  /** The count from a fixed date never decreases as the second date moves later. */
  lemma MonthsMonotone(a: Date, b: Date, c: Date)
    requires NotAfter(b, c)
    ensures MonthsCompleted(a, b) <= MonthsCompleted(a, c)
  {
    if NotAfter(a, b) {
      MonthsForward(a, b);
      MonthsForward(a, c);
    } else if NotAfter(a, c) {
      MonthsForward(b, a);
      MonthsForward(a, c);
    } else {
      MonthsForward(b, a);
      MonthsForward(c, a);
    }
  }

  /** A date one year later is exactly twelve completed months later. */
  lemma MonthsOverYear(a: Date, b: Date)
    requires NotAfter(a, b) && b.day == AddYears(b, 1).day
    ensures MonthsCompleted(a, AddYears(b, 1)) == MonthsCompleted(a, b) + 12
  {
    var b1 := AddYears(b, 1);
    LaterYearBefore(b, b1);
    MonthsForward(a, b);
    MonthsForward(a, b1);
  }

  /** The clamp `max(0, min(n, 180))` (also written `min(max(n, 0), 180)`). */
  function ClampMonths(n: int): (c: int)
    ensures 0 <= c <= 180
    ensures n <= 0 ==> c == 0
    ensures n >= 180 ==> c == 180
    ensures 0 <= n <= 180 ==> c == n
  {
    if n < 0 then 0 else if n > 180 then 180 else n
  }

  /** Equation 16 of Schedule 4: `CBASE + (n / 180) * (CLT - CBASE) * DPP`, with `n` the
      clamped month count. */
  function Eq16Cp(cbase: real, clt: real, n: int, dpp: real): real {
    cbase + (ClampMonths(n) as real / 180.0) * (clt - cbase) * dpp
  }

  /** No months (or a negative count) give the baseline stock. */
  lemma Eq16AtStart(cbase: real, clt: real, n: int, dpp: real)
    requires n <= 0
    ensures Eq16Cp(cbase, clt, n, dpp) == cbase
  {
  }

  /** From 180 months on, the stock is the discounted long-term stock. */
  lemma Eq16AtEnd(cbase: real, clt: real, n: int, dpp: real)
    requires n >= 180
    ensures Eq16Cp(cbase, clt, n, dpp) == cbase + (clt - cbase) * dpp
  {
  }

  lemma MulNonNegative(x: real, y: real)
    requires x >= 0.0 && y >= 0.0
    ensures x * y >= 0.0
  {
  }

  /** With a long-term stock at least the baseline and a non-negative discount, the stock
      never decreases as months accrue. */
  lemma Eq16Monotone(cbase: real, clt: real, n1: int, n2: int, dpp: real)
    requires clt >= cbase && dpp >= 0.0 && n1 <= n2
    ensures Eq16Cp(cbase, clt, n1, dpp) <= Eq16Cp(cbase, clt, n2, dpp)
  {
    var d := (ClampMonths(n2) - ClampMonths(n1)) as real / 180.0;
    var k := clt - cbase;
    MulNonNegative(d, k);
    MulNonNegative(d * k, dpp);
    assert Eq16Cp(cbase, clt, n2, dpp) - Eq16Cp(cbase, clt, n1, dpp) == d * k * dpp;
  }

  /** Under the same conditions the stock stays between the baseline and the discounted
      long-term stock. */
  lemma Eq16Bounds(cbase: real, clt: real, n: int, dpp: real)
    requires clt >= cbase && dpp >= 0.0
    ensures cbase <= Eq16Cp(cbase, clt, n, dpp) <= cbase + (clt - cbase) * dpp
  {
    var c := ClampMonths(n);
    assert Eq16Cp(cbase, clt, n, dpp) == Eq16Cp(cbase, clt, c, dpp);
    Eq16Monotone(cbase, clt, 0, c, dpp);
    Eq16Monotone(cbase, clt, c, 180, dpp);
  }

  /** `0.75 if PERMANENCE_YEARS == 25 else 1.0`: the factor used both inside Equation 16 and
      as the issuance discount (20% permanence plus 5% risk buffer on 25-year projects). */
  function PermanenceFactor(permanenceYears: int): (f: real)
    ensures f == 0.75 <==> permanenceYears == 25
    ensures f == 1.0 <==> permanenceYears != 25
  {
    if permanenceYears == 25 then 0.75 else 1.0
  }

  /** Tonnes of CO2 per tonne of carbon. */
  const CO2_PER_C: real := 44.0 / 12.0

  /** `to_co2e(x, input_units)`: the unit name is compared after upper-casing, "CO2E" keeps
      the value, "C" converts carbon to CO2-e, anything else is an error. */
  function UnitsToCo2e(x: real, units: string): (r: Result<real>)
    ensures r.Ok? <==> Upper(units) == "CO2E" || Upper(units) == "C"
    ensures Upper(units) == "CO2E" ==> r == Ok(x)
    ensures Upper(units) == "C" ==> r == Ok(x * CO2_PER_C)
  {
    if Upper(units) == "CO2E" then Ok(x)
    else if Upper(units) == "C" then Ok(x * CO2_PER_C)
    else Err("Unknown INPUT_UNITS=" + units + "; use 'CO2E' or 'C'")
  }

  /** The unit name is matched regardless of case. */
  lemma UnitsCaseInsensitive(x: real, units: string)
    ensures UnitsToCo2e(x, units).Ok? == UnitsToCo2e(x, Upper(units)).Ok?
    ensures UnitsToCo2e(x, units).Ok? ==> UnitsToCo2e(x, units) == UnitsToCo2e(x, Upper(units))
  {
    UpperIdempotent(units);
  }

  /** The script's own unit setting "CO2E" keeps the value as it is. */
  lemma Co2eUnitKeepsValue(x: real)
    ensures UnitsToCo2e(x, "CO2E") == Ok(x)
  {
    var u := Upper("CO2E");
    assert u[0] == 'C' && u[1] == 'O' && u[2] == '2' && u[3] == 'E';
    assert u == "CO2E";
  }

  /** Exactly the two spellings "c" and "C" select the carbon conversion. */
  lemma CarbonUnitSpellings(units: string)
    ensures Upper(units) == "C" <==> units == "C" || units == "c"
  {
    if Upper(units) == "C" {
      assert |units| == 1;
      assert UpperChar(units[0]) == 'C';
    }
  }

  /** The carbon-switch variant of `to_co2e`: multiply by 44/12 when the conversion is on. */
  function FlagToCo2e(x: real, convert: bool): (r: real)
    ensures convert ==> r == x * CO2_PER_C
    ensures !convert ==> r == x
  {
    if convert then x * (44.0 / 12.0) else x
  }

  /** The deduction expressed in carbon units: `x * 12/44` when the conversion is on. */
  function FlagToCarbon(x: real, convert: bool): real {
    if convert then x * (12.0 / 44.0) else x
  }

  /** Converting the carbon-unit deduction back to CO2-e recovers it. */
  lemma CarbonRoundTrip(x: real, convert: bool)
    ensures FlagToCo2e(FlagToCarbon(x, convert), convert) == x
    ensures FlagToCarbon(FlagToCo2e(x, convert), convert) == x
  {
  }

  /** `maybe_area(x)`: scale by the area in hectares when one is configured. */
  function MaybeArea(x: real, area: Option<real>): (r: real)
    ensures area.None? ==> r == x
    ensures area.Some? ==> r == x * area.value
  {
    if area.Some? then x * area.value else x
  }

  /** Area scaling distributes over differences and sums. */
  lemma MaybeAreaLinear(z: real, x: real, y: real, area: Option<real>)
    requires z == x + y
    ensures MaybeArea(z, area) == MaybeArea(x, area) + MaybeArea(y, area)
    ensures MaybeArea(x, area) == MaybeArea(z, area) - MaybeArea(y, area)
  {
  }

  /** The Coalara forecaster's dates: the carbon estimation area is defined on 25 June 2021
      and the first reporting period ends on 30 June 2026, 60 completed months later. */
  lemma CoalaraFirstPeriodMonths()
    ensures MonthsCompleted(RawDate(2021, 6, 25), RawDate(2026, 6, 30)) == 60
  {
  }

  /** With the Coalara constants (baseline 728.8, long-term 149697, 25-year permanence) the
      first period's stock is 37970.85. */
  lemma CoalaraFirstPeriodStock()
    ensures Eq16Cp(728.8, 149697.0, MonthsCompleted(RawDate(2021, 6, 25), RawDate(2026, 6, 30)), PermanenceFactor(25)) == 37970.85
  {
    CoalaraFirstPeriodMonths();
  }
}
