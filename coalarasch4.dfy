/** The Coalara Schedule 4 forecaster: stocks and credits kept in tonnes of carbon, the
    first-period deduction given in CO2-e and converted to carbon, a carried cumulative total,
    optional area scaling, and every output also shown in CO2-e. */
module CoalaraSch4 {
  import opened Wrappers
  import opened Dates
  import opened Eq16
  import opened Schedules

  /** The script's parameters. */
  datatype Config = Config(
    cbase: real,                  // CBASE
    clt: real,                    // CLT
    permanenceYears: int,         // PERMANENCE_YEARS
    ceaStart: Date,               // CEA_START
    firstStart: Date,             // FIRST_RP_START
    firstEnd: Date,               // FIRST_RP_END
    lastEnd: Date,                // MODELLING_END_RP_END
    deduction: real,              // FIRST_YEAR_DEDUCTION (CO2-e)
    convert: bool,                // APPLY_C_TO_CO2_CONVERSION
    area: Option<real>)           // AREA_HA

  /** The values the script ships with. */
  function FileConfig(): Config {
    Config(728.8, 149697.0, 25, RawDate(2021, 6, 25), RawDate(2025, 10, 31), RawDate(2026, 6, 30),
      RawDate(2046, 6, 30), 12000.0, true, None)
  }

  /** One output row (`RPResult`). */
  datatype RpResult = RpResult(
    index: int, start: Date, end: Date, months: int,
    cpC: real, annualC: real, annualCAdj: real, cumulativeCAdj: real,
    cpCo2e: real, annualCo2e: real, annualCo2eAdj: real, cumulativeCo2eAdj: real)

  function Schedule(cfg: Config): seq<(Date, Date)> {
    RpSchedule(cfg.firstStart, cfg.firstEnd, cfg.lastEnd)
  }

  /** The unscaled carbon stock at the end of period `i`. */
  function RawCp(cfg: Config, i: nat): real
    requires i < |Schedule(cfg)|
  {
    Eq16Cp(cfg.cbase, cfg.clt, MonthsCompleted(cfg.ceaStart, Schedule(cfg)[i].1), PermanenceFactor(cfg.permanenceYears))
  }

  /** The unscaled credit of period `i`: the change from the previous unscaled stock. */
  function RawAnnual(cfg: Config, i: nat): real
    requires i < |Schedule(cfg)|
  {
    if i == 0 then RawCp(cfg, 0) else RawCp(cfg, i) - RawCp(cfg, i - 1)
  }

  /** The deduction of period `i` in carbon units: only in the first period, only when
      non-zero. */
  function DeductionC(cfg: Config, i: nat): real {
    if i == 0 && cfg.deduction != 0.0 then FlagToCarbon(cfg.deduction, cfg.convert) else 0.0
  }

  function RawAdj(cfg: Config, i: nat): real
    requires i < |Schedule(cfg)|
  {
    RawAnnual(cfg, i) - DeductionC(cfg, i)
  }

  /** The carried cumulative adjusted credit after period `i`. */
  function RawCum(cfg: Config, i: nat): real
    requires i < |Schedule(cfg)|
  {
    (if i == 0 then 0.0 else RawCum(cfg, i - 1)) + RawAdj(cfg, i)
  }

  /** Row `i` of the forecast: every carbon value area-scaled, every CO2-e value the
      converted carbon value. */
  function ExpectedRow(cfg: Config, i: nat): RpResult
    requires i < |Schedule(cfg)|
  {
    var cpC := MaybeArea(RawCp(cfg, i), cfg.area);
    var annC := MaybeArea(RawAnnual(cfg, i), cfg.area);
    var adjC := MaybeArea(RawAdj(cfg, i), cfg.area);
    var cumC := MaybeArea(RawCum(cfg, i), cfg.area);
    RpResult(i + 1, Schedule(cfg)[i].0, Schedule(cfg)[i].1, MonthsCompleted(cfg.ceaStart, Schedule(cfg)[i].1),
      cpC, annC, adjC, cumC,
      FlagToCo2e(cpC, cfg.convert), FlagToCo2e(annC, cfg.convert), FlagToCo2e(adjC, cfg.convert), FlagToCo2e(cumC, cfg.convert))
  }

  /** One pass of the `forecast()` loop: row `i` and the new carried cumulative total. */
  method ForecastStep(cfg: Config, period: (Date, Date), dpp: real, i: nat, prevCpC: Option<real>, cumCAdj: real)
    returns (row: RpResult, cpCRaw: real, cumCAdj': real)
    requires i < |Schedule(cfg)| && period == Schedule(cfg)[i]
    requires dpp == PermanenceFactor(cfg.permanenceYears)
    requires prevCpC == if i == 0 then None else Some(RawCp(cfg, i - 1))
    requires cumCAdj == if i == 0 then 0.0 else RawCum(cfg, i - 1)
    ensures row == ExpectedRow(cfg, i)
    ensures cpCRaw == RawCp(cfg, i)
    ensures cumCAdj' == RawCum(cfg, i)
  {
    var (rpStart, rpEnd) := period;
    var n := MonthsCompleted(cfg.ceaStart, rpEnd);
    cpCRaw := Eq16Cp(cfg.cbase, cfg.clt, n, dpp);
    var annualCRaw := if prevCpC.None? then cpCRaw else cpCRaw - prevCpC.value;
    var annualCAdjRaw := annualCRaw;
    if i + 1 == 1 && cfg.deduction != 0.0 {
      var deductionC := if cfg.convert then cfg.deduction * (12.0 / 44.0) else cfg.deduction;
      annualCAdjRaw := annualCAdjRaw - deductionC;
    }
    var cumCAdjRaw := cumCAdj + annualCAdjRaw;
    assert cpCRaw == RawCp(cfg, i);
    assert annualCRaw == RawAnnual(cfg, i);
    assert annualCAdjRaw == RawAdj(cfg, i);
    assert cumCAdjRaw == RawCum(cfg, i);
    var cpC := MaybeArea(cpCRaw, cfg.area);
    var annualC := MaybeArea(annualCRaw, cfg.area);
    var annualCAdj := MaybeArea(annualCAdjRaw, cfg.area);
    var cumScaled := MaybeArea(cumCAdjRaw, cfg.area);
    row := RpResult(i + 1, rpStart, rpEnd, n,
      cpC, annualC, annualCAdj, cumScaled,
      FlagToCo2e(cpC, cfg.convert), FlagToCo2e(annualC, cfg.convert),
      FlagToCo2e(annualCAdj, cfg.convert), FlagToCo2e(cumScaled, cfg.convert));
    cumCAdj' := cumCAdjRaw;
  }

  /** `forecast()`, as the source's loop carrying `prev_cp_c` and `cum_c_adj`. */
  method Forecast(cfg: Config) returns (results: seq<RpResult>)
    ensures |results| == |Schedule(cfg)|
    ensures forall i :: 0 <= i < |results| ==> results[i] == ExpectedRow(cfg, i)
  {
    var schedule := GenerateRpSchedule(cfg.firstStart, cfg.firstEnd, cfg.lastEnd);
    var dpp := PermanenceFactor(cfg.permanenceYears);
    results := [];
    var prevCpC: Option<real> := None;
    var cumCAdj := 0.0;
    var i := 0;
    while i < |schedule|
      invariant 0 <= i <= |schedule|
      invariant schedule == Schedule(cfg)
      invariant results == ExpectedRows(cfg, i)
      invariant prevCpC == if i == 0 then None else Some(RawCp(cfg, i - 1))
      invariant cumCAdj == if i == 0 then 0.0 else RawCum(cfg, i - 1)
    {
      var row, cpCRaw;
      row, cpCRaw, cumCAdj := ForecastStep(cfg, schedule[i], dpp, i, prevCpC, cumCAdj);
      results := results + [row];
      prevCpC := Some(cpCRaw);
      i := i + 1;
    }
  }

  function SumAnnualC(rows: seq<RpResult>): real {
    if rows == [] then 0.0 else SumAnnualC(rows[..|rows| - 1]) + rows[|rows| - 1].annualC
  }

  function SumAdjC(rows: seq<RpResult>): real {
    if rows == [] then 0.0 else SumAdjC(rows[..|rows| - 1]) + rows[|rows| - 1].annualCAdj
  }

  function SumAdjCo2e(rows: seq<RpResult>): real {
    if rows == [] then 0.0 else SumAdjCo2e(rows[..|rows| - 1]) + rows[|rows| - 1].annualCo2eAdj
  }

  /** The rows the forecast returns, as a sequence. */
  function ExpectedRows(cfg: Config, k: nat): (rows: seq<RpResult>)
    requires k <= |Schedule(cfg)|
    ensures |rows| == k && forall i :: 0 <= i < k ==> rows[i] == ExpectedRow(cfg, i)
  {
    if k == 0 then [] else ExpectedRows(cfg, k - 1) + [ExpectedRow(cfg, k - 1)]
  }

  lemma PrefixRows(cfg: Config, k: nat)
    requires 0 < k <= |Schedule(cfg)|
    ensures ExpectedRows(cfg, k)[..k - 1] == ExpectedRows(cfg, k - 1)
    ensures ExpectedRows(cfg, k)[k - 1] == ExpectedRow(cfg, k - 1)
  {
  }

  /** The emitted cumulative total is the running sum of the emitted adjusted credits. */
  lemma {:induction false} CumulativeIsRunningSum(cfg: Config, k: nat)
    requires k < |Schedule(cfg)|
    ensures SumAdjC(ExpectedRows(cfg, k + 1)) == ExpectedRow(cfg, k).cumulativeCAdj
  {
    var rows := ExpectedRows(cfg, k + 1);
    PrefixRows(cfg, k + 1);
    var adj := MaybeArea(RawAdj(cfg, k), cfg.area);
    assert SumAdjC(rows) == SumAdjC(ExpectedRows(cfg, k)) + adj;
    assert ExpectedRow(cfg, k).cumulativeCAdj == MaybeArea(RawCum(cfg, k), cfg.area);
    if k > 0 {
      CumulativeIsRunningSum(cfg, k - 1);
      var before := MaybeArea(RawCum(cfg, k - 1), cfg.area);
      assert SumAdjC(ExpectedRows(cfg, k)) == before;
      assert RawCum(cfg, k) == RawCum(cfg, k - 1) + RawAdj(cfg, k);
      MaybeAreaLinear(RawCum(cfg, k), RawCum(cfg, k - 1), RawAdj(cfg, k), cfg.area);
      assert SumAdjC(rows) == before + adj;
    } else {
      assert SumAdjC(ExpectedRows(cfg, 0)) == 0.0;
      assert RawCum(cfg, 0) == RawAdj(cfg, 0);
    }
  }

  /** The same holds of the CO2-e columns. */
  lemma {:induction false} CumulativeCo2eIsRunningSum(cfg: Config, k: nat)
    requires k < |Schedule(cfg)|
    ensures SumAdjCo2e(ExpectedRows(cfg, k + 1)) == ExpectedRow(cfg, k).cumulativeCo2eAdj
  {
    var rows := ExpectedRows(cfg, k + 1);
    PrefixRows(cfg, k + 1);
    var c2 := MaybeArea(RawAdj(cfg, k), cfg.area);
    assert SumAdjCo2e(rows) == SumAdjCo2e(ExpectedRows(cfg, k)) + FlagToCo2e(c2, cfg.convert);
    assert ExpectedRow(cfg, k).cumulativeCo2eAdj == FlagToCo2e(MaybeArea(RawCum(cfg, k), cfg.area), cfg.convert);
    if k > 0 {
      CumulativeCo2eIsRunningSum(cfg, k - 1);
      var c1 := MaybeArea(RawCum(cfg, k - 1), cfg.area);
      assert SumAdjCo2e(ExpectedRows(cfg, k)) == FlagToCo2e(c1, cfg.convert);
      assert RawCum(cfg, k) == RawCum(cfg, k - 1) + RawAdj(cfg, k);
      MaybeAreaLinear(RawCum(cfg, k), RawCum(cfg, k - 1), RawAdj(cfg, k), cfg.area);
      assert MaybeArea(RawCum(cfg, k), cfg.area) == c1 + c2;
      assert FlagToCo2e(c1 + c2, cfg.convert) == FlagToCo2e(c1, cfg.convert) + FlagToCo2e(c2, cfg.convert);
    } else {
      assert SumAdjCo2e(ExpectedRows(cfg, 0)) == 0.0;
      assert RawCum(cfg, 0) == RawAdj(cfg, 0);
    }
  }

  /** The emitted credits add up to the emitted stock: the previous stock is carried
      unscaled, and scaling distributes over the difference. */
  lemma {:induction false} CreditsTelescope(cfg: Config, k: nat)
    requires k < |Schedule(cfg)|
    ensures SumAnnualC(ExpectedRows(cfg, k + 1)) == ExpectedRow(cfg, k).cpC
  {
    var rows := ExpectedRows(cfg, k + 1);
    PrefixRows(cfg, k + 1);
    var annual := MaybeArea(RawAnnual(cfg, k), cfg.area);
    assert SumAnnualC(rows) == SumAnnualC(ExpectedRows(cfg, k)) + annual;
    assert ExpectedRow(cfg, k).cpC == MaybeArea(RawCp(cfg, k), cfg.area);
    if k > 0 {
      CreditsTelescope(cfg, k - 1);
      var before := MaybeArea(RawCp(cfg, k - 1), cfg.area);
      assert SumAnnualC(ExpectedRows(cfg, k)) == before;
      assert RawCp(cfg, k) == RawAnnual(cfg, k) + RawCp(cfg, k - 1);
      MaybeAreaLinear(RawCp(cfg, k), RawAnnual(cfg, k), RawCp(cfg, k - 1), cfg.area);
      assert SumAnnualC(rows) == before + annual;
    } else {
      assert SumAnnualC(ExpectedRows(cfg, 0)) == 0.0;
      assert RawAnnual(cfg, 0) == RawCp(cfg, 0);
    }
  }

  /** Each CO2-e output is 44/12 times its carbon counterpart when the conversion is on, and
      equal to it when it is off. */
  lemma Co2eFollowsCarbon(cfg: Config, i: nat)
    requires i < |Schedule(cfg)|
    ensures var r := ExpectedRow(cfg, i);
      var f := if cfg.convert then CO2_PER_C else 1.0;
      r.cpCo2e == r.cpC * f && r.annualCo2e == r.annualC * f
      && r.annualCo2eAdj == r.annualCAdj * f && r.cumulativeCo2eAdj == r.cumulativeCAdj * f
  {
  }

  /** After the first period the credit is the difference of the emitted stocks. */
  lemma AnnualIsStockChange(cfg: Config, i: nat)
    requires 0 < i < |Schedule(cfg)|
    ensures ExpectedRow(cfg, i).annualC == ExpectedRow(cfg, i).cpC - ExpectedRow(cfg, i - 1).cpC
  {
    assert RawCp(cfg, i) == RawAnnual(cfg, i) + RawCp(cfg, i - 1);
    MaybeAreaLinear(RawCp(cfg, i), RawAnnual(cfg, i), RawCp(cfg, i - 1), cfg.area);
  }

  /** The first-period deduction is applied in carbon units but recovers its CO2-e amount:
      without area scaling, the first adjusted CO2-e credit is the unadjusted one less the
      deduction; no later period is adjusted. */
  lemma DeductionOnlyFirst(cfg: Config, i: nat)
    requires i < |Schedule(cfg)| && cfg.area.None?
    ensures i == 0 ==>
      ExpectedRow(cfg, i).annualCo2eAdj == ExpectedRow(cfg, i).annualCo2e - (if cfg.deduction != 0.0 then cfg.deduction else 0.0)
    ensures i > 0 ==> ExpectedRow(cfg, i).annualCAdj == ExpectedRow(cfg, i).annualC
  {
    if i == 0 && cfg.deduction != 0.0 {
      var a := RawAnnual(cfg, 0);
      var d := FlagToCarbon(cfg.deduction, cfg.convert);
      CarbonRoundTrip(cfg.deduction, cfg.convert);
      assert FlagToCo2e(a - d, cfg.convert) == FlagToCo2e(a, cfg.convert) - FlagToCo2e(d, cfg.convert);
    }
  }

  /** With the script's own parameters the first period is 60 months after the CEA start,
      its carbon stock is 37970.85, and the forecast has 21 rows. */
  lemma FileFirstRow()
    ensures |Schedule(FileConfig())| == 21
    ensures ExpectedRow(FileConfig(), 0).months == 60
    ensures ExpectedRow(FileConfig(), 0).cpC == 37970.85
    ensures ExpectedRow(FileConfig(), 0).annualCAdj == 37970.85 - 12000.0 * (12.0 / 44.0)
  {
    Schedule4PeriodCount();
    var cfg := FileConfig();
    assert Schedule(cfg)[0] == (cfg.firstStart, cfg.firstEnd);
    CoalaraFirstPeriodStock();
  }
}
