/** The plantation forestry 2020 Schedule 4 forecaster with the deduction-then-discount
    order: the first-period deduction is taken off the raw credit, then the 0.75 permanence
    discount applies to 25-year projects. */
module PfSchedule4 {
  import opened Wrappers
  import opened Dates
  import opened Eq16
  import opened Schedules

  /** The script's parameters (its conversion and area settings are declared but unused). */
  datatype Config = Config(
    cbase: real,                  // CBASE
    clt: real,                    // CLT
    permanenceYears: int,         // PERMANENCE_YEARS
    ceaStart: Date,               // CEA_START
    firstStart: Date,             // FIRST_RP_START
    firstEnd: Date,               // FIRST_RP_END
    lastEnd: Date,                // MODELLING_END_RP_END
    deduction: real)              // FIRST_YEAR_DEDUCTION

  /** The values the script ships with. */
  function FileConfig(): Config {
    Config(596.78, 184419.56, 25, RawDate(2021, 6, 25), RawDate(2025, 10, 31), RawDate(2026, 6, 30),
      RawDate(2046, 6, 30), 12821.0)
  }

  /** One output row (`RPResult`): stock and credit unadjusted, then the adjusted credit. */
  datatype RpResult = RpResult(index: int, start: Date, end: Date, months: int, cpC: real, annualC: real, annualCAdj: real)

  function Schedule(cfg: Config): seq<(Date, Date)> {
    RpSchedule(cfg.firstStart, cfg.firstEnd, cfg.lastEnd)
  }

  function Cp(cfg: Config, i: nat): real
    requires i < |Schedule(cfg)|
  {
    Eq16Cp(cfg.cbase, cfg.clt, MonthsCompleted(cfg.ceaStart, Schedule(cfg)[i].1), PermanenceFactor(cfg.permanenceYears))
  }

  function Annual(cfg: Config, i: nat): real
    requires i < |Schedule(cfg)|
  {
    if i == 0 then Cp(cfg, 0) else Cp(cfg, i) - Cp(cfg, i - 1)
  }

  function Deduction(cfg: Config, i: nat): real {
    if i == 0 && cfg.deduction != 0.0 then cfg.deduction else 0.0
  }

  /** The adjusted credit: deduction first, then the discount. */
  function Adjusted(cfg: Config, i: nat): real
    requires i < |Schedule(cfg)|
  {
    var afterDeduction := Annual(cfg, i) - Deduction(cfg, i);
    if cfg.permanenceYears == 25 then afterDeduction * 0.75 else afterDeduction
  }

  /** Row `i` as the script builds it. */
  function ExpectedRow(cfg: Config, i: nat): RpResult
    requires i < |Schedule(cfg)|
  {
    RpResult(i + 1, Schedule(cfg)[i].0, Schedule(cfg)[i].1,
      MonthsCompleted(cfg.ceaStart, Schedule(cfg)[i].1), Cp(cfg, i), Annual(cfg, i), Adjusted(cfg, i))
  }

  /** The rows the forecast returns, as a sequence. */
  function ExpectedRows(cfg: Config, k: nat): (rows: seq<RpResult>)
    requires k <= |Schedule(cfg)|
    ensures |rows| == k && forall i :: 0 <= i < k ==> rows[i] == ExpectedRow(cfg, i)
  {
    if k == 0 then [] else ExpectedRows(cfg, k - 1) + [ExpectedRow(cfg, k - 1)]
  }

  function SumAdjusted(rows: seq<RpResult>): real {
    if rows == [] then 0.0 else SumAdjusted(rows[..|rows| - 1]) + rows[|rows| - 1].annualCAdj
  }

  /** One pass of the `forecast()` loop: row `i` from the schedule entry and the previous
      stock. */
  method ForecastStep(cfg: Config, period: (Date, Date), dpp: real, i: nat, prevCpC: Option<real>)
    returns (row: RpResult)
    requires i < |Schedule(cfg)| && period == Schedule(cfg)[i]
    requires dpp == PermanenceFactor(cfg.permanenceYears)
    requires prevCpC == if i == 0 then None else Some(Cp(cfg, i - 1))
    ensures row == ExpectedRow(cfg, i)
  {
    var (rpStart, rpEnd) := period;
    var n := MonthsCompleted(cfg.ceaStart, rpEnd);
    var cpCRaw := Eq16Cp(cfg.cbase, cfg.clt, n, dpp);
    var annualCRaw := if prevCpC.None? then cpCRaw else cpCRaw - prevCpC.value;
    var annualAfterFirstDeduction := annualCRaw;
    if i + 1 == 1 && cfg.deduction != 0.0 {
      annualAfterFirstDeduction := annualCRaw - cfg.deduction;
    }
    var annualCAdj;
    if cfg.permanenceYears == 25 {
      annualCAdj := annualAfterFirstDeduction * 0.75;
    } else {
      annualCAdj := annualAfterFirstDeduction;
    }
    assert cpCRaw == Cp(cfg, i);
    assert annualCRaw == Annual(cfg, i);
    assert annualAfterFirstDeduction == Annual(cfg, i) - Deduction(cfg, i);
    row := RpResult(i + 1, rpStart, rpEnd, n, cpCRaw, annualCRaw, annualCAdj);
  }

  /** `forecast()`. The script also accumulates the adjusted credits in a local `cum_c_adj`
      that it never reports; it is the ghost out-parameter here. */
  method Forecast(cfg: Config) returns (results: seq<RpResult>, ghost cumCAdj: real)
    ensures |results| == |Schedule(cfg)|
    ensures forall i :: 0 <= i < |results| ==> results[i] == ExpectedRow(cfg, i)
    ensures cumCAdj == SumAdjusted(results)
  {
    var schedule := GenerateRpSchedule(cfg.firstStart, cfg.firstEnd, cfg.lastEnd);
    var dpp := PermanenceFactor(cfg.permanenceYears);
    results := [];
    var prevCpC: Option<real> := None;
    cumCAdj := 0.0;
    var i := 0;
    while i < |schedule|
      invariant 0 <= i <= |schedule|
      invariant schedule == Schedule(cfg)
      invariant results == ExpectedRows(cfg, i)
      invariant prevCpC == if i == 0 then None else Some(Cp(cfg, i - 1))
      invariant cumCAdj == SumAdjusted(results)
    {
      var row := ForecastStep(cfg, schedule[i], dpp, i, prevCpC);
      cumCAdj := cumCAdj + row.annualCAdj;
      assert (results + [row])[..i] == results;
      results := results + [row];
      prevCpC := Some(row.cpC);
      i := i + 1;
    }
  }

  /** For a 25-year project the first adjusted credit is (stock - deduction) * 0.75 and every
      later one (stock - previous stock) * 0.75. */
  lemma AdjustedCredit(cfg: Config, i: nat)
    requires i < |Schedule(cfg)| && cfg.permanenceYears == 25
    ensures i == 0 ==> Adjusted(cfg, i) == (Cp(cfg, 0) - cfg.deduction) * 0.75
    ensures i > 0 ==> Adjusted(cfg, i) == (Cp(cfg, i) - Cp(cfg, i - 1)) * 0.75
  {
  }

  /** The deduction comes off before the discount: a first credit equal to the deduction
      leaves nothing, whatever the discount. */
  lemma DeductionBeforeDiscount(cfg: Config)
    requires 0 < |Schedule(cfg)| && Annual(cfg, 0) == cfg.deduction
    ensures Adjusted(cfg, 0) == 0.0
  {
  }

  /** The adjusted credits of the first `k + 1` periods add up to the discounted stock of
      period `k` less the discounted deduction. */
  lemma {:induction false} AdjustedTotal(cfg: Config, rows: seq<RpResult>, k: nat)
    requires |rows| == |Schedule(cfg)| && k < |rows|
    requires forall i :: 0 <= i < |rows| ==> rows[i].annualCAdj == Adjusted(cfg, i)
    ensures SumAdjusted(rows[..k + 1]) ==
      (Cp(cfg, k) - Deduction(cfg, 0)) * (if cfg.permanenceYears == 25 then 0.75 else 1.0)
  {
    assert rows[..k + 1][..k] == rows[..k];
    if k > 0 {
      AdjustedTotal(cfg, rows, k - 1);
    } else {
      assert rows[..1][..0] == [];
    }
  }

  /** With the script's own parameters there are 21 periods; the first (60 months after the
      CEA start) has stock 46552.475 and, after the 12821 deduction and the discount, an
      adjusted credit of 25298.60625. */
  lemma FileFirstRow()
    ensures |Schedule(FileConfig())| == 21
    ensures ExpectedRow(FileConfig(), 0).months == 60
    ensures ExpectedRow(FileConfig(), 0).cpC == 46552.475
    ensures ExpectedRow(FileConfig(), 0).annualCAdj == 25298.60625
  {
    Schedule4PeriodCount();
    var cfg := FileConfig();
    assert Schedule(cfg)[0] == (cfg.firstStart, cfg.firstEnd);
    CoalaraFirstPeriodMonths();
  }
}
