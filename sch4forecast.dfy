/** The Schedule 4 forecaster with the issuance discount (`forecast` of the plantation
    forestry 2020 Schedule 4 script): per reporting period the Equation 16 stock, its change
    since the previous period, and the issued units after the discount and the first-period
    deduction. */
module Sch4Forecast {
  import opened Wrappers
  import opened Text
  import opened Dates
  import opened Eq16
  import opened Schedules

  /** The script's parameters. */
  datatype Config = Config(
    cbase: real,                  // CBASE
    clt: real,                    // CLT
    permanenceYears: int,         // PERMANENCE_YEARS
    ceaStart: Date,               // CEA_START
    firstStart: Date,             // FIRST_RP_START
    firstEnd: Date,               // FIRST_RP_END
    lastEnd: Date,                // LAST_RP_END
    firstYearDeduction: real,     // FIRST_YEAR_DEDUCTION_ISSUED
    inputUnits: string,           // INPUT_UNITS
    areaHa: Option<real>)         // AREA_HA

  /** The values the script ships with. */
  function FileConfig(): Config {
    Config(418.14, 149697.25, 25, RawDate(2021, 6, 25), RawDate(2025, 10, 31), RawDate(2026, 6, 30),
      RawDate(2046, 6, 30), 12821.0, "CO2E", None)
  }

  /** One output row (`RPRow`). */
  datatype RpRow = RpRow(index: int, start: Date, end: Date, months: int, cp: real, deltaCp: real, issued: real)

  /** The inputs converted to CO2-e and scaled by the area, or the unit error. */
  function ScaledInputs(cfg: Config): (r: Result<(real, real)>)
    ensures r.Ok? <==> UnitsToCo2e(cfg.cbase, cfg.inputUnits).Ok?
    ensures r.Ok? ==> r.value == (MaybeArea(UnitsToCo2e(cfg.cbase, cfg.inputUnits).value, cfg.areaHa),
                                  MaybeArea(UnitsToCo2e(cfg.clt, cfg.inputUnits).value, cfg.areaHa))
  {
    match UnitsToCo2e(cfg.cbase, cfg.inputUnits)
    case Err(m) => Err(m)
    case Ok(b) =>
      var l := UnitsToCo2e(cfg.clt, cfg.inputUnits).value;
      Ok((MaybeArea(b, cfg.areaHa), MaybeArea(l, cfg.areaHa)))
  }

  /** The deduction taken off the issued units of period `i` (0-based): the configured
      amount in the first period when it is non-zero, nothing otherwise. */
  function DeductionAt(cfg: Config, i: nat): real {
    if i == 0 && cfg.firstYearDeduction != 0.0 then cfg.firstYearDeduction else 0.0
  }

  /** Row `i` follows the script: the months from the CEA start to the period end, the
      Equation 16 stock for them, the change from the previous row's stock (the first row's
      change is its whole stock), and the issued units. */
  predicate RowOk(cfg: Config, cbase: real, clt: real, sched: seq<(Date, Date)>, rows: seq<RpRow>, i: nat)
    requires i < |rows| && |rows| <= |sched|
  {
    var f := PermanenceFactor(cfg.permanenceYears);
    rows[i].index == i + 1
    && rows[i].start == sched[i].0 && rows[i].end == sched[i].1
    && rows[i].months == MonthsCompleted(cfg.ceaStart, sched[i].1)
    && rows[i].cp == Eq16Cp(cbase, clt, rows[i].months, f)
    && rows[i].deltaCp == (if i == 0 then rows[i].cp else rows[i].cp - rows[i - 1].cp)
    && rows[i].issued == rows[i].deltaCp * f - DeductionAt(cfg, i)
  }

  predicate RowsOk(cfg: Config, cbase: real, clt: real, sched: seq<(Date, Date)>, rows: seq<RpRow>) {
    |rows| == |sched| && forall i :: 0 <= i < |rows| ==> RowOk(cfg, cbase, clt, sched, rows, i)
  }

  /** The unit conversion and area scaling at the top of `forecast()`. */
  method ScaleInputs(cfg: Config) returns (r: Result<(real, real)>)
    ensures r == ScaledInputs(cfg)
  {
    var b := UnitsToCo2e(cfg.cbase, cfg.inputUnits);
    if b.Err? {
      return Err(b.msg);
    }
    var l := UnitsToCo2e(cfg.clt, cfg.inputUnits);
    var cbase, clt := b.value, l.value;
    if cfg.areaHa.Some? {
      cbase := cbase * cfg.areaHa.value;
      clt := clt * cfg.areaHa.value;
    }
    assert l.Ok?;
    assert cbase == MaybeArea(b.value, cfg.areaHa);
    assert clt == MaybeArea(l.value, cfg.areaHa);
    return Ok((cbase, clt));
  }

  /** One pass of the `forecast()` loop: row `i` from its period and the previous stock. */
  method ForecastStep(cfg: Config, cbase: real, clt: real, schedule: seq<(Date, Date)>, rows: seq<RpRow>,
                      prevCp: Option<real>)
    returns (rows': seq<RpRow>)
    requires |rows| < |schedule|
    requires forall j :: 0 <= j < |rows| ==> RowOk(cfg, cbase, clt, schedule, rows, j)
    requires prevCp == if |rows| == 0 then None else Some(rows[|rows| - 1].cp)
    ensures |rows'| == |rows| + 1 && rows'[..|rows|] == rows
    ensures forall j :: 0 <= j < |rows'| ==> RowOk(cfg, cbase, clt, schedule, rows', j)
  {
    var i := |rows|;
    var (rpStart, rpEnd) := schedule[i];
    var dpp := PermanenceFactor(cfg.permanenceYears);
    var n := MonthsCompleted(cfg.ceaStart, rpEnd);
    var cp := Eq16Cp(cbase, clt, n, dpp);
    var deltaCp := if prevCp.None? then cp else cp - prevCp.value;
    var issued := deltaCp * dpp;
    if i + 1 == 1 && cfg.firstYearDeduction != 0.0 {
      issued := issued - cfg.firstYearDeduction;
    }
    rows' := rows + [RpRow(i + 1, rpStart, rpEnd, n, cp, deltaCp, issued)];
    assert rows'[..i] == rows;
    assert RowOk(cfg, cbase, clt, schedule, rows', i);
    forall j | 0 <= j < i
      ensures RowOk(cfg, cbase, clt, schedule, rows', j)
    {
      assert RowOk(cfg, cbase, clt, schedule, rows, j);
      assert rows'[j] == rows[j];
      assert j > 0 ==> rows'[j - 1] == rows[j - 1];
    }
  }

  /** `forecast()`: a unit error is raised before any row is built; otherwise one row per
      scheduled period. */
  method Forecast(cfg: Config) returns (r: Result<seq<RpRow>>)
    ensures r.Ok? <==> ScaledInputs(cfg).Ok?
    ensures r.Ok? ==> RowsOk(cfg, ScaledInputs(cfg).value.0, ScaledInputs(cfg).value.1,
                             RpSchedule(cfg.firstStart, cfg.firstEnd, cfg.lastEnd), r.value)
  {
    var inputs := ScaleInputs(cfg);
    if inputs.Err? {
      return Err(inputs.msg);
    }
    var (cbase, clt) := inputs.value;
    var schedule := GenerateRpSchedule(cfg.firstStart, cfg.firstEnd, cfg.lastEnd);
    var rows: seq<RpRow> := [];
    var prevCp: Option<real> := None;
    while |rows| < |schedule|
      invariant |rows| <= |schedule|
      invariant forall j :: 0 <= j < |rows| ==> RowOk(cfg, cbase, clt, schedule, rows, j)
      invariant prevCp == if |rows| == 0 then None else Some(rows[|rows| - 1].cp)
      decreases |schedule| - |rows|
    {
      rows := ForecastStep(cfg, cbase, clt, schedule, rows, prevCp);
      prevCp := Some(rows[|rows| - 1].cp);
    }
    return Ok(rows);
  }

  /** Sum of the stock changes of `rows`. */
  function SumDelta(rows: seq<RpRow>): real {
    if rows == [] then 0.0 else SumDelta(rows[..|rows| - 1]) + rows[|rows| - 1].deltaCp
  }

  /** Sum of the issued units of `rows`. */
  function SumIssued(rows: seq<RpRow>): real {
    if rows == [] then 0.0 else SumIssued(rows[..|rows| - 1]) + rows[|rows| - 1].issued
  }

  /** The stock changes telescope: over the first `k + 1` rows they add up to row `k`'s
      stock, and the issued units to the discounted stock less the first-period deduction. */
  lemma {:induction false} Telescoping(cfg: Config, cbase: real, clt: real, sched: seq<(Date, Date)>, rows: seq<RpRow>, k: nat)
    requires RowsOk(cfg, cbase, clt, sched, rows) && k < |rows|
    ensures SumDelta(rows[..k + 1]) == rows[k].cp
    ensures SumIssued(rows[..k + 1]) == rows[k].cp * PermanenceFactor(cfg.permanenceYears) - DeductionAt(cfg, 0)
  {
    assert RowOk(cfg, cbase, clt, sched, rows, k);
    if k > 0 {
      Telescoping(cfg, cbase, clt, sched, rows, k - 1);
      assert rows[..k + 1][..k] == rows[..k];
      assert rows[..k + 1][k] == rows[k];
    } else {
      assert rows[..1][..0] == [];
    }
  }

  /** When the long-term stock is at least the baseline, no period after the first has a
      negative stock change (the schedule's ends only move later). */
  lemma DeltaNonNegative(cfg: Config, cbase: real, clt: real, rows: seq<RpRow>, i: nat)
    requires RowsOk(cfg, cbase, clt, RpSchedule(cfg.firstStart, cfg.firstEnd, cfg.lastEnd), rows)
    requires clt >= cbase && 0 < i < |rows|
    ensures rows[i].deltaCp >= 0.0
  {
    var sched := RpSchedule(cfg.firstStart, cfg.firstEnd, cfg.lastEnd);
    assert RowOk(cfg, cbase, clt, sched, rows, i);
    assert RowOk(cfg, cbase, clt, sched, rows, i - 1);
    RpScheduleSteps(cfg.firstStart, cfg.firstEnd, cfg.lastEnd);
    assert sched[i].1 == AddYears(sched[i - 1].1, 1);
    LaterYearBefore(sched[i - 1].1, sched[i].1);
    MonthsMonotone(cfg.ceaStart, sched[i - 1].1, sched[i].1);
    Eq16Monotone(cbase, clt, rows[i - 1].months, rows[i].months, PermanenceFactor(cfg.permanenceYears));
  }

  /** With the script's own parameters the first period (60 months after the CEA start)
      has stock 37737.9175 and issues 15482.438125 units after the 12821 deduction. */
  lemma FileFirstRow(rows: seq<RpRow>)
    requires RowsOk(FileConfig(), 418.14, 149697.25,
      RpSchedule(FileConfig().firstStart, FileConfig().firstEnd, FileConfig().lastEnd), rows)
    ensures ScaledInputs(FileConfig()) == Ok((418.14, 149697.25))
    ensures |rows| == 21
    ensures rows[0].months == 60 && rows[0].cp == 37737.9175 && rows[0].issued == 15482.438125
  {
    var cfg := FileConfig();
    Schedule4PeriodCount();
    Co2eUnitKeepsValue(cfg.cbase);
    Co2eUnitKeepsValue(cfg.clt);
    var sched := RpSchedule(cfg.firstStart, cfg.firstEnd, cfg.lastEnd);
    assert sched[0] == (cfg.firstStart, cfg.firstEnd);
    assert RowOk(cfg, 418.14, 149697.25, sched, rows, 0);
  }
}
