/** The Schedule 1 anniversary-year forecaster: per anniversary reporting period it picks a
    FullCAM date near the period end, has the workbook recalculate (re-reading the result a
    few times while it is blank) and keeps a running total of the calculated ACCUs. */
module Sch1 {
  import opened Wrappers
  import opened Text
  import opened Dates
  import opened DateText
  import opened Cells
  import opened Schedules

  /** The script's settings (`READ_CARBON_STOCK` is on, so the stock cell is always read). */
  datatype Config = Config(
    projectStart: Date,           // PROJECT_START_DATE
    horizonYears: int,            // HORIZON_YEARS
    toleranceDays: int,           // FULLCAM_TOLERANCE_DAYS
    recalcRetries: int)           // RECALC_RETRIES

  function FileConfig(): Config {
    Config(RawDate(2022, 6, 25), 25, 5, 2)
  }

  /** What the workbook shows: column A of the CEA01 sheet, and the values `Summary!D30` and
      `Calculations!A28` read on each attempt of each period (0-based period, 0-based attempt),
      after the period's inputs were written and the workbook recalculated. */
  datatype Workbook = Workbook(
    fullcamColumn: seq<Value>,
    accusRead: (nat, nat) -> Value,
    stockRead: (nat, nat) -> Value)

  /** The date formats tried on text, in order. */
  function DateFormats(): seq<Format> {
    [DayMonthYearSlash, YearMonthDayDash, DayMonthYearDash, MonthDayYearSlash]
  }

  /** `parse_excel_date(v)`: `None` for an empty cell, the date of a `datetime` or `date`, and
      otherwise the first format that parses the stripped text, or `None` when none does. */
  function ParseExcelDate(v: Value): (r: Option<Date>)
    ensures IsNoneOrEmpty(v) ==> r.None?
    ensures (v.DateTime? || v.DateOnly?) ==> r == Some(v.date)
    ensures r.Some? && !v.DateTime? && !v.DateOnly? ==>
      exists i :: 0 <= i < |DateFormats()| && Strptime(Strip(ToStr(v)), DateFormats()[i]) == r
  {
    if IsNoneOrEmpty(v) then None
    else match v
    case DateTime(d) => Some(d)
    case DateOnly(d) => Some(d)
    case _ => TryFormats(Strip(ToStr(v)), DateFormats())
  }

  /** Text without surrounding white space goes straight to the format loop. */
  lemma ParseTrimmedText(t: string)
    requires t != [] && !IsSpace(t[0]) && !IsSpace(t[|t| - 1])
    ensures ParseExcelDate(Str(t)) == TryFormats(t, DateFormats())
  {
    StripTrimmed(t);
  }

  /** A date the script itself writes as `dd/mm/yyyy` text is read back as that date. */
  lemma ParseDmyText(d: Date)
    requires 1 <= d.year <= 9999
    ensures ParseExcelDate(Str(DmyText(d))) == Some(d)
  {
    DmyRoundTrip(d);
    ParseTrimmedText(DmyText(d));
  }

  /** So is the ISO text of a date converted to a string: the `dd/mm/yyyy` format fails on
      it (it has no `/`) and `%Y-%m-%d` parses it. */
  lemma ParseIsoText(d: Date)
    requires 1 <= d.year <= 9999
    ensures ParseExcelDate(Str(IsoText(d))) == Some(d)
  {
    var t := IsoText(d);
    assert t != [] && !IsSpace(t[0]) && !IsSpace(t[|t| - 1]) by {
      IsoTextShape(d);
    }
    assert TryFormats(t, DateFormats()) == Some(d) by {
      assert Strptime(t, DayMonthYearSlash).None? by {
        IsoTextShape(d);
        NoSeparatorFails(t, DayMonthYearSlash);
      }
      assert Strptime(t, YearMonthDayDash) == Some(d) by {
        IsoRoundTrip(d);
      }
      assert DateFormats()[1..] == [YearMonthDayDash, DayMonthYearDash, MonthDayYearSlash];
    }
    ParseTrimmedText(t);
  }

  /** `safe_float(v)`: `None` for an empty cell or where `float(v)` raises. */
  function SafeFloat(v: Value): (r: Option<real>)
    ensures IsNoneOrEmpty(v) ==> r.None?
    ensures !IsNoneOrEmpty(v) ==> r == ToFloat(v)
  {
    if IsNoneOrEmpty(v) then None else ToFloat(v)
  }

  /** Integers, numbers and booleans always convert; dates never do. */
  lemma SafeFloatKinds(v: Value)
    ensures v.Int? ==> SafeFloat(v) == Some(v.i as real)
    ensures v.Number? ==> SafeFloat(v) == Some(v.x)
    ensures v.Bool? ==> SafeFloat(v).Some?
    ensures (v.DateTime? || v.DateOnly? || v.Blank?) ==> SafeFloat(v).None?
  {
  }

  /** The dates of a column, in order, leaving out the cells that do not parse. */
  function FullcamDates(col: seq<Value>): (ds: seq<Date>)
    ensures |ds| <= |col|
  {
    if col == [] then []
    else
      var rest := FullcamDates(col[..|col| - 1]);
      match ParseExcelDate(col[|col| - 1])
      case Some(d) => rest + [d]
      case None => rest
  }

  /** `load_fullcam_dates`: every parsed date is kept (a `date` is always truthy). */
  method LoadFullcamDates(col: seq<Value>) returns (dates: seq<Date>)
    ensures dates == FullcamDates(col)
  {
    dates := [];
    var j := 0;
    while j < |col|
      invariant 0 <= j <= |col|
      invariant dates == FullcamDates(col[..j])
    {
      assert col[..j + 1][..j] == col[..j];
      var d := ParseExcelDate(col[j]);
      if d.Some? {
        dates := dates + [d.value];
      }
      j := j + 1;
    }
    assert col[..j] == col;
  }

  function Abs(x: int): nat {
    if x < 0 then -x else x
  }

  /** `abs((d - target).days)`. */
  function Diff(d: Date, target: Date): nat {
    Abs(Ordinal(d) - Ordinal(target))
  }

  /** The search loop of `find_nearest_fullcam_date` over any distance: the first entry
      that is within the tolerance and strictly closer than every earlier one within it. */
  function BestBy<T>(ds: seq<T>, dist: T -> int, tol: int): Option<T> {
    if ds == [] then None
    else
      var best := BestBy(ds[..|ds| - 1], dist, tol);
      var d := ds[|ds| - 1];
      if dist(d) <= tol && (best.None? || dist(d) < dist(best.value)) then Some(d)
      else best
  }

  /** The distance in days to `target`. */
  function DistanceTo(target: Date): Date -> int {
    (d: Date) => Diff(d, target)
  }

  function BestWithin(ds: seq<Date>, target: Date, tol: int): Option<Date> {
    BestBy(ds, DistanceTo(target), tol)
  }

  /** `find_nearest_fullcam_date(ds, target, tol)`. */
  function Nearest(ds: seq<Date>, target: Date, tol: int): Option<Date> {
    if ds == [] then None
    else if target in ds then Some(target)
    else BestWithin(ds, target, tol)
  }

  /** `find_nearest_fullcam_date`: an empty list gives `None`, a target present in the list
      is returned as it is, and otherwise the loop keeps the closest date within tolerance. */
  method FindNearest(ds: seq<Date>, target: Date, tol: int) returns (r: Option<Date>)
    ensures r == Nearest(ds, target, tol)
  {
    if |ds| == 0 {
      return None;
    }
    if target in ds {
      return Some(target);
    }
    var best: Option<Date> := None;
    var bestAbs := 0;
    var j := 0;
    while j < |ds|
      invariant 0 <= j <= |ds|
      invariant best == BestWithin(ds[..j], target, tol)
      invariant best.Some? ==> bestAbs == Diff(best.value, target)
    {
      assert ds[..j + 1][..j] == ds[..j];
      var d := ds[j];
      var diff := Abs(Ordinal(d) - Ordinal(target));
      if diff <= tol {
        if best.None? || diff < bestAbs {
          best := Some(d);
          bestAbs := diff;
        }
      }
      j := j + 1;
    }
    assert ds[..j] == ds;
    return best;
  }

  /** What the search loop finds: nothing exactly when no entry is within the tolerance;
      otherwise an entry within it that is at least as close as every entry within it, and
      strictly closer than every one within it before its first occurrence. */
  lemma {:induction false} BestBySpec<T>(ds: seq<T>, dist: T -> int, tol: int)
    ensures BestBy(ds, dist, tol).None? <==> forall j :: 0 <= j < |ds| ==> dist(ds[j]) > tol
    ensures BestBy(ds, dist, tol).Some? ==>
      var b := BestBy(ds, dist, tol).value;
      dist(b) <= tol
      && (forall j :: 0 <= j < |ds| && dist(ds[j]) <= tol ==> dist(b) <= dist(ds[j]))
      && exists k :: (0 <= k < |ds| && ds[k] == b
        && forall j :: 0 <= j < k && dist(ds[j]) <= tol ==> dist(b) < dist(ds[j]))
  {
    if ds != [] {
      var init := ds[..|ds| - 1];
      BestBySpec(init, dist, tol);
      assert forall j :: 0 <= j < |init| ==> init[j] == ds[j];
      var best := BestBy(init, dist, tol);
      var d := ds[|ds| - 1];
      if dist(d) <= tol && (best.None? || dist(d) < dist(best.value)) {
        var k := |ds| - 1;
        assert ds[k] == d;
      } else if best.Some? {
        var k :| 0 <= k < |init| && init[k] == best.value
          && forall j :: 0 <= j < k && dist(init[j]) <= tol ==> dist(best.value) < dist(init[j]);
        assert ds[k] == best.value;
      }
    }
  }

  lemma {:induction false} BestWithinSpec(ds: seq<Date>, target: Date, tol: int)
    ensures BestWithin(ds, target, tol).None? <==> forall j :: 0 <= j < |ds| ==> Diff(ds[j], target) > tol
    ensures BestWithin(ds, target, tol).Some? ==>
      var b := BestWithin(ds, target, tol).value;
      Diff(b, target) <= tol
      && (forall j :: 0 <= j < |ds| && Diff(ds[j], target) <= tol ==> Diff(b, target) <= Diff(ds[j], target))
      && exists k :: (0 <= k < |ds| && ds[k] == b
        && forall j :: 0 <= j < k && Diff(ds[j], target) <= tol ==> Diff(b, target) < Diff(ds[j], target))
  {
    BestBySpec(ds, DistanceTo(target), tol);
    assert forall d :: DistanceTo(target)(d) == Diff(d, target);
  }

  /** The matcher's contract: `None` for an empty list, the target itself when present, and
      otherwise the closest date within tolerance (earliest first on a tie), or `None` when
      no date is within tolerance. */
  lemma NearestSpec(ds: seq<Date>, target: Date, tol: int)
    ensures ds == [] ==> Nearest(ds, target, tol).None?
    ensures target in ds ==> Nearest(ds, target, tol) == Some(target)
    ensures target !in ds ==> Nearest(ds, target, tol) == BestWithin(ds, target, tol)
    ensures target !in ds && Nearest(ds, target, tol).Some? ==>
      Nearest(ds, target, tol).value in ds && Diff(Nearest(ds, target, tol).value, target) <= tol
    ensures target !in ds ==>
      (Nearest(ds, target, tol).None? <==> forall j :: 0 <= j < |ds| ==> Diff(ds[j], target) > tol)
  {
    BestWithinSpec(ds, target, tol);
  }

  /** The FullCAM date used for a period: the date nearest its end, else nearest the day
      after its end, else nearest its start. */
  function FcDate(ds: seq<Date>, start: Date, end: Date, tol: int): Option<Date> {
    match Nearest(ds, end, tol)
    case Some(d) => Some(d)
    case None =>
      match Nearest(ds, AddDays(end, 1), tol)
      case Some(d) => Some(d)
      case None => Nearest(ds, start, tol)
  }

  /** Attempts `a`, `a + 1`, ... up to `n`: how many attempts a loop makes when it stops
      after the first attempt `j` with `ok(j)`, or after the last one. */
  function StopsFrom(ok: nat -> bool, a: nat, n: int): nat
    decreases n - a
  {
    if a >= n then a
    else if ok(a) then a + 1
    else StopsFrom(ok, a + 1, n)
  }

  /** At most `n` attempts; every attempt but the last failed; and when the loop stopped
      before its last attempt, the last one succeeded. */
  lemma {:induction false} StopsFromSpec(ok: nat -> bool, a: nat, n: int)
    requires a <= n
    ensures a <= StopsFrom(ok, a, n) <= n
    ensures a < n ==> a < StopsFrom(ok, a, n)
    ensures forall j :: a <= j < StopsFrom(ok, a, n) - 1 ==> !ok(j)
    ensures StopsFrom(ok, a, n) < n ==> ok(StopsFrom(ok, a, n) - 1)
    decreases n - a
  {
    if a < n && !ok(a) {
      StopsFromSpec(ok, a + 1, n);
    }
  }

  /** Whether the ACCU read of attempt `a` of period `i` converts to a number. */
  function Converts(read: (nat, nat) -> Value, i: nat): nat -> bool {
    (a: nat) => SafeFloat(read(i, a)).Some?
  }

  /** How many reads the retry loop of period `i` makes with `n` attempts allowed. */
  function Attempts(read: (nat, nat) -> Value, i: nat, n: int): nat {
    StopsFrom(Converts(read, i), 0, n)
  }

  lemma AttemptsSpec(read: (nat, nat) -> Value, i: nat, n: int)
    ensures 0 <= Attempts(read, i, n) && (n <= 0 ==> Attempts(read, i, n) == 0)
    ensures n > 0 ==> 1 <= Attempts(read, i, n) <= n
    ensures forall j :: 0 <= j < Attempts(read, i, n) - 1 ==> SafeFloat(read(i, j)).None?
    ensures 0 < Attempts(read, i, n) < n ==> SafeFloat(read(i, Attempts(read, i, n) - 1)).Some?
  {
    if n > 0 {
      StopsFromSpec(Converts(read, i), 0, n);
      forall j | 0 <= j < Attempts(read, i, n) - 1
        ensures SafeFloat(read(i, j)).None?
      {
        assert !Converts(read, i)(j);
      }
      if 0 < Attempts(read, i, n) < n {
        assert Converts(read, i)(Attempts(read, i, n) - 1);
      }
    }
  }

  /** The value of the last read, or `None` when no read was made. */
  function LastRead(read: (nat, nat) -> Value, i: nat, used: nat): Option<real> {
    if used == 0 then None else SafeFloat(read(i, used - 1))
  }

  /** The recalculation loop of one period: `range(RECALC_RETRIES + 1)` attempts, each reading
      both cells, stopping after the first attempt whose ACCU cell converts. */
  method ReadWithRetries(wb: Workbook, i: nat, retries: int) returns (accus: Option<real>, stock: Option<real>)
    ensures accus == LastRead(wb.accusRead, i, Attempts(wb.accusRead, i, retries + 1))
    ensures stock == LastRead(wb.stockRead, i, Attempts(wb.accusRead, i, retries + 1))
  {
    accus, stock := None, None;
    var a := 0;
    var done := false;
    ghost var ok := Converts(wb.accusRead, i);
    while a < retries + 1 && !done
      invariant 0 <= a && (a <= retries + 1 || a == 0)
      invariant !done ==> Attempts(wb.accusRead, i, retries + 1) == StopsFrom(ok, a, retries + 1)
      invariant done ==> Attempts(wb.accusRead, i, retries + 1) == a
      invariant accus == LastRead(wb.accusRead, i, a) && stock == LastRead(wb.stockRead, i, a)
      decreases retries + 1 - a, !done
    {
      accus := SafeFloat(wb.accusRead(i, a));
      stock := SafeFloat(wb.stockRead(i, a));
      assert ok(a) == accus.Some?;
      assert StopsFrom(ok, a, retries + 1) == if accus.Some? then a + 1 else StopsFrom(ok, a + 1, retries + 1);
      if accus.Some? {
        done := true;
      }
      a := a + 1;
    }
  }

  /** One output row (`ForecastRow`). */
  datatype ForecastRow = ForecastRow(
    index: int, start: Date, end: Date, fullcamDateUsed: Date,
    calculatedAccus: Option<real>, cumulativeAccus: Option<real>, carbonStock: Option<real>)

  function NumPeriods(cfg: Config): nat {
    if cfg.horizonYears > 0 then cfg.horizonYears else 0
  }

  /** The FullCAM date found for period `i`, if any. */
  function PeriodFc(cfg: Config, wb: Workbook, i: nat): Option<Date> {
    var p := AnniversaryPeriod(cfg.projectStart, i);
    FcDate(FullcamDates(wb.fullcamColumn), p.0, p.1, cfg.toleranceDays)
  }

  /** The ACCUs read for period `i`; `None` when no FullCAM date was found for it. */
  function PeriodAccus(cfg: Config, wb: Workbook, i: nat): Option<real> {
    AccusGiven(wb, i, cfg.recalcRetries, PeriodFc(cfg, wb, i))
  }

  /** The carbon stock read for period `i`; `None` when no FullCAM date was found for it. */
  function PeriodStock(cfg: Config, wb: Workbook, i: nat): Option<real> {
    StockGiven(wb, i, cfg.recalcRetries, PeriodFc(cfg, wb, i))
  }

  /** The ACCUs read for period `i` once its FullCAM date `fc` is known. */
  function AccusGiven(wb: Workbook, i: nat, retries: int, fc: Option<Date>): Option<real> {
    if fc.None? then None else LastRead(wb.accusRead, i, Attempts(wb.accusRead, i, retries + 1))
  }

  /** The carbon stock read for period `i` once its FullCAM date `fc` is known. */
  function StockGiven(wb: Workbook, i: nat, retries: int, fc: Option<Date>): Option<real> {
    if fc.None? then None else LastRead(wb.stockRead, i, Attempts(wb.accusRead, i, retries + 1))
  }

  function ValueOrZero(x: Option<real>): real {
    if x.Some? then x.value else 0.0
  }

  /** The running total of the readings `acc(0)`, ..., `acc(k - 1)`, a missing reading
      counting as zero. */
  function RunningSum(acc: nat -> Option<real>, k: nat): real {
    if k == 0 then 0.0 else RunningSum(acc, k - 1) + ValueOrZero(acc(k - 1))
  }

  /** Whether any of the readings `acc(0)`, ..., `acc(k - 1)` is present. */
  predicate AnyKnown(acc: nat -> Option<real>, k: nat) {
    k > 0 && (AnyKnown(acc, k - 1) || acc(k - 1).Some?)
  }

  /** The ACCUs of every period. */
  function AccusOf(cfg: Config, wb: Workbook): nat -> Option<real> {
    (i: nat) => PeriodAccus(cfg, wb, i)
  }

  /** `cum` after the first `k` periods. */
  function CumAfter(cfg: Config, wb: Workbook, k: nat): real {
    RunningSum(AccusOf(cfg, wb), k)
  }

  /** `cum_has_value` after the first `k` periods. */
  predicate HasAfter(cfg: Config, wb: Workbook, k: nat) {
    AnyKnown(AccusOf(cfg, wb), k)
  }

  /** The cumulative column after `k` periods. */
  function CumulativeAt(cfg: Config, wb: Workbook, k: nat): Option<real> {
    if HasAfter(cfg, wb, k) then Some(CumAfter(cfg, wb, k)) else None
  }

  /** Row `i` as the loop builds it. */
  function ExpectedRow(cfg: Config, wb: Workbook, i: nat): ForecastRow {
    var p := AnniversaryPeriod(cfg.projectStart, i);
    var fc := PeriodFc(cfg, wb, i);
    ForecastRow(i + 1, p.0, p.1, if fc.Some? then fc.value else p.1,
      PeriodAccus(cfg, wb, i), CumulativeAt(cfg, wb, i + 1), PeriodStock(cfg, wb, i))
  }

  /** The rest of one pass of the period loop once its FullCAM date is known: read the
      results when there is a date, update the running total and build the row. */
  method PeriodStep(wb: Workbook, retries: int, i: nat, rpStart: Date, rpEnd: Date, fcDate: Option<Date>,
                    cum: real, cumHasValue: bool)
    returns (row: ForecastRow, cum': real, cumHasValue': bool)
    ensures row == ForecastRow(i + 1, rpStart, rpEnd, if fcDate.Some? then fcDate.value else rpEnd,
      AccusGiven(wb, i, retries, fcDate), if cumHasValue' then Some(cum') else None, StockGiven(wb, i, retries, fcDate))
    ensures cum' == cum + ValueOrZero(AccusGiven(wb, i, retries, fcDate))
    ensures cumHasValue' == (cumHasValue || AccusGiven(wb, i, retries, fcDate).Some?)
  {
    if fcDate.None? {
      cum', cumHasValue' := cum, cumHasValue;
      row := ForecastRow(i + 1, rpStart, rpEnd, rpEnd, None, if cumHasValue then Some(cum) else None, None);
    } else {
      var accus, carbonStock := ReadWithRetries(wb, i, retries);
      cum', cumHasValue' := Accumulate(cum, cumHasValue, accus);
      row := ForecastRow(i + 1, rpStart, rpEnd, fcDate.value, accus, if cumHasValue' then Some(cum') else None, carbonStock);
    }
  }

  /** Row `i` and the running total after it, in terms of that period's readings and the
      running total before it. */
  lemma RowFromReadings(cfg: Config, wb: Workbook, i: nat, cum: real, cumHasValue: bool)
    requires cum == CumAfter(cfg, wb, i) && cumHasValue == HasAfter(cfg, wb, i)
    ensures CumAfter(cfg, wb, i + 1) == cum + ValueOrZero(PeriodAccus(cfg, wb, i))
    ensures HasAfter(cfg, wb, i + 1) == (cumHasValue || PeriodAccus(cfg, wb, i).Some?)
  {
    assert AccusOf(cfg, wb)(i) == PeriodAccus(cfg, wb, i);
  }

  /** The FullCAM date of one period: the nearest date to the period end, else to the day
      after it, else to the period start. */
  method FindFcDate(dates: seq<Date>, rpStart: Date, rpEnd: Date, tol: int) returns (fcDate: Option<Date>)
    ensures fcDate == FcDate(dates, rpStart, rpEnd, tol)
  {
    fcDate := FindNearest(dates, rpEnd, tol);
    if fcDate.None? {
      fcDate := FindNearest(dates, AddDays(rpEnd, 1), tol);
    }
    if fcDate.None? {
      fcDate := FindNearest(dates, rpStart, tol);
    }
  }

  /** Adding one reading to the running total: a missing reading leaves it as it is. */
  method Accumulate(cum: real, cumHasValue: bool, accus: Option<real>) returns (cum': real, cumHasValue': bool)
    ensures cum' == cum + ValueOrZero(accus)
    ensures cumHasValue' == (cumHasValue || accus.Some?)
  {
    cum', cumHasValue' := cum, cumHasValue;
    if accus.Some? {
      cum' := cum + accus.value;
      cumHasValue' := true;
    }
  }

  /** Row `i` in terms of its FullCAM date and the running total after it. */
  lemma ExpectedRowGiven(cfg: Config, wb: Workbook, i: nat, fc: Option<Date>, cum: real, cumHasValue: bool)
    requires fc == PeriodFc(cfg, wb, i)
    requires cum == CumAfter(cfg, wb, i + 1) && cumHasValue == HasAfter(cfg, wb, i + 1)
    ensures var p := AnniversaryPeriod(cfg.projectStart, i);
      ExpectedRow(cfg, wb, i) == ForecastRow(i + 1, p.0, p.1, if fc.Some? then fc.value else p.1,
        AccusGiven(wb, i, cfg.recalcRetries, fc), if cumHasValue then Some(cum) else None,
        StockGiven(wb, i, cfg.recalcRetries, fc))
  {
  }

  function RowOf(cfg: Config, wb: Workbook): nat -> ForecastRow {
    (i: nat) => ExpectedRow(cfg, wb, i)
  }

  /** The period loop of `run_forecast`, over the anniversary periods and the loaded dates. */
  method PeriodLoop(cfg: Config, wb: Workbook, periods: seq<(Date, Date)>, dates: seq<Date>)
    returns (rows: seq<ForecastRow>)
    requires dates == FullcamDates(wb.fullcamColumn)
    requires forall i :: 0 <= i < |periods| ==> periods[i] == AnniversaryPeriod(cfg.projectStart, i)
    ensures Tabulates(rows, RowOf(cfg, wb), |periods|)
  {
    rows := [];
    var cum := 0.0;
    var cumHasValue := false;
    var i := 0;
    while i < |periods|
      invariant 0 <= i <= |periods|
      invariant Tabulates(rows, RowOf(cfg, wb), i)
      invariant cum == CumAfter(cfg, wb, i) && cumHasValue == HasAfter(cfg, wb, i)
    {
      var (rpStart, rpEnd) := periods[i];
      var fcDate := FindFcDate(dates, rpStart, rpEnd, cfg.toleranceDays);
      assert fcDate == PeriodFc(cfg, wb, i);
      RowFromReadings(cfg, wb, i, cum, cumHasValue);
      var row;
      row, cum, cumHasValue := PeriodStep(wb, cfg.recalcRetries, i, rpStart, rpEnd, fcDate, cum, cumHasValue);
      ExpectedRowGiven(cfg, wb, i, fcDate, cum, cumHasValue);
      TabulatesSnoc(rows, RowOf(cfg, wb), i, row);
      rows := rows + [row];
      i := i + 1;
    }
  }

  /** `run_forecast`: an empty FullCAM column raises before the period loop starts. */
  method RunForecast(cfg: Config, wb: Workbook) returns (r: Result<seq<ForecastRow>>)
    ensures r.Err? <==> FullcamDates(wb.fullcamColumn) == []
    ensures r.Ok? ==> |r.value| == NumPeriods(cfg)
    ensures r.Ok? ==> forall i :: 0 <= i < |r.value| ==> r.value[i] == ExpectedRow(cfg, wb, i)
  {
    var periods := BuildAnniversaryPeriods(cfg.projectStart, cfg.horizonYears);
    var dates := LoadFullcamDates(wb.fullcamColumn);
    if |dates| == 0 {
      return Err("No FullCAM dates found in CEA01 column A.");
    }
    var rows := PeriodLoop(cfg, wb, periods, dates);
    forall i | 0 <= i < |rows|
      ensures rows[i] == ExpectedRow(cfg, wb, i)
    {
      assert rows[i] == RowOf(cfg, wb)(i);
    }
    return Ok(rows);
  }

  /** A period without a FullCAM date has no ACCUs, reports its own end as the date used,
      and carries the running total unchanged. */
  lemma NoDateRow(cfg: Config, wb: Workbook, i: nat)
    requires PeriodFc(cfg, wb, i).None?
    ensures ExpectedRow(cfg, wb, i).calculatedAccus.None?
    ensures ExpectedRow(cfg, wb, i).fullcamDateUsed == AnniversaryPeriod(cfg.projectStart, i).1
    ensures CumAfter(cfg, wb, i + 1) == CumAfter(cfg, wb, i)
    ensures HasAfter(cfg, wb, i + 1) == HasAfter(cfg, wb, i)
  {
  }

  /** The sum of the ACCU values of `rows` that are present. */
  function SumKnown(rows: seq<ForecastRow>): real {
    if rows == [] then 0.0 else SumKnown(rows[..|rows| - 1]) + ValueOrZero(rows[|rows| - 1].calculatedAccus)
  }

  /** When each row reports reading `acc(i)`, the running total of the first `k` readings is
      the sum of the values the first `k` rows report, and one is present exactly when one of
      those rows reports one. */
  lemma {:induction false} RunningSumOfRows(acc: nat -> Option<real>, rows: seq<ForecastRow>, k: nat)
    requires k <= |rows|
    requires forall i :: 0 <= i < |rows| ==> rows[i].calculatedAccus == acc(i)
    ensures RunningSum(acc, k) == SumKnown(rows[..k])
    ensures AnyKnown(acc, k) <==> exists j :: 0 <= j < k && rows[j].calculatedAccus.Some?
  {
    if k > 0 {
      RunningSumOfRows(acc, rows, k - 1);
      assert rows[..k][..k - 1] == rows[..k - 1];
    }
  }

  /** Each row's ACCU value is the period's reading, so `cum` after `k` periods is the sum
      of the values the first `k` rows report. */
  lemma CumIsSumOfRows(cfg: Config, wb: Workbook, rows: seq<ForecastRow>, k: nat)
    requires k <= |rows|
    requires forall i :: 0 <= i < |rows| ==> rows[i].calculatedAccus == PeriodAccus(cfg, wb, i)
    ensures CumAfter(cfg, wb, k) == SumKnown(rows[..k])
    ensures HasAfter(cfg, wb, k) <==> exists j :: 0 <= j < k && rows[j].calculatedAccus.Some?
  {
    var acc := AccusOf(cfg, wb);
    forall i | 0 <= i < |rows|
      ensures rows[i].calculatedAccus == acc(i)
    {
      assert acc(i) == PeriodAccus(cfg, wb, i);
    }
    RunningSumOfRows(acc, rows, k);
  }

  /** The reported cumulative total is `None` until the first period with a value and a
      number from then on: the sum of every value reported so far. */
  lemma CumulativeColumn(cfg: Config, wb: Workbook, rows: seq<ForecastRow>, k: nat)
    requires k < |rows|
    requires forall i :: 0 <= i < |rows| ==> rows[i] == ExpectedRow(cfg, wb, i)
    ensures rows[k].cumulativeAccus.None? <==> forall j :: 0 <= j <= k ==> rows[j].calculatedAccus.None?
    ensures rows[k].cumulativeAccus.Some? ==> rows[k].cumulativeAccus.value == SumKnown(rows[..k + 1])
  {
    assert forall i :: 0 <= i < |rows| ==> rows[i].calculatedAccus == PeriodAccus(cfg, wb, i);
    CumIsSumOfRows(cfg, wb, rows, k + 1);
  }

  /** Once a reading is present it stays counted. */
  lemma {:induction false} AnyKnownStays(acc: nat -> Option<real>, j: nat, k: nat)
    requires j <= k && AnyKnown(acc, j)
    ensures AnyKnown(acc, k)
    decreases k - j
  {
    if j < k {
      AnyKnownStays(acc, j, k - 1);
    }
  }

  /** Once the cumulative total is a number it stays a number. */
  lemma CumulativeStays(cfg: Config, wb: Workbook, j: nat, k: nat)
    requires j <= k && HasAfter(cfg, wb, j)
    ensures HasAfter(cfg, wb, k)
  {
    AnyKnownStays(AccusOf(cfg, wb), j, k);
  }

  /** With the script's settings there are 25 periods; the first runs from 25 June 2022 to
      24 June 2023 and the second starts the day after. */
  lemma FilePeriods()
    ensures NumPeriods(FileConfig()) == 25
    ensures AnniversaryPeriod(FileConfig().projectStart, 0) == (RawDate(2022, 6, 25), RawDate(2023, 6, 24))
    ensures AnniversaryPeriod(FileConfig().projectStart, 1).0 == RawDate(2023, 6, 25)
  {
    var ps := FileConfig().projectStart;
    assert IterYears(ps, 0) == ps;
    assert IterYears(ps, 1) == AddYears(IterYears(ps, 0), 1);
  }
}
