/** The Coalara calculator: for each of 25 first-of-month reporting periods it reads the
    FullCAM date and the recalculated stock from the workbook and issues ACCUs under a
    ratchet, so that the running total only ever rises to the latest calculated amount.
    There are two blocks: the permanent-stand method (v1) and the rotation method (v2),
    which first subtracts the column-E values of every CEA sheet from the stock. Money is
    held in integer cents. */
module CoalaraCalc {
  import opened Wrappers
  import opened Text
  import opened Dates
  import opened DateText
  import opened Cells
  import opened Schedules

  /** `round(x, 2)` in cents, rounding halves up. */
  function RoundCents(x: real): int {
    (100.0 * x + 0.5).Floor
  }

  /** An amount that is already whole cents rounds to itself. */
  lemma RoundWholeCents(c: int)
    ensures RoundCents(c as real / 100.0) == c
  {
    assert 100.0 * (c as real / 100.0) + 0.5 == c as real + 0.5;
  }

  function MaxReal(a: real, b: real): real {
    if b > a then b else a
  }

  /** `calc_accu = round(net_abatement * 0.75, 2)`. */
  function CalcCents(net: real): int {
    RoundCents(net * 0.75)
  }

  /** `issued_accu = round(max(0, calc_accu - accumulated_accu), 2)`. */
  function IssuedCents(calculated: int, accumulated: int): int {
    RoundCents(MaxReal(0.0, (calculated - accumulated) as real / 100.0))
  }

  /** The ratchet: the issued amount is never negative, and the running total afterwards is
      the larger of the previous total and the calculated amount. */
  lemma Ratchet(calculated: int, accumulated: int)
    ensures IssuedCents(calculated, accumulated) >= 0
    ensures IssuedCents(calculated, accumulated) == if calculated > accumulated then calculated - accumulated else 0
    ensures accumulated + IssuedCents(calculated, accumulated) == if calculated > accumulated then calculated else accumulated
  {
    if calculated > accumulated {
      RoundWholeCents(calculated - accumulated);
    } else {
      RoundWholeCents(0);
      assert MaxReal(0.0, (calculated - accumulated) as real / 100.0) == 0 as real / 100.0;
    }
  }

  /** The base-year net abatement that replaces the first period's stock. */
  const BASE_NET: real := 2247.62

  /** `net_abatement`: fixed in the first period, the stock less the running total later. */
  function NetAbatement(yearIdx: nat, stock: real, accumulated: int): real {
    if yearIdx == 0 then BASE_NET else stock - accumulated as real / 100.0
  }

  /** The FullCAM date cell: a `datetime` is used as it is, anything else goes through
      `strptime(str(v), "%d/%m/%Y")`, whose failure aborts the period. */
  function FullcamDateOf(v: Value): Option<Date> {
    if v.DateTime? then Some(v.date) else Strptime(ToStr(v), DayMonthYearSlash)
  }

  /** The running totals the loop carries: the accumulated ACCUs in cents, the CEA row to
      read next and the summary rows so far. */
  datatype State<R> = State(accumulated: int, rowIdx: int, rows: seq<R>)

  /** A period that appends nothing: only the row index moves on. */
  function Skip<R>(st: State<R>): State<R> {
    st.(rowIdx := st.rowIdx + 12)
  }

  /** `k` passes of the loop body `step` from `init`. */
  function Run<R>(step: (nat, State<R>) -> State<R>, init: State<R>, k: nat): State<R> {
    if k == 0 then init else step(k - 1, Run(step, init, k - 1))
  }

  /** The sum of `f` over `rows`. */
  function SumBy<R>(rows: seq<R>, f: R -> int): int {
    if rows == [] then 0 else SumBy(rows[..|rows| - 1], f) + f(rows[|rows| - 1])
  }

  /** What one pass of either loop does to the totals: the CEA row moves on by 12, and
      either nothing is appended and the total stays, or one row is appended whose issued
      amount is non-negative and added to the total. */
  predicate Advances<R(==)>(st: State<R>, st': State<R>, issued: R -> int) {
    st'.rowIdx == st.rowIdx + 12
    && ((st'.rows == st.rows && st'.accumulated == st.accumulated)
        || (|st'.rows| == |st.rows| + 1 && st'.rows[..|st.rows|] == st.rows
            && issued(st'.rows[|st.rows|]) >= 0
            && st'.accumulated == st.accumulated + issued(st'.rows[|st.rows|])))
  }

  /** A loop whose every pass advances the totals, started from nothing: after `k` passes
      the row index moved by 12k and the total is the non-negative sum of the issued
      amounts of the rows. */
  lemma {:induction false} RunFacts<R>(step: (nat, State<R>) -> State<R>, init: State<R>, issued: R -> int, n: nat, k: nat)
    requires k <= n && init.accumulated == 0 && init.rows == []
    requires forall y: nat, st: State<R> :: y < n ==> Advances(st, step(y, st), issued)
    ensures Run(step, init, k).rowIdx == init.rowIdx + 12 * k
    ensures Run(step, init, k).accumulated == SumBy(Run(step, init, k).rows, issued)
    ensures Run(step, init, k).accumulated >= 0
  {
    if k > 0 {
      RunFacts(step, init, issued, n, k - 1);
      var st := Run(step, init, k - 1);
      var st' := Run(step, init, k);
      assert Advances(st, st', issued);
      if st'.rows != st.rows {
        assert st'.rows[..|st'.rows| - 1] == st.rows;
      }
    }
  }

  /** In such a loop the total never decreases from one pass to a later one. */
  lemma {:induction false} RunMonotone<R>(step: (nat, State<R>) -> State<R>, init: State<R>, issued: R -> int,
                                          n: nat, j: nat, k: nat)
    requires j <= k <= n
    requires forall y: nat, st: State<R> :: y < n ==> Advances(st, step(y, st), issued)
    ensures Run(step, init, j).accumulated <= Run(step, init, k).accumulated
    decreases k
  {
    if j < k {
      RunMonotone(step, init, issued, n, j, k - 1);
      assert Advances(Run(step, init, k - 1), Run(step, init, k), issued);
    }
  }

  /** The start and end dates of a period, parsed back from the stored strings. */
  function PairDates(pair: (string, string)): Option<(Date, Date)> {
    var s := Strptime(pair.0, YearMonthDayDash);
    var e := Strptime(pair.1, YearMonthDayDash);
    if s.Some? && e.Some? then Some((s.value, e.value)) else None
  }

  // ---------------------------------------------------------------- v1: permanent stand

  /** What the v1 workbook shows: column A of the CEA01 sheet by row, and `Summary!D30`
      after the recalculation of each period (0-based). */
  datatype WorkbookV1 = WorkbookV1(ceaA: int -> Value, d30: nat -> Value)

  /** One v1 summary row: year, start and end text, FullCAM date text, the stock and the
      net abatement (rounded only when written out), then the calculated and the issued
      ACCUs in cents. */
  datatype SummaryRow = SummaryRow(
    year: string, startText: string, endText: string, fullcamText: string,
    stock: real, net: real, calcCents: int, issuedCents: int)

  /** One pass of the v1 loop body. */
  function StepV1(wb: WorkbookV1, pairs: seq<(string, string)>, y: nat, st: State<SummaryRow>): State<SummaryRow>
    requires y < |pairs|
  {
    var dates := PairDates(pairs[y]);
    if dates.None? then Skip(st)
    else
      var fc := FullcamDateOf(wb.ceaA(st.rowIdx));
      if fc.None? then Skip(st)
      else
        var raw := wb.d30(y);
        if raw.Blank? then Skip(st)
        else
          match ToFloat(raw)
          case None => Skip(st)
          case Some(stock) => IssueV1(st, y, pairs[y], dates.value.0, fc.value, stock)
  }

  /** A v1 period that reached the abatement logic: netted, discounted, ratcheted and
      appended. */
  function IssueV1(st: State<SummaryRow>, y: nat, pair: (string, string), start: Date, fullcam: Date,
                   stock: real): State<SummaryRow>
  {
    var net := NetAbatement(y, stock, st.accumulated);
    var calculated := CalcCents(net);
    var issued := IssuedCents(calculated, st.accumulated);
    var row := SummaryRow(YearText(start.year), pair.0, pair.1, DmyText(fullcam), stock, net, calculated, issued);
    State(st.accumulated + issued, st.rowIdx + 12, st.rows + [row])
  }

  /** The abatement logic of a v1 period: net abatement, the discounted and rounded
      calculated amount, the ratcheted issue, and the summary row. */
  method AbatementV1(accumulated: int, rowIdx: int, summaryRows: seq<SummaryRow>, y: nat,
                     pair: (string, string), start: Date, fullcam: Date, stock: real)
    returns (accumulated': int, summaryRows': seq<SummaryRow>)
    ensures State(accumulated', rowIdx + 12, summaryRows') ==
      IssueV1(State(accumulated, rowIdx, summaryRows), y, pair, start, fullcam, stock)
  {
    var net := NetAbatement(y, stock, accumulated);
    var calculated := CalcCents(net);
    var issued := IssuedCents(calculated, accumulated);
    accumulated' := accumulated + issued;
    summaryRows' := summaryRows + [SummaryRow(YearText(start.year), pair.0, pair.1, DmyText(fullcam),
      stock, net, calculated, issued)];
  }

  /** The loop body as a step function of the period index and the totals. */
  function StepOfV1(wb: WorkbookV1, pairs: seq<(string, string)>): (nat, State<SummaryRow>) -> State<SummaryRow> {
    (y: nat, st: State<SummaryRow>) => if y < |pairs| then StepV1(wb, pairs, y, st) else Skip(st)
  }

  /** The v1 loop after its first `k` periods. */
  function RunV1(wb: WorkbookV1, pairs: seq<(string, string)>, k: nat): State<SummaryRow>
    requires k <= |pairs|
  {
    Run(StepOfV1(wb, pairs), State(0, 2, []), k)
  }

  /** The v1 block: the 25 date pairs, then the period loop. A parse failure or a
      non-numeric stock is an exception the loop catches; a blank stock skips the period. */
  method CalculatorV1(wb: WorkbookV1, projectStart: Date, numYears: int)
    returns (pairs: seq<(string, string)>, accumulated: int, rowIdx: int, summaryRows: seq<SummaryRow>)
    ensures |pairs| == if numYears > 0 then numYears else 0
    ensures forall i :: 0 <= i < |pairs| ==>
      pairs[i] == (IsoText(CoalaraStart(projectStart, i)), IsoText(CoalaraEnd(projectStart, i)))
    ensures State(accumulated, rowIdx, summaryRows) == RunV1(wb, pairs, |pairs|)
  {
    pairs := CoalaraDatePairs(projectStart, numYears);
    accumulated, rowIdx, summaryRows := PeriodLoopV1(wb, pairs);
  }

  /** The period loop of the v1 block over the given date pairs. */
  method PeriodLoopV1(wb: WorkbookV1, pairs: seq<(string, string)>)
    returns (accumulated: int, rowIdx: int, summaryRows: seq<SummaryRow>)
    ensures State(accumulated, rowIdx, summaryRows) == RunV1(wb, pairs, |pairs|)
  {
    accumulated, rowIdx, summaryRows := 0, 2, [];
    for y := 0 to |pairs|
      invariant State(accumulated, rowIdx, summaryRows) == RunV1(wb, pairs, y)
    {
      ghost var next := StepV1(wb, pairs, y, State(accumulated, rowIdx, summaryRows));
      assert RunV1(wb, pairs, y + 1) == next;
      var dates := PairDates(pairs[y]);
      if dates.Some? {
        var fullcamDate := FullcamDateOf(wb.ceaA(rowIdx));
        if fullcamDate.Some? {
          var currentStock := wb.d30(y);
          if currentStock.Blank? {
            rowIdx := rowIdx + 12;
            assert State(accumulated, rowIdx, summaryRows) == next;
            continue;
          }
          var stock := ToFloat(currentStock);
          if stock.Some? {
            accumulated, summaryRows := AbatementV1(accumulated, rowIdx, summaryRows, y, pairs[y],
              dates.value.0, fullcamDate.value, stock.value);
            assert State(accumulated, rowIdx + 12, summaryRows) == next;
          } else {
            assert State(accumulated, rowIdx + 12, summaryRows) == next;
          }
        } else {
          assert State(accumulated, rowIdx + 12, summaryRows) == next;
        }
      } else {
        assert State(accumulated, rowIdx + 12, summaryRows) == next;
      }
      rowIdx := rowIdx + 12;
    }
  }

  // ---------------------------------------------------------------- v2: rotation method

  /** A CEA sheet of the v2 workbook: its columns A and E by row. */
  datatype CeaSheet = CeaSheet(colA: int -> Value, colE: int -> Value)

  /** What the v2 workbook shows: its CEA sheets in order, and `Summary!D30` after the
      recalculation of each period. */
  datatype WorkbookV2 = WorkbookV2(ceaSheets: seq<CeaSheet>, d30: nat -> Value)

  /** One v2 summary row: as in v1, with the CEA deduction and the adjusted stock. */
  datatype SummaryRowV2 = SummaryRowV2(
    year: string, startText: string, endText: string, fullcamText: string,
    stock: real, deduction: real, adjusted: real, net: real, calcCents: int, issuedCents: int)

  /** What one column-E cell adds to the deduction: a blank adds nothing, and so does a
      value `float()` rejects (the loop moves on to the next sheet). */
  function Numeric(v: Value): real {
    if v.Blank? then 0.0 else match ToFloat(v) case Some(x) => x case None => 0.0
  }

  /** The sum of the numeric column-E values at `row` over `sheets`. */
  function DeductionSum(sheets: seq<CeaSheet>, row: int): real {
    if sheets == [] then 0.0 else DeductionSum(sheets[..|sheets| - 1], row) + Numeric(sheets[|sheets| - 1].colE(row))
  }

  /** The `deduction_total` loop over the CEA sheets. */
  method DeductionTotal(sheets: seq<CeaSheet>, row: int) returns (total: real)
    ensures total == DeductionSum(sheets, row)
  {
    total := 0.0;
    var j := 0;
    while j < |sheets|
      invariant 0 <= j <= |sheets|
      invariant total == DeductionSum(sheets[..j], row)
    {
      assert sheets[..j + 1][..j] == sheets[..j];
      var v := sheets[j].colE(row);
      if v.Blank? {
        total := total + 0.0;
      } else {
        var x := ToFloat(v);
        if x.Some? {
          total := total + x.value;
        }
      }
      j := j + 1;
    }
    assert sheets[..j] == sheets;
  }

  /** Cells that are not numbers leave the deduction as it is: with only blank or text
      cells that `float()` rejects, nothing is deducted. */
  lemma {:induction false} NonNumericIgnored(sheets: seq<CeaSheet>, row: int)
    requires forall j :: 0 <= j < |sheets| ==> sheets[j].colE(row).Blank? || ToFloat(sheets[j].colE(row)).None?
    ensures DeductionSum(sheets, row) == 0.0
  {
    if sheets != [] {
      NonNumericIgnored(sheets[..|sheets| - 1], row);
    }
  }

  /** The deduction is the sum over the sheets: adding a sheet adds its numeric value. */
  lemma DeductionAppend(sheets: seq<CeaSheet>, s: CeaSheet, row: int)
    ensures DeductionSum(sheets + [s], row) == DeductionSum(sheets, row) + Numeric(s.colE(row))
  {
    assert (sheets + [s])[..|sheets|] == sheets;
  }

  /** One pass of the v2 loop body; with no CEA sheet, `cea_sheets[0]` raises. */
  function StepV2(wb: WorkbookV2, pairs: seq<(string, string)>, y: nat, st: State<SummaryRowV2>): State<SummaryRowV2>
    requires y < |pairs|
  {
    var dates := PairDates(pairs[y]);
    if dates.None? || |wb.ceaSheets| == 0 then Skip(st)
    else
      var fc := FullcamDateOf(wb.ceaSheets[0].colA(st.rowIdx));
      if fc.None? then Skip(st)
      else
        var raw := wb.d30(y);
        if raw.Blank? then Skip(st)
        else
          match ToFloat(raw)
          case None => Skip(st)
          case Some(stock) =>
            IssueV2(st, y, pairs[y], dates.value.0, fc.value, stock, DeductionSum(wb.ceaSheets, st.rowIdx))
  }

  /** A v2 period that reached the abatement logic: the stock less the deduction, netted,
      discounted, ratcheted and appended. */
  function IssueV2(st: State<SummaryRowV2>, y: nat, pair: (string, string), start: Date, fullcam: Date,
                   stock: real, deduction: real): State<SummaryRowV2>
  {
    var adjusted := stock - deduction;
    var net := NetAbatement(y, adjusted, st.accumulated);
    var calculated := CalcCents(net);
    var issued := IssuedCents(calculated, st.accumulated);
    var row := SummaryRowV2(YearText(start.year), pair.0, pair.1, DmyText(fullcam),
      stock, deduction, adjusted, net, calculated, issued);
    State(st.accumulated + issued, st.rowIdx + 12, st.rows + [row])
  }

  /** The abatement logic of a v2 period: adjusted stock, net abatement, the discounted and
      rounded calculated amount, the ratcheted issue, and the summary row. */
  method AbatementV2(accumulated: int, rowIdx: int, summaryRows: seq<SummaryRowV2>, y: nat,
                   pair: (string, string), start: Date, fullcam: Date, stock: real, deduction: real)
    returns (accumulated': int, summaryRows': seq<SummaryRowV2>)
    ensures State(accumulated', rowIdx + 12, summaryRows') ==
      IssueV2(State(accumulated, rowIdx, summaryRows), y, pair, start, fullcam, stock, deduction)
  {
    var adjusted := stock - deduction;
    var net := NetAbatement(y, adjusted, accumulated);
    var calculated := CalcCents(net);
    var issued := IssuedCents(calculated, accumulated);
    accumulated' := accumulated + issued;
    summaryRows' := summaryRows + [SummaryRowV2(YearText(start.year), pair.0, pair.1, DmyText(fullcam),
      stock, deduction, adjusted, net, calculated, issued)];
  }

  /** The loop body as a step function of the period index and the totals. */
  function StepOfV2(wb: WorkbookV2, pairs: seq<(string, string)>): (nat, State<SummaryRowV2>) -> State<SummaryRowV2> {
    (y: nat, st: State<SummaryRowV2>) => if y < |pairs| then StepV2(wb, pairs, y, st) else Skip(st)
  }

  /** The v2 loop after its first `k` periods. */
  function RunV2(wb: WorkbookV2, pairs: seq<(string, string)>, k: nat): State<SummaryRowV2>
    requires k <= |pairs|
  {
    Run(StepOfV2(wb, pairs), State(0, 3, []), k)
  }

  /** The v2 block. */
  method CalculatorV2(wb: WorkbookV2, projectStart: Date, numYears: int)
    returns (pairs: seq<(string, string)>, accumulated: int, rowIdx: int, summaryRows: seq<SummaryRowV2>)
    ensures |pairs| == if numYears > 0 then numYears else 0
    ensures forall i :: 0 <= i < |pairs| ==>
      pairs[i] == (IsoText(CoalaraStart(projectStart, i)), IsoText(CoalaraEnd(projectStart, i)))
    ensures State(accumulated, rowIdx, summaryRows) == RunV2(wb, pairs, |pairs|)
  {
    pairs := CoalaraDatePairs(projectStart, numYears);
    accumulated, rowIdx, summaryRows := PeriodLoopV2(wb, pairs);
  }

  /** The period loop of the v2 block over the given date pairs. */
  method PeriodLoopV2(wb: WorkbookV2, pairs: seq<(string, string)>)
    returns (accumulated: int, rowIdx: int, summaryRows: seq<SummaryRowV2>)
    ensures State(accumulated, rowIdx, summaryRows) == RunV2(wb, pairs, |pairs|)
  {
    accumulated, rowIdx, summaryRows := 0, 3, [];
    for y := 0 to |pairs|
      invariant State(accumulated, rowIdx, summaryRows) == RunV2(wb, pairs, y)
    {
      ghost var next := StepV2(wb, pairs, y, State(accumulated, rowIdx, summaryRows));
      assert RunV2(wb, pairs, y + 1) == next;
      var dates := PairDates(pairs[y]);
      if dates.Some? && |wb.ceaSheets| > 0 {
        var fullcamDate := FullcamDateOf(wb.ceaSheets[0].colA(rowIdx));
        if fullcamDate.Some? {
          var currentStock := wb.d30(y);
          if currentStock.Blank? {
            rowIdx := rowIdx + 12;
            assert State(accumulated, rowIdx, summaryRows) == next;
            continue;
          }
          var stock := ToFloat(currentStock);
          if stock.Some? {
            var deduction := DeductionTotal(wb.ceaSheets, rowIdx);
            ghost var issuedState := IssueV2(State(accumulated, rowIdx, summaryRows), y, pairs[y],
              dates.value.0, fullcamDate.value, stock.value, deduction);
            assert next == issuedState;
            accumulated, summaryRows := AbatementV2(accumulated, rowIdx, summaryRows, y, pairs[y],
              dates.value.0, fullcamDate.value, stock.value, deduction);
            assert State(accumulated, rowIdx + 12, summaryRows) == issuedState;
          } else {
            assert State(accumulated, rowIdx + 12, summaryRows) == next;
          }
        } else {
          assert State(accumulated, rowIdx + 12, summaryRows) == next;
        }
      } else {
        assert State(accumulated, rowIdx + 12, summaryRows) == next;
      }
      rowIdx := rowIdx + 12;
    }
  }

  // ---------------------------------------------------------------- properties

  /** Every v1 period moves the CEA row on by exactly 12, and either appends one row whose
      issued amount is non-negative, raising the total to the larger of the old total and
      the calculated amount, or appends nothing and leaves the total unchanged. */
  lemma StepV1Spec(wb: WorkbookV1, pairs: seq<(string, string)>, y: nat, st: State<SummaryRow>)
    requires y < |pairs|
    ensures StepV1(wb, pairs, y, st).rowIdx == st.rowIdx + 12
    ensures var st' := StepV1(wb, pairs, y, st);
      (st'.rows == st.rows && st'.accumulated == st.accumulated)
      || (|st'.rows| == |st.rows| + 1 && st'.rows[..|st.rows|] == st.rows
          && var row := st'.rows[|st.rows|];
          row.issuedCents >= 0
          && st'.accumulated == st.accumulated + row.issuedCents
          && st'.accumulated == (if row.calcCents > st.accumulated then row.calcCents else st.accumulated))
  {
    var st' := StepV1(wb, pairs, y, st);
    if |st'.rows| != |st.rows| {
      var row := st'.rows[|st.rows|];
      Ratchet(row.calcCents, st.accumulated);
      assert st'.rows[..|st.rows|] == st.rows;
    }
  }

  /** The same for v2. */
  lemma StepV2Spec(wb: WorkbookV2, pairs: seq<(string, string)>, y: nat, st: State<SummaryRowV2>)
    requires y < |pairs|
    ensures StepV2(wb, pairs, y, st).rowIdx == st.rowIdx + 12
    ensures var st' := StepV2(wb, pairs, y, st);
      (st'.rows == st.rows && st'.accumulated == st.accumulated)
      || (|st'.rows| == |st.rows| + 1 && st'.rows[..|st.rows|] == st.rows
          && var row := st'.rows[|st.rows|];
          row.issuedCents >= 0
          && st'.accumulated == st.accumulated + row.issuedCents
          && st'.accumulated == (if row.calcCents > st.accumulated then row.calcCents else st.accumulated))
  {
    var st' := StepV2(wb, pairs, y, st);
    if |st'.rows| != |st.rows| {
      var row := st'.rows[|st.rows|];
      Ratchet(row.calcCents, st.accumulated);
      assert st'.rows[..|st.rows|] == st.rows;
    }
  }

  /** A blank stock reading skips the period: no row, the same total. */
  lemma BlankStockSkipsV1(wb: WorkbookV1, pairs: seq<(string, string)>, y: nat, st: State<SummaryRow>)
    requires y < |pairs| && wb.d30(y).Blank?
    ensures StepV1(wb, pairs, y, st) == Skip(st)
  {
  }

  lemma BlankStockSkipsV2(wb: WorkbookV2, pairs: seq<(string, string)>, y: nat, st: State<SummaryRowV2>)
    requires y < |pairs| && wb.d30(y).Blank?
    ensures StepV2(wb, pairs, y, st) == Skip(st)
  {
  }

  /** With no CEA sheet every v2 period is skipped. */
  lemma NoCeaSheetSkips(wb: WorkbookV2, pairs: seq<(string, string)>, y: nat, st: State<SummaryRowV2>)
    requires y < |pairs| && wb.ceaSheets == []
    ensures StepV2(wb, pairs, y, st) == Skip(st)
  {
  }

  /** The sum of the issued amounts of `rows`. */
  function IssuedV1(r: SummaryRow): int {
    r.issuedCents
  }

  function SumIssued(rows: seq<SummaryRow>): int {
    SumBy(rows, IssuedV1)
  }

  function IssuedV2(r: SummaryRowV2): int {
    r.issuedCents
  }

  function SumIssuedV2(rows: seq<SummaryRowV2>): int {
    SumBy(rows, IssuedV2)
  }

  /** After `k` v1 periods the CEA row is 2 + 12k, the total is the sum of the issued
      amounts of the rows written, and it is never negative. */
  lemma RunV1Spec(wb: WorkbookV1, pairs: seq<(string, string)>, k: nat)
    requires k <= |pairs|
    ensures RunV1(wb, pairs, k).rowIdx == 2 + 12 * k
    ensures RunV1(wb, pairs, k).accumulated == SumIssued(RunV1(wb, pairs, k).rows)
    ensures RunV1(wb, pairs, k).accumulated >= 0
  {
    StepsAdvanceV1(wb, pairs);
    RunFacts(StepOfV1(wb, pairs), State(0, 2, []), IssuedV1, |pairs|, k);
  }

  /** Every pass of the V1 loop advances the totals. */
  lemma StepsAdvanceV1(wb: WorkbookV1, pairs: seq<(string, string)>)
    ensures forall y: nat, st: State<SummaryRow> :: y < |pairs| ==> Advances(st, StepOfV1(wb, pairs)(y, st), IssuedV1)
  {
    forall y: nat, st: State<SummaryRow> | y < |pairs|
      ensures Advances(st, StepOfV1(wb, pairs)(y, st), IssuedV1)
    {
      StepV1Spec(wb, pairs, y, st);
    }
  }

  /** The running total never decreases from one period to a later one. */
  lemma RunV1Monotone(wb: WorkbookV1, pairs: seq<(string, string)>, j: nat, k: nat)
    requires j <= k <= |pairs|
    ensures RunV1(wb, pairs, j).accumulated <= RunV1(wb, pairs, k).accumulated
  {
    StepsAdvanceV1(wb, pairs);
    RunMonotone(StepOfV1(wb, pairs), State(0, 2, []), IssuedV1, |pairs|, j, k);
  }

  /** After `k` v2 periods the CEA row is 3 + 12k and the total is the sum of the issued
      amounts, never negative. */
  lemma RunV2Spec(wb: WorkbookV2, pairs: seq<(string, string)>, k: nat)
    requires k <= |pairs|
    ensures RunV2(wb, pairs, k).rowIdx == 3 + 12 * k
    ensures RunV2(wb, pairs, k).accumulated == SumIssuedV2(RunV2(wb, pairs, k).rows)
    ensures RunV2(wb, pairs, k).accumulated >= 0
  {
    StepsAdvanceV2(wb, pairs);
    RunFacts(StepOfV2(wb, pairs), State(0, 3, []), IssuedV2, |pairs|, k);
  }

  /** Every pass of the V2 loop advances the totals. */
  lemma StepsAdvanceV2(wb: WorkbookV2, pairs: seq<(string, string)>)
    ensures forall y: nat, st: State<SummaryRowV2> :: y < |pairs| ==> Advances(st, StepOfV2(wb, pairs)(y, st), IssuedV2)
  {
    forall y: nat, st: State<SummaryRowV2> | y < |pairs|
      ensures Advances(st, StepOfV2(wb, pairs)(y, st), IssuedV2)
    {
      StepV2Spec(wb, pairs, y, st);
    }
  }

  /** The running total never decreases from one period to a later one. */
  lemma RunV2Monotone(wb: WorkbookV2, pairs: seq<(string, string)>, j: nat, k: nat)
    requires j <= k <= |pairs|
    ensures RunV2(wb, pairs, j).accumulated <= RunV2(wb, pairs, k).accumulated
  {
    StepsAdvanceV2(wb, pairs);
    RunMonotone(StepOfV2(wb, pairs), State(0, 3, []), IssuedV2, |pairs|, j, k);
  }

  /** A v2 period that writes a row had a CEA sheet and a numeric stock, and its abatement
      starts from the stock less the numeric column-E values of every CEA sheet on the
      period's row. */
  lemma AdjustedStockV2(wb: WorkbookV2, pairs: seq<(string, string)>, y: nat, st: State<SummaryRowV2>)
    requires y < |pairs|
    requires |StepV2(wb, pairs, y, st).rows| == |st.rows| + 1
    ensures |wb.ceaSheets| > 0 && PairDates(pairs[y]).Some? && ToFloat(wb.d30(y)).Some?
    ensures FullcamDateOf(wb.ceaSheets[0].colA(st.rowIdx)).Some?
    ensures StepV2(wb, pairs, y, st) == IssueV2(st, y, pairs[y], PairDates(pairs[y]).value.0,
      FullcamDateOf(wb.ceaSheets[0].colA(st.rowIdx)).value, ToFloat(wb.d30(y)).value,
      DeductionSum(wb.ceaSheets, st.rowIdx))
  {
  }

  /** The first period's net abatement is the fixed 2247.62, whatever the stock, so with
      nothing issued yet the model issues its whole calculated amount, 168572 cents. The
      script's `round` acts on the binary product 2247.62 * 0.75, which lies just below
      1685.715, and gives 1685.71. */
  lemma FirstPeriodV1(wb: WorkbookV1, pairs: seq<(string, string)>)
    requires 0 < |pairs| && |StepV1(wb, pairs, 0, State(0, 2, [])).rows| == 1
    ensures StepV1(wb, pairs, 0, State(0, 2, [])).rows[0].net == 2247.62
    ensures StepV1(wb, pairs, 0, State(0, 2, [])).rows[0].calcCents == 168572
    ensures StepV1(wb, pairs, 0, State(0, 2, [])).rows[0].issuedCents == 168572
  {
    assert 100.0 * (BASE_NET * 0.75) + 0.5 == 168572.0;
    assert (168572.0).Floor == 168572;
    Ratchet(168572, 0);
  }

  lemma FirstPeriodV2(wb: WorkbookV2, pairs: seq<(string, string)>)
    requires 0 < |pairs| && |StepV2(wb, pairs, 0, State(0, 3, [])).rows| == 1
    ensures StepV2(wb, pairs, 0, State(0, 3, [])).rows[0].net == 2247.62
    ensures StepV2(wb, pairs, 0, State(0, 3, [])).rows[0].calcCents == 168572
    ensures StepV2(wb, pairs, 0, State(0, 3, [])).rows[0].issuedCents == 168572
  {
    assert 100.0 * (BASE_NET * 0.75) + 0.5 == 168572.0;
    assert (168572.0).Floor == 168572;
    Ratchet(168572, 0);
  }

  /** The stored date strings of the script's own periods (2021 to 2046) always parse back,
      so those periods never fail on them. */
  lemma FilePairsParse(i: nat)
    requires i < 25
    ensures PairDates((IsoText(CoalaraStart(RawDate(2021, 6, 25), i)), IsoText(CoalaraEnd(RawDate(2021, 6, 25), i))))
      == Some((CoalaraStart(RawDate(2021, 6, 25), i), CoalaraEnd(RawDate(2021, 6, 25), i)))
  {
    var ps := RawDate(2021, 6, 25);
    CoalaraContiguous(ps, i);
    CoalaraContiguous(ps, i + 1);
    AddDaysOrdinal(CoalaraEnd(ps, i), 1);
    BeforeOrdinal(CoalaraEnd(ps, i), CoalaraStart(ps, i + 1));
    assert CoalaraEnd(ps, i).year <= CoalaraStart(ps, i + 1).year;
    CoalaraPairsParse(ps, i);
  }
}
