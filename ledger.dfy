/** The ledger append of `add_forecast_to_inventory.py`, written for any choice of the three
    conversions it applies to cell values (`_norm`, `_lower_norm` and `_to_datetime`), which
    `Inventory` supplies: the row lookup in the Declared Projects Portfolio, the header-guarded
    cell write and the loop that appends one inventory row per forecast row with an RP. */
module Ledger {
  import opened Wrappers
  import opened Text
  import opened Dates
  import opened Cells
  import opened Headers

  /** `_norm`, `_lower_norm` and `_to_datetime`. */
  datatype Parsing = Parsing(norm: Value -> string, lowerNorm: Value -> string, toDate: Value -> Option<Date>)

  /** `REQUIRED_INVENTORY_HEADERS`. */
  const RequiredInventoryHeaders: seq<string> := [
    "Name", "Subitems", "Registry ID", "Inventory ID", "Status", "Issuance Status",
    "Days Since (Status)", "Date - Total Amount", "Total Amount (ACCUs)",
    "Realised Amount (ACCUs to CCG)", "Date - Realised Amount", "Forecasted Submission Date",
    "Unit Type", "Application ID", "Reporting Period - Start", "Reporting Period - End",
    "RP", "Delay Flag", "Data Source", "Data Update Date", "Declared Projects Portfolio",
    "Project Number", "Entity", "Proponents", "Methodology", "Business Unit", "Project Stage",
    "Operational Model", "Fee Model", "Number", "Unit", "Item ID", "Key"]

  /** `PORTFOLIO_FIELDS`. */
  const PortfolioFields: seq<string> := [
    "Name", "Subitems", "Registry ID", "Project ID", "Methodology", "Project Stage", "Proponents",
    "Business Unit", "Operational Model", "Fee Model", "Entity", "Number", "Unit"]

  /** `FORECAST_TO_INVENTORY_MAP`, in its insertion order. */
  const ForecastToInventory: seq<(string, string)> := [
    ("RP Number", "RP"), ("RP Start (EOM)", "Reporting Period - Start"),
    ("RP End (EOM)", "Reporting Period - End"), ("ACCUs Realised", "Total Amount (ACCUs)")]

  /** The messages of the errors raised along the way. */
  function MissingColumnMsg(headerName: string, title: string): string {
    "Could not find column '" + headerName + "' in sheet '" + title + "'."
  }

  function MissingFieldMsg(field: string): string {
    "Declared Projects Portfolio missing required column '" + field + "'."
  }

  function BadRpEndMsg(r: int): string {
    "Row " + IntStr(r) + ": RP End (EOM) is missing or not a date."
  }

  /** The header key of forecast column `j` of the map: "RP Number" is column 0 and
      "RP End (EOM)" column 2. */
  function ForecastKey(P: Parsing, j: int): string
    requires 0 <= j < |ForecastToInventory|
  {
    P.lowerNorm(Str(ForecastToInventory[j].0))
  }

  // ---------------------------------------------------------------------------------------
  // `_find_row_by_value`

  /** Rows whose cell in column `col` normalises to `target`. */
  function MatchesAt(norm: Value -> string, cells: map<(int, int), Value>, col: int, target: string): int -> bool {
    (r: int) => norm(CellOf(cells, r, col)) == target
  }

  /** `_find_row_by_value`: a missing column raises, a blank target gives `None`, and otherwise
      the first data row (from row 2) whose value normalises to the target. */
  function FindRow(P: Parsing, cells: map<(int, int), Value>, maxRow: int, headers: map<string, int>,
                   title: string, headerName: string, value: Value): Result<Option<int>>
  {
    var key := P.lowerNorm(Str(headerName));
    if key !in headers then Err(MissingColumnMsg(headerName, title))
    else
      var target := P.norm(value);
      if target == "" then Ok(None)
      else Ok(FirstRow(MatchesAt(P.norm, cells, headers[key], target), 2, maxRow))
  }

  /** `FindRow` raises exactly when the column is missing, gives `None` for a blank target, and
      otherwise finds the first data row holding the target, or `None` when no row holds it. */
  lemma FindRowSpec(P: Parsing, cells: map<(int, int), Value>, maxRow: int, headers: map<string, int>,
                    title: string, headerName: string, value: Value)
    ensures FindRow(P, cells, maxRow, headers, title, headerName, value).Err? <==> P.lowerNorm(Str(headerName)) !in headers
    ensures P.lowerNorm(Str(headerName)) in headers && P.norm(value) == "" ==>
      FindRow(P, cells, maxRow, headers, title, headerName, value) == Ok(None)
    ensures var r := FindRow(P, cells, maxRow, headers, title, headerName, value);
      r.Ok? && r.value.Some? ==>
        var col := headers[P.lowerNorm(Str(headerName))];
        2 <= r.value.value <= maxRow && P.norm(CellOf(cells, r.value.value, col)) == P.norm(value) != ""
        && forall k :: 2 <= k < r.value.value ==> P.norm(CellOf(cells, k, col)) != P.norm(value)
    ensures var r := FindRow(P, cells, maxRow, headers, title, headerName, value);
      r.Ok? && r.value.None? && P.norm(value) != "" ==>
        forall k :: 2 <= k <= maxRow ==> P.norm(CellOf(cells, k, headers[P.lowerNorm(Str(headerName))])) != P.norm(value)
  {
    var key := P.lowerNorm(Str(headerName));
    if key in headers && P.norm(value) != "" {
      var p := MatchesAt(P.norm, cells, headers[key], P.norm(value));
      var found := FirstRow(p, 2, maxRow);
      if found.Some? {
        assert p(found.value);
        forall k | 2 <= k < found.value
          ensures P.norm(CellOf(cells, k, headers[key])) != P.norm(value)
        {
          assert !p(k);
        }
      } else {
        forall k | 2 <= k <= maxRow
          ensures P.norm(CellOf(cells, k, headers[key])) != P.norm(value)
        {
          assert !p(k);
        }
      }
    }
  }

  /** `_find_row_by_value`: the scan over rows `2..max_row`. */
  method FindRowByValue(ws: Sheet, title: string, headers: map<string, int>, headerName: string, value: Value,
                        P: Parsing) returns (r: Result<Option<int>>)
    ensures r == FindRow(P, ws.cells, ws.maxRow, headers, title, headerName, value)
  {
    var key := P.lowerNorm(Str(headerName));
    if key !in headers {
      return Err(MissingColumnMsg(headerName, title));
    }
    var target := P.norm(value);
    if target == "" {
      return Ok(None);
    }
    var col := headers[key];
    ghost var p := MatchesAt(P.norm, ws.cells, col, target);
    var row := 2;
    while row <= ws.maxRow
      invariant row >= 2
      invariant FirstRow(p, 2, ws.maxRow) == FirstRow(p, row, ws.maxRow)
    {
      if P.norm(ws.Cell(row, col)) == target {
        assert p(row);
        return Ok(Some(row));
      }
      assert !p(row);
      row := row + 1;
    }
    r := Ok(None);
  }

  // ---------------------------------------------------------------------------------------
  // `_write`

  /** Every column a header map holds is a real column. */
  predicate ColumnsPositive(headers: map<string, int>) {
    forall k :: k in headers ==> headers[k] >= 1
  }

  /** `_write` on a grid: nothing when the header is not mapped, else the one cell under it. */
  function WriteField(P: Parsing, g: Grid, headers: map<string, int>, row: int, name: string, v: Value): Grid {
    var key := P.lowerNorm(Str(name));
    if key in headers then Put(g, row, headers[key], v) else g
  }

  /** `_write` is a no-op for a header that is not mapped, and otherwise sets exactly the cell in
      row `row` under that header. */
  lemma WriteFieldSpec(P: Parsing, g: Grid, headers: map<string, int>, row: int, name: string, v: Value)
    ensures P.lowerNorm(Str(name)) !in headers ==> WriteField(P, g, headers, row, name, v) == g
    ensures P.lowerNorm(Str(name)) in headers ==>
      var col := headers[P.lowerNorm(Str(name))];
      var h := WriteField(P, g, headers, row, name, v);
      CellOf(h.cells, row, col) == v
      && (forall r, c :: (r, c) != (row, col) ==> CellOf(h.cells, r, c) == CellOf(g.cells, r, c))
      && h.maxRow == Max(g.maxRow, row) && h.maxCol == Max(g.maxCol, col)
  {
    var key := P.lowerNorm(Str(name));
    if key in headers {
      PutCells(g, row, headers[key], v);
    }
  }

  /** `_write`. */
  method Write(ws: Sheet, headers: map<string, int>, row: int, name: string, v: Value, P: Parsing)
    requires ws.Valid() && row >= 1 && ColumnsPositive(headers)
    modifies ws
    ensures ws.Valid() && ws.images == old(ws.images)
    ensures GridOf(ws) == WriteField(P, old(GridOf(ws)), headers, row, name, v)
  {
    var key := P.lowerNorm(Str(name));
    if key !in headers {
      return;
    }
    ws.Write(row, headers[key], v);
  }

  /** The writes `(header, value)` of `ws`, in order, into row `row`. */
  function ApplyWrites(P: Parsing, g: Grid, headers: map<string, int>, row: int, ws: seq<(string, Value)>): Grid
    decreases |ws|
  {
    if ws == [] then g
    else WriteField(P, ApplyWrites(P, g, headers, row, ws[..|ws| - 1]), headers, row, ws[|ws| - 1].0, ws[|ws| - 1].1)
  }

  /** Whether write `w` lands, that is, names a mapped header. */
  predicate Lands(P: Parsing, headers: map<string, int>, w: (string, Value)) {
    P.lowerNorm(Str(w.0)) in headers
  }

  /** Whether write `w` lands in column `c`. */
  predicate Targets(P: Parsing, headers: map<string, int>, w: (string, Value), c: int) {
    Lands(P, headers, w) && headers[P.lowerNorm(Str(w.0))] == c
  }

  lemma ApplyWritesSnoc(P: Parsing, g: Grid, headers: map<string, int>, row: int, ws: seq<(string, Value)>,
                        w: (string, Value))
    ensures ApplyWrites(P, g, headers, row, ws + [w]) == WriteField(P, ApplyWrites(P, g, headers, row, ws), headers, row, w.0, w.1)
  {
    assert (ws + [w])[..|ws|] == ws;
  }

  /** The writes touch no row but their own. */
  lemma {:induction false} ApplyWritesOtherRows(P: Parsing, g: Grid, headers: map<string, int>, row: int,
                                                ws: seq<(string, Value)>, r: int, c: int)
    requires r != row
    ensures CellOf(ApplyWrites(P, g, headers, row, ws).cells, r, c) == CellOf(g.cells, r, c)
    decreases |ws|
  {
    if ws != [] {
      ApplyWritesOtherRows(P, g, headers, row, ws[..|ws| - 1], r, c);
      WriteFieldSpec(P, ApplyWrites(P, g, headers, row, ws[..|ws| - 1]), headers, row, ws[|ws| - 1].0, ws[|ws| - 1].1);
    }
  }

  /** A cell of the row that no write lands in keeps its value. */
  lemma {:induction false} ApplyWritesUntouched(P: Parsing, g: Grid, headers: map<string, int>, row: int,
                                                ws: seq<(string, Value)>, c: int)
    requires forall k :: 0 <= k < |ws| ==> !Targets(P, headers, ws[k], c)
    ensures CellOf(ApplyWrites(P, g, headers, row, ws).cells, row, c) == CellOf(g.cells, row, c)
    decreases |ws|
  {
    if ws != [] {
      var front := ws[..|ws| - 1];
      assert forall k :: 0 <= k < |front| ==> front[k] == ws[k];
      ApplyWritesUntouched(P, g, headers, row, front, c);
      assert !Targets(P, headers, ws[|ws| - 1], c);
      WriteFieldSpec(P, ApplyWrites(P, g, headers, row, front), headers, row, ws[|ws| - 1].0, ws[|ws| - 1].1);
    }
  }

  /** The last write that lands in a column decides that column's cell. */
  lemma {:induction false} ApplyWritesLastWins(P: Parsing, g: Grid, headers: map<string, int>, row: int,
                                               ws: seq<(string, Value)>, j: int, c: int)
    requires 0 <= j < |ws| && Targets(P, headers, ws[j], c)
    requires forall k :: j < k < |ws| ==> !Targets(P, headers, ws[k], c)
    ensures CellOf(ApplyWrites(P, g, headers, row, ws).cells, row, c) == ws[j].1
    decreases |ws|
  {
    var front := ws[..|ws| - 1];
    var last := ws[|ws| - 1];
    WriteFieldSpec(P, ApplyWrites(P, g, headers, row, front), headers, row, last.0, last.1);
    if j < |ws| - 1 {
      assert forall k :: 0 <= k < |front| ==> front[k] == ws[k];
      ApplyWritesLastWins(P, g, headers, row, front, j, c);
      assert !Targets(P, headers, last, c);
    }
  }

  /** The writes reach row `row` exactly when one of them lands; the rows above stay the same. */
  lemma {:induction false} ApplyWritesExtent(P: Parsing, g: Grid, headers: map<string, int>, row: int,
                                             ws: seq<(string, Value)>)
    ensures ApplyWrites(P, g, headers, row, ws).maxRow
      == if exists k :: 0 <= k < |ws| && Lands(P, headers, ws[k]) then Max(g.maxRow, row) else g.maxRow
    decreases |ws|
  {
    if ws != [] {
      var front := ws[..|ws| - 1];
      var last := ws[|ws| - 1];
      assert forall k :: 0 <= k < |front| ==> front[k] == ws[k];
      ApplyWritesExtent(P, g, headers, row, front);
      WriteFieldSpec(P, ApplyWrites(P, g, headers, row, front), headers, row, last.0, last.1);
      if Lands(P, headers, last) {
        assert Lands(P, headers, ws[|ws| - 1]);
      } else if exists k :: 0 <= k < |ws| && Lands(P, headers, ws[k]) {
        var k :| 0 <= k < |ws| && Lands(P, headers, ws[k]);
        assert k < |front| && Lands(P, headers, front[k]);
      }
    }
  }

  /** A cell of the row after the writes depends only on that cell before them. */
  lemma {:induction false} ApplyWritesLocal(P: Parsing, g1: Grid, g2: Grid, headers: map<string, int>, row: int,
                                            ws: seq<(string, Value)>, c: int)
    requires CellOf(g1.cells, row, c) == CellOf(g2.cells, row, c)
    ensures CellOf(ApplyWrites(P, g1, headers, row, ws).cells, row, c) == CellOf(ApplyWrites(P, g2, headers, row, ws).cells, row, c)
    decreases |ws|
  {
    if ws != [] {
      var front := ws[..|ws| - 1];
      var last := ws[|ws| - 1];
      ApplyWritesLocal(P, g1, g2, headers, row, front, c);
      WriteFieldSpec(P, ApplyWrites(P, g1, headers, row, front), headers, row, last.0, last.1);
      WriteFieldSpec(P, ApplyWrites(P, g2, headers, row, front), headers, row, last.0, last.1);
    }
  }

  // ---------------------------------------------------------------------------------------
  // One appended row

  /** The portfolio writes for the first `i` fields: each field's value in the project's row,
      under its own name, except that "Project ID" goes under "Project Number"; a field the
      portfolio lacks raises. */
  function PortfolioWrites(P: Parsing, p: map<(int, int), Value>, pHeaders: map<string, int>, pRow: int, i: int)
    : Result<seq<(string, Value)>>
    requires 0 <= i <= |PortfolioFields|
  {
    if i == 0 then Ok([])
    else match PortfolioWrites(P, p, pHeaders, pRow, i - 1)
      case Err(e) => Err(e)
      case Ok(ws) =>
        var field := PortfolioFields[i - 1];
        var srcKey := P.lowerNorm(Str(field));
        if srcKey !in pHeaders then Err(MissingFieldMsg(field))
        else Ok(ws + [(PortfolioDest(P, field), CellOf(p, pRow, pHeaders[srcKey]))])
  }

  /** The inventory header a portfolio field is written under. */
  function PortfolioDest(P: Parsing, field: string): string {
    if P.lowerNorm(Str(field)) == "project id" then "Project Number" else field
  }

  /** The key of portfolio field `j`. */
  function FieldKey(P: Parsing, j: int): string
    requires 0 <= j < |PortfolioFields|
  {
    P.lowerNorm(Str(PortfolioFields[j]))
  }

  /** The portfolio writes raise exactly when one of the fields is missing from the portfolio. */
  lemma {:induction false} PortfolioWritesOk(P: Parsing, p: map<(int, int), Value>, pHeaders: map<string, int>,
                                             pRow: int, i: int)
    requires 0 <= i <= |PortfolioFields|
    ensures PortfolioWrites(P, p, pHeaders, pRow, i).Ok? <==> forall j :: 0 <= j < i ==> FieldKey(P, j) in pHeaders
  {
    if i > 0 {
      PortfolioWritesOk(P, p, pHeaders, pRow, i - 1);
      if PortfolioWrites(P, p, pHeaders, pRow, i - 1).Err? {
        assert PortfolioWrites(P, p, pHeaders, pRow, i).Err?;
      } else if FieldKey(P, i - 1) !in pHeaders {
        assert PortfolioWrites(P, p, pHeaders, pRow, i).Err?;
      } else {
        assert PortfolioWrites(P, p, pHeaders, pRow, i).Ok?;
      }
    }
  }

  /** Without an error, the `j`-th portfolio write carries field `j`'s value in the project's
      row, under the field's inventory header. */
  lemma {:induction false} PortfolioWritesContents(P: Parsing, p: map<(int, int), Value>, pHeaders: map<string, int>,
                                                   pRow: int, i: int)
    requires 0 <= i <= |PortfolioFields| && PortfolioWrites(P, p, pHeaders, pRow, i).Ok?
    ensures var ws := PortfolioWrites(P, p, pHeaders, pRow, i).value;
      |ws| == i && forall j :: 0 <= j < i ==>
        FieldKey(P, j) in pHeaders
        && ws[j] == (PortfolioDest(P, PortfolioFields[j]), CellOf(p, pRow, pHeaders[FieldKey(P, j)]))
  {
    if i > 0 {
      PortfolioWritesContents(P, p, pHeaders, pRow, i - 1);
    }
  }

  /** An error names the first field missing from the portfolio. */
  lemma {:induction false} PortfolioWritesFirstMissing(P: Parsing, p: map<(int, int), Value>, pHeaders: map<string, int>,
                                                       pRow: int, i: int)
    requires 0 <= i <= |PortfolioFields| && PortfolioWrites(P, p, pHeaders, pRow, i).Err?
    ensures exists j :: (0 <= j < i && FieldKey(P, j) !in pHeaders
      && (forall t :: 0 <= t < j ==> FieldKey(P, t) in pHeaders)
      && PortfolioWrites(P, p, pHeaders, pRow, i).msg
         == MissingFieldMsg(PortfolioFields[j]))
  {
    if PortfolioWrites(P, p, pHeaders, pRow, i - 1).Err? {
      PortfolioWritesFirstMissing(P, p, pHeaders, pRow, i - 1);
    } else {
      PortfolioWritesOk(P, p, pHeaders, pRow, i - 1);
      assert FieldKey(P, i - 1) !in pHeaders;
    }
  }

  /** Once the portfolio writes raise, they raise with the same message to the end. */
  lemma {:induction false} PortfolioErrStays(P: Parsing, p: map<(int, int), Value>, pHeaders: map<string, int>,
                                             pRow: int, i: int, n: int)
    requires 0 <= i <= n <= |PortfolioFields| && PortfolioWrites(P, p, pHeaders, pRow, i).Err?
    ensures PortfolioWrites(P, p, pHeaders, pRow, n) == PortfolioWrites(P, p, pHeaders, pRow, i)
    decreases n
  {
    if n > i {
      PortfolioErrStays(P, p, pHeaders, pRow, i, n - 1);
    }
  }

  /** The forecast writes for the first `i` entries of the forecast-to-inventory map: row `r`'s
      value in each forecast column, under its inventory name. */
  function ForecastWrites(P: Parsing, f: map<(int, int), Value>, fHeaders: map<string, int>, r: int, i: int)
    : seq<(string, Value)>
    requires 0 <= i <= |ForecastToInventory|
    requires ForecastMapped(P, fHeaders)
  {
    if i == 0 then []
    else
      var invName := ForecastToInventory[i - 1].1;
      ForecastWrites(P, f, fHeaders, r, i - 1) + [(invName, CellOf(f, r, fHeaders[ForecastKey(P, i - 1)]))]
  }

  /** The `j`-th forecast write carries row `r`'s value in the `j`-th forecast column, under
      its inventory name. */
  lemma {:induction false} ForecastWritesSpec(P: Parsing, f: map<(int, int), Value>, fHeaders: map<string, int>,
                                              r: int, i: int)
    requires 0 <= i <= |ForecastToInventory| && ForecastMapped(P, fHeaders)
    ensures var ws := ForecastWrites(P, f, fHeaders, r, i);
      |ws| == i && forall j :: 0 <= j < i ==>
        ws[j] == (ForecastToInventory[j].1, CellOf(f, r, fHeaders[ForecastKey(P, j)]))
  {
    if i > 0 {
      ForecastWritesSpec(P, f, fHeaders, r, i - 1);
    }
  }

  /** The derived writes from the RP end date and the run date. */
  function DerivedWrites(rpEnd: Date, runDate: Date): seq<(string, Value)> {
    [("Forecasted Submission Date", DateOnly(AddDays(rpEnd, 2))),
     ("Date - Total Amount", DateOnly(AddDays(rpEnd, 92))),
     ("Status", Str("Forecasted")),
     ("Data Update Date", DateOnly(runDate))]
  }

  /** The inputs every appended row draws on. */
  datatype Inputs = Inputs(f: map<(int, int), Value>, fHeaders: map<string, int>,
                           p: map<(int, int), Value>, pHeaders: map<string, int>, pRow: int, runDate: Date)

  /** The forecast headers the script demands. */
  predicate ForecastMapped(P: Parsing, fHeaders: map<string, int>) {
    forall j :: 0 <= j < |ForecastToInventory| ==> ForecastKey(P, j) in fHeaders
  }

  /** Everything written into the inventory row for forecast row `r`, in order, or the error
      raised on the way: a missing portfolio column, or an RP end that is missing or no date. */
  function RowWrites(P: Parsing, I: Inputs, r: int): Result<seq<(string, Value)>>
    requires ForecastMapped(P, I.fHeaders)
  {
    match PortfolioWrites(P, I.p, I.pHeaders, I.pRow, |PortfolioFields|)
    case Err(e) => Err(e)
    case Ok(pw) =>
      var fw := ForecastWrites(P, I.f, I.fHeaders, r, |ForecastToInventory|);
      match P.toDate(EndCell(P, I, r))
      case None => Err(BadRpEndMsg(r))
      case Some(d) => Ok(pw + fw + DerivedWrites(d, I.runDate))
  }

  /** The cell that holds row `r`'s RP end. */
  function EndCell(P: Parsing, I: Inputs, r: int): Value
    requires ForecastMapped(P, I.fHeaders)
  {
    CellOf(I.f, r, I.fHeaders[ForecastKey(P, 2)])
  }

  /** A row is written exactly when the portfolio has every field and the RP end parses; it
      then gets the portfolio writes, the forecast writes and last the four derived writes. */
  lemma RowWritesSpec(P: Parsing, I: Inputs, r: int)
    requires ForecastMapped(P, I.fHeaders)
    ensures RowWrites(P, I, r).Ok? <==>
      (forall j :: 0 <= j < |PortfolioFields| ==> FieldKey(P, j) in I.pHeaders) && P.toDate(EndCell(P, I, r)).Some?
    ensures RowWrites(P, I, r).Ok? ==>
      var ws := RowWrites(P, I, r).value;
      var n := |PortfolioFields| + |ForecastToInventory|;
      |ws| == n + 4 && ws[..n] == PortfolioWrites(P, I.p, I.pHeaders, I.pRow, |PortfolioFields|).value
        + ForecastWrites(P, I.f, I.fHeaders, r, |ForecastToInventory|)
      && ws[n..] == DerivedWrites(P.toDate(EndCell(P, I, r)).value, I.runDate)
    ensures P.toDate(EndCell(P, I, r)).None? && PortfolioWrites(P, I.p, I.pHeaders, I.pRow, |PortfolioFields|).Ok? ==>
      RowWrites(P, I, r) == Err(BadRpEndMsg(r))
  {
    PortfolioWritesOk(P, I.p, I.pHeaders, I.pRow, |PortfolioFields|);
    var pw := PortfolioWrites(P, I.p, I.pHeaders, I.pRow, |PortfolioFields|);
    if pw.Ok? {
      PortfolioWritesContents(P, I.p, I.pHeaders, I.pRow, |PortfolioFields|);
      ForecastWritesSpec(P, I.f, I.fHeaders, r, |ForecastToInventory|);
    }
  }

  /** The four derived headers are mapped, to four different columns. */
  predicate DerivedDistinct(P: Parsing, iHeaders: map<string, int>) {
    var a := P.lowerNorm(Str("Forecasted Submission Date"));
    var b := P.lowerNorm(Str("Date - Total Amount"));
    var c := P.lowerNorm(Str("Status"));
    var d := P.lowerNorm(Str("Data Update Date"));
    a in iHeaders && b in iHeaders && c in iHeaders && d in iHeaders
    && iHeaders[a] != iHeaders[b] && iHeaders[a] != iHeaders[c] && iHeaders[a] != iHeaders[d]
    && iHeaders[b] != iHeaders[c] && iHeaders[b] != iHeaders[d] && iHeaders[c] != iHeaders[d]
  }

  /** `_ensure_headers` maps the four derived headers to four different columns when their
      keys are non-blank and different. */
  lemma EnsuredHeadersDistinct(P: Parsing, required: seq<string>, g: Grid, ia: int, ib: int, ic: int, id: int)
    requires GridValid(g) && 0 <= ia < |required| && 0 <= ib < |required| && 0 <= ic < |required| && 0 <= id < |required|
    requires required[ia] == "Forecasted Submission Date" && required[ib] == "Date - Total Amount"
    requires required[ic] == "Status" && required[id] == "Data Update Date"
    requires var a, b, c, d := P.lowerNorm(Str("Forecasted Submission Date")), P.lowerNorm(Str("Date - Total Amount")),
                               P.lowerNorm(Str("Status")), P.lowerNorm(Str("Data Update Date"));
      a != "" && b != "" && c != "" && d != "" && a != b && a != c && a != d && b != c && b != d && c != d
    ensures DerivedDistinct(P, EnsuredHeaders(P.lowerNorm, g, required).1)
  {
    var e := EnsuredHeaders(P.lowerNorm, g, required);
    EnsuredHeadersMapped(P.lowerNorm, g, required);
    var ka, kb := P.lowerNorm(Str(required[ia])), P.lowerNorm(Str(required[ib]));
    var kc, kd := P.lowerNorm(Str(required[ic])), P.lowerNorm(Str(required[id]));
    assert ka in e.1 && kb in e.1 && kc in e.1 && kd in e.1;
    PointsAtHeadersInjective(P.lowerNorm, e.1, e.0.cells, 1, e.0.maxCol, ka, kb);
    PointsAtHeadersInjective(P.lowerNorm, e.1, e.0.cells, 1, e.0.maxCol, ka, kc);
    PointsAtHeadersInjective(P.lowerNorm, e.1, e.0.cells, 1, e.0.maxCol, ka, kd);
    PointsAtHeadersInjective(P.lowerNorm, e.1, e.0.cells, 1, e.0.maxCol, kb, kc);
    PointsAtHeadersInjective(P.lowerNorm, e.1, e.0.cells, 1, e.0.maxCol, kb, kd);
    PointsAtHeadersInjective(P.lowerNorm, e.1, e.0.cells, 1, e.0.maxCol, kc, kd);
  }

  /** Row `row` holds the RP end `d` plus 2 days as its forecasted submission date, `d` plus
      92 days as the date of the total amount, status "Forecasted" and `runDate` as its data
      update date. */
  predicate DerivedAt(P: Parsing, g: Grid, iHeaders: map<string, int>, row: int, d: Date, runDate: Date)
    requires DerivedDistinct(P, iHeaders)
  {
    CellOf(g.cells, row, iHeaders[P.lowerNorm(Str("Forecasted Submission Date"))]) == DateOnly(AddDays(d, 2))
    && CellOf(g.cells, row, iHeaders[P.lowerNorm(Str("Date - Total Amount"))]) == DateOnly(AddDays(d, 92))
    && CellOf(g.cells, row, iHeaders[P.lowerNorm(Str("Status"))]) == Str("Forecasted")
    && CellOf(g.cells, row, iHeaders[P.lowerNorm(Str("Data Update Date"))]) == DateOnly(runDate)
  }

  /** With the four derived headers in different columns, a written row holds the RP end plus
      2 days as its forecasted submission date, the RP end plus 92 days as the date of the total
      amount, status "Forecasted" and the run date as its data update date. */
  lemma RowDerivedCells(P: Parsing, I: Inputs, r: int, g: Grid, iHeaders: map<string, int>, row: int)
    requires ForecastMapped(P, I.fHeaders) && RowWrites(P, I, r).Ok? && DerivedDistinct(P, iHeaders)
    ensures P.toDate(EndCell(P, I, r)).Some?
    ensures var d := P.toDate(EndCell(P, I, r)).value;
      var h := ApplyWrites(P, g, iHeaders, row, RowWrites(P, I, r).value);
      DerivedAt(P, h, iHeaders, row, d, I.runDate)
  {
    RowWritesSpec(P, I, r);
    DerivedCells(P, g, iHeaders, row, RowWrites(P, I, r).value, P.toDate(EndCell(P, I, r)).value, I.runDate);
  }

  /** Writes that end with the derived ones leave the derived values in their four columns. */
  lemma DerivedCells(P: Parsing, g: Grid, iHeaders: map<string, int>, row: int, ws: seq<(string, Value)>,
                     d: Date, runDate: Date)
    requires DerivedDistinct(P, iHeaders) && |ws| >= 4 && ws[|ws| - 4..] == DerivedWrites(d, runDate)
    ensures var h := ApplyWrites(P, g, iHeaders, row, ws);
      DerivedAt(P, h, iHeaders, row, d, runDate)
  {
    var n := |ws| - 4;
    var dw := DerivedWrites(d, runDate);
    assert ws[n] == dw[0] && ws[n + 1] == dw[1] && ws[n + 2] == dw[2] && ws[n + 3] == dw[3];
    ApplyWritesLastWins(P, g, iHeaders, row, ws, n, iHeaders[P.lowerNorm(Str("Forecasted Submission Date"))]);
    ApplyWritesLastWins(P, g, iHeaders, row, ws, n + 1, iHeaders[P.lowerNorm(Str("Date - Total Amount"))]);
    ApplyWritesLastWins(P, g, iHeaders, row, ws, n + 2, iHeaders[P.lowerNorm(Str("Status"))]);
    ApplyWritesLastWins(P, g, iHeaders, row, ws, n + 3, iHeaders[P.lowerNorm(Str("Data Update Date"))]);
  }

  // ---------------------------------------------------------------------------------------
  // The append loop

  /** The column of "RP Number" in the forecast sheet. */
  function RpCol(P: Parsing, I: Inputs): int
    requires ForecastMapped(P, I.fHeaders)
  {
    I.fHeaders[ForecastKey(P, 0)]
  }

  /** Whether forecast row `r` has a non-blank RP. */
  predicate HasRp(P: Parsing, I: Inputs, r: int)
    requires ForecastMapped(P, I.fHeaders)
  {
    P.norm(CellOf(I.f, r, RpCol(P, I))) != ""
  }

  /** The append after one more forecast row `k`: a row with a blank RP is skipped, and any
      other row is written at `max_row + 1`. */
  function AppendRow(P: Parsing, I: Inputs, iHeaders: map<string, int>, acc: Result<(Grid, int)>, k: int)
    : Result<(Grid, int)>
    requires ForecastMapped(P, I.fHeaders)
  {
    match acc
    case Err(e) => Err(e)
    case Ok((g, n)) =>
      if !HasRp(P, I, k) then acc
      else match RowWrites(P, I, k)
        case Err(e) => Err(e)
        case Ok(ws) => Ok((ApplyWrites(P, g, iHeaders, g.maxRow + 1, ws), n + 1))
  }

  /** The inventory grid and the count of rows written after forecast rows `2..k`. */
  function Appended(P: Parsing, I: Inputs, iHeaders: map<string, int>, g0: Grid, k: int): Result<(Grid, int)>
    requires ForecastMapped(P, I.fHeaders)
    decreases if k > 1 then k else 0
  {
    if k <= 1 then Ok((g0, 0)) else AppendRow(P, I, iHeaders, Appended(P, I, iHeaders, g0, k - 1), k)
  }

  /** The forecast rows among `2..k` with a non-blank RP, in order. */
  function RpRows(P: Parsing, I: Inputs, k: int): seq<int>
    requires ForecastMapped(P, I.fHeaders)
    decreases if k > 1 then k else 0
  {
    if k <= 1 then [] else RpRows(P, I, k - 1) + (if HasRp(P, I, k) then [k] else [])
  }

  /** `RpRows` lists, in increasing order, exactly the rows of `2..k` with a non-blank RP. */
  lemma {:induction false} RpRowsSpec(P: Parsing, I: Inputs, k: int)
    requires ForecastMapped(P, I.fHeaders)
    ensures forall r :: r in RpRows(P, I, k) <==> 2 <= r <= k && HasRp(P, I, r)
    ensures forall a, b :: 0 <= a < b < |RpRows(P, I, k)| ==> RpRows(P, I, k)[a] < RpRows(P, I, k)[b]
    decreases if k > 1 then k else 0
  {
    if k > 1 {
      RpRowsSpec(P, I, k - 1);
      var rows := RpRows(P, I, k - 1);
      if HasRp(P, I, k) {
        assert RpRows(P, I, k) == rows + [k];
        forall a, b | 0 <= a < b < |RpRows(P, I, k)|
          ensures RpRows(P, I, k)[a] < RpRows(P, I, k)[b]
        {
          assert RpRows(P, I, k)[a] == rows[a] && rows[a] in rows;
          if b < |rows| {
            assert RpRows(P, I, k)[b] == rows[b];
          }
        }
      }
    }
  }

  /** Once the append raises, it raises with the same message to the end. */
  lemma {:induction false} AppendedErrStays(P: Parsing, I: Inputs, iHeaders: map<string, int>, g0: Grid, k: int, n: int)
    requires ForecastMapped(P, I.fHeaders) && k <= n && Appended(P, I, iHeaders, g0, k).Err?
    ensures Appended(P, I, iHeaders, g0, n) == Appended(P, I, iHeaders, g0, k)
    decreases n - k
  {
    if n > k {
      AppendedErrStays(P, I, iHeaders, g0, k, n - 1);
    }
  }

  /** Every forecast row among `2..k` with an RP can be written. */
  predicate RowsWritable(P: Parsing, I: Inputs, k: int)
    requires ForecastMapped(P, I.fHeaders)
  {
    forall j :: 0 <= j < |RpRows(P, I, k)| ==> RowWrites(P, I, RpRows(P, I, k)[j]).Ok?
  }

  /** The append goes through exactly when every row with an RP can be written. */
  lemma {:induction false} AppendedOk(P: Parsing, I: Inputs, iHeaders: map<string, int>, g0: Grid, k: int)
    requires ForecastMapped(P, I.fHeaders)
    ensures Appended(P, I, iHeaders, g0, k).Ok? <==> RowsWritable(P, I, k)
    decreases if k > 1 then k else 0
  {
    if k > 1 {
      AppendedOk(P, I, iHeaders, g0, k - 1);
      RowsWritableStep(P, I, k);
    }
  }

  /** The rows of `2..k` can be written exactly when those of `2..k-1` can and row `k`, if it
      has an RP, can too. */
  lemma RowsWritableStep(P: Parsing, I: Inputs, k: int)
    requires ForecastMapped(P, I.fHeaders) && k > 1
    ensures RowsWritable(P, I, k) <==> RowsWritable(P, I, k - 1) && (HasRp(P, I, k) ==> RowWrites(P, I, k).Ok?)
  {
    var rows := RpRows(P, I, k - 1);
    if HasRp(P, I, k) {
      assert RpRows(P, I, k) == rows + [k];
      assert forall j :: 0 <= j < |rows| ==> RpRows(P, I, k)[j] == rows[j];
      assert RpRows(P, I, k)[|rows|] == k;
    } else {
      assert RpRows(P, I, k) == rows;
    }
  }

  /** An append that goes through adds one row per forecast row with an RP, below the old ones:
      it counts them, the sheet grows by that many rows, and the rows that were there, and those
      below the new ones, do not change. */
  lemma {:induction false} AppendedShape(P: Parsing, I: Inputs, iHeaders: map<string, int>, g0: Grid, k: int)
    requires ForecastMapped(P, I.fHeaders) && P.lowerNorm(Str("Status")) in iHeaders
    requires Appended(P, I, iHeaders, g0, k).Ok?
    ensures var (g, n) := Appended(P, I, iHeaders, g0, k).value;
      n == |RpRows(P, I, k)| && g.maxRow == g0.maxRow + n
      && (forall r, c :: r <= g0.maxRow ==> CellOf(g.cells, r, c) == CellOf(g0.cells, r, c))
      && (forall r, c :: r > g.maxRow ==> CellOf(g.cells, r, c) == CellOf(g0.cells, r, c))
    decreases if k > 1 then k else 0
  {
    if k > 1 {
      AppendedShape(P, I, iHeaders, g0, k - 1);
      var (g, n) := Appended(P, I, iHeaders, g0, k - 1).value;
      if HasRp(P, I, k) {
        AppendOneRow(P, I, iHeaders, g0, g, n, k);
      } else {
        assert RpRows(P, I, k) == RpRows(P, I, k - 1);
      }
    }
  }

  /** The count and the extent `AppendedShape` states, on their own. */
  lemma AppendedCount(P: Parsing, I: Inputs, iHeaders: map<string, int>, g0: Grid, k: int)
    requires ForecastMapped(P, I.fHeaders) && P.lowerNorm(Str("Status")) in iHeaders
    requires Appended(P, I, iHeaders, g0, k).Ok?
    ensures Appended(P, I, iHeaders, g0, k).value.1 == |RpRows(P, I, k)|
    ensures Appended(P, I, iHeaders, g0, k).value.0.maxRow == g0.maxRow + |RpRows(P, I, k)|
  {
    AppendedShape(P, I, iHeaders, g0, k);
  }

  /** The step of `AppendedShape` that writes forecast row `k`. */
  lemma AppendOneRow(P: Parsing, I: Inputs, iHeaders: map<string, int>, g0: Grid, g: Grid, n: int, k: int)
    requires ForecastMapped(P, I.fHeaders) && P.lowerNorm(Str("Status")) in iHeaders && k > 1
    requires HasRp(P, I, k) && RowWrites(P, I, k).Ok?
    requires n == |RpRows(P, I, k - 1)| && g.maxRow == g0.maxRow + n
    requires forall r, c :: r <= g0.maxRow ==> CellOf(g.cells, r, c) == CellOf(g0.cells, r, c)
    requires forall r, c :: r > g.maxRow ==> CellOf(g.cells, r, c) == CellOf(g0.cells, r, c)
    ensures var h := ApplyWrites(P, g, iHeaders, g.maxRow + 1, RowWrites(P, I, k).value);
      n + 1 == |RpRows(P, I, k)| && h.maxRow == g0.maxRow + n + 1
      && (forall r, c :: r <= g0.maxRow ==> CellOf(h.cells, r, c) == CellOf(g0.cells, r, c))
      && (forall r, c :: r > h.maxRow ==> CellOf(h.cells, r, c) == CellOf(g0.cells, r, c))
  {
    var ws := RowWrites(P, I, k).value;
    var row := g.maxRow + 1;
    RowWritesSpec(P, I, k);
    var s := |PortfolioFields| + |ForecastToInventory| + 2;
    assert ws[s] == ("Status", Str("Forecasted"));
    assert Lands(P, iHeaders, ws[s]);
    ApplyWritesExtent(P, g, iHeaders, row, ws);
    var h := ApplyWrites(P, g, iHeaders, row, ws);
    forall r, c | r != row
      ensures CellOf(h.cells, r, c) == CellOf(g.cells, r, c)
    {
      ApplyWritesOtherRows(P, g, iHeaders, row, ws, r, c);
    }
  }

  /** The `t`-th row an append that goes through writes, `max_row + 1 + t` of the sheet it
      started from, is the `t`-th forecast row with an RP: it carries that row's derived values. */
  lemma {:induction false} AppendedRowCells(P: Parsing, I: Inputs, iHeaders: map<string, int>, g0: Grid, base: int, k: int,
                                            g: Grid, n: int, t: int)
    requires ForecastMapped(P, I.fHeaders) && DerivedDistinct(P, iHeaders) && base == g0.maxRow
    requires Appended(P, I, iHeaders, g0, k) == Ok((g, n)) && 0 <= t < |RpRows(P, I, k)|
    ensures P.toDate(EndCell(P, I, RpRows(P, I, k)[t])).Some?
    ensures DerivedAt(P, g, iHeaders, base + 1 + t, P.toDate(EndCell(P, I, RpRows(P, I, k)[t])).value, I.runDate)
    decreases if k > 1 then k else 0, 1
  {
    if k <= 1 {
      assert false;
    } else if !HasRp(P, I, k) {
      SkippedRowCells(P, I, iHeaders, g0, base, k, g, n, t);
    } else {
      WrittenRowCells(P, I, iHeaders, g0, base, k, g, n, t);
    }
  }

  /** `AppendedRowCells` after a forecast row `k` without an RP. */
  lemma {:induction false} SkippedRowCells(P: Parsing, I: Inputs, iHeaders: map<string, int>, g0: Grid, base: int, k: int,
                                            g: Grid, n: int, t: int)
    requires ForecastMapped(P, I.fHeaders) && DerivedDistinct(P, iHeaders) && base == g0.maxRow && k > 1 && !HasRp(P, I, k)
    requires Appended(P, I, iHeaders, g0, k) == Ok((g, n)) && 0 <= t < |RpRows(P, I, k)|
    ensures P.toDate(EndCell(P, I, RpRows(P, I, k)[t])).Some?
    ensures DerivedAt(P, g, iHeaders, base + 1 + t, P.toDate(EndCell(P, I, RpRows(P, I, k)[t])).value, I.runDate)
    decreases k, 0
  {
    var (g', n') := Appended(P, I, iHeaders, g0, k - 1).value;
    AppendedSkip(P, I, iHeaders, g0, k, g', n');
    assert RpRows(P, I, k) == RpRows(P, I, k - 1);
    AppendedRowCells(P, I, iHeaders, g0, base, k - 1, g', n', t);
  }

  /** `AppendedRowCells` after a forecast row `k` with an RP. */
  lemma {:induction false} WrittenRowCells(P: Parsing, I: Inputs, iHeaders: map<string, int>, g0: Grid, base: int, k: int,
                                            g: Grid, n: int, t: int)
    requires ForecastMapped(P, I.fHeaders) && DerivedDistinct(P, iHeaders) && base == g0.maxRow && k > 1 && HasRp(P, I, k)
    requires Appended(P, I, iHeaders, g0, k) == Ok((g, n)) && 0 <= t < |RpRows(P, I, k)|
    ensures P.toDate(EndCell(P, I, RpRows(P, I, k)[t])).Some?
    ensures DerivedAt(P, g, iHeaders, base + 1 + t, P.toDate(EndCell(P, I, RpRows(P, I, k)[t])).value, I.runDate)
    decreases k, 0
  {
    AppendedPrev(P, I, iHeaders, g0, k);
    var prev := Appended(P, I, iHeaders, g0, k - 1);
    var g', n' := prev.value.0, prev.value.1;
    assert prev == Ok((g', n'));
    AppendedCount(P, I, iHeaders, g0, k - 1);
    RpRowsSnoc(P, I, k);
    if t < n' {
      AppendedRowCells(P, I, iHeaders, g0, base, k - 1, g', n', t);
      var row := base + 1 + n';
      AppendedWritten(P, I, iHeaders, g0, k, g', n', g, n, row);
      AppendedKeepsRow(P, I, iHeaders, base, k, g', n', g, row, RowWrites(P, I, k).value, t);
    } else {
      assert t == n';
      AppendedNewRow(P, I, iHeaders, g0, base, k, g', n', g, n);
    }
  }

  /** An append that goes through up to row `k` went through up to row `k - 1`. */
  lemma AppendedPrev(P: Parsing, I: Inputs, iHeaders: map<string, int>, g0: Grid, k: int)
    requires ForecastMapped(P, I.fHeaders) && k > 1 && Appended(P, I, iHeaders, g0, k).Ok?
    ensures Appended(P, I, iHeaders, g0, k - 1).Ok?
  {
  }

  /** A forecast row with an RP is listed after the rows before it. */
  lemma RpRowsSnoc(P: Parsing, I: Inputs, k: int)
    requires ForecastMapped(P, I.fHeaders) && k > 1 && HasRp(P, I, k)
    ensures RpRows(P, I, k) == RpRows(P, I, k - 1) + [k]
  {
  }

  /** The step of `AppendedRowCells` that writes forecast row `k`, for a row written before it. */
  lemma AppendedKeepsRow(P: Parsing, I: Inputs, iHeaders: map<string, int>, base: int, k: int, g': Grid, n': int,
                         g: Grid, row: int, ws: seq<(string, Value)>, t: int)
    requires ForecastMapped(P, I.fHeaders) && DerivedDistinct(P, iHeaders) && k > 1 && HasRp(P, I, k)
    requires row == base + 1 + n' && g == ApplyWrites(P, g', iHeaders, row, ws)
    requires n' == |RpRows(P, I, k - 1)| && 0 <= t < n'
    requires P.toDate(EndCell(P, I, RpRows(P, I, k - 1)[t])).Some?
    requires DerivedAt(P, g', iHeaders, base + 1 + t, P.toDate(EndCell(P, I, RpRows(P, I, k - 1)[t])).value, I.runDate)
    ensures 0 <= t < |RpRows(P, I, k)| && P.toDate(EndCell(P, I, RpRows(P, I, k)[t])).Some?
    ensures DerivedAt(P, g, iHeaders, base + 1 + t, P.toDate(EndCell(P, I, RpRows(P, I, k)[t])).value, I.runDate)
  {
    RpRowsSnoc(P, I, k);
    var d := P.toDate(EndCell(P, I, RpRows(P, I, k - 1)[t])).value;
    DerivedAtOtherRow(P, g', iHeaders, row, ws, base + 1 + t, d, I.runDate);
  }

  /** Forecast row `k` with an RP, appended without error, is written below the rows before it. */
  lemma AppendedWritten(P: Parsing, I: Inputs, iHeaders: map<string, int>, g0: Grid, k: int, g': Grid, n': int,
                        g: Grid, n: int, row: int)
    requires ForecastMapped(P, I.fHeaders) && k > 1 && HasRp(P, I, k)
    requires Appended(P, I, iHeaders, g0, k - 1) == Ok((g', n')) && Appended(P, I, iHeaders, g0, k) == Ok((g, n))
    requires row == g'.maxRow + 1
    ensures RowWrites(P, I, k).Ok?
    ensures g == ApplyWrites(P, g', iHeaders, row, RowWrites(P, I, k).value)
  {
    AppendedWrite(P, I, iHeaders, g0, k, g', n', RowWrites(P, I, k), row);
  }

  /** The step of `AppendedRowCells` that writes forecast row `k`, for the row it writes. */
  lemma AppendedNewRow(P: Parsing, I: Inputs, iHeaders: map<string, int>, g0: Grid, base: int, k: int, g': Grid, n': int,
                       g: Grid, n: int)
    requires ForecastMapped(P, I.fHeaders) && DerivedDistinct(P, iHeaders) && base == g0.maxRow && k > 1 && HasRp(P, I, k)
    requires Appended(P, I, iHeaders, g0, k - 1) == Ok((g', n')) && Appended(P, I, iHeaders, g0, k) == Ok((g, n))
    requires g'.maxRow == g0.maxRow + n' && n' == |RpRows(P, I, k - 1)|
    ensures n' < |RpRows(P, I, k)| && P.toDate(EndCell(P, I, RpRows(P, I, k)[n'])).Some?
    ensures DerivedAt(P, g, iHeaders, base + 1 + n', P.toDate(EndCell(P, I, RpRows(P, I, k)[n'])).value, I.runDate)
  {
    var w := RowWrites(P, I, k);
    AppendedWrite(P, I, iHeaders, g0, k, g', n', w, base + 1 + n');
    assert RpRows(P, I, k)[n'] == k;
    RowDerivedCells(P, I, k, g', iHeaders, base + 1 + n');
  }

  /** Writes to one row leave the derived values of any other row alone. */
  lemma DerivedAtOtherRow(P: Parsing, g: Grid, iHeaders: map<string, int>, row: int, ws: seq<(string, Value)>,
                          r: int, d: Date, runDate: Date)
    requires DerivedDistinct(P, iHeaders) && r != row && DerivedAt(P, g, iHeaders, r, d, runDate)
    ensures DerivedAt(P, ApplyWrites(P, g, iHeaders, row, ws), iHeaders, r, d, runDate)
  {
    ApplyWritesOtherRows(P, g, iHeaders, row, ws, r, iHeaders[P.lowerNorm(Str("Forecasted Submission Date"))]);
    ApplyWritesOtherRows(P, g, iHeaders, row, ws, r, iHeaders[P.lowerNorm(Str("Date - Total Amount"))]);
    ApplyWritesOtherRows(P, g, iHeaders, row, ws, r, iHeaders[P.lowerNorm(Str("Status"))]);
    ApplyWritesOtherRows(P, g, iHeaders, row, ws, r, iHeaders[P.lowerNorm(Str("Data Update Date"))]);
  }

  // ---------------------------------------------------------------------------------------
  // The append loop as the script runs it

  /** Writing `a` and then `b` is writing `a + b`. */
  lemma {:induction false} ApplyWritesAppend(P: Parsing, g: Grid, headers: map<string, int>, row: int,
                                             a: seq<(string, Value)>, b: seq<(string, Value)>)
    ensures ApplyWrites(P, ApplyWrites(P, g, headers, row, a), headers, row, b) == ApplyWrites(P, g, headers, row, a + b)
    decreases |b|
  {
    if b != [] {
      ApplyWritesAppend(P, g, headers, row, a, b[..|b| - 1]);
      assert (a + b)[..|a + b| - 1] == a + b[..|b| - 1];
    } else {
      assert a + b == a;
    }
  }

  /** The portfolio loop of one row. */
  method WritePortfolio(inv: Sheet, iHeaders: map<string, int>, row: int, I: Inputs, P: Parsing)
    returns (res: Result<()>)
    requires inv.Valid() && row >= 1 && ColumnsPositive(iHeaders)
    modifies inv
    ensures inv.Valid() && inv.images == old(inv.images)
    ensures var pw := PortfolioWrites(P, I.p, I.pHeaders, I.pRow, |PortfolioFields|);
      (res.Ok? <==> pw.Ok?) && (res.Err? ==> res.msg == pw.msg)
      && (res.Ok? ==> GridOf(inv) == ApplyWrites(P, old(GridOf(inv)), iHeaders, row, pw.value))
  {
    ghost var g := GridOf(inv);
    ghost var done: seq<(string, Value)> := [];
    for i := 0 to |PortfolioFields|
      invariant inv.Valid() && inv.images == old(inv.images)
      invariant PortfolioWrites(P, I.p, I.pHeaders, I.pRow, i) == Ok(done)
      invariant GridOf(inv) == ApplyWrites(P, g, iHeaders, row, done)
    {
      var field := PortfolioFields[i];
      var srcKey := P.lowerNorm(Str(field));
      if srcKey !in I.pHeaders {
        PortfolioErrStays(P, I.p, I.pHeaders, I.pRow, i + 1, |PortfolioFields|);
        return Err(MissingFieldMsg(field));
      }
      var value := CellOf(I.p, I.pRow, I.pHeaders[srcKey]);
      var dest := if srcKey == "project id" then "Project Number" else field;
      ApplyWritesSnoc(P, g, iHeaders, row, done, (dest, value));
      Write(inv, iHeaders, row, dest, value, P);
      done := done + [(dest, value)];
    }
    res := Ok(());
  }

  /** The forecast loop of one row. */
  method WriteForecast(inv: Sheet, iHeaders: map<string, int>, row: int, I: Inputs, r: int, P: Parsing)
    requires inv.Valid() && row >= 1 && ColumnsPositive(iHeaders) && ForecastMapped(P, I.fHeaders)
    modifies inv
    ensures inv.Valid() && inv.images == old(inv.images)
    ensures GridOf(inv) == ApplyWrites(P, old(GridOf(inv)), iHeaders, row, ForecastWrites(P, I.f, I.fHeaders, r, |ForecastToInventory|))
  {
    ghost var g := GridOf(inv);
    for i := 0 to |ForecastToInventory|
      invariant inv.Valid() && inv.images == old(inv.images)
      invariant GridOf(inv) == ApplyWrites(P, g, iHeaders, row, ForecastWrites(P, I.f, I.fHeaders, r, i))
    {
      var invName := ForecastToInventory[i].1;
      var value := CellOf(I.f, r, I.fHeaders[ForecastKey(P, i)]);
      ApplyWritesSnoc(P, g, iHeaders, row, ForecastWrites(P, I.f, I.fHeaders, r, i), (invName, value));
      Write(inv, iHeaders, row, invName, value, P);
    }
  }

  /** The four derived writes of one row. */
  method WriteDerived(inv: Sheet, iHeaders: map<string, int>, row: int, rpEnd: Date, runDate: Date, P: Parsing)
    requires inv.Valid() && row >= 1 && ColumnsPositive(iHeaders)
    modifies inv
    ensures inv.Valid() && inv.images == old(inv.images)
    ensures GridOf(inv) == ApplyWrites(P, old(GridOf(inv)), iHeaders, row, DerivedWrites(rpEnd, runDate))
  {
    ghost var g := GridOf(inv);
    ghost var dw := DerivedWrites(rpEnd, runDate);
    Write(inv, iHeaders, row, "Forecasted Submission Date", DateOnly(AddDays(rpEnd, 2)), P);
    ApplyWritesSnoc(P, g, iHeaders, row, [], dw[0]);
    Write(inv, iHeaders, row, "Date - Total Amount", DateOnly(AddDays(rpEnd, 92)), P);
    ApplyWritesSnoc(P, g, iHeaders, row, dw[..1], dw[1]);
    assert dw[..1] + [dw[1]] == dw[..2];
    Write(inv, iHeaders, row, "Status", Str("Forecasted"), P);
    ApplyWritesSnoc(P, g, iHeaders, row, dw[..2], dw[2]);
    assert dw[..2] + [dw[2]] == dw[..3];
    Write(inv, iHeaders, row, "Data Update Date", DateOnly(runDate), P);
    ApplyWritesSnoc(P, g, iHeaders, row, dw[..3], dw[3]);
    assert dw[..3] + [dw[3]] == dw;
  }

  /** One iteration of the row loop: the portfolio fields, the forecast columns and the
      derived values, written into row `row` of the inventory. */
  method WriteRow(inv: Sheet, iHeaders: map<string, int>, row: int, I: Inputs, r: int, P: Parsing)
    returns (res: Result<()>)
    requires inv.Valid() && row >= 1 && ColumnsPositive(iHeaders) && ForecastMapped(P, I.fHeaders)
    modifies inv
    ensures inv.Valid() && inv.images == old(inv.images)
    ensures res.Ok? <==> RowWrites(P, I, r).Ok?
    ensures res.Err? ==> res.msg == RowWrites(P, I, r).msg
    ensures res.Ok? ==> GridOf(inv) == ApplyWrites(P, old(GridOf(inv)), iHeaders, row, RowWrites(P, I, r).value)
  {
    ghost var g := GridOf(inv);
    var p := WritePortfolio(inv, iHeaders, row, I, P);
    if p.Err? {
      return Err(p.msg);
    }
    ghost var g1 := GridOf(inv);
    WriteForecast(inv, iHeaders, row, I, r, P);
    ghost var g2 := GridOf(inv);
    var rpEnd := P.toDate(EndCell(P, I, r));
    if rpEnd.None? {
      return Err(BadRpEndMsg(r));
    }
    WriteDerived(inv, iHeaders, row, rpEnd.value, I.runDate, P);
    ghost var pw := PortfolioWrites(P, I.p, I.pHeaders, I.pRow, |PortfolioFields|).value;
    ghost var fw := ForecastWrites(P, I.f, I.fHeaders, r, |ForecastToInventory|);
    ApplyWritesAppend(P, g, iHeaders, row, pw, fw);
    ApplyWritesAppend(P, g, iHeaders, row, pw + fw, DerivedWrites(rpEnd.value, I.runDate));
    res := Ok(());
  }

  /** A forecast row with a blank RP leaves the append as it was. */
  lemma AppendedSkip(P: Parsing, I: Inputs, iHeaders: map<string, int>, g0: Grid, k: int, g: Grid, n: int)
    requires ForecastMapped(P, I.fHeaders) && k > 1
    requires Appended(P, I, iHeaders, g0, k - 1) == Ok((g, n)) && !HasRp(P, I, k)
    ensures Appended(P, I, iHeaders, g0, k) == Ok((g, n))
  {
  }

  /** A forecast row with an RP is written below the last row, or its error ends the append. */
  lemma AppendedWrite(P: Parsing, I: Inputs, iHeaders: map<string, int>, g0: Grid, k: int, g: Grid, n: int,
                      w: Result<seq<(string, Value)>>, row: int)
    requires ForecastMapped(P, I.fHeaders) && k > 1
    requires Appended(P, I, iHeaders, g0, k - 1) == Ok((g, n)) && HasRp(P, I, k) && w == RowWrites(P, I, k)
    requires row == g.maxRow + 1
    ensures w.Err? ==> Appended(P, I, iHeaders, g0, k) == Err(w.msg)
    ensures w.Ok? ==> Appended(P, I, iHeaders, g0, k) == Ok((ApplyWrites(P, g, iHeaders, row, w.value), n + 1))
  {
  }

  /** One iteration of the row loop, on forecast row `r`. */
  method AppendStep(inv: Sheet, iHeaders: map<string, int>, I: Inputs, rpCol: int, r: int, rowsWritten: int,
                    P: Parsing, ghost g0: Grid) returns (res: Result<int>)
    requires inv.Valid() && ColumnsPositive(iHeaders) && ForecastMapped(P, I.fHeaders) && r > 1
    requires rpCol == RpCol(P, I)
    requires Appended(P, I, iHeaders, g0, r - 1) == Ok((GridOf(inv), rowsWritten))
    modifies inv
    ensures inv.Valid() && inv.images == old(inv.images)
    ensures res.Err? ==> Appended(P, I, iHeaders, g0, r) == Err(res.msg)
    ensures res.Ok? ==> Appended(P, I, iHeaders, g0, r) == Ok((GridOf(inv), res.value))
  {
    if P.norm(CellOf(I.f, r, rpCol)) == "" {
      AppendedSkip(P, I, iHeaders, g0, r, GridOf(inv), rowsWritten);
      return Ok(rowsWritten);
    }
    ghost var g := GridOf(inv);
    var outRow := inv.maxRow + 1;
    var w := WriteRow(inv, iHeaders, outRow, I, r, P);
    AppendedWrite(P, I, iHeaders, g0, r, g, rowsWritten, RowWrites(P, I, r), outRow);
    if w.Err? {
      return Err(w.msg);
    }
    res := Ok(rowsWritten + 1);
  }

  /** The row loop of `add_forecast_to_inventory`: each forecast row `2..fMaxRow` with a
      non-blank RP is written at `max_row + 1` of the inventory; the count of rows written. */
  method AppendForecastRows(inv: Sheet, iHeaders: map<string, int>, I: Inputs, fMaxRow: int, P: Parsing)
    returns (res: Result<int>)
    requires inv.Valid() && ColumnsPositive(iHeaders) && ForecastMapped(P, I.fHeaders) && fMaxRow >= 1
    modifies inv
    ensures inv.Valid() && inv.images == old(inv.images)
    ensures var spec := Appended(P, I, iHeaders, old(GridOf(inv)), fMaxRow);
      (res.Ok? <==> spec.Ok?) && (res.Err? ==> res.msg == spec.msg)
      && (res.Ok? ==> spec.value == (GridOf(inv), res.value))
  {
    ghost var g0 := GridOf(inv);
    var rpCol := I.fHeaders[ForecastKey(P, 0)];
    var rowsWritten := 0;
    for r := 2 to fMaxRow + 1
      invariant inv.Valid() && inv.images == old(inv.images)
      invariant Appended(P, I, iHeaders, g0, r - 1) == Ok((GridOf(inv), rowsWritten))
    {
      var step := AppendStep(inv, iHeaders, I, rpCol, r, rowsWritten, P, g0);
      if step.Err? {
        AppendedErrStays(P, I, iHeaders, g0, r, fMaxRow);
        return Err(step.msg);
      }
      rowsWritten := step.value;
    }
    res := Ok(rowsWritten);
  }

  // ---------------------------------------------------------------------------------------
  // The whole run

  /** What the run reports in its delta workbook: the run date, the ERF and the rows added. */
  datatype Summary = Summary(runDate: Date, erf: string, rowsAdded: int)

  /** The forecast column among entries `i..` of the forecast-to-inventory map that is missing
      first, if any. */
  function FirstMissingForecast(P: Parsing, fHeaders: map<string, int>, i: nat): (r: Option<nat>)
    ensures r.None? <==> forall j :: i <= j < |ForecastToInventory| ==> ForecastKey(P, j) in fHeaders
    ensures r.Some? ==> (i <= r.value < |ForecastToInventory| && ForecastKey(P, r.value) !in fHeaders
      && forall j :: i <= j < r.value ==> ForecastKey(P, j) in fHeaders)
    decreases |ForecastToInventory| - i
  {
    if i >= |ForecastToInventory| then None
    else if ForecastKey(P, i) !in fHeaders then Some(i)
    else FirstMissingForecast(P, fHeaders, i + 1)
  }

  function ErfBlankMsg(): string {
    "ERF value was blank. Expected it in cell F1 of the forecast workbook."
  }

  function MissingForecastMsg(needed: string): string {
    "Forecast sheet is missing required column header '" + needed + "' in row 1."
  }

  function NoRegistryMsg(title: string): string {
    "Declared Projects Portfolio sheet '" + title + "' is missing 'Registry ID' column."
  }

  function ErfNotFoundMsg(erf: string): string {
    "Could not find ERF '" + erf + "' in Declared Projects Portfolio 'Registry ID' column."
  }

  /** The checks on the forecast sheet: the ERF in cell F1 and the forecast columns; the ERF
      and the forecast header map. */
  function CheckForecast(P: Parsing, f: Grid): (r: Result<(string, map<string, int>)>)
    ensures r.Ok? ==> r.value.0 != "" && ForecastMapped(P, r.value.1)
  {
    var erf := P.norm(CellOf(f.cells, 1, 6));
    if erf == "" then Err(ErfBlankMsg())
    else
      var fHeaders := HeaderMap(P.lowerNorm, f.cells, 1, f.maxCol);
      match FirstMissingForecast(P, fHeaders, 0)
      case Some(j) => Err(MissingForecastMsg(ForecastToInventory[j].0))
      case None => Ok((erf, fHeaders))
  }

  /** The checks on the portfolio sheet: its Registry ID column and the project's row; the
      portfolio header map and that row. */
  function FindProject(P: Parsing, p: Grid, pTitle: string, erf: string): (r: Result<(map<string, int>, int)>)
    ensures r.Ok? ==> 2 <= r.value.1 <= p.maxRow
  {
    var pHeaders := HeaderMap(P.lowerNorm, p.cells, 1, p.maxCol);
    if "registry id" !in pHeaders then Err(NoRegistryMsg(pTitle))
    else match FindRow(P, p.cells, p.maxRow, pHeaders, pTitle, "Registry ID", Str(erf))
      case Err(e) => Err(e)
      case Ok(None) => Err(ErfNotFoundMsg(erf))
      case Ok(Some(pRow)) =>
        FindRowSpec(P, p.cells, p.maxRow, pHeaders, pTitle, "Registry ID", Str(erf));
        Ok((pHeaders, pRow))
  }

  /** The checks on the forecast and the portfolio before the inventory is touched. */
  function Prepare(P: Parsing, f: Grid, p: Grid, pTitle: string, runDate: Date): (r: Result<(string, Inputs)>)
    ensures r.Ok? ==> r.value.0 != "" && ForecastMapped(P, r.value.1.fHeaders)
  {
    match CheckForecast(P, f)
    case Err(e) => Err(e)
    case Ok((erf, fHeaders)) =>
      match FindProject(P, p, pTitle, erf)
      case Err(e) => Err(e)
      case Ok((pHeaders, pRow)) => Ok((erf, Inputs(f.cells, fHeaders, p.cells, pHeaders, pRow, runDate)))
  }

  /** The inventory-side stages once the checks pass: the headers are ensured, then the
      forecast rows are appended; the new inventory and the summary, or the error. */
  function Update(P: Parsing, required: seq<string>, erf: string, I: Inputs, inv: Grid, fMaxRow: int): Result<(Grid, Summary)>
    requires ForecastMapped(P, I.fHeaders)
  {
    var ensured := EnsuredHeaders(P.lowerNorm, inv, required);
    var appended := Appended(P, I, ensured.1, ensured.0, fMaxRow);
    if appended.Err? then Err(appended.msg)
    else Ok((appended.value.0, Summary(I.runDate, erf, appended.value.1)))
  }

  /** `add_forecast_to_inventory` on grids: the new inventory and the summary, or the error. */
  function Run(P: Parsing, f: Grid, p: Grid, pTitle: string, inv: Grid, runDate: Date): Result<(Grid, Summary)> {
    match Prepare(P, f, p, pTitle, runDate)
    case Err(e) => Err(e)
    case Ok((erf, I)) => Update(P, RequiredInventoryHeaders, erf, I, inv, f.maxRow)
  }

  /** The checks raise before the inventory is touched: a blank ERF in F1 first, then the first
      forecast column missing, then a portfolio without a Registry ID column, then an ERF the
      portfolio does not list. */
  lemma RunChecks(P: Parsing, f: Grid, p: Grid, pTitle: string, inv: Grid, runDate: Date)
    ensures P.norm(CellOf(f.cells, 1, 6)) == "" ==> Run(P, f, p, pTitle, inv, runDate) == Err(ErfBlankMsg())
    ensures var fHeaders := HeaderMap(P.lowerNorm, f.cells, 1, f.maxCol);
      P.norm(CellOf(f.cells, 1, 6)) != "" && FirstMissingForecast(P, fHeaders, 0).Some? ==>
        Run(P, f, p, pTitle, inv, runDate)
          == Err(MissingForecastMsg(ForecastToInventory[FirstMissingForecast(P, fHeaders, 0).value].0))
    ensures var fHeaders := HeaderMap(P.lowerNorm, f.cells, 1, f.maxCol);
      P.norm(CellOf(f.cells, 1, 6)) != "" && FirstMissingForecast(P, fHeaders, 0).None?
      && "registry id" !in HeaderMap(P.lowerNorm, p.cells, 1, p.maxCol) ==>
        Run(P, f, p, pTitle, inv, runDate) == Err(NoRegistryMsg(pTitle))
  {
  }

  /** Past the forecast checks, the portfolio row is the first data row whose Registry ID is the
      ERF of F1, and with no such row the run raises. */
  lemma FindProjectSpec(P: Parsing, f: Grid, p: Grid, pTitle: string)
    requires CheckForecast(P, f).Ok?
    requires P.lowerNorm(Str("Registry ID")) == "registry id"
    requires P.norm(Str(P.norm(CellOf(f.cells, 1, 6)))) == P.norm(CellOf(f.cells, 1, 6))
    ensures var erf := CheckForecast(P, f).value.0;
      var pHeaders := HeaderMap(P.lowerNorm, p.cells, 1, p.maxCol);
      erf == P.norm(CellOf(f.cells, 1, 6)) != ""
      && (FindProject(P, p, pTitle, erf).Ok? ==>
        "registry id" in pHeaders
        && var row := FindProject(P, p, pTitle, erf).value.1;
        2 <= row <= p.maxRow && P.norm(CellOf(p.cells, row, pHeaders["registry id"])) == erf
        && forall r :: 2 <= r < row ==> P.norm(CellOf(p.cells, r, pHeaders["registry id"])) != erf)
      && ("registry id" in pHeaders && (forall r :: 2 <= r <= p.maxRow ==>
        P.norm(CellOf(p.cells, r, pHeaders["registry id"])) != erf) ==>
        FindProject(P, p, pTitle, erf) == Err(ErfNotFoundMsg(erf)))
  {
    var erf := CheckForecast(P, f).value.0;
    var pHeaders := HeaderMap(P.lowerNorm, p.cells, 1, p.maxCol);
    FindRowSpec(P, p.cells, p.maxRow, pHeaders, pTitle, "Registry ID", Str(erf));
  }

  /** An update that goes through is the append onto the sheet with its headers ensured, which
      has as many rows as before. */
  lemma UpdateParts(P: Parsing, required: seq<string>, erf: string, I: Inputs, inv: Grid, fMaxRow: int, g: Grid, s: Summary)
    requires GridValid(inv) && ForecastMapped(P, I.fHeaders)
    requires Update(P, required, erf, I, inv, fMaxRow) == Ok((g, s))
    ensures s == Summary(I.runDate, erf, s.rowsAdded)
    ensures EnsuredHeaders(P.lowerNorm, inv, required).0.maxRow == inv.maxRow
    ensures Appended(P, I, EnsuredHeaders(P.lowerNorm, inv, required).1,
                     EnsuredHeaders(P.lowerNorm, inv, required).0, fMaxRow) == Ok((g, s.rowsAdded))
  {
    EnsuredHeadersMapped(P.lowerNorm, inv, required);
  }

  /** An update that goes through appends one row per forecast row with an RP and nothing else:
      the summary counts them, the sheet grows by that many rows, and the inventory rows below
      the header row stay as they were. */
  lemma UpdateAppends(P: Parsing, required: seq<string>, erf: string, I: Inputs, inv: Grid, fMaxRow: int, g: Grid, s: Summary)
    requires GridValid(inv) && "Status" in required && P.lowerNorm(Str("Status")) != "" && ForecastMapped(P, I.fHeaders)
    requires Update(P, required, erf, I, inv, fMaxRow) == Ok((g, s))
    ensures s == Summary(I.runDate, erf, |RpRows(P, I, fMaxRow)|)
    ensures g.maxRow == inv.maxRow + s.rowsAdded
    ensures forall r, c :: 2 <= r <= inv.maxRow ==> CellOf(g.cells, r, c) == CellOf(inv.cells, r, c)
  {
    var g1 := EnsuredHeaders(P.lowerNorm, inv, required).0;
    var iHeaders := EnsuredHeaders(P.lowerNorm, inv, required).1;
    UpdateParts(P, required, erf, I, inv, fMaxRow, g, s);
    EnsuredHeadersMapped(P.lowerNorm, inv, required);
    AppendedShape(P, I, iHeaders, g1, fMaxRow);
    forall r, c | 2 <= r <= inv.maxRow
      ensures CellOf(g.cells, r, c) == CellOf(inv.cells, r, c)
    {
      EnsuredHeadersDataRows(P.lowerNorm, inv, required, r, c);
    }
  }

  /** In an update that goes through, the `t`-th row appended, just below the old last row,
      carries the derived values of the `t`-th forecast row with an RP. */
  lemma UpdateRowCells(P: Parsing, required: seq<string>, erf: string, I: Inputs, inv: Grid, fMaxRow: int,
                       g: Grid, s: Summary, iHeaders: map<string, int>, t: int)
    requires GridValid(inv) && ForecastMapped(P, I.fHeaders)
    requires Update(P, required, erf, I, inv, fMaxRow) == Ok((g, s))
    requires iHeaders == EnsuredHeaders(P.lowerNorm, inv, required).1 && DerivedDistinct(P, iHeaders)
    requires 0 <= t < |RpRows(P, I, fMaxRow)|
    ensures P.toDate(EndCell(P, I, RpRows(P, I, fMaxRow)[t])).Some?
    ensures DerivedAt(P, g, iHeaders, inv.maxRow + 1 + t, P.toDate(EndCell(P, I, RpRows(P, I, fMaxRow)[t])).value, I.runDate)
  {
    var g1 := EnsuredHeaders(P.lowerNorm, inv, required).0;
    UpdateParts(P, required, erf, I, inv, fMaxRow, g, s);
    UpdateRowCellsOn(P, required, erf, I, g1, inv, fMaxRow, g, s, iHeaders, t);
  }

  /** `UpdateRowCells` once the update is taken apart into the header map and the append. */
  lemma UpdateRowCellsOn(P: Parsing, required: seq<string>, erf: string, I: Inputs, g1: Grid, inv: Grid, fMaxRow: int,
                       g: Grid, s: Summary, iHeaders: map<string, int>, t: int)
    requires ForecastMapped(P, I.fHeaders)
    requires Appended(P, I, iHeaders, g1, fMaxRow) == Ok((g, s.rowsAdded)) && g1.maxRow == inv.maxRow
    requires DerivedDistinct(P, iHeaders)
    requires 0 <= t < |RpRows(P, I, fMaxRow)|
    ensures P.toDate(EndCell(P, I, RpRows(P, I, fMaxRow)[t])).Some?
    ensures DerivedAt(P, g, iHeaders, inv.maxRow + 1 + t, P.toDate(EndCell(P, I, RpRows(P, I, fMaxRow)[t])).value, I.runDate)
  {
    AppendedRowCells(P, I, iHeaders, g1, inv.maxRow, fMaxRow, g, s.rowsAdded, t);
  }

  /** A run that goes through has passed the checks. */
  lemma RunPrepared(P: Parsing, f: Grid, p: Grid, pTitle: string, inv: Grid, runDate: Date)
    requires Run(P, f, p, pTitle, inv, runDate).Ok?
    ensures Prepare(P, f, p, pTitle, runDate).Ok?
  {
  }

  /** Past the checks, the run is the update on what they found, at the run date. */
  lemma RunIsUpdateOn(P: Parsing, f: Grid, p: Grid, pTitle: string, inv: Grid, runDate: Date, erf: string, I: Inputs)
    requires Prepare(P, f, p, pTitle, runDate) == Ok((erf, I))
    ensures ForecastMapped(P, I.fHeaders) && I.runDate == runDate
    ensures Run(P, f, p, pTitle, inv, runDate) == Update(P, RequiredInventoryHeaders, erf, I, inv, f.maxRow)
  {
  }

  /** A run that goes through appends one row per forecast row with an RP and nothing else:
      the summary holds the run date, the ERF and that count, the sheet grows by that many rows,
      and the inventory rows below the header row stay as they were. */
  lemma RunAppends(P: Parsing, f: Grid, p: Grid, pTitle: string, inv: Grid, runDate: Date,
                   erf: string, I: Inputs, g: Grid, s: Summary)
    requires GridValid(inv) && P.lowerNorm(Str("Status")) != ""
    requires Prepare(P, f, p, pTitle, runDate) == Ok((erf, I))
    requires Run(P, f, p, pTitle, inv, runDate) == Ok((g, s))
    ensures s == Summary(runDate, erf, |RpRows(P, I, f.maxRow)|)
    ensures g.maxRow == inv.maxRow + s.rowsAdded
    ensures forall r, c :: 2 <= r <= inv.maxRow ==> CellOf(g.cells, r, c) == CellOf(inv.cells, r, c)
  {
    RunIsUpdateOn(P, f, p, pTitle, inv, runDate, erf, I);
    StatusRequired();
    UpdateAppends(P, RequiredInventoryHeaders, erf, I, inv, f.maxRow, g, s);
  }

  lemma StatusRequired()
    ensures "Status" in RequiredInventoryHeaders
  {
    assert RequiredInventoryHeaders[4] == "Status";
  }

  /** In a run that goes through, the `t`-th row appended, just below the old last row, carries
      the derived values of the `t`-th forecast row with an RP, in the columns of the header map
      `_ensure_headers` returned. */
  lemma RunRowCells(P: Parsing, f: Grid, p: Grid, pTitle: string, inv: Grid, runDate: Date,
                    erf: string, I: Inputs, g: Grid, s: Summary, iHeaders: map<string, int>, t: int)
    requires GridValid(inv) && Prepare(P, f, p, pTitle, runDate) == Ok((erf, I))
    requires Run(P, f, p, pTitle, inv, runDate) == Ok((g, s))
    requires iHeaders == EnsuredHeaders(P.lowerNorm, inv, RequiredInventoryHeaders).1 && DerivedDistinct(P, iHeaders)
    requires 0 <= t < |RpRows(P, I, f.maxRow)|
    ensures P.toDate(EndCell(P, I, RpRows(P, I, f.maxRow)[t])).Some?
    ensures DerivedAt(P, g, iHeaders, inv.maxRow + 1 + t, P.toDate(EndCell(P, I, RpRows(P, I, f.maxRow)[t])).value, runDate)
  {
    RunIsUpdateOn(P, f, p, pTitle, inv, runDate, erf, I);
    UpdateRowCells(P, RequiredInventoryHeaders, erf, I, inv, f.maxRow, g, s, iHeaders, t);
  }

  /** The loop over the forecast-to-inventory map checking that each forecast column is there:
      the first one missing, if any. */
  method FindMissingForecast(fHeaders: map<string, int>, P: Parsing) returns (missing: Option<nat>)
    ensures missing == FirstMissingForecast(P, fHeaders, 0)
  {
    for i := 0 to |ForecastToInventory|
      invariant forall j :: 0 <= j < i ==> ForecastKey(P, j) in fHeaders
    {
      if ForecastKey(P, i) !in fHeaders {
        assert FirstMissingForecast(P, fHeaders, 0) == Some(i);
        return Some(i);
      }
    }
    assert FirstMissingForecast(P, fHeaders, 0) == None;
    missing := None;
  }

  /** The reads and checks of the forecast sheet. */
  method ReadForecast(f: Sheet, P: Parsing) returns (res: Result<(string, map<string, int>)>)
    requires f.Valid()
    ensures res == CheckForecast(P, GridOf(f))
  {
    var erf := P.norm(f.Cell(1, 6));
    if erf == "" {
      return Err(ErfBlankMsg());
    }
    var fHeaders := BuildHeaderMap(f, 1, P.lowerNorm);
    var missing := FindMissingForecast(fHeaders, P);
    if missing.Some? {
      return Err(MissingForecastMsg(ForecastToInventory[missing.value].0));
    }
    res := Ok((erf, fHeaders));
  }

  /** The reads and checks of the portfolio sheet. */
  method ReadPortfolio(p: Sheet, pTitle: string, erf: string, P: Parsing) returns (res: Result<(map<string, int>, int)>)
    requires p.Valid()
    ensures res == FindProject(P, GridOf(p), pTitle, erf)
  {
    var pHeaders := BuildHeaderMap(p, 1, P.lowerNorm);
    if "registry id" !in pHeaders {
      return Err(NoRegistryMsg(pTitle));
    }
    var found := FindRowByValue(p, pTitle, pHeaders, "Registry ID", Str(erf), P);
    match found
    case Err(e) => return Err(e);
    case Ok(None) => return Err(ErfNotFoundMsg(erf));
    case Ok(Some(pRow)) => return Ok((pHeaders, pRow));
  }

  /** The reads and checks of the forecast and portfolio sheets. */
  method ReadInputs(f: Sheet, p: Sheet, pTitle: string, runDate: Date, P: Parsing) returns (res: Result<(string, Inputs)>)
    requires f.Valid() && p.Valid()
    ensures res == Prepare(P, GridOf(f), GridOf(p), pTitle, runDate)
  {
    var forecast := ReadForecast(f, P);
    if forecast.Err? {
      return Err(forecast.msg);
    }
    var (erf, fHeaders) := forecast.value;
    var project := ReadPortfolio(p, pTitle, erf, P);
    if project.Err? {
      return Err(project.msg);
    }
    var (pHeaders, pRow) := project.value;
    res := Ok((erf, Inputs(f.cells, fHeaders, p.cells, pHeaders, pRow, runDate)));
  }

  /** The header map `_ensure_headers` returns holds only real columns. */
  lemma EnsuredColumnsPositive(P: Parsing, g0: Grid, g1: Grid, iHeaders: map<string, int>)
    requires GridValid(g0) && (g1, iHeaders) == EnsuredHeaders(P.lowerNorm, g0, RequiredInventoryHeaders)
    ensures ColumnsPositive(iHeaders)
  {
    EnsuredHeadersMapped(P.lowerNorm, g0, RequiredInventoryHeaders);
  }

  /** `Update` in terms of its two stages. */
  lemma UpdateStages(P: Parsing, erf: string, I: Inputs, g0: Grid, fMaxRow: int, g1: Grid, iHeaders: map<string, int>)
    requires ForecastMapped(P, I.fHeaders)
    requires (g1, iHeaders) == EnsuredHeaders(P.lowerNorm, g0, RequiredInventoryHeaders)
    ensures Update(P, RequiredInventoryHeaders, erf, I, g0, fMaxRow) ==
      match Appended(P, I, iHeaders, g1, fMaxRow)
      case Err(e) => Err(e)
      case Ok((g2, n)) => Ok((g2, Summary(I.runDate, erf, n)))
  {
  }

  /** The inventory side of `add_forecast_to_inventory`: `_ensure_headers`, then the row loop. */
  method UpdateInventory(inv: Sheet, erf: string, I: Inputs, fMaxRow: int, P: Parsing) returns (res: Result<Summary>)
    requires inv.Valid() && ForecastMapped(P, I.fHeaders) && fMaxRow >= 1
    modifies inv
    ensures inv.Valid() && inv.images == old(inv.images)
    ensures var spec := Update(P, RequiredInventoryHeaders, erf, I, old(GridOf(inv)), fMaxRow);
      (res.Ok? <==> spec.Ok?) && (res.Err? ==> res.msg == spec.msg)
      && (res.Ok? ==> spec.value == (GridOf(inv), res.value))
  {
    ghost var g0 := GridOf(inv);
    var iHeaders := EnsureHeaders(inv, RequiredInventoryHeaders, P.lowerNorm);
    ghost var g1 := GridOf(inv);
    EnsuredColumnsPositive(P, g0, g1, iHeaders);
    UpdateStages(P, erf, I, g0, fMaxRow, g1, iHeaders);
    var n := AppendForecastRows(inv, iHeaders, I, fMaxRow, P);
    if n.Err? {
      return Err(n.msg);
    }
    res := Ok(Summary(I.runDate, erf, n.value));
  }

  /** `add_forecast_to_inventory` on the three sheets, with the run date given: the inventory
      sheet ends as `Run` says, and the summary is what the delta workbook would record. */
  method AddForecastToInventory(f: Sheet, p: Sheet, pTitle: string, inv: Sheet, runDate: Date, P: Parsing)
    returns (res: Result<Summary>)
    requires f.Valid() && p.Valid() && inv.Valid() && inv != f && inv != p
    modifies inv
    ensures inv.Valid() && inv.images == old(inv.images)
    ensures var spec := Run(P, old(GridOf(f)), old(GridOf(p)), pTitle, old(GridOf(inv)), runDate);
      (res.Ok? <==> spec.Ok?) && (res.Err? ==> res.msg == spec.msg)
      && (res.Ok? ==> spec.value == (GridOf(inv), res.value))
  {
    ghost var g0 := GridOf(inv);
    var inputs := ReadInputs(f, p, pTitle, runDate, P);
    ghost var spec := Run(P, GridOf(f), GridOf(p), pTitle, g0, runDate);
    if inputs.Err? {
      assert spec == Err(inputs.msg);
      return Err(inputs.msg);
    }
    var (erf, I) := inputs.value;
    assert spec == Update(P, RequiredInventoryHeaders, erf, I, g0, f.maxRow);
    res := UpdateInventory(inv, erf, I, f.maxRow, P);
  }
}
