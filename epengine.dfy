/** The forecast engine of `Ep_Forecast_Engine.py`: it indexes the column-A labels of the
    calculator's `Forecast_script_helper` sheet, writes the run's inputs into column B next to
    their labels, reads back "ACCUs Realised", finds the project start date, and decides how
    many reporting periods (RPs) to run. */
module EpEngine {
  import opened Wrappers
  import opened Text
  import opened Dates
  import opened Cells

  const TARGET_SHEET: string := "Forecast_script_helper"

  const LABEL_CURRENT_RP: string := "Current RP"
  const LABEL_RP_END_YEAR: string := "Current RP End Year"
  const LABEL_RP_END_MONTH: string := "current rp end month"
  const LABEL_RP_END_DAY: string := "current rp end day"
  const LABEL_ACCUS_REALISED: string := "ACCUs Realised"
  const LABEL_RP_LENGTH: string := "RP Length"

  /** How many labels the constructor insists on. */
  const REQUIRED_COUNT: int := 6

  /** The `i`-th label the constructor insists on, in the order it checks them. */
  function RequiredLabel(i: int): string
    requires 0 <= i < REQUIRED_COUNT
  {
    if i == 0 then LABEL_CURRENT_RP else if i == 1 then LABEL_RP_END_YEAR
    else if i == 2 then LABEL_RP_END_MONTH else if i == 3 then LABEL_RP_END_DAY
    else if i == 4 then LABEL_ACCUS_REALISED else LABEL_RP_LENGTH
  }

  /** The normalised keys of the labels (`RequiredKeys` proves them). */
  const KEY_CURRENT_RP: string := "current rp"
  const KEY_RP_END_YEAR: string := "current rp end year"
  const KEY_RP_END_MONTH: string := "current rp end month"
  const KEY_RP_END_DAY: string := "current rp end day"
  const KEY_ACCUS_REALISED: string := "accus realised"
  const KEY_RP_LENGTH: string := "rp length"

  /** `_norm`: `None` becomes "", anything else `str(x).strip().lower()`. */
  function Norm(v: Value): (r: string)
    ensures v == Blank ==> r == ""
    ensures r == [] || (!IsSpace(r[0]) && !IsSpace(r[|r| - 1]))
    ensures forall i :: 0 <= i < |r| ==> !('A' <= r[i] <= 'Z')
  {
    if v == Blank then "" else
      LowerKeepsTrim(Strip(ToStr(v)));
      LowerHasNoUpper(Strip(ToStr(v)));
      StripLower(ToStr(v))
  }

  /** Lower-casing a string without white space at its ends leaves none there. */
  lemma LowerKeepsTrim(t: string)
    requires t == [] || (!IsSpace(t[0]) && !IsSpace(t[|t| - 1]))
    ensures Lower(t) == [] || (!IsSpace(Lower(t)[0]) && !IsSpace(Lower(t)[|t| - 1]))
  {
    if t != [] {
      LowerCharSpace(t[0]);
      LowerCharSpace(t[|t| - 1]);
    }
  }

  /** Normalising an already normalised label changes nothing. */
  lemma NormIdempotent(v: Value)
    ensures Norm(Str(Norm(v))) == Norm(v)
  {
    if v != Blank {
      StripLowerIdempotent(ToStr(v));
    }
  }

  /** Labels that differ only in case and surrounding white space share a key. */
  lemma NormIgnoresCaseAndPadding(s: string)
    ensures Norm(Str(s)) == Norm(Str(Lower(Strip(s))))
  {
    StripLowerIdempotent(s);
  }

  /** The normalised column-A label of each row. */
  function KeysOf(cells: map<(int, int), Value>): int -> string {
    (r: int) => Norm(CellOf(cells, r, 1))
  }

  /** The column-A index depends on column A alone. */
  lemma IndexColumnAOnly(a: map<(int, int), Value>, b: map<(int, int), Value>, k: int)
    requires forall r :: 1 <= r <= k ==> CellOf(a, r, 1) == CellOf(b, r, 1)
    ensures IndexUpTo(KeysOf(a), k) == IndexUpTo(KeysOf(b), k)
  {
    forall r | 1 <= r <= k
      ensures KeysOf(a)(r) == KeysOf(b)(r)
    {
      assert CellOf(a, r, 1) == CellOf(b, r, 1);
    }
    IndexSameKeys(KeysOf(a), KeysOf(b), k);
  }

  /** `_index_labels_in_column_a`: one pass over rows `1..max_row` of column A. */
  method IndexLabelsInColumnA(ws: Sheet) returns (mapping: map<string, int>)
    ensures mapping == IndexUpTo(KeysOf(ws.cells), if ws.maxRow >= 1 then ws.maxRow else 1)
  {
    mapping := map[];
    var maxRow := if ws.maxRow >= 1 then ws.maxRow else 1;
    ghost var keys := KeysOf(ws.cells);
    for r := 1 to maxRow + 1
      invariant mapping == IndexUpTo(keys, r - 1)
    {
      var key := Norm(ws.Cell(r, 1));
      assert key == keys(r);
      mapping := AddFirst(mapping, key, r);
    }
  }

  /** Five writes into column B leave column A, and any other row of column B, as they were. */
  lemma ColumnBWrites(before: map<(int, int), Value>, after: map<(int, int), Value>, a: int, b: int, c: int, d: int,
                      e: int, other: int, va: Value, vb: Value, vc: Value, vd: Value, ve: Value)
    requires after == before[(a, 2) := va][(b, 2) := vb][(c, 2) := vc][(d, 2) := vd][(e, 2) := ve]
    requires other != a && other != b && other != c && other != d && other != e
    ensures forall r :: CellOf(after, r, 1) == CellOf(before, r, 1)
    ensures CellOf(after, other, 2) == CellOf(before, other, 2)
  {
  }

  /** The first required label, from the `i`-th on, whose key the index lacks. */
  function MissingFrom(index: map<string, int>, i: int): (r: Option<string>)
    requires 0 <= i <= REQUIRED_COUNT
    ensures r.None? <==> forall j :: i <= j < REQUIRED_COUNT ==> RequiredKey(j) in index
    ensures r.Some? ==>
      exists j :: i <= j < REQUIRED_COUNT && RequiredLabel(j) == r.value && RequiredKey(j) !in index
        && forall k :: i <= k < j ==> RequiredKey(k) in index
    decreases REQUIRED_COUNT - i
  {
    if i == REQUIRED_COUNT then None
    else if RequiredKey(i) !in index then Some(RequiredLabel(i))
    else MissingFrom(index, i + 1)
  }

  /** The first required label the index lacks, if any. */
  function MissingLabel(index: map<string, int>): Option<string> {
    MissingFrom(index, 0)
  }

  /** Every required label of the index is present. */
  predicate RequiredKeysIn(index: map<string, int>) {
    KEY_CURRENT_RP in index && KEY_RP_END_YEAR in index && KEY_RP_END_MONTH in index
    && KEY_RP_END_DAY in index && KEY_ACCUS_REALISED in index && KEY_RP_LENGTH in index
  }

  /** A label with no white space at its ends and lower-cased to `key` normalises to `key`. */
  lemma NormOfTrimmed(s: string, key: string)
    requires s != [] && !IsSpace(s[0]) && !IsSpace(s[|s| - 1]) && Lower(s) == key
    ensures Norm(Str(s)) == key
  {
    StripTrimmed(s);
    assert Norm(Str(s)) == Lower(s);
  }

  lemma KeyCurrentRp(s: string)
    requires s == LABEL_CURRENT_RP
    ensures Norm(Str(s)) == KEY_CURRENT_RP
  {
    assert Lower(s) == KEY_CURRENT_RP;
    NormOfTrimmed(s, KEY_CURRENT_RP);
  }

  lemma KeyRpEndYear(s: string)
    requires s == LABEL_RP_END_YEAR
    ensures Norm(Str(s)) == KEY_RP_END_YEAR
  {
    assert Lower(s) == KEY_RP_END_YEAR;
    NormOfTrimmed(s, KEY_RP_END_YEAR);
  }

  lemma KeyRpEndMonth(s: string)
    requires s == LABEL_RP_END_MONTH
    ensures Norm(Str(s)) == KEY_RP_END_MONTH
  {
    assert Lower(s) == KEY_RP_END_MONTH;
    NormOfTrimmed(s, KEY_RP_END_MONTH);
  }

  lemma KeyRpEndDay(s: string)
    requires s == LABEL_RP_END_DAY
    ensures Norm(Str(s)) == KEY_RP_END_DAY
  {
    assert Lower(s) == KEY_RP_END_DAY;
    NormOfTrimmed(s, KEY_RP_END_DAY);
  }

  lemma KeyAccusRealised(s: string)
    requires s == LABEL_ACCUS_REALISED
    ensures Norm(Str(s)) == KEY_ACCUS_REALISED
  {
    assert Lower(s) == KEY_ACCUS_REALISED;
    NormOfTrimmed(s, KEY_ACCUS_REALISED);
  }

  lemma KeyRpLength(s: string)
    requires s == LABEL_RP_LENGTH
    ensures Norm(Str(s)) == KEY_RP_LENGTH
  {
    assert Lower(s) == KEY_RP_LENGTH;
    NormOfTrimmed(s, KEY_RP_LENGTH);
  }

  /** `_norm` of each required label is its key. */
  lemma RequiredKeys()
    ensures Norm(Str(LABEL_CURRENT_RP)) == KEY_CURRENT_RP && Norm(Str(LABEL_RP_END_YEAR)) == KEY_RP_END_YEAR
    ensures Norm(Str(LABEL_RP_END_MONTH)) == KEY_RP_END_MONTH && Norm(Str(LABEL_RP_END_DAY)) == KEY_RP_END_DAY
    ensures Norm(Str(LABEL_ACCUS_REALISED)) == KEY_ACCUS_REALISED && Norm(Str(LABEL_RP_LENGTH)) == KEY_RP_LENGTH
  {
    KeyCurrentRp(LABEL_CURRENT_RP);
    KeyRpEndYear(LABEL_RP_END_YEAR);
    KeyRpEndMonth(LABEL_RP_END_MONTH);
    KeyRpEndDay(LABEL_RP_END_DAY);
    KeyAccusRealised(LABEL_ACCUS_REALISED);
    KeyRpLength(LABEL_RP_LENGTH);
  }

  /** The key of the `i`-th required label. */
  function RequiredKey(i: int): string
    requires 0 <= i < REQUIRED_COUNT
  {
    if i == 0 then KEY_CURRENT_RP else if i == 1 then KEY_RP_END_YEAR
    else if i == 2 then KEY_RP_END_MONTH else if i == 3 then KEY_RP_END_DAY
    else if i == 4 then KEY_ACCUS_REALISED else KEY_RP_LENGTH
  }

  /** Each required label normalises (`_norm`) to its key. */
  lemma RequiredKeyIsNorm(i: int)
    requires 0 <= i < REQUIRED_COUNT
    ensures Norm(Str(RequiredLabel(i))) == RequiredKey(i)
  {
    var l := RequiredLabel(i);
    if i == 0 {
      KeyCurrentRp(l);
    } else if i == 1 {
      KeyRpEndYear(l);
    } else if i == 2 {
      KeyRpEndMonth(l);
    } else if i == 3 {
      KeyRpEndDay(l);
    } else if i == 4 {
      KeyAccusRealised(l);
    } else {
      KeyRpLength(l);
    }
  }

  /** An index passes the constructor's check exactly when it holds the key of every
      required label. */
  lemma RequiredIndexed(index: map<string, int>)
    ensures MissingLabel(index).None? <==> RequiredKeysIn(index)
  {
    assert RequiredKey(0) == KEY_CURRENT_RP && RequiredKey(1) == KEY_RP_END_YEAR;
    assert RequiredKey(2) == KEY_RP_END_MONTH && RequiredKey(3) == KEY_RP_END_DAY;
    assert RequiredKey(4) == KEY_ACCUS_REALISED && RequiredKey(5) == KEY_RP_LENGTH;
  }

  /** `_coerce_stripped_value`: strings are stripped, anything else passes through. */
  function CoerceStrippedValue(v: Value): (r: Value)
    ensures r.Str? <==> v.Str?
    ensures !v.Str? ==> r == v
    ensures r.Str? ==> |r.s| <= |v.s| && (r.s == [] || (!IsSpace(r.s[0]) && !IsSpace(r.s[|r.s| - 1])))
  {
    if v.Str? then Str(Strip(v.s)) else v
  }

  /** Coercing twice is coercing once. */
  lemma CoerceIdempotent(v: Value)
    ensures CoerceStrippedValue(CoerceStrippedValue(v)) == CoerceStrippedValue(v)
  {
    if v.Str? {
      StripIdempotent(v.s);
    }
  }

  /** Python's `datetime(y, m, d)`: years 1..9999 and a day that exists, or `ValueError`. */
  function DatetimeOf(y: int, m: int, d: int): (r: Result<Date>)
    ensures r.Ok? <==> 1 <= y <= 9999 && 1 <= m <= 12 && 1 <= d <= DaysInMonth(y, m)
    ensures r.Ok? ==> r.value == RawDate(y, m, d)
  {
    if !(1 <= y <= 9999) then Err("year " + IntStr(y) + " is out of range")
    else if !(1 <= m <= 12) then Err("month must be in 1..12")
    else if !(1 <= d <= DaysInMonth(y, m)) then Err("day is out of range for month")
    else var date: Date := RawDate(y, m, d); Ok(date)
  }

  /** `from_excel` on a number, as a date: the 1899-12-30 epoch plus the whole days, one day
      more for serials in `0 <= v < 60` (Excel's phantom 29 February 1900). */
  function FromExcel(v: real): (r: Date)
    ensures Ordinal(r) == Ordinal(RawDate(1899, 12, 30)) + v.Floor + (if 0.0 <= v < 60.0 then 1 else 0)
  {
    var days := v.Floor + (if 0.0 <= v < 60.0 then 1 else 0);
    AddDaysOrdinal(RawDate(1899, 12, 30), days);
    AddDays(RawDate(1899, 12, 30), days)
  }

  /** Serial 1 is 1 January 1900, and later serials are later days. */
  lemma FromExcelSerials(v: real, w: real)
    requires 60.0 <= v < w || 0.0 <= v < w < 60.0
    ensures FromExcel(1.0) == RawDate(1900, 1, 1)
    ensures Before(FromExcel(v), FromExcel(w)) <==> v.Floor < w.Floor
  {
    BeforeOrdinal(FromExcel(v), FromExcel(w));
  }

  /** The cell of column E as `get_project_start_date` accepts it: a datetime as it is, an
      `int` or `float` (a `bool` is an `int` in Python) through `from_excel`. */
  function StartDateOf(v: Value): (r: Result<Date>)
    ensures r.Ok? <==> v.DateTime? || v.Int? || v.Number? || v.Bool?
    ensures v.DateTime? ==> r == Ok(v.date)
    ensures v.Int? ==> r == Ok(FromExcel(v.i as real))
  {
    match v
    case DateTime(d) => Ok(d)
    case Int(i) => Ok(FromExcel(i as real))
    case Number(x, _) => Ok(FromExcel(x))
    case Bool(b) => Ok(FromExcel(if b then 1.0 else 0.0))
    case _ => Err("Project Start Date is not a valid Excel date.")
  }

  /** Column D of row `r` carries the "project start date" label. */
  function StartLabelAt(cells: map<(int, int), Value>): int -> bool {
    (r: int) => Truthy(CellOf(cells, r, 4)) && StripLower(ToStr(CellOf(cells, r, 4))) == "project start date"
  }

  /** What `get_project_start_date` returns or raises for a sheet. */
  function ProjectStartDate(cells: map<(int, int), Value>, maxRow: int): (r: Result<Date>)
    ensures FirstRow(StartLabelAt(cells), 1, maxRow).None? ==> r.Err?
    ensures FirstRow(StartLabelAt(cells), 1, maxRow).Some? ==>
      r == StartDateOf(CellOf(cells, FirstRow(StartLabelAt(cells), 1, maxRow).value, 5))
  {
    match FirstRow(StartLabelAt(cells), 1, maxRow)
    case None => Err("Could not find 'Project Start Date' in column D.")
    case Some(r) => StartDateOf(CellOf(cells, r, 5))
  }

  /** The start date comes from the first labelled row, and no earlier row is labelled. */
  lemma ProjectStartFromFirstLabel(cells: map<(int, int), Value>, maxRow: int)
    requires ProjectStartDate(cells, maxRow).Ok?
    ensures exists r :: (1 <= r <= maxRow && StartLabelAt(cells)(r)
      && ProjectStartDate(cells, maxRow) == StartDateOf(CellOf(cells, r, 5))
      && forall k :: 1 <= k < r ==> !StartLabelAt(cells)(k))
  {
    var r := FirstRow(StartLabelAt(cells), 1, maxRow).value;
    assert StartLabelAt(cells)(r);
  }

  /** The constructor's validation loop: the first required label, in order, whose key
      (`_norm(required)`, by `RequiredKeyIsNorm`) the index lacks. */
  method CheckRequired(index: map<string, int>) returns (missing: Option<string>)
    ensures missing == MissingLabel(index)
  {
    for i := 0 to REQUIRED_COUNT
      invariant MissingLabel(index) == MissingFrom(index, i)
    {
      var required := RequiredLabel(i);
      var key := RequiredKey(i);
      if key !in index {
        return Some(required);
      }
    }
    return None;
  }

  /** The constructor's message for a missing label. */
  function MissingLabelMessage(name: string): string {
    "Could not find label '" + name + "' in column A of '" + TARGET_SHEET + "'."
  }

  /** An engine over the helper sheet, with its label index. */
  class ForecastEngine {
    var ws: Sheet
    var labelRow: map<string, int>

    ghost predicate Valid()
      reads this, ws
    {
      ws.Valid() && labelRow == IndexUpTo(KeysOf(ws.cells), ws.maxRow) && RequiredKeysIn(labelRow)
    }

    constructor Init(ws: Sheet, labelRow: map<string, int>)
      ensures this.ws == ws && this.labelRow == labelRow
    {
      this.ws := ws;
      this.labelRow := labelRow;
    }

    /** `ForecastEngine(path)` once the workbook is loaded: the helper sheet must exist and
        carry every required label in column A; the first label missing is the one reported. */
    static method Open(sheets: map<string, Sheet>) returns (r: Result<ForecastEngine>)
      requires TARGET_SHEET in sheets ==> sheets[TARGET_SHEET].Valid()
      ensures TARGET_SHEET !in sheets ==> r.Err?
      ensures TARGET_SHEET in sheets ==>
        var missing := MissingLabel(IndexUpTo(KeysOf(sheets[TARGET_SHEET].cells), sheets[TARGET_SHEET].maxRow));
        (r.Ok? <==> missing.None?)
        && (missing.Some? ==> r == Err(MissingLabelMessage(missing.value)))
      ensures r.Ok? ==> fresh(r.value) && r.value.ws == sheets[TARGET_SHEET] && r.value.Valid()
    {
      if TARGET_SHEET !in sheets {
        return Err("Worksheet '" + TARGET_SHEET + "' not found.");
      }
      var ws := sheets[TARGET_SHEET];
      var index := IndexLabelsInColumnA(ws);
      var missing := CheckRequired(index);
      if missing.Some? {
        return Err(MissingLabelMessage(missing.value));
      }
      RequiredIndexed(index);
      var e := new ForecastEngine.Init(ws, index);
      r := Ok(e);
    }

    /** `write_inputs_and_get_accus`: build the start datetime (raising before any write when
        it does not exist), write the five inputs into column B of their label rows, and read
        column B of the "ACCUs Realised" row, which none of the writes touched. */
    method WriteInputsAndGetAccus(startingRp: int, startYear: int, startMonth: int, startDay: int, rpLength: int)
      returns (r: Result<(Date, Value)>)
      requires Valid()
      modifies ws
      ensures Valid()
      ensures DatetimeOf(startYear, startMonth, startDay).Err? ==> r.Err? && unchanged(ws)
      ensures DatetimeOf(startYear, startMonth, startDay).Ok? ==>
        ws.cells == old(ws.cells)[(labelRow[KEY_CURRENT_RP], 2) := Int(startingRp)]
          [(labelRow[KEY_RP_END_YEAR], 2) := Int(startYear)][(labelRow[KEY_RP_END_MONTH], 2) := Int(startMonth)]
          [(labelRow[KEY_RP_END_DAY], 2) := Int(startDay)][(labelRow[KEY_RP_LENGTH], 2) := Int(rpLength)]
        && ws.maxRow == old(ws.maxRow) && ws.maxCol == Max(old(ws.maxCol), 2) && ws.images == old(ws.images)
        && r == Ok((RawDate(startYear, startMonth, startDay), old(ws.Cell(labelRow[KEY_ACCUS_REALISED], 2))))
    {
      var dt := DatetimeOf(startYear, startMonth, startDay);
      if dt.Err? {
        return Err(dt.msg);
      }
      LabelRowsDistinct();
      ghost var before := ws.cells;
      // The rows of `_norm(label)` for each label; `RequiredKeys` gives the keys.
      var rowCurrentRp := labelRow[KEY_CURRENT_RP];
      var rowYear := labelRow[KEY_RP_END_YEAR];
      var rowMonth := labelRow[KEY_RP_END_MONTH];
      var rowDay := labelRow[KEY_RP_END_DAY];
      var rowRpLength := labelRow[KEY_RP_LENGTH];
      var rowAccus := labelRow[KEY_ACCUS_REALISED];
      ghost var accusBefore := ws.Cell(rowAccus, 2);
      ghost var maxRow := ws.maxRow;
      ws.Write(rowCurrentRp, 2, CoerceStrippedValue(Int(startingRp)));
      assert ws.maxRow == maxRow;
      ws.Write(rowYear, 2, CoerceStrippedValue(Int(startYear)));
      assert ws.maxRow == maxRow;
      ws.Write(rowMonth, 2, CoerceStrippedValue(Int(startMonth)));
      assert ws.maxRow == maxRow;
      ws.Write(rowDay, 2, CoerceStrippedValue(Int(startDay)));
      assert ws.maxRow == maxRow;
      ws.Write(rowRpLength, 2, CoerceStrippedValue(Int(rpLength)));
      assert ws.maxRow == maxRow;
      ColumnBWrites(before, ws.cells, rowCurrentRp, rowYear, rowMonth, rowDay, rowRpLength, rowAccus,
        Int(startingRp), Int(startYear), Int(startMonth), Int(startDay), Int(rpLength));
      var accusValue := ws.Cell(rowAccus, 2);
      IndexColumnAOnly(before, ws.cells, ws.maxRow);
      r := Ok((dt.value, accusValue));
    }

    /** The "ACCUs Realised" row is none of the five rows written, and every indexed row is a
        row of the sheet. */
    lemma LabelRowsDistinct()
      requires Valid()
      ensures labelRow[KEY_ACCUS_REALISED] != labelRow[KEY_CURRENT_RP]
      ensures labelRow[KEY_ACCUS_REALISED] != labelRow[KEY_RP_END_YEAR]
      ensures labelRow[KEY_ACCUS_REALISED] != labelRow[KEY_RP_END_MONTH]
      ensures labelRow[KEY_ACCUS_REALISED] != labelRow[KEY_RP_END_DAY]
      ensures labelRow[KEY_ACCUS_REALISED] != labelRow[KEY_RP_LENGTH]
      ensures forall key :: key in labelRow ==> 1 <= labelRow[key] <= ws.maxRow
    {
      var keys := KeysOf(ws.cells);
      IndexUpToSpec(keys, ws.maxRow);
      IndexRowsDistinct(keys, ws.maxRow, KEY_ACCUS_REALISED, KEY_CURRENT_RP);
      IndexRowsDistinct(keys, ws.maxRow, KEY_ACCUS_REALISED, KEY_RP_END_YEAR);
      IndexRowsDistinct(keys, ws.maxRow, KEY_ACCUS_REALISED, KEY_RP_END_MONTH);
      IndexRowsDistinct(keys, ws.maxRow, KEY_ACCUS_REALISED, KEY_RP_END_DAY);
      IndexRowsDistinct(keys, ws.maxRow, KEY_ACCUS_REALISED, KEY_RP_LENGTH);
    }

    /** `get_project_start_date`: scan column D for the label and convert column E. */
    method GetProjectStartDate() returns (r: Result<Date>)
      ensures r == ProjectStartDate(ws.cells, ws.maxRow)
    {
      var p := StartLabelAt(ws.cells);
      var row := 1;
      while row <= ws.maxRow
        invariant row >= 1
        invariant FirstRow(p, 1, ws.maxRow) == FirstRow(p, row, ws.maxRow)
      {
        var text := ws.Cell(row, 4);
        if Truthy(text) && StripLower(ToStr(text)) == "project start date" {
          assert p(row);
          var val := ws.Cell(row, 5);
          if val.DateTime? {
            return Ok(val.date);
          }
          if val.Int? || val.Number? || val.Bool? {
            var serial := match val case Int(i) => i as real case Number(x, _) => x case Bool(b) => if b then 1.0 else 0.0;
            return Ok(FromExcel(serial));
          }
          return Err("Project Start Date is not a valid Excel date.");
        }
        row := row + 1;
      }
      r := Err("Could not find 'Project Start Date' in column D.");
    }
  }

  /** Python's `a // b` (floor division) for `b != 0`. */
  function FloorDiv(a: int, b: int): int
    requires b != 0
  {
    if b > 0 then a / b else (-a) / (-b)
  }

  /** Python's `a % b` for `b != 0`: the sign of the divisor. */
  function FloorMod(a: int, b: int): int
    requires b != 0
  {
    a - b * FloorDiv(a, b)
  }

  /** Whole calendar months from the current date to 25 years after the project start, the
      days ignored. */
  function MonthsToEnd(projectStart: Date, current: Date): int {
    var end := AddYears(projectStart, 25);
    (end.year - current.year) * 12 + (end.month - current.month)
  }

  /** The `n_rps` decision of `run_engine`: an explicit count wins; otherwise the project
      start date (or its error) and the current date give the months left, and the count is
      that number divided by the RP length, rounded up; a zero length raises. */
  function NRps(explicit: Option<int>, projectStart: Result<Date>, startYear: int, startMonth: int, startDay: int,
                rpLength: int): (r: Result<int>)
    ensures explicit.Some? ==> r == Ok(explicit.value)
    ensures explicit.None? ==>
      (r.Ok? <==> projectStart.Ok? && DatetimeOf(startYear, startMonth, startDay).Ok? && rpLength != 0)
    ensures explicit.None? && r.Ok? && rpLength > 0 ==>
      var months := MonthsToEnd(projectStart.value, RawDate(startYear, startMonth, startDay));
      (r.value - 1) * rpLength < months <= r.value * rpLength
  {
    if explicit.Some? then Ok(explicit.value)
    else if projectStart.Err? then Err(projectStart.msg)
    else
      var current := DatetimeOf(startYear, startMonth, startDay);
      if current.Err? then Err(current.msg)
      else if rpLength == 0 then Err("integer division or modulo by zero")
      else
        var months := MonthsToEnd(projectStart.value, current.value);
        var n := FloorDiv(months, rpLength);
        var n' := if FloorMod(months, rpLength) != 0 then n + 1 else n;
        if rpLength > 0 then
          CeilingBounds(months, rpLength);
          Ok(n')
        else Ok(n')
  }

  /** Floor division rounded up on a remainder is the ceiling. */
  lemma CeilingBounds(months: int, len: int)
    requires len > 0
    ensures var n := FloorDiv(months, len) + (if FloorMod(months, len) != 0 then 1 else 0);
      (n - 1) * len < months <= n * len
  {
    var q := months / len;
    var rem := months % len;
    assert months == q * len + rem;
    assert FloorMod(months, len) == rem;
    if rem != 0 {
      assert (q + 1) * len == q * len + len;
    } else {
      assert (q - 1) * len == q * len - len;
    }
  }

  /** With monthly RPs the count is the number of months left; with annual RPs a part year
      counts as a whole RP (299 months left give 25 annual RPs). */
  lemma NRpsExamples(projectStart: Date)
    ensures NRps(None, Ok(projectStart), projectStart.year, projectStart.month, 1, 1) == Ok(300)
      || !(1 <= projectStart.year <= 9999)
    ensures 1 <= projectStart.year <= 9999 && projectStart.month < 12 ==>
      NRps(None, Ok(projectStart), projectStart.year, projectStart.month + 1, 1, 12) == Ok(25)
  {
    if 1 <= projectStart.year <= 9999 {
      assert MonthsToEnd(projectStart, RawDate(projectStart.year, projectStart.month, 1)) == 300;
      if projectStart.month < 12 {
        assert MonthsToEnd(projectStart, RawDate(projectStart.year, projectStart.month + 1, 1)) == 299;
      }
    }
  }
}
