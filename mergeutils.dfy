/** The helpers that merge a Baseline and a Project Schedule 4 workbook sheet by sheet
    (`PF_2020/ancillary/sch4_merge_utils.py`): header clean-up, the five metric columns, the
    date key of each row, the per-side drop and de-duplication, and the merged layout. */
module MergeUtils {
  import opened Wrappers
  import opened Text
  import opened Dates
  import opened Cells

  // ---------------------------------------------------------------------------------------
  // Header text

  /** `re.sub(r"\s+", " ", s)`: every run of white space becomes one space. */
  function Collapse(s: string): (r: string)
    ensures r == [] <==> s == []
    ensures r != [] ==> r[0] == if IsSpace(s[0]) then ' ' else s[0]
    ensures forall i :: 0 <= i < |r| && IsSpace(r[i]) ==> r[i] == ' '
    ensures forall i :: 0 <= i < |r| - 1 ==> !(r[i] == ' ' && r[i + 1] == ' ')
    decreases |s|
  {
    if s == [] then []
    else if IsSpace(s[0]) then " " + Collapse(LStrip(s[1..], IsSpace))
    else [s[0]] + Collapse(s[1..])
  }

  /** A string in the form `_norm` leaves it in: the space is its only white space, and no
      two spaces are adjacent. */
  predicate SingleSpaced(s: string) {
    (forall i :: 0 <= i < |s| && IsSpace(s[i]) ==> s[i] == ' ')
    && (forall i :: 0 <= i < |s| - 1 ==> !(s[i] == ' ' && s[i + 1] == ' '))
  }

  /** `_norm`: white-space runs collapsed to one space, then the ends stripped. */
  function Norm(s: string): (r: string)
    ensures SingleSpaced(r)
    ensures r == [] || (!IsSpace(r[0]) && !IsSpace(r[|r| - 1]))
  {
    var c := Collapse(s);
    StripSlice(c);
    Strip(c)
  }

  lemma {:induction false} LStripSuffix(s: string, p: char -> bool)
    ensures LStrip(s, p) == s[|s| - |LStrip(s, p)|..]
  {
    if s != [] && p(s[0]) {
      LStripSuffix(s[1..], p);
    }
  }

  lemma {:induction false} RStripPrefix(s: string, p: char -> bool)
    ensures RStrip(s, p) == s[..|RStrip(s, p)|]
  {
    if s != [] && p(s[|s| - 1]) {
      RStripPrefix(s[..|s| - 1], p);
    }
  }

  /** `strip()` keeps a contiguous piece of the string, so a single-spaced string stays so. */
  lemma StripSlice(s: string)
    requires SingleSpaced(s)
    ensures SingleSpaced(Strip(s))
  {
    var l := LStrip(s, IsSpace);
    LStripSuffix(s, IsSpace);
    RStripPrefix(l, IsSpace);
    var k := |s| - |l|;
    assert forall i :: 0 <= i < |Strip(s)| ==> Strip(s)[i] == s[k + i];
  }

  /** A single-spaced string is its own collapse. */
  lemma {:induction false} CollapseFixed(s: string)
    requires SingleSpaced(s)
    ensures Collapse(s) == s
  {
    if s != [] {
      var t := s[1..];
      assert SingleSpaced(t) by {
        assert forall i :: 0 <= i < |t| ==> t[i] == s[i + 1];
      }
      if IsSpace(s[0]) {
        assert t == [] || !IsSpace(t[0]);
        assert LStrip(t, IsSpace) == t;
      }
      CollapseFixed(t);
    }
  }

  /** `_norm` is idempotent. */
  lemma NormIdempotent(s: string)
    ensures Norm(Norm(s)) == Norm(s)
  {
    var n := Norm(s);
    CollapseFixed(n);
    StripTrimmed(n);
  }

  /** The header spellings `_normalise_headers` maps to canonical names. */
  const Variants: map<string, string> := map[
    "C mass of trees  (tC/ha)" := "C mass of trees (tC/ha)",
    "C mass of forest debris  (tC/ha)" := "C mass of forest debris (tC/ha)",
    "C mass of forest products  (tC/ha)" := "C mass of forest products (tC/ha)",
    "C mass of forest litter and deadwood  (tC/ha)" := "C mass of forest debris (tC/ha)",
    "C mass of forest litter and deadwood (tC/ha)" := "C mass of forest debris (tC/ha)"
  ]

  /** One header as `_normalise_headers` leaves it: normalised, then renamed when it is one of
      the known variants. */
  function NormaliseHeader(c: string): string {
    var n := Norm(c);
    if n in Variants then Variants[n] else n
  }

  /** `_normalise_headers` on the column labels, in their order. */
  function NormaliseHeaders(columns: seq<string>): (r: seq<string>)
    ensures |r| == |columns| && forall i :: 0 <= i < |r| ==> r[i] == NormaliseHeader(columns[i])
  {
    seq(|columns|, i requires 0 <= i < |columns| => NormaliseHeader(columns[i]))
  }

  /** The variant spellings, and where the single-spaced one leads. */
  lemma VariantKeys()
    ensures forall n :: n in Variants <==>
      n == "C mass of trees  (tC/ha)" || n == "C mass of forest debris  (tC/ha)"
      || n == "C mass of forest products  (tC/ha)" || n == "C mass of forest litter and deadwood  (tC/ha)"
      || n == "C mass of forest litter and deadwood (tC/ha)"
    ensures Variants["C mass of forest litter and deadwood (tC/ha)"] == "C mass of forest debris (tC/ha)"
  {
  }

  /** A string with two adjacent spaces is no `_norm` output. */
  lemma NotNormOutput(c: string, k: string, i: int)
    requires 0 <= i < |k| - 1 && k[i] == ' ' && k[i + 1] == ' '
    ensures Norm(c) != k
  {
  }

  /** Since `_norm` runs first, the variants with a double space never match: the only header
      renamed is the single-spaced "litter and deadwood" one, which becomes the debris header. */
  lemma NormaliseHeaderSpec(c: string)
    ensures NormaliseHeader(c) ==
      if Norm(c) == "C mass of forest litter and deadwood (tC/ha)" then "C mass of forest debris (tC/ha)" else Norm(c)
  {
    VariantKeys();
    NotNormOutput(c, "C mass of trees  (tC/ha)", 15);
    NotNormOutput(c, "C mass of forest debris  (tC/ha)", 23);
    NotNormOutput(c, "C mass of forest products  (tC/ha)", 25);
    NotNormOutput(c, "C mass of forest litter and deadwood  (tC/ha)", 36);
  }

  // ---------------------------------------------------------------------------------------
  // Month-end keys

  /** `LAST_DAY`: the last day of each month, with February always 28. */
  function LastDay(m: int): (r: int)
    requires 1 <= m <= 12
    ensures m == 2 ==> r == 28
    ensures m != 2 ==> forall y :: r == DaysInMonth(y, m)
  {
    if m == 2 then 28 else if m == 4 || m == 6 || m == 9 || m == 11 then 30 else 31
  }

  /** The month-end key of a parsed date: same year and month, the day from `LAST_DAY`. */
  function MonthEnd(d: Date): (r: Date)
    ensures r.year == d.year && r.month == d.month && r.day == LastDay(d.month)
  {
    RawDate(d.year, d.month, LastDay(d.month))
  }

  /** The key is the month's last day, except in the February of a leap year, where it is the
      28th: one day before the month's end, and before 29 February itself. */
  lemma MonthEndSpec(d: Date)
    ensures !(d.month == 2 && IsLeapYear(d.year)) ==> MonthEnd(d).day == DaysInMonth(d.year, d.month)
    ensures !(d.month == 2 && IsLeapYear(d.year)) ==> NotAfter(d, MonthEnd(d))
    ensures d.month == 2 && IsLeapYear(d.year) && d.day == 29 ==> Before(MonthEnd(d), d)
    ensures MonthEnd(MonthEnd(d)) == MonthEnd(d)
  {
  }

  // ---------------------------------------------------------------------------------------
  // One side of the merge

  /** The metric columns of the output, in their order. */
  const MetricCols: seq<string> := [
    "C mass of trees (tC/ha)",
    "CH4 emitted due to fire (tCH4/ha)",
    "C mass of forest debris (tC/ha)",
    "C mass of forest products (tC/ha)",
    "N2O emitted due to fire (tN2O/ha)"
  ]

  /** A DataFrame read from one sheet: its column labels and its rows of cells. */
  datatype Frame = Frame(columns: seq<string>, rows: seq<seq<Value>>)

  /** The pandas conversions the helpers rely on: `astype(str)` of a cell, `pd.to_numeric(...,
      errors="coerce")` of a cell (`None` for NaN), and `pd.to_datetime(..., errors="coerce")`
      on text with `dayfirst=True` and with `dayfirst=False` (`None` for NaT). */
  datatype Pandas = Pandas(toStr: Value -> string, toNumeric: Value -> Option<real>,
                           dayFirst: string -> Option<Date>, monthFirst: string -> Option<Date>)

  /** The cell of a row in column `j` (a short row reads as NaN). */
  function CellAt(row: seq<Value>, j: int): Value {
    if 0 <= j < |row| then row[j] else Blank
  }

  /** How many columns carry the label. */
  function Occurrences(columns: seq<string>, name: string): (n: nat)
    ensures n == 0 <==> name !in columns
  {
    if columns == [] then 0
    else (if columns[0] == name then 1 else 0) + Occurrences(columns[1..], name)
  }

  /** The position of the first column with the label. */
  function ColumnIndex(columns: seq<string>, name: string): (j: nat)
    requires name in columns
    ensures j < |columns| && columns[j] == name && name !in columns[..j]
  {
    if columns[0] == name then 0
    else
      assert name in columns[1..];
      1 + ColumnIndex(columns[1..], name)
  }

  /** `_parse_dates` on one cell's text: stripped, parsed day-first, and parsed month-first
      where that fails. */
  function ParseDate(P: Pandas, text: string): Option<Date> {
    var t := Strip(text);
    match P.dayFirst(t)
    case Some(d) => Some(d)
    case None => P.monthFirst(t)
  }

  /** `_build_date_key` on one cell's text: the parsed date, moved to its month end when asked. */
  function KeyDate(P: Pandas, text: string, monthEnd: bool): (r: Option<Date>)
    ensures r.Some? <==> ParseDate(P, text).Some?
    ensures r.Some? && monthEnd ==> r.value == MonthEnd(ParseDate(P, text).value)
    ensures r.Some? && !monthEnd ==> r.value == ParseDate(P, text).value
  {
    match ParseDate(P, text)
    case Some(d) => var k: Date := if monthEnd then MonthEnd(d) else d; Some(k)
    case None => None
  }

  /** A row's merge key: its date when the Date text parses, else the text itself. */
  datatype Key = DateKey(date: Date) | TextKey(text: string)

  /** One prepared row: the `_key`, the `_sort` date and the five metrics (`None` for NaN). */
  datatype SideRow = SideRow(key: Key, sort: Option<Date>, metrics: seq<Option<real>>)

  /** `_select_metrics` on one row: exactly the five metric columns, in their order, each
      converted to a number, and NaN for a column the sheet does not have. */
  function SelectMetrics(P: Pandas, columns: seq<string>, row: seq<Value>): (r: seq<Option<real>>)
    ensures |r| == |MetricCols|
    ensures forall i :: 0 <= i < |MetricCols| && MetricCols[i] !in columns ==> r[i].None?
  {
    seq(|MetricCols|, i requires 0 <= i < |MetricCols| =>
      if MetricCols[i] in columns then P.toNumeric(CellAt(row, ColumnIndex(columns, MetricCols[i]))) else None)
  }

  /** The prepared row built from a sheet row, before any row is dropped. */
  function PrepareRow(P: Pandas, columns: seq<string>, dateCol: nat, row: seq<Value>, monthEnd: bool): (r: SideRow)
    ensures r.sort.Some? ==> r.key == DateKey(r.sort.value)
    ensures r.sort.None? ==> r.key == TextKey(P.toStr(CellAt(row, dateCol)))
  {
    var text := P.toStr(CellAt(row, dateCol));
    var kd := KeyDate(P, text, monthEnd);
    SideRow(if kd.Some? then DateKey(kd.value) else TextKey(text), kd, SelectMetrics(P, columns, row))
  }

  /** Every metric of the row is NaN. */
  predicate AllNaN(r: SideRow) {
    forall i :: 0 <= i < |r.metrics| ==> r.metrics[i].None?
  }

  /** `a` is `b` with some elements left out: its elements appear in `b` in the same order. */
  predicate SubseqOf<T(==)>(a: seq<T>, b: seq<T>) {
    a == [] || (b != [] && ((a[0] == b[0] && SubseqOf(a[1..], b[1..])) || SubseqOf(a, b[1..])))
  }

  /** `dropna(how="all", subset=metric_cols)`: the rows with at least one metric, in order. */
  function DropAllNaN(rows: seq<SideRow>): (r: seq<SideRow>)
    ensures forall x :: x in r <==> x in rows && !AllNaN(x)
    ensures SubseqOf(r, rows)
  {
    if rows == [] then []
    else
      var rest := DropAllNaN(rows[1..]);
      if AllNaN(rows[0]) then
        assert SubseqOf(rest, rows[1..]);
        rest
      else
        assert ([rows[0]] + rest)[1..] == rest;
        [rows[0]] + rest
  }

  /** Some row of `rows` carries the key. */
  predicate HasKey(rows: seq<SideRow>, k: Key) {
    exists j :: 0 <= j < |rows| && rows[j].key == k
  }

  /** `drop_duplicates(subset=["_key"], keep="last")`: a row stays unless a later row has
      the same key. */
  function KeepLast(rows: seq<SideRow>): (r: seq<SideRow>)
    ensures forall k :: HasKey(r, k) <==> HasKey(rows, k)
    ensures SubseqOf(r, rows)
  {
    if rows == [] then []
    else
      var rest := KeepLast(rows[1..]);
      assert forall k :: HasKey(rows[1..], k) ==> HasKey(rows, k) by {
        forall k | HasKey(rows[1..], k) ensures HasKey(rows, k) {
          var j :| 0 <= j < |rows| - 1 && rows[1..][j].key == k;
          assert rows[j + 1].key == k;
        }
      }
      if HasKey(rows[1..], rows[0].key) then rest
      else
        var r := [rows[0]] + rest;
        assert forall k :: HasKey(rest, k) ==> HasKey(r, k) by {
          forall k | HasKey(rest, k) ensures HasKey(r, k) {
            var j :| 0 <= j < |rest| && rest[j].key == k;
            assert r[j + 1].key == k;
          }
        }
        assert r[0].key == rows[0].key;
        r
  }

  /** No two rows share a key. */
  predicate KeysDistinct(rows: seq<SideRow>) {
    forall i, j :: 0 <= i < j < |rows| ==> rows[i].key != rows[j].key
  }

  /** After `KeepLast` no two rows share a key. */
  lemma {:induction false} KeepLastUnique(rows: seq<SideRow>)
    ensures KeysDistinct(KeepLast(rows))
  {
    if rows != [] {
      KeepLastUnique(rows[1..]);
      var rest := KeepLast(rows[1..]);
      if !HasKey(rows[1..], rows[0].key) {
        var r := [rows[0]] + rest;
        forall i, j | 0 <= i < j < |r|
          ensures r[i].key != r[j].key
        {
          if i == 0 {
            assert 0 <= j - 1 < |rest| && rest[j - 1].key == r[j].key;
            assert HasKey(rest, r[j].key);
            assert HasKey(rows[1..], r[j].key);
            assert r[0].key == rows[0].key;
          } else {
            assert r[i] == rest[i - 1] && r[j] == rest[j - 1];
            assert rest[i - 1].key != rest[j - 1].key;
          }
        }
        assert KeepLast(rows) == r;
      }
    }
  }

  /** The row kept for a key is the last row with that key. */
  lemma {:induction false} KeepLastIsLast(rows: seq<SideRow>, i: int)
    requires 0 <= i < |rows| && !HasKey(rows[i + 1..], rows[i].key)
    ensures rows[i] in KeepLast(rows)
  {
    if i > 0 {
      assert rows[1..][i - 1] == rows[i] && rows[1..][i..] == rows[i + 1..];
      KeepLastIsLast(rows[1..], i - 1);
    } else {
      assert rows[1..] == rows[i + 1..];
    }
  }

  /** Every row kept is the last of the rows with its key. */
  lemma {:induction false} KeepLastOnlyLast(rows: seq<SideRow>, x: SideRow)
    requires x in KeepLast(rows)
    ensures exists i :: 0 <= i < |rows| && rows[i] == x && !HasKey(rows[i + 1..], x.key)
  {
    if x in KeepLast(rows[1..]) {
      KeepLastOnlyLast(rows[1..], x);
      var i :| 0 <= i < |rows| - 1 && rows[1..][i] == x && !HasKey(rows[1..][i + 1..], x.key);
      assert rows[1..][i + 1..] == rows[i + 2..];
      assert rows[i + 1] == x;
    } else {
      assert rows[1..] == rows[0 + 1..];
    }
  }

  /** One sheet after `_prepare_side`: the column labels of the prepared frame and its rows. */
  datatype Side = Side(columns: seq<string>, rows: seq<SideRow>)

  /** The label under which a side's metric is written: `"{label} - {metric}"`. */
  function MetricName(tag: string, i: int): string
    requires 0 <= i < |MetricCols|
  {
    tag + " - " + MetricCols[i]
  }

  /** `_prepare_side`. A sheet without a Date column raises; so does one with two Date columns
      or two columns for one metric, where pandas gets a frame instead of a column. Otherwise
      the rows are keyed and their metrics selected, rows without any metric are dropped, and
      for each key only the last row stays. */
  function PrepareSide(P: Pandas, df: Frame, tag: string, monthEnd: bool): (r: Result<Side>)
    ensures var cols := NormaliseHeaders(df.columns);
      r.Ok? <==> Occurrences(cols, "Date") == 1 && forall i :: 0 <= i < |MetricCols| ==> Occurrences(cols, MetricCols[i]) <= 1
    ensures "Date" !in NormaliseHeaders(df.columns) ==> r == Err("Input sheet missing 'Date' column.")
  {
    var cols := NormaliseHeaders(df.columns);
    if "Date" !in cols then Err("Input sheet missing 'Date' column.")
    else if Occurrences(cols, "Date") > 1 then Err(DuplicateColumnMsg("Date"))
    else if exists i :: 0 <= i < |MetricCols| && Occurrences(cols, MetricCols[i]) > 1 then
      Err(DuplicateColumnMsg("metric"))
    else Ok(PreparedSide(P, df, cols, tag, monthEnd))
  }

  /** The frame `_prepare_side` returns once the columns have passed its checks. */
  function PreparedSide(P: Pandas, df: Frame, cols: seq<string>, tag: string, monthEnd: bool): Side
    requires "Date" in cols
  {
    var dateCol := ColumnIndex(cols, "Date");
    var prepared := seq(|df.rows|, i requires 0 <= i < |df.rows| => PrepareRow(P, cols, dateCol, df.rows[i], monthEnd));
    Side(["_key", "_sort"] + seq(|MetricCols|, i requires 0 <= i < |MetricCols| => MetricName(tag, i)),
         KeepLast(DropAllNaN(prepared)))
  }

  /** The error raised, inside pandas, on a label that names two columns. */
  function DuplicateColumnMsg(name: string): string {
    "duplicate column " + name
  }

  /** What `_prepare_side` promises about the rows it keeps: no two share a key, each has at
      least one metric, each comes from a sheet row with no later row of the same key among
      the rows with a metric, and a row is dated exactly when its key is a date. */
  lemma PrepareSideRows(P: Pandas, df: Frame, tag: string, monthEnd: bool)
    requires PrepareSide(P, df, tag, monthEnd).Ok?
    ensures var side := PrepareSide(P, df, tag, monthEnd).value;
      KeysDistinct(side.rows)
      && (forall x :: x in side.rows ==> !AllNaN(x) && |x.metrics| == |MetricCols|)
      && (forall x :: x in side.rows ==> (x.sort.Some? ==> x.key == DateKey(x.sort.value)) && (x.sort.None? ==> x.key.TextKey?))
  {
    var cols := NormaliseHeaders(df.columns);
    var dateCol := ColumnIndex(cols, "Date");
    var prepared := seq(|df.rows|, i requires 0 <= i < |df.rows| => PrepareRow(P, cols, dateCol, df.rows[i], monthEnd));
    var kept := DropAllNaN(prepared);
    KeepLastUnique(kept);
    forall x | x in KeepLast(kept)
      ensures !AllNaN(x) && |x.metrics| == |MetricCols|
      ensures (x.sort.Some? ==> x.key == DateKey(x.sort.value)) && (x.sort.None? ==> x.key.TextKey?)
    {
      KeepLastOnlyLast(kept, x);
    }
  }

  // ---------------------------------------------------------------------------------------
  // The merge

  /** The five metrics of a side that has no row for a key: all NaN. */
  const NaNs: seq<Option<real>> := [None, None, None, None, None]

  /** The first row of a side with the key. */
  function FindKey(rows: seq<SideRow>, k: Key): (r: Option<SideRow>)
    ensures r.Some? ==> r.value in rows && r.value.key == k
    ensures r.None? <==> !HasKey(rows, k)
  {
    if rows == [] then None
    else if rows[0].key == k then Some(rows[0])
    else
      var r := FindKey(rows[1..], k);
      assert HasKey(rows, k) ==> HasKey(rows[1..], k) by {
        if HasKey(rows, k) {
          var j :| 0 <= j < |rows| && rows[j].key == k;
          assert rows[1..][j - 1].key == k;
        }
      }
      assert forall x :: x in rows[1..] ==> x in rows;
      r
  }

  /** A row of the outer join on `_key`: the key, the `_sort` date (Baseline's, else
      Project's) and both sides' metrics. */
  datatype Joined = Joined(key: Key, sort: Option<Date>, a: seq<Option<real>>, b: seq<Option<real>>)

  function Coalesce(x: Option<Date>, y: Option<Date>): Option<Date> {
    if x.Some? then x else y
  }

  /** The join row for a Baseline row. */
  function JoinRow(x: SideRow, b: seq<SideRow>): Joined {
    match FindKey(b, x.key)
    case Some(y) => Joined(x.key, Coalesce(x.sort, y.sort), x.metrics, y.metrics)
    case None => Joined(x.key, x.sort, x.metrics, NaNs)
  }

  /** The Project rows whose key Baseline lacks, as join rows. */
  function ProjectOnly(a: seq<SideRow>, b: seq<SideRow>): (r: seq<Joined>)
    ensures forall z :: z in r ==> z.a == NaNs && !HasKey(a, z.key) && HasKey(b, z.key)
    ensures FiveMetrics(b) ==> forall z :: z in r ==> |z.b| == |MetricCols|
  {
    if b == [] then []
    else
      var rest := ProjectOnly(a, b[1..]);
      HasKeyTail(b);
      if HasKey(a, b[0].key) then rest
      else [Joined(b[0].key, b[0].sort, NaNs, b[0].metrics)] + rest
  }

  lemma HasKeyTail(rows: seq<SideRow>)
    requires rows != []
    ensures forall k :: HasKey(rows[1..], k) ==> HasKey(rows, k)
  {
    forall k | HasKey(rows[1..], k) ensures HasKey(rows, k) {
      var j :| 0 <= j < |rows[1..]| && rows[1..][j].key == k;
      assert rows[j + 1].key == k;
    }
  }

  /** The outer join of the two sides on `_key`. */
  function Join(a: seq<SideRow>, b: seq<SideRow>): (r: seq<Joined>)
    ensures |r| >= |a|
    ensures forall i :: 0 <= i < |a| ==> r[i] == JoinRow(a[i], b)
    ensures forall z :: z in r[|a|..] ==> z.a == NaNs && !HasKey(a, z.key)
  {
    seq(|a|, i requires 0 <= i < |a| => JoinRow(a[i], b)) + ProjectOnly(a, b)
  }

  /** Every key of either side has a join row carrying it. */
  lemma JoinCoversKeys(a: seq<SideRow>, b: seq<SideRow>, k: Key)
    requires HasKey(a, k) || HasKey(b, k)
    ensures exists i :: 0 <= i < |Join(a, b)| && Join(a, b)[i].key == k
  {
    var r := Join(a, b);
    if HasKey(a, k) {
      var i :| 0 <= i < |a| && a[i].key == k;
      assert r[i].key == k;
    } else {
      var j :| 0 <= j < |b| && b[j].key == k;
      ProjectOnlyCovers(a, b, j);
      var z :| z in ProjectOnly(a, b) && z.key == k;
      var t :| 0 <= t < |ProjectOnly(a, b)| && ProjectOnly(a, b)[t] == z;
      assert r[|a| + t] == z;
    }
  }

  lemma {:induction false} ProjectOnlyCovers(a: seq<SideRow>, b: seq<SideRow>, j: int)
    requires 0 <= j < |b| && !HasKey(a, b[j].key)
    ensures exists z :: z in ProjectOnly(a, b) && z.key == b[j].key
  {
    if j > 0 {
      assert b[1..][j - 1] == b[j];
      ProjectOnlyCovers(a, b[1..], j - 1);
      var z :| z in ProjectOnly(a, b[1..]) && z.key == b[j].key;
      assert z in ProjectOnly(a, b);
    } else {
      assert Joined(b[0].key, b[0].sort, NaNs, b[0].metrics) in ProjectOnly(a, b);
    }
  }

  /** The `_sort` order of `sort_values`, with undated rows (NaT) last. */
  predicate SortLe(x: Option<Date>, y: Option<Date>) {
    if x.None? then y.None? else y.None? || NotAfter(x.value, y.value)
  }

  lemma SortLeTotal(x: Option<Date>, y: Option<Date>)
    ensures SortLe(x, y) || SortLe(y, x)
  {
    if x.Some? && y.Some? {
      BeforeOrdinal(x.value, y.value);
      BeforeOrdinal(y.value, x.value);
      if Ordinal(x.value) == Ordinal(y.value) {
        OrdinalInjective(x.value, y.value);
      }
    }
  }

  lemma SortLeTransitive(x: Option<Date>, y: Option<Date>, z: Option<Date>)
    requires SortLe(x, y) && SortLe(y, z)
    ensures SortLe(x, z)
  {
    if x.Some? && y.Some? && z.Some? {
      BeforeOrdinal(x.value, y.value);
      BeforeOrdinal(y.value, z.value);
      BeforeOrdinal(x.value, z.value);
    }
  }

  predicate SortedByDate(rows: seq<Joined>) {
    forall i, j :: 0 <= i < j < |rows| ==> SortLe(rows[i].sort, rows[j].sort)
  }

  /** Inserting a row into sorted rows, after those it does not precede. */
  function Insert(x: Joined, rows: seq<Joined>): (r: seq<Joined>)
    ensures |r| == |rows| + 1
    ensures multiset(r) == multiset(rows) + multiset{x}
  {
    if rows == [] then [x]
    else if !SortLe(rows[0].sort, x.sort) then [x] + rows
    else
      assert rows == [rows[0]] + rows[1..];
      [rows[0]] + Insert(x, rows[1..])
  }

  lemma {:induction false} InsertSorted(x: Joined, rows: seq<Joined>)
    requires SortedByDate(rows)
    ensures SortedByDate(Insert(x, rows))
  {
    if rows != [] {
      if !SortLe(rows[0].sort, x.sort) {
        SortLeTotal(rows[0].sort, x.sort);
        var r := [x] + rows;
        forall i, j | 0 <= i < j < |r|
          ensures SortLe(r[i].sort, r[j].sort)
        {
          if i == 0 && j > 1 {
            SortLeTransitive(x.sort, rows[0].sort, rows[j - 1].sort);
          }
        }
      } else {
        var rest := rows[1..];
        InsertSorted(x, rest);
        var ins := Insert(x, rest);
        var r := [rows[0]] + ins;
        forall i, j | 0 <= i < j < |r|
          ensures SortLe(r[i].sort, r[j].sort)
        {
          if i == 0 {
            var z := ins[j - 1];
            assert z in multiset(ins);
            assert z in multiset(rest) + multiset{x};
            if z != x {
              assert z in rest;
              var t :| 0 <= t < |rest| && rest[t] == z;
              assert rows[t + 1] == z;
            }
          }
        }
      }
    }
  }

  /** `sort_values("_sort")`: the join rows in date order, undated ones last. */
  function SortRows(rows: seq<Joined>): (r: seq<Joined>)
    ensures |r| == |rows|
    ensures multiset(r) == multiset(rows)
  {
    if rows == [] then []
    else
      assert rows == rows[..|rows| - 1] + [rows[|rows| - 1]];
      Insert(rows[|rows| - 1], SortRows(rows[..|rows| - 1]))
  }

  lemma {:induction false} SortRowsSorted(rows: seq<Joined>)
    ensures SortedByDate(SortRows(rows))
  {
    if rows != [] {
      SortRowsSorted(rows[..|rows| - 1]);
      InsertSorted(rows[|rows| - 1], SortRows(rows[..|rows| - 1]));
    }
  }

  /** The metric positions of side `tag` that keep their plain names in the merged frame:
      those whose name the other side's frame does not also carry (pandas suffixes those). */
  function KeptMetrics(tag: string, other: string): (r: seq<int>)
    ensures forall t :: 0 <= t < |r| ==> 0 <= r[t] < |MetricCols|
  {
    KeptFrom(tag, other, 0)
  }

  function KeptFrom(tag: string, other: string, i: nat): (r: seq<int>)
    requires i <= |MetricCols|
    ensures forall t :: 0 <= t < |r| ==> i <= r[t] < |MetricCols|
    decreases |MetricCols| - i
  {
    if i == |MetricCols| then []
    else (if Collides(tag, other, i) then [] else [i]) + KeptFrom(tag, other, i + 1)
  }

  /** The positions kept from `i` on are, in increasing order, exactly those whose name does
      not collide. */
  lemma {:induction false} KeptFromSound(tag: string, other: string, i: nat)
    requires i <= |MetricCols|
    ensures forall t :: 0 <= t < |KeptFrom(tag, other, i)| ==> !Collides(tag, other, KeptFrom(tag, other, i)[t])
    decreases |MetricCols| - i
  {
    if i < |MetricCols| {
      KeptFromSound(tag, other, i + 1);
    }
  }

  lemma {:induction false} KeptFromComplete(tag: string, other: string, i: nat)
    requires i <= |MetricCols|
    ensures forall k :: i <= k < |MetricCols| && !Collides(tag, other, k) ==> k in KeptFrom(tag, other, i)
    decreases |MetricCols| - i
  {
    if i < |MetricCols| {
      KeptFromComplete(tag, other, i + 1);
    }
  }

  lemma {:induction false} KeptFromIncreasing(tag: string, other: string, i: nat)
    requires i <= |MetricCols|
    ensures forall t, u :: 0 <= t < u < |KeptFrom(tag, other, i)| ==> KeptFrom(tag, other, i)[t] < KeptFrom(tag, other, i)[u]
    decreases |MetricCols| - i
  {
    if i < |MetricCols| {
      KeptFromIncreasing(tag, other, i + 1);
    }
  }

  /** Metric `i` of side `tag` has the name of one of the other side's metrics. */
  predicate Collides(tag: string, other: string, i: int)
    requires 0 <= i < |MetricCols|
  {
    exists j :: 0 <= j < |MetricCols| && MetricName(tag, i) == MetricName(other, j)
  }

  /** The merged sheet: its columns and its rows of cells (Date text, then the metrics). */
  datatype Merged = Merged(columns: seq<string>, rows: seq<(string, seq<Option<real>>)>)

  /** `_format_key_dates`: a date key written with the date format, a text key as it is. */
  function KeyText(k: Key, format: Date -> string): string {
    match k
    case DateKey(d) => format(d)
    case TextKey(t) => t
  }

  function MergedColumns(tagA: string, tagB: string): seq<string> {
    var ka, kb := KeptMetrics(tagA, tagB), KeptMetrics(tagB, tagA);
    ["Date"] + seq(|ka|, t requires 0 <= t < |ka| => MetricName(tagA, ka[t]))
      + seq(|kb|, t requires 0 <= t < |kb| => MetricName(tagB, kb[t]))
  }

  /** The metrics at the kept positions, in their order. */
  function Pick(values: seq<Option<real>>, kept: seq<int>): (r: seq<Option<real>>)
    requires forall t :: 0 <= t < |kept| ==> 0 <= kept[t] < |values|
    ensures |r| == |kept| && forall t :: 0 <= t < |kept| ==> r[t] == values[kept[t]]
  {
    seq(|kept|, t requires 0 <= t < |kept| => values[kept[t]])
  }

  /** Picking every position in order keeps every metric. */
  lemma PickAll(values: seq<Option<real>>, kept: seq<int>)
    requires |kept| == |values| && forall t :: 0 <= t < |kept| ==> kept[t] == t
    ensures Pick(values, kept) == values
  {
  }

  function MergedRow(z: Joined, format: Date -> string, tagA: string, tagB: string): (string, seq<Option<real>>)
    requires |z.a| == |MetricCols| && |z.b| == |MetricCols|
  {
    (KeyText(z.key, format), Pick(z.a, KeptMetrics(tagA, tagB)) + Pick(z.b, KeptMetrics(tagB, tagA)))
  }

  /** Both sides as `_prepare_side` leaves them: five metrics per row. */
  predicate FiveMetrics(rows: seq<SideRow>) {
    forall x :: x in rows ==> |x.metrics| == |MetricCols|
  }

  /** `_merge_two_frames` on the sides prepared under `tagA` and `tagB`: the outer join on the
      key, ordered by date, with a Date column rebuilt from the key, then `tagA`'s metrics and
      then `tagB`'s, in metric order. The sides are the ones `_prepare_side` returns, whose keys
      are distinct (`PrepareSideRows`), so looking up the one row of a key is `FindKey`'s first
      match. */
  function MergeTwoFrames(a: seq<SideRow>, b: seq<SideRow>, format: Date -> string, tagA: string, tagB: string): (m: Merged)
    requires FiveMetrics(a) && FiveMetrics(b)
    ensures m.columns == MergedColumns(tagA, tagB)
    ensures |m.rows| == |Join(a, b)|
  {
    var sorted := SortRows(Join(a, b));
    JoinFive(a, b);
    SortRowsFive(Join(a, b));
    Merged(MergedColumns(tagA, tagB), seq(|sorted|, i requires 0 <= i < |sorted| => MergedRow(sorted[i], format, tagA, tagB)))
  }

  /** Sorting keeps the rows, so it keeps their five metrics. */
  lemma SortRowsFive(rows: seq<Joined>)
    requires forall z :: z in rows ==> |z.a| == |MetricCols| && |z.b| == |MetricCols|
    ensures forall z :: z in SortRows(rows) ==> |z.a| == |MetricCols| && |z.b| == |MetricCols|
  {
    forall z | z in SortRows(rows) ensures |z.a| == |MetricCols| && |z.b| == |MetricCols| {
      assert z in multiset(SortRows(rows));
    }
  }

  lemma JoinFive(a: seq<SideRow>, b: seq<SideRow>)
    requires FiveMetrics(a) && FiveMetrics(b)
    ensures forall z :: z in Join(a, b) ==> |z.a| == |MetricCols| && |z.b| == |MetricCols|
  {
    forall i | 0 <= i < |a| ensures |JoinRow(a[i], b).b| == |MetricCols| {
      assert a[i] in a;
    }
  }

  predicate JoinedDistinct(rows: seq<Joined>) {
    forall i, j :: 0 <= i < j < |rows| ==> rows[i].key != rows[j].key
  }

  /** Every join row carries a key of one side or the other. */
  lemma JoinKeysFromSides(a: seq<SideRow>, b: seq<SideRow>)
    ensures forall i :: 0 <= i < |Join(a, b)| ==> HasKey(a, Join(a, b)[i].key) || HasKey(b, Join(a, b)[i].key)
  {
    var r := Join(a, b);
    forall i | 0 <= i < |r| ensures HasKey(a, r[i].key) || HasKey(b, r[i].key) {
      if i < |a| {
        assert a[i].key == r[i].key;
      } else {
        assert r[i] in r[|a|..];
        assert r[i] in ProjectOnly(a, b);
      }
    }
  }

  lemma {:induction false} ProjectOnlyDistinct(a: seq<SideRow>, b: seq<SideRow>)
    requires KeysDistinct(b)
    ensures JoinedDistinct(ProjectOnly(a, b))
  {
    if b != [] {
      var rest := ProjectOnly(a, b[1..]);
      assert KeysDistinct(b[1..]) by {
        forall i, j | 0 <= i < j < |b[1..]| ensures b[1..][i].key != b[1..][j].key {
          assert b[1..][i] == b[i + 1] && b[1..][j] == b[j + 1];
        }
      }
      ProjectOnlyDistinct(a, b[1..]);
      if !HasKey(a, b[0].key) {
        FirstKeyNotInRest(b);
        ConsDistinct(Joined(b[0].key, b[0].sort, NaNs, b[0].metrics), rest);
      }
    }
  }

  lemma FirstKeyNotInRest(b: seq<SideRow>)
    requires b != [] && KeysDistinct(b)
    ensures !HasKey(b[1..], b[0].key)
  {
    forall j | 0 <= j < |b[1..]| ensures b[1..][j].key != b[0].key {
      assert b[1..][j] == b[j + 1];
    }
  }

  lemma ConsDistinct(z: Joined, rest: seq<Joined>)
    requires JoinedDistinct(rest) && forall w :: w in rest ==> w.key != z.key
    ensures JoinedDistinct([z] + rest)
  {
    var r := [z] + rest;
    forall i, j | 0 <= i < j < |r| ensures r[i].key != r[j].key {
      assert r[j] == rest[j - 1];
      if i > 0 {
        assert r[i] == rest[i - 1];
      }
    }
  }

  /** When neither side repeats a key, the outer join has one row per key. */
  lemma JoinDistinct(a: seq<SideRow>, b: seq<SideRow>)
    requires KeysDistinct(a) && KeysDistinct(b)
    ensures JoinedDistinct(Join(a, b))
  {
    var r := Join(a, b);
    ProjectOnlyDistinct(a, b);
    var p := ProjectOnly(a, b);
    assert r[|a|..] == p;
    forall i, j | 0 <= i < j < |r| ensures r[i].key != r[j].key {
      if j < |a| {
      } else if i < |a| {
        assert r[j] in r[|a|..];
        assert a[i].key == r[i].key;
      } else {
        assert r[i] == p[i - |a|] && r[j] == p[j - |a|];
      }
    }
  }

  /** The merged sheet: the outer join in date order, undated rows last, each row written as
      its key's Date text followed by the kept metrics of `tagA` and then of `tagB`. */
  lemma MergeTwoFramesSpec(a: seq<SideRow>, b: seq<SideRow>, format: Date -> string, tagA: string, tagB: string)
    requires FiveMetrics(a) && FiveMetrics(b)
    ensures var s, m := SortRows(Join(a, b)), MergeTwoFrames(a, b, format, tagA, tagB);
      multiset(s) == multiset(Join(a, b)) && SortedByDate(s) && |s| == |m.rows|
      && (forall z :: z in s ==> |z.a| == |MetricCols| && |z.b| == |MetricCols|)
      && forall i :: 0 <= i < |s| ==> m.rows[i] == MergedRow(s[i], format, tagA, tagB)
  {
    SortRowsSorted(Join(a, b));
    MergedRowsAt(a, b, format, tagA, tagB);
  }

  /** The rows `_merge_two_frames` writes are the sorted join's rows, one by one. */
  lemma MergedRowsAt(a: seq<SideRow>, b: seq<SideRow>, format: Date -> string, tagA: string, tagB: string)
    requires FiveMetrics(a) && FiveMetrics(b)
    ensures var s, m := SortRows(Join(a, b)), MergeTwoFrames(a, b, format, tagA, tagB);
      |s| == |m.rows|
      && (forall z :: z in s ==> |z.a| == |MetricCols| && |z.b| == |MetricCols|)
      && forall i :: 0 <= i < |s| ==> m.rows[i] == MergedRow(s[i], format, tagA, tagB)
  {
    JoinFive(a, b);
    SortRowsFive(Join(a, b));
  }

  /** Two tags that differ at a position both have give distinct metric names, so no column
      is suffixed away: all five metrics of each side are kept, Baseline's first. */
  lemma DistinctTagsKeepAll(tagA: string, tagB: string, p: int)
    requires 0 <= p < |tagA| && p < |tagB| && tagA[p] != tagB[p]
    ensures KeepsAll(tagA, tagB) && KeepsAll(tagB, tagA)
    ensures MergedColumns(tagA, tagB) == ["Date"] + seq(5, i requires 0 <= i < 5 => MetricName(tagA, i))
      + seq(5, i requires 0 <= i < 5 => MetricName(tagB, i))
  {
    forall i, j | 0 <= i < |MetricCols| && 0 <= j < |MetricCols|
      ensures MetricName(tagA, i) != MetricName(tagB, j) && MetricName(tagB, i) != MetricName(tagA, j)
    {
      assert MetricName(tagA, i)[p] == tagA[p] && MetricName(tagB, j)[p] == tagB[p];
      assert MetricName(tagB, i)[p] == tagB[p] && MetricName(tagA, j)[p] == tagA[p];
    }
    KeepAllWhenNoCollision(tagA, tagB);
    KeepAllWhenNoCollision(tagB, tagA);
  }

  /** Every metric of `tag` keeps its name: the kept positions are 0 to 4 in order. */
  predicate KeepsAll(tag: string, other: string) {
    var k := KeptMetrics(tag, other);
    |k| == |MetricCols| && forall t :: 0 <= t < |k| ==> k[t] == t
  }

  lemma KeepAllWhenNoCollision(tag: string, other: string)
    requires forall i :: 0 <= i < |MetricCols| ==> !Collides(tag, other, i)
    ensures KeptMetrics(tag, other) == [0, 1, 2, 3, 4] && KeepsAll(tag, other)
  {
    assert KeptFrom(tag, other, 5) == [];
    assert KeptFrom(tag, other, 4) == [4];
    assert KeptFrom(tag, other, 3) == [3, 4];
    assert KeptFrom(tag, other, 2) == [2, 3, 4];
    assert KeptFrom(tag, other, 1) == [1, 2, 3, 4];
  }

  /** The same tag on both sides suffixes every metric column, so the merged sheet keeps only
      its Date column. */
  lemma SameTagKeepsOnlyDate(tag: string)
    ensures MergedColumns(tag, tag) == ["Date"]
  {
    forall i | 0 <= i < |MetricCols| ensures Collides(tag, tag, i) {
      assert MetricName(tag, i) == MetricName(tag, i);
    }
    AllCollideKeepNone(tag, tag, 0);
  }

  lemma {:induction false} AllCollideKeepNone(tag: string, other: string, i: nat)
    requires i <= |MetricCols| && forall k :: i <= k < |MetricCols| ==> Collides(tag, other, k)
    ensures KeptFrom(tag, other, i) == []
    decreases |MetricCols| - i
  {
    if i < |MetricCols| {
      AllCollideKeepNone(tag, other, i + 1);
    }
  }

  /** The default tags keep every metric column. */
  lemma DefaultTagsKeepAll()
    ensures KeepsAll("Baseline", "Project") && KeepsAll("Project", "Baseline")
  {
    DistinctTagsKeepAll("Baseline", "Project", 0);
  }

  /** With every metric kept, a merged row is the Date text, Baseline's five metrics, then
      Project's five. */
  lemma MergedRowAll(z: Joined, format: Date -> string, tagA: string, tagB: string)
    requires |z.a| == |MetricCols| && |z.b| == |MetricCols|
    requires KeepsAll(tagA, tagB) && KeepsAll(tagB, tagA)
    ensures MergedRow(z, format, tagA, tagB) == (KeyText(z.key, format), z.a + z.b)
  {
    PickAll(z.a, KeptMetrics(tagA, tagB));
    PickAll(z.b, KeptMetrics(tagB, tagA));
  }

  /** A Baseline row whose key Project lacks has NaN for every Project metric; one whose key
      Project has carries Project's metrics for that key, and Baseline's date when it has one. */
  lemma JoinRowSpec(x: SideRow, b: seq<SideRow>)
    ensures JoinRow(x, b).key == x.key && JoinRow(x, b).a == x.metrics
    ensures !HasKey(b, x.key) ==> JoinRow(x, b).b == NaNs && JoinRow(x, b).sort == x.sort
    ensures HasKey(b, x.key) ==> exists y :: (y in b && y.key == x.key && JoinRow(x, b).b == y.metrics
      && JoinRow(x, b).sort == (if x.sort.Some? then x.sort else y.sort))
  {
  }
}
