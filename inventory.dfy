/** The ledger append of `add_forecast_to_inventory.py`: it reads a forecast sheet, finds the
    project's row in the Declared Projects Portfolio by its ERF (registry) id, makes sure the
    master inventory sheet carries every required header, and appends one inventory row per
    forecast row with a reporting period (RP). */
module Inventory {
  import opened Wrappers
  import opened Text
  import opened Dates
  import opened DateText
  import opened Cells
  import opened Headers
  import opened Ledger

  /** `_norm`: `None` becomes "", anything else `str(x).strip()`. */
  function Norm(v: Value): (r: string)
    ensures v == Blank ==> r == ""
    ensures r == [] || (!IsSpace(r[0]) && !IsSpace(r[|r| - 1]))
  {
    if v == Blank then "" else Strip(ToStr(v))
  }

  /** `_lower_norm`: `_norm` lower-cased. */
  function LowerNorm(v: Value): (r: string)
    ensures r == "" <==> Norm(v) == ""
  {
    Lower(Norm(v))
  }

  /** `_lower_norm` leaves no upper-case ASCII letter. */
  lemma LowerNormIsLower(v: Value)
    ensures forall i :: 0 <= i < |LowerNorm(v)| ==> !('A' <= LowerNorm(v)[i] <= 'Z')
  {
    LowerHasNoUpper(Norm(v));
  }

  /** Normalising a normalised string changes nothing. */
  lemma NormIdempotent(v: Value)
    ensures Norm(Str(Norm(v))) == Norm(v)
  {
    if v != Blank {
      StripIdempotent(ToStr(v));
    }
  }

  lemma LowerNormIdempotent(v: Value)
    ensures LowerNorm(Str(LowerNorm(v))) == LowerNorm(v)
  {
    if v != Blank {
      StripLowerIdempotent(ToStr(v));
    }
  }

  /** The formats `_to_datetime` tries, in order. */
  function DateFormats(): seq<Format> {
    [YearMonthDayDash, DayMonthYearSlash, MonthDayYearSlash]
  }

  /** `_to_datetime`, reduced to the date: datetimes and dates are kept, text is stripped and
      parsed with the first format that accepts it, and anything else gives `None`. */
  function ToDatetime(v: Value): (r: Option<Date>)
    ensures r.Some? && v.Str? ==> 1 <= r.value.year <= 9999
  {
    match v
    case DateTime(d) => Some(d)
    case DateOnly(d) => Some(d)
    case Str(s) => TryFormats(Strip(s), DateFormats())
    case _ => None
  }

  /** Dates and datetimes come back as themselves; `None`, numbers and booleans are not dates. */
  lemma ToDatetimeValues(v: Value)
    ensures (v.DateTime? || v.DateOnly?) ==> ToDatetime(v) == Some(v.date)
    ensures (v.Blank? || v.Int? || v.Number? || v.Bool?) ==> ToDatetime(v).None?
  {
  }

  /** Text holding an ISO date, with any white space around it, parses as that date. */
  lemma ToDatetimeIso(s: string, d: Date)
    requires 1 <= d.year <= 9999 && Strip(s) == IsoText(d)
    ensures ToDatetime(Str(s)) == Some(d)
  {
    IsoRoundTrip(d);
  }

  /** Day-first text parses as its day-first date, even where a month-first reading exists. */
  lemma ToDatetimeDayFirst(s: string, d: Date)
    requires 1 <= d.year <= 9999 && Strip(s) == DmyText(d)
    ensures ToDatetime(Str(s)) == Some(d)
  {
    DmyTextShape(d);
    NoSeparatorFails(DmyText(d), YearMonthDayDash);
    DmyRoundTrip(d);
    assert DateFormats()[1..] == [DayMonthYearSlash, MonthDayYearSlash];
    assert TryFormats(DmyText(d), DateFormats()) == TryFormats(DmyText(d), DateFormats()[1..]);
  }

  /** The three conversions the script applies to cell values. */
  const Script: Parsing := Parsing(Norm, LowerNorm, ToDatetime)

  /** `_lower_norm` of a header name without white space at either end is its lower-case
      form, as long as the name; printable ASCII other than the space is not white space. */
  lemma LowerNormName(h: string)
    requires h != [] && '!' <= h[0] <= '~' && '!' <= h[|h| - 1] <= '~'
    ensures LowerNorm(Str(h)) == Lower(h) && |LowerNorm(Str(h))| == |h| && LowerNorm(Str(h)) != ""
  {
    StripTrimmed(h);
  }

  /** The script compares the portfolio's header keys with "registry id" itself. */
  lemma RegistryKey()
    ensures LowerNorm(Str("Registry ID")) == "registry id"
  {
    LowerNormName("Registry ID");
    var k := LowerNorm(Str("Registry ID"));
    assert k[0] == 'r' && k[1] == 'e' && k[2] == 'g' && k[3] == 'i' && k[4] == 's' && k[5] == 't';
    assert k[6] == 'r' && k[7] == 'y' && k[8] == ' ' && k[9] == 'i' && k[10] == 'd';
  }

  /** The keys of the four derived headers are non-blank and pairwise different (they differ
      in length). */
  lemma DerivedKeys()
    ensures var a, b, c, d := LowerNorm(Str("Forecasted Submission Date")), LowerNorm(Str("Date - Total Amount")),
                              LowerNorm(Str("Status")), LowerNorm(Str("Data Update Date"));
      a != "" && b != "" && c != "" && d != "" && a != b && a != c && a != d && b != c && b != d && c != d
  {
    DerivedKeyLengths();
  }

  lemma DerivedKeyLengths()
    ensures |LowerNorm(Str("Forecasted Submission Date"))| == 26
    ensures |LowerNorm(Str("Date - Total Amount"))| == 19
    ensures |LowerNorm(Str("Status"))| == 6
    ensures |LowerNorm(Str("Data Update Date"))| == 16
  {
    LowerNormName("Forecasted Submission Date");
    LowerNormName("Date - Total Amount");
    LowerNormName("Status");
    LowerNormName("Data Update Date");
  }

  /** Where the four derived headers sit in the required inventory headers. */
  lemma DerivedHeadersRequired()
    ensures RequiredInventoryHeaders[4] == "Status"
    ensures RequiredInventoryHeaders[7] == "Date - Total Amount"
    ensures RequiredInventoryHeaders[11] == "Forecasted Submission Date"
    ensures RequiredInventoryHeaders[19] == "Data Update Date"
  {
  }

  /** After `_ensure_headers`, the four headers the script derives for each row are mapped to
      four different columns of the inventory. */
  lemma EnsuredDerivedDistinct(g: Grid)
    requires GridValid(g)
    ensures DerivedDistinct(Script, EnsuredHeaders(LowerNorm, g, RequiredInventoryHeaders).1)
  {
    DerivedKeys();
    DerivedHeadersRequired();
    assert Script.lowerNorm == LowerNorm;
    EnsuredHeadersDistinct(Script, RequiredInventoryHeaders, g, 11, 7, 4, 19);
  }

  /** With the script's own conversions, a run that goes through appends exactly one row per
      forecast row with an RP below the old last row, keeps the rows already there, and gives
      the `t`-th new row the derived values of the `t`-th such forecast row. */
  lemma ScriptRun(f: Grid, p: Grid, pTitle: string, inv: Grid, runDate: Date,
                  erf: string, I: Inputs, g: Grid, s: Summary, t: int)
    requires GridValid(inv) && Prepare(Script, f, p, pTitle, runDate) == Ok((erf, I))
    requires Run(Script, f, p, pTitle, inv, runDate) == Ok((g, s))
    requires 0 <= t < |RpRows(Script, I, f.maxRow)|
    ensures s == Summary(runDate, erf, |RpRows(Script, I, f.maxRow)|)
    ensures g.maxRow == inv.maxRow + s.rowsAdded
    ensures forall r, c :: 2 <= r <= inv.maxRow ==> CellOf(g.cells, r, c) == CellOf(inv.cells, r, c)
    ensures DerivedDistinct(Script, EnsuredHeaders(LowerNorm, inv, RequiredInventoryHeaders).1)
    ensures ToDatetime(EndCell(Script, I, RpRows(Script, I, f.maxRow)[t])).Some?
    ensures DerivedAt(Script, g, EnsuredHeaders(LowerNorm, inv, RequiredInventoryHeaders).1, inv.maxRow + 1 + t,
                      ToDatetime(EndCell(Script, I, RpRows(Script, I, f.maxRow)[t])).value, runDate)
  {
    DerivedKeys();
    assert Script.lowerNorm == LowerNorm && Script.toDate == ToDatetime;
    RunAppends(Script, f, p, pTitle, inv, runDate, erf, I, g, s);
    EnsuredDerivedDistinct(inv);
    RunRowCells(Script, f, p, pTitle, inv, runDate, erf, I, g, s, EnsuredHeaders(LowerNorm, inv, RequiredInventoryHeaders).1, t);
  }
}
