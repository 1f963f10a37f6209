/** Dates as text: the fixed `strptime` formats the scripts try and the `strftime`
    renderings they write. */
module DateText {
  import opened Wrappers
  import opened Text
  import opened Dates

  /** The `strptime` formats used by the repository. */
  datatype Format =
    | DayMonthYearSlash   // "%d/%m/%Y"
    | YearMonthDayDash    // "%Y-%m-%d"
    | DayMonthYearDash    // "%d-%m-%Y"
    | MonthDayYearSlash   // "%m/%d/%Y"

  function Separator(f: Format): char {
    if f.YearMonthDayDash? || f.DayMonthYearDash? then '-' else '/'
  }

  /** A `%d` or `%m` field: one or two ASCII digits. */
  predicate ShortField(s: string) {
    1 <= |s| <= 2 && IsDigits(s)
  }

  /** A `%Y` field: exactly four ASCII digits. */
  predicate YearField(s: string) {
    |s| == 4 && IsDigits(s)
  }

  /** `datetime.strptime(s, f).date()`, or `None` where it raises `ValueError`: the three
      fields must be separated by the format's separator, the day and month have one or two
      digits, the year four, and the date must exist (year 0 does not). */
  function Strptime(s: string, f: Format): (r: Option<Date>)
    ensures r.Some? ==> 1 <= r.value.year <= 9999
  {
    var p := Split(s, Separator(f));
    if |p| != 3 then None
    else
      var ys := if f.YearMonthDayDash? then p[0] else p[2];
      var ms := if f.MonthDayYearSlash? then p[0] else p[1];
      var ds := if f.YearMonthDayDash? then p[2] else if f.MonthDayYearSlash? then p[1] else p[0];
      if YearField(ys) && ShortField(ms) && ShortField(ds) then
        var raw := RawDate(DigitsValue(ys), DigitsValue(ms), DigitsValue(ds));
        assert DigitsValue(ys) <= 9999 by { FourDigitsBound(ys); }
        if ValidDate(raw) && raw.year >= 1 then
          var d: Date := raw;
          Some(d)
        else None
      else None
  }

  lemma FourDigitsBound(s: string)
    requires YearField(s)
    ensures DigitsValue(s) <= 9999
  {
    DigitsBound(s);
    assert Pow10(4) == 10000;
  }

  /** The first format of `fmts` that parses `s`, as the scripts' `for fmt in (...)` loops do. */
  function TryFormats(s: string, fmts: seq<Format>): (r: Option<Date>)
    ensures r.Some? ==> exists i :: 0 <= i < |fmts| && Strptime(s, fmts[i]) == r
    ensures r.None? ==> forall i :: 0 <= i < |fmts| ==> Strptime(s, fmts[i]).None?
  {
    if fmts == [] then None
    else if Strptime(s, fmts[0]).Some? then Strptime(s, fmts[0])
    else TryFormats(s, fmts[1..])
  }

  function Pad2(n: nat): (r: string)
    requires n < 100
    ensures ShortField(r) && |r| == 2
  {
    [DigitChar(n / 10), DigitChar(n % 10)]
  }

  function Pad4(n: nat): (r: string)
    requires n < 10000
    ensures YearField(r)
  {
    Pad2(n / 100) + Pad2(n % 100)
  }

  lemma Pad2Value(n: nat)
    requires n < 100
    ensures DigitsValue(Pad2(n)) == n
  {
    var a, b := DigitChar(n / 10), DigitChar(n % 10);
    DigitsAppend([], a);
    assert [] + [a] == [a];
    DigitsAppend([a], b);
    assert Pad2(n) == [a] + [b];
  }

  lemma Pad4Value(n: nat)
    requires n < 10000
    ensures DigitsValue(Pad4(n)) == n
  {
    var hi, lo := Pad2(n / 100), Pad2(n % 100);
    Pad2Value(n / 100);
    Pad2Value(n % 100);
    DigitsAppend(hi, lo[0]);
    assert hi + [lo[0]] + [lo[1]] == Pad4(n);
    DigitsAppend(hi + [lo[0]], lo[1]);
    assert lo == [lo[0]] + [lo[1]];
    DigitsAppend([], lo[0]);
    assert [] + [lo[0]] == [lo[0]];
    DigitsAppend([lo[0]], lo[1]);
  }

  /** The year as `%04d` renders it. */
  function YearText(y: int): string {
    if 0 <= y < 10000 then Pad4(y) else IntStr(y)
  }

  /** `d.isoformat()` and `d.strftime("%Y-%m-%d")` (the two agree for four-digit years). */
  function IsoText(d: Date): string {
    YearText(d.year) + "-" + Pad2(d.month) + "-" + Pad2(d.day)
  }

  /** `d.strftime("%d/%m/%Y")`. */
  function DmyText(d: Date): string {
    Pad2(d.day) + "/" + Pad2(d.month) + "/" + YearText(d.year)
  }

  /** Splitting `a c b c e` on `c`, where no part contains `c`, gives the three parts. */
  lemma SplitThree(a: string, c: char, b: string, e: string)
    requires c !in a && c !in b && c !in e
    ensures Split(a + [c] + b + [c] + e, c) == [a, b, e]
  {
    var s := a + [c] + b + [c] + e;
    assert s == a + [c] + (b + [c] + e);
    IndexOfAfter(a, c, b + [c] + e);
    assert s[..|a|] == a;
    assert s[|a| + 1..] == b + [c] + e;
    SplitTwo(b, c, e);
  }

  lemma DigitsHaveNoSeparator(s: string, c: char)
    requires forall i :: 0 <= i < |s| ==> '0' <= s[i] <= '9'
    requires !('0' <= c <= '9')
    ensures c !in s
  {
  }

  /** Writing a date as `%Y-%m-%d` and parsing it back with the same format gives the date. */
  lemma IsoRoundTrip(d: Date)
    requires 1 <= d.year <= 9999
    ensures Strptime(IsoText(d), YearMonthDayDash) == Some(d)
  {
    var ys, ms, ds := Pad4(d.year), Pad2(d.month), Pad2(d.day);
    DigitsHaveNoSeparator(ys, '-');
    DigitsHaveNoSeparator(ms, '-');
    DigitsHaveNoSeparator(ds, '-');
    assert IsoText(d) == ys + ['-'] + ms + ['-'] + ds;
    SplitThree(ys, '-', ms, ds);
    Pad4Value(d.year);
    Pad2Value(d.month);
    Pad2Value(d.day);
  }

  /** Text without the format's separator never parses. */
  lemma NoSeparatorFails(s: string, f: Format)
    requires Separator(f) !in s
    ensures Strptime(s, f).None?
  {
    assert Split(s, Separator(f)) == [s];
  }

  /** The ISO text of a four-digit-year date has no `/`, and digits at both ends. */
  lemma IsoTextShape(d: Date)
    requires 1 <= d.year <= 9999
    ensures '/' !in IsoText(d)
    ensures |IsoText(d)| == 10 && '0' <= IsoText(d)[0] <= '9' && '0' <= IsoText(d)[9] <= '9'
  {
    var ys, ms, ds := Pad4(d.year), Pad2(d.month), Pad2(d.day);
    DigitsHaveNoSeparator(ys, '/');
    DigitsHaveNoSeparator(ms, '/');
    DigitsHaveNoSeparator(ds, '/');
    var t := IsoText(d);
    assert t == ys + ['-'] + ms + ['-'] + ds;
    assert t[0] == ys[0] && t[9] == ds[1];
  }

  /** Writing a date as `%d/%m/%Y` and parsing it back with the same format gives the date. */
  lemma DmyRoundTrip(d: Date)
    requires 1 <= d.year <= 9999
    ensures Strptime(DmyText(d), DayMonthYearSlash) == Some(d)
  {
    var ys, ms, ds := Pad4(d.year), Pad2(d.month), Pad2(d.day);
    DigitsHaveNoSeparator(ys, '/');
    DigitsHaveNoSeparator(ms, '/');
    DigitsHaveNoSeparator(ds, '/');
    assert DmyText(d) == ds + ['/'] + ms + ['/'] + ys;
    SplitThree(ds, '/', ms, ys);
    Pad4Value(d.year);
    Pad2Value(d.month);
    Pad2Value(d.day);
  }

  /** The day-first text of a four-digit-year date has no `-`, and digits at both ends. */
  lemma DmyTextShape(d: Date)
    requires 1 <= d.year <= 9999
    ensures '-' !in DmyText(d)
    ensures |DmyText(d)| == 10 && '0' <= DmyText(d)[0] <= '9' && '0' <= DmyText(d)[9] <= '9'
  {
    var ys, ms, ds := Pad4(d.year), Pad2(d.month), Pad2(d.day);
    DigitsHaveNoSeparator(ys, '-');
    DigitsHaveNoSeparator(ms, '-');
    DigitsHaveNoSeparator(ds, '-');
    var t := DmyText(d);
    assert t == ds + ['/'] + ms + ['/'] + ys;
    assert t[0] == ds[0] && t[9] == ys[3];
  }
}
