/** Reporting-period schedules: the annual `generate_rp_schedule` loop of the Schedule 4
    forecasters, the anniversary periods of the Schedule 1 forecaster and the first-of-month
    annual periods of the Coalara calculator. */
module Schedules {
  import opened Wrappers
  import opened Dates
  import opened DateText

  /** `d + relativedelta(years=1)` applied `k` times, one year at a time (so a 29 February
      clamped to the 28th stays on the 28th). */
  function IterYears(d: Date, k: nat): Date
    decreases k
  {
    if k == 0 then d else IterYears(AddYears(d, 1), k - 1)
  }

  /** `k` yearly steps move the year by `k`, keep the month and never raise the day. */
  lemma {:induction false} IterYearsFields(d: Date, k: nat)
    ensures IterYears(d, k).year == d.year + k
    ensures IterYears(d, k).month == d.month
    ensures IterYears(d, k).day <= d.day
    decreases k
  {
    if k > 0 {
      IterYearsFields(AddYears(d, 1), k - 1);
    }
  }

  /** One more yearly step is one more `AddYears(_, 1)` at the end. */
  lemma {:induction false} IterYearsSucc(d: Date, k: nat)
    ensures IterYears(d, k + 1) == AddYears(IterYears(d, k), 1)
    decreases k
  {
    if k > 0 {
      IterYearsSucc(AddYears(d, 1), k - 1);
    }
  }

  /** The periods `generate_rp_schedule(s, e, last)` returns: while the period end is not
      after `last`, emit `(start, end)` and move both one year on. */
  function RpSchedule(s: Date, e: Date, last: Date): seq<(Date, Date)>
    decreases last.year - e.year + 1
  {
    if NotAfter(e, last) then [(s, e)] + RpSchedule(AddYears(s, 1), AddYears(e, 1), last) else []
  }

  /** `generate_rp_schedule`, as the source's `while` loop appending to the schedule. */
  method GenerateRpSchedule(firstStart: Date, firstEnd: Date, lastEnd: Date) returns (sched: seq<(Date, Date)>)
    ensures sched == RpSchedule(firstStart, firstEnd, lastEnd)
  {
    sched := [];
    var rpStart, rpEnd := firstStart, firstEnd;
    while NotAfter(rpEnd, lastEnd)
      invariant sched + RpSchedule(rpStart, rpEnd, lastEnd) == RpSchedule(firstStart, firstEnd, lastEnd)
      decreases lastEnd.year - rpEnd.year + 1
    {
      assert RpSchedule(rpStart, rpEnd, lastEnd)
        == [(rpStart, rpEnd)] + RpSchedule(AddYears(rpStart, 1), AddYears(rpEnd, 1), lastEnd);
      sched := sched + [(rpStart, rpEnd)];
      rpStart := AddYears(rpStart, 1);
      rpEnd := AddYears(rpEnd, 1);
    }
  }

  /** Entry `i` is the first period moved on `i` years. */
  lemma {:induction false} RpScheduleShape(s: Date, e: Date, last: Date)
    ensures forall i :: 0 <= i < |RpSchedule(s, e, last)| ==>
      RpSchedule(s, e, last)[i] == (IterYears(s, i), IterYears(e, i))
    decreases last.year - e.year + 1
  {
    if NotAfter(e, last) {
      var rest := RpSchedule(AddYears(s, 1), AddYears(e, 1), last);
      RpScheduleShape(AddYears(s, 1), AddYears(e, 1), last);
      forall i | 0 <= i < |RpSchedule(s, e, last)|
        ensures RpSchedule(s, e, last)[i] == (IterYears(s, i), IterYears(e, i))
      {
        if i > 0 {
          assert RpSchedule(s, e, last)[i] == rest[i - 1];
        }
      }
    }
  }

  /** Every period ends on or before `last`. */
  lemma {:induction false} RpScheduleWithinEnd(s: Date, e: Date, last: Date)
    ensures forall i :: 0 <= i < |RpSchedule(s, e, last)| ==> NotAfter(RpSchedule(s, e, last)[i].1, last)
    decreases last.year - e.year + 1
  {
    if NotAfter(e, last) {
      var rest := RpSchedule(AddYears(s, 1), AddYears(e, 1), last);
      RpScheduleWithinEnd(AddYears(s, 1), AddYears(e, 1), last);
      assert forall i :: 1 <= i < |RpSchedule(s, e, last)| ==> RpSchedule(s, e, last)[i] == rest[i - 1];
    }
  }

  /** Consecutive periods move both bounds on by exactly one year. */
  lemma RpScheduleSteps(s: Date, e: Date, last: Date)
    ensures forall i :: 0 <= i < |RpSchedule(s, e, last)| - 1 ==>
      RpSchedule(s, e, last)[i + 1] == (AddYears(RpSchedule(s, e, last)[i].0, 1), AddYears(RpSchedule(s, e, last)[i].1, 1))
  {
    var sched := RpSchedule(s, e, last);
    RpScheduleShape(s, e, last);
    forall i | 0 <= i < |sched| - 1
      ensures sched[i + 1] == (AddYears(sched[i].0, 1), AddYears(sched[i].1, 1))
    {
      IterYearsSucc(s, i);
      IterYearsSucc(e, i);
    }
  }

  /** The schedule starts with the first period, and it is empty exactly when the first
      period already ends after `last`. */
  lemma RpScheduleFirst(s: Date, e: Date, last: Date)
    ensures RpSchedule(s, e, last) == [] <==> Before(last, e)
    ensures RpSchedule(s, e, last) != [] ==> RpSchedule(s, e, last)[0] == (s, e)
  {
  }

  /** The schedule stops at the last period that fits: one more year would end after `last`. */
  lemma {:induction false} RpScheduleMaximal(s: Date, e: Date, last: Date)
    requires RpSchedule(s, e, last) != []
    ensures Before(last, AddYears(RpSchedule(s, e, last)[|RpSchedule(s, e, last)| - 1].1, 1))
    decreases last.year - e.year + 1
  {
    var rest := RpSchedule(AddYears(s, 1), AddYears(e, 1), last);
    if rest != [] {
      RpScheduleMaximal(AddYears(s, 1), AddYears(e, 1), last);
    }
  }

  /** Month and day of `a` fall on or before those of `b` within a year. */
  predicate MonthDayNotAfter(a: Date, b: Date) {
    a.month < b.month || (a.month == b.month && a.day <= b.day)
  }

  /** When the first end is not a 29 February (so yearly steps never clamp it), the schedule
      has one period per year from the first end's year to `last`'s, the last year counting
      only when its anniversary is on or before `last`. */
  lemma {:induction false} RpScheduleLength(s: Date, e: Date, last: Date)
    requires e.month != 2 || e.day <= 28
    ensures |RpSchedule(s, e, last)| ==
      var n := last.year - e.year + (if MonthDayNotAfter(e, last) then 1 else 0);
      if n > 0 then n else 0
    decreases last.year - e.year + 1
  {
    if NotAfter(e, last) {
      var e1 := AddYears(e, 1);
      assert e1 == RawDate(e.year + 1, e.month, e.day);
      RpScheduleLength(AddYears(s, 1), e1, last);
    }
  }

  /** The Schedule 4 forecasters' constants (first period 31 October 2025 to 30 June 2026, the
      last ending by 30 June 2046) give 21 reporting periods. */
  lemma Schedule4PeriodCount()
    ensures |RpSchedule(RawDate(2025, 10, 31), RawDate(2026, 6, 30), RawDate(2046, 6, 30))| == 21
  {
    RpScheduleLength(RawDate(2025, 10, 31), RawDate(2026, 6, 30), RawDate(2046, 6, 30));
  }

  /** Anniversary period `i` from `projectStart`: it starts `i` years on and ends the day
      before the next anniversary. */
  function AnniversaryPeriod(projectStart: Date, i: nat): (Date, Date) {
    (IterYears(projectStart, i), AddDays(AddYears(IterYears(projectStart, i), 1), -1))
  }

  /** `build_anniversary_periods(project_start, years)`: a `for _ in range(years)` loop that
      appends the period ending one year less a day after `rp_start`, then advances `rp_start`
      by one year. */
  method BuildAnniversaryPeriods(projectStart: Date, years: int) returns (periods: seq<(Date, Date)>)
    ensures |periods| == if years > 0 then years else 0
    ensures forall i :: 0 <= i < |periods| ==> periods[i] == AnniversaryPeriod(projectStart, i)
  {
    periods := [];
    var rpStart := projectStart;
    var k := 0;
    while k < years
      invariant 0 <= k && (k <= years || k == 0)
      invariant |periods| == k
      invariant rpStart == IterYears(projectStart, k)
      invariant forall i :: 0 <= i < k ==> periods[i] == AnniversaryPeriod(projectStart, i)
    {
      var rpEnd := AddDays(AddYears(rpStart, 1), -1);
      periods := periods + [(rpStart, rpEnd)];
      IterYearsSucc(projectStart, k);
      rpStart := AddYears(rpStart, 1);
      k := k + 1;
    }
  }

  /** Anniversary periods are contiguous and do not overlap: each starts on or before its
      end, the first starts at the project start, and the day after each end is the next
      period's start. */
  lemma AnniversaryContiguous(projectStart: Date, i: nat)
    ensures AnniversaryPeriod(projectStart, 0).0 == projectStart
    ensures NotAfter(AnniversaryPeriod(projectStart, i).0, AnniversaryPeriod(projectStart, i).1)
    ensures AddDays(AnniversaryPeriod(projectStart, i).1, 1) == AnniversaryPeriod(projectStart, i + 1).0
  {
    var st := IterYears(projectStart, i);
    var next := AddYears(st, 1);
    IterYearsSucc(projectStart, i);
    AddDaysInverse(next, -1);
    LaterYearBefore(st, next);
    AddDaysOrdinal(next, -1);
    BeforeOrdinal(st, AddDays(next, -1));
  }

  /** Start of the `i`-th Coalara period: `current.replace(day=1)` after `i` yearly steps. */
  function CoalaraStart(projectStart: Date, i: nat): Date {
    FirstOfMonth(IterYears(projectStart, i))
  }

  /** End of the `i`-th Coalara period: one year after its start, less one day. */
  function CoalaraEnd(projectStart: Date, i: nat): Date {
    AddDays(AddYears(CoalaraStart(projectStart, i), 1), -1)
  }

  /** Coalara period `i` as a pair of dates. */
  function CoalaraPeriodOf(projectStart: Date): nat -> (Date, Date) {
    (i: nat) => (CoalaraStart(projectStart, i), CoalaraEnd(projectStart, i))
  }

  /** `xs` is `[f(0), ..., f(k - 1)]`, stated entry by entry. */
  predicate Tabulates<T(==)>(xs: seq<T>, f: nat -> T, k: nat) {
    |xs| == k && forall j :: 0 <= j < k ==> xs[j] == f(j)
  }

  lemma TabulatesSnoc<T>(xs: seq<T>, f: nat -> T, k: nat, x: T)
    requires Tabulates(xs, f, k) && x == f(k)
    ensures Tabulates(xs + [x], f, k + 1)
  {
  }

  /** `ys` is `xs` with `g` applied to every entry. */
  predicate Image<A, B(==)>(xs: seq<A>, ys: seq<B>, g: A -> B) {
    |ys| == |xs| && forall j :: 0 <= j < |xs| ==> ys[j] == g(xs[j])
  }

  lemma ImageSnoc<A, B>(xs: seq<A>, ys: seq<B>, g: A -> B, x: A, y: B)
    requires Image(xs, ys, g) && y == g(x)
    ensures Image(xs + [x], ys + [y], g)
  {
  }

  /** A period stored as a pair of `%Y-%m-%d` strings. */
  function IsoPair(period: (Date, Date)): (string, string) {
    (IsoText(period.0), IsoText(period.1))
  }

  /** One pass of the `date_pairs` loop: the period starting on the first of `current`'s
      month, as text, and the anchor one year on. */
  method CoalaraPairStep(projectStart: Date, k: nat, current: Date)
    returns (pair: (string, string), next: Date, ghost period: (Date, Date))
    requires current == IterYears(projectStart, k)
    ensures period == CoalaraPeriodOf(projectStart)(k)
    ensures pair == IsoPair(period)
    ensures next == IterYears(projectStart, k + 1)
  {
    var start := FirstOfMonth(current);
    var end := AddDays(AddYears(start, 1), -1);
    pair := (IsoText(start), IsoText(end));
    period := (start, end);
    next := AddYears(current, 1);
    IterYearsSucc(projectStart, k);
  }

  /** The `date_pairs` loop of the Coalara calculator: `numYears` periods, each stored as a
      pair of `%Y-%m-%d` strings. */
  method CoalaraDatePairs(projectStart: Date, numYears: int) returns (pairs: seq<(string, string)>)
    ensures |pairs| == if numYears > 0 then numYears else 0
    ensures forall i :: 0 <= i < |pairs| ==>
      pairs[i] == (IsoText(CoalaraStart(projectStart, i)), IsoText(CoalaraEnd(projectStart, i)))
  {
    var n := if numYears > 0 then numYears else 0;
    pairs := [];
    ghost var periods: seq<(Date, Date)> := [];
    var current := projectStart;
    for k := 0 to n
      invariant current == IterYears(projectStart, k)
      invariant Tabulates(periods, CoalaraPeriodOf(projectStart), k)
      invariant Image(periods, pairs, IsoPair)
    {
      var pair;
      ghost var period;
      pair, current, period := CoalaraPairStep(projectStart, k, current);
      TabulatesSnoc(periods, CoalaraPeriodOf(projectStart), k, period);
      ImageSnoc(periods, pairs, IsoPair, period, pair);
      periods := periods + [period];
      pairs := pairs + [pair];
    }
    CoalaraPairsIndex(projectStart, n, periods, pairs);
  }

  /** Pairs stored for the first `n` periods, read by index. */
  lemma CoalaraPairsIndex(projectStart: Date, n: nat, periods: seq<(Date, Date)>, pairs: seq<(string, string)>)
    requires Tabulates(periods, CoalaraPeriodOf(projectStart), n)
    requires Image(periods, pairs, IsoPair)
    ensures |pairs| == n
    ensures forall i :: 0 <= i < |pairs| ==>
      pairs[i] == (IsoText(CoalaraStart(projectStart, i)), IsoText(CoalaraEnd(projectStart, i)))
  {
    forall i | 0 <= i < |pairs|
      ensures pairs[i] == (IsoText(CoalaraStart(projectStart, i)), IsoText(CoalaraEnd(projectStart, i)))
    {
      assert periods[i] == CoalaraPeriodOf(projectStart)(i);
      assert pairs[i] == IsoPair(periods[i]);
    }
  }

  /** Coalara period `i` starts on the first of the anchor's month `i` years on, and the day
      after its end is the next period's start. */
  lemma CoalaraContiguous(projectStart: Date, i: nat)
    ensures CoalaraStart(projectStart, i) == RawDate(projectStart.year + i, projectStart.month, 1)
    ensures NotAfter(CoalaraStart(projectStart, i), CoalaraEnd(projectStart, i))
    ensures AddDays(CoalaraEnd(projectStart, i), 1) == CoalaraStart(projectStart, i + 1)
  {
    IterYearsFields(projectStart, i);
    IterYearsFields(projectStart, i + 1);
    var st := CoalaraStart(projectStart, i);
    var next := AddYears(st, 1);
    assert next == CoalaraStart(projectStart, i + 1);
    AddDaysInverse(next, -1);
    LaterYearBefore(st, next);
    AddDaysOrdinal(next, -1);
    BeforeOrdinal(st, AddDays(next, -1));
  }

  /** The stored strings parse back (`strptime(..., "%Y-%m-%d")`) to the period's dates
      whenever its years have four digits. */
  lemma CoalaraPairsParse(projectStart: Date, i: nat)
    requires 1 <= CoalaraStart(projectStart, i).year && CoalaraEnd(projectStart, i).year <= 9999
    ensures Strptime(IsoText(CoalaraStart(projectStart, i)), YearMonthDayDash) == Some(CoalaraStart(projectStart, i))
    ensures Strptime(IsoText(CoalaraEnd(projectStart, i)), YearMonthDayDash) == Some(CoalaraEnd(projectStart, i))
  {
    CoalaraContiguous(projectStart, i);
    BeforeOrdinal(CoalaraEnd(projectStart, i), CoalaraStart(projectStart, i));
    IsoRoundTrip(CoalaraStart(projectStart, i));
    IsoRoundTrip(CoalaraEnd(projectStart, i));
  }
}
